/** What every step of the protocol keeps. */
module ProtocolInvariant {
  import opened Basics
  import opened SessionStore
  import opened Protocol
  import Decrypt
  import Proof
  import Binding

  // ---- stores told by the log ----

  function Apply(e: Event, store: Store): Store {
    match e
    case Created(_, sid, session) => store[sid := session]
    case Deleted(_, sid, _) => store - {sid}
    case Dropped(sids) => store - sids
    case _ => store
  }

  /** The dictionary as the log tells it. */
  ghost function Physical(log: seq<Event>): Store {
    if log == [] then map[] else Apply(log[|log| - 1], Physical(log[..|log| - 1]))
  }

  /** A simple store that knows creations and explicit deletions and nothing of purges or lazy expiry. */
  ghost function Reference(log: seq<Event>): Store {
    if log == [] then map[]
    else
      var e := log[|log| - 1];
      if e.Dropped? then Reference(log[..|log| - 1]) else Apply(e, Reference(log[..|log| - 1]))
  }

  lemma Appended(log: seq<Event>, e: Event)
    ensures Physical(log + [e]) == Apply(e, Physical(log))
    ensures Reference(log + [e]) == if e.Dropped? then Reference(log) else Apply(e, Reference(log))
  {
    assert (log + [e])[..|log|] == log;
  }

  /** The dictionary holds what the log says, and lacks of the reference store only what has expired. */
  ghost predicate StoreOk(s: State) {
    && s.store == Physical(s.log)
    && (forall sid :: sid in s.store ==> sid in Reference(s.log) && Reference(s.log)[sid] == s.store[sid])
    && (forall sid :: sid in Reference(s.log) ==> sid in s.store || !Live(Reference(s.log)[sid], s.clock))
    && (s.purge.Some? ==> s.purge.value <= s.clock)
  }

  // ---- events ----

  predicate Touches(e: Event) { e.Created? || e.Deleted? || e.Dropped? }

  predicate Late(pc: Pc) { pc.Ran? || pc.Cleaned? || pc.Done? }

  ghost predicate HasFinished(log: seq<Event>, t: nat) {
    exists f :: 0 <= f < |log| && log[f].Finished? && log[f].t == t
  }

  ghost predicate HasRun(log: seq<Event>, t: nat) { exists x :: 0 <= x < |log| && log[x].Executed? && log[x].t == t }

  ghost predicate CleanedAfter(log: seq<Event>, x: nat)
    requires x < |log| && log[x].Executed?
  {
    exists d :: x < d < |log| && log[d] == Deleted(log[x].t, SidOf(log[x].request), x)
  }

  ghost predicate IsSessionId(sid: Text) { exists b: Bytes :: |b| == 4 && sid == SessionId(b) }

  ghost predicate Active(log: seq<Event>, t: nat) { Arrived(t) in log && !HasFinished(log, t) }

  /** An execution decrypted both payloads with keys its own thread had fetched for its session. */
  ghost predicate Grounded(env: Env, log: seq<Event>, t: nat, r: Request, zipAt: nat, zip: Bytes, csvAt: Option<nat>,
                           csv: Option<Bytes>) {
    && r.Execute? && WellFormed(r) && PrivateAt(log, t, SidOf(r), zipAt)
    && Decrypt.DecryptCombined(env.crypto, log[zipAt].privateKey, r.data.value) == Some(zip)
    && (csvAt.Some? <==> Proof.Given(r.csv))
    && (csvAt.Some? ==> zipAt < csvAt.value && PrivateAt(log, t, SidOf(r), csvAt.value)
                        && Decrypt.DecryptCombined(env.crypto, log[csvAt.value].privateKey, r.csv.value) == csv)
    && (csvAt.Some? <==> csv.Some?)
  }

  /** The thread itself created a session under this id. */
  ghost predicate Drew(log: seq<Event>, t: nat, sid: Text) {
    exists c :: 0 <= c < |log| && log[c].Created? && log[c].t == t && log[c].sid == sid
  }

  /** User data comes from a session key this enclave looked up or from a run that succeeded. */
  ghost predicate AttestGrounded(env: Env, log: seq<Event>, e: Event)
    requires e.Attested?
  {
    e.from < |log| &&
    match log[e.from]
    case PublicFetched(t, sid, key, _) =>
      && t == e.t && KeyUserData(env, e.request, key, sid) == Some(e.userData)
      && (e.request.Attestation? ==> sid == SidOf(e.request))
      && (e.request.Proxy? ==> Drew(log, t, sid))
      && (e.request.Attestation? || e.request.Proxy?) && WellFormed(e.request)
    case Executed(t, r, _, _, _, _, outcome) =>
      && t == e.t && r == e.request && WellFormed(r) && r.Execute? && r.sessionId.Some?
      && outcome.RunOk? && RunExecution(env, log[e.from]).Some?
      && var p := Proof.ProofOf(env.h, RunExecution(env, log[e.from]).value, e.stamp, e.urandom);
         p.Some? && e.userData == Proof.ProofBytes(p.value)
    case _ => false
  }

  /** What is true of an event when it is appended to `p`. */
  ghost predicate EventOk(env: Env, p: seq<Event>, e: Event) {
    match e
    case Arrived(t) => Arrived(t) !in p
    case Created(_, sid, _) => IsSessionId(sid)
    case Dropped(sids) => forall sid :: sid in sids ==> sid in Physical(p)
    case Deleted(t, sid, x) => x < |p| && p[x].Executed? && p[x].t == t && SidOf(p[x].request) == sid
    case PrivateFetched(t, sid, key, at) =>
      Active(p, t) && sid in Physical(p) && Physical(p)[sid].privateKey == key && Live(Physical(p)[sid], at)
    case PublicFetched(t, sid, key, at) =>
      Active(p, t) && sid in Physical(p) && Physical(p)[sid].publicKey == key && Live(Physical(p)[sid], at)
    case Executed(t, r, zipAt, zip, csvAt, csv, outcome) =>
      && Active(p, t) && !HasRun(p, t) && Grounded(env, p, t, r, zipAt, zip, csvAt, csv)
      && (outcome.RunOk? ==> Binding.IsCollected(env.h, outcome.files))
    case Attested(_, _, _, _, _, _) => AttestGrounded(env, p, e)
    case Finished(t, _) =>
      && Arrived(t) in p
      && forall x :: 0 <= x < |p| && p[x].Executed? && p[x].t == t ==> CleanedAfter(p, x)
  }

  ghost predicate EventsOk(env: Env, log: seq<Event>) { forall i :: 0 <= i < |log| ==> EventOk(env, log[..i], log[i]) }

  lemma EventsExtend(env: Env, log: seq<Event>, e: Event)
    requires EventsOk(env, log) && EventOk(env, log, e)
    ensures EventsOk(env, log + [e])
  {
    hide EventOk;
    var all := log + [e];
    forall i | 0 <= i < |all| ensures EventOk(env, all[..i], all[i]) {
      if i < |log| {
        assert all[..i] == log[..i];
      } else {
        assert all[..i] == log;
      }
    }
  }

  // ---- threads ----

  /** What is true of a thread beyond its positions. */
  ghost predicate ThreadOk(env: Env, log: seq<Event>, t: nat, th: Thread) {
    && Arrived(t) in log
    && (HasFinished(log, t) ==> th.pc.Done?)
    && (HasRun(log, t) ==> Late(th.pc))
    && (forall x :: 0 <= x < |log| && log[x].Executed? && log[x].t == t ==> th.pc == Ran(x) || CleanedAfter(log, x))
    && Holds(env, log, t, th)
  }

  /** The decrypted data a thread carries came from its own keys. */
  ghost predicate Holds(env: Env, log: seq<Event>, t: nat, th: Thread) {
    var r := th.request;
    match th.pc
    case Drawn(sid, session) => IsSessionId(sid) && DrawnFor(env, r, session)
    case Inserted(sid) => Drew(log, t, sid)
    case KeyShown(p) => r.Attestation? || (PublicAt(log, t, p) && Drew(log, t, log[p].sid))
    case ZipOpen(z, zip) => ZipFrom(env, log, t, r, z, zip)
    case CsvKeyed(z, zip, _) => ZipFrom(env, log, t, r, z, zip)
    case Ready(z, zip, i, csv) => Grounded(env, log, t, r, z, zip, i, csv)
    case _ => true
  }

  /** A session that waits to be stored is what its request asked for. */
  ghost predicate DrawnFor(env: Env, r: Request, session: Session) {
    && (r.Generate? || r.Proxy?) && r.keySize in ALLOWED_KEY_SIZES
    && r.jobId == Some(session.jobId) && session.ttl == env.ttl
  }

  ghost predicate ZipFrom(env: Env, log: seq<Event>, t: nat, r: Request, z: nat, zip: Bytes) {
    && r.Execute? && WellFormed(r) && PrivateAt(log, t, SidOf(r), z)
    && Decrypt.DecryptCombined(env.crypto, log[z].privateKey, r.data.value) == Some(zip)
  }

  ghost predicate Inv(env: Env, s: State) {
    && StoreOk(s)
    && EventsOk(env, s.log)
    && ThreadsOk(s)
    && (forall t :: t in s.threads ==> ThreadOk(env, s.log, t, s.threads[t]))
    && (forall t :: Arrived(t) in s.log ==> t in s.threads)
  }

  function Owner(e: Event): Option<nat> { if e.Dropped? then None else Some(e.t) }

  lemma PcOkExtends(log: seq<Event>, e: Event, t: nat, th: Thread)
    requires PcOk(log, t, th)
    ensures PcOk(log + [e], t, th)
  {
    forall i | 0 <= i < |log| ensures (log + [e])[i] == log[i] {}
  }

  lemma CleanedExtends(log: seq<Event>, e: Event, x: nat)
    requires x < |log| && log[x].Executed? && CleanedAfter(log, x)
    ensures CleanedAfter(log + [e], x)
  {
    var d :| x < d < |log| && log[d] == Deleted(log[x].t, SidOf(log[x].request), x);
    assert (log + [e])[d] == log[d] && (log + [e])[x] == log[x];
  }

  lemma FinishedExtends(log: seq<Event>, e: Event, t: nat)
    ensures HasFinished(log + [e], t) <==> HasFinished(log, t) || (e.Finished? && e.t == t)
    ensures HasRun(log + [e], t) <==> HasRun(log, t) || (e.Executed? && e.t == t)
  {
    var all := log + [e];
    assert all[|log|] == e;
    assert forall i :: 0 <= i < |log| ==> all[i] == log[i];
  }

  /** Events of others leave a thread as it was. */
  lemma ThreadExtends(env: Env, log: seq<Event>, e: Event, t: nat, th: Thread)
    requires ThreadOk(env, log, t, th) && Owner(e) != Some(t)
    ensures ThreadOk(env, log + [e], t, th)
  {
    hide Decrypt.DecryptCombined;
    var all := log + [e];
    assert forall i :: 0 <= i < |log| ==> all[i] == log[i];
    FinishedExtends(log, e, t);
    forall x | 0 <= x < |all| && all[x].Executed? && all[x].t == t ensures th.pc == Ran(x) || CleanedAfter(all, x) {
      assert all[x] == log[x];
      if CleanedAfter(log, x) { CleanedExtends(log, e, x); }
    }
  }

  // ---- the store under each kind of event ----

  lemma StoreKept(s: State, s': State, e: Event)
    requires StoreOk(s) && !Touches(e) && s'.store == s.store && s'.log == s.log + [e] && s'.clock == s.clock
    requires s'.purge == s.purge
    ensures StoreOk(s')
  {
    Appended(s.log, e);
  }

  lemma StoreCreates(s: State, s': State, t: nat, sid: Text, session: Session)
    requires StoreOk(s) && s'.store == s.store[sid := session] && s'.log == s.log + [Created(t, sid, session)]
    requires s'.clock == s.clock && s'.purge == s.purge
    ensures StoreOk(s')
  {
    Appended(s.log, Created(t, sid, session));
  }

  lemma StoreDeletes(s: State, s': State, t: nat, sid: Text, x: nat)
    requires StoreOk(s) && s'.store == s.store - {sid} && s'.log == s.log + [Deleted(t, sid, x)]
    requires s'.clock == s.clock && s'.purge == s.purge
    ensures StoreOk(s')
  {
    Appended(s.log, Deleted(t, sid, x));
  }

  /** Dropping expired sessions, at the clock's reading or an earlier one. */
  lemma StoreDrops(s: State, s': State, sids: set<Text>)
    requires StoreOk(s) && s'.store == s.store - sids && s'.log == s.log + [Dropped(sids)] && s'.clock == s.clock
    requires forall sid :: sid in sids ==> sid in s.store && !Live(s.store[sid], s.clock)
    requires s'.purge == s.purge || s'.purge.None?
    ensures StoreOk(s') && (forall env: Env :: EventOk(env, s.log, Dropped(sids)))
  {
    Appended(s.log, Dropped(sids));
  }
}
