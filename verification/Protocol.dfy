/** The session and execution protocol: request threads, a purge thread and a clock that only moves forward
    (implementations/request_handler_impl.py, implementations/keypair_manager_impl.py, server/server.py:39-57).
    Each access to the session dictionary under its lock is one step; everything a thread does on its own between two
    such accesses is folded into the step that follows. The log records what happened and is read by no step except
    through the positions a thread remembers of its own entries. */
module Protocol {
  import opened Basics
  import opened SessionStore
  import Decrypt
  import Proof
  import Binding
  import OutputFiles
  import Json
  import Utf8
  import Hex

  /** What the outside world supplies once: hash, cryptography, session lifetime. */
  datatype Env = Env(h: Hash, crypto: Decrypt.Crypto, ttl: real)

  /** A parsed request; a missing field is None. `Harmless` stands for the operations without sessions or attestation
      and for requests that do not parse or name no known operation, and tells whether the response is a success. */
  datatype Request =
    | Generate(jobId: Option<Text>, keySize: nat)
    | Proxy(jobId: Option<Text>, keySize: nat)
    | Attestation(sessionId: Option<Text>, hasUserData: bool)
    | Execute(sessionId: Option<Text>, data: Option<Text>, csv: Option<Text>, atlNonce: Option<Text>,
              contextHash: Option<Text>)
    | Harmless(ok: bool)

  /** `validate_request` finds nothing missing or forbidden. */
  predicate WellFormed(r: Request) {
    match r
    case Generate(jobId, _) => jobId.Some?
    case Proxy(jobId, _) => jobId.Some?
    case Attestation(sid, hasUserData) => sid.Some? && !hasUserData
    case Execute(sid, data, _, _, _) => sid.Some? && data.Some?
    case Harmless(_) => true
  }

  /** What `execute_bundle` returns. */
  datatype Outcome = RunFailed | RunOk(output: Text, files: seq<OutputFiles.OutFile>)

  /** Positions are indices of the thread's own log entries. */
  datatype Pc =
    | Start
    | Drawn(sid: Text, session: Session)
    | Inserted(sid: Text)
    | KeyShown(pubAt: nat)
    | ZipKeyed(zipAt: nat)
    | ZipOpen(zipAt: nat, zip: Bytes)
    | CsvKeyed(zipAt: nat, zip: Bytes, keyAt: nat)
    | Ready(zipAt: nat, zip: Bytes, csvAt: Option<nat>, csv: Option<Bytes>)
    | Ran(runAt: nat)
    | Cleaned(runAt: nat)
    | Done(ok: bool)

  datatype Thread = Thread(request: Request, pc: Pc)

  datatype Event =
    | Arrived(t: nat)
    | Created(t: nat, sid: Text, session: Session)
    | Dropped(sids: set<Text>)
    | Deleted(t: nat, sid: Text, runAt: nat)
    | PrivateFetched(t: nat, sid: Text, privateKey: Bytes, at: real)
    | PublicFetched(t: nat, sid: Text, publicKey: Text, at: real)
    | Executed(t: nat, request: Request, zipAt: nat, zip: Bytes, csvAt: Option<nat>, csv: Option<Bytes>,
               outcome: Outcome)
    | Attested(t: nat, request: Request, userData: Bytes, from: nat, stamp: int, urandom: Bytes)
    | Finished(t: nat, ok: bool)

  datatype State = State(clock: real, store: Store, threads: map<nat, Thread>, purge: Option<real>, log: seq<Event>)

  const INIT := State(0.0, map[], map[], None, [])

  /** What a step draws from outside: a key pair and id, the result of a run, random bytes, the device's verdict. */
  datatype Choice = Choice(
    idBytes: Bytes, privateKey: Bytes, publicKey: Text, outcome: Outcome, urandom: Bytes, attestOk: bool)

  datatype Step =
    | Tick(delta: real)
    | PurgeRead
    | PurgeApply
    | Arrive(t: nat, request: Request)
    | Go(t: nat, choice: Choice)

  /** `f"rsa-session-{uuid.uuid4().hex[:8]}"` for the first four random bytes. */
  function SessionId(idBytes: Bytes): Bytes { A("rsa-session-") + Hex.Encode(idBytes) }

  ghost predicate Enabled(env: Env, s: State, step: Step) {
    match step
    case Tick(delta) => delta >= 0.0
    case PurgeRead => s.purge.None?
    case PurgeApply => s.purge.Some?
    case Arrive(t, _) => t !in s.threads
    case Go(t, c) =>
      && t in s.threads && !s.threads[t].pc.Done? && |c.idBytes| == 4
      && (c.outcome.RunOk? ==> Binding.IsCollected(env.h, c.outcome.files))
  }

  // ---- one thread ----

  function Move(s: State, t: nat, events: seq<Event>, pc: Pc): State
    requires t in s.threads
  {
    s.(threads := s.threads[t := Thread(s.threads[t].request, pc)], log := s.log + events)
  }

  function Finish(s: State, t: nat, events: seq<Event>, ok: bool): State
    requires t in s.threads
  {
    Move(s, t, events + [Finished(t, ok)], Done(ok))
  }

  /** A lookup under the lock: the session if it is live; an expired one is dropped and the drop is logged. */
  function Fetch(s: State, sid: Text): State {
    var store := Lookup(s.store, sid, s.clock).0;
    if sid in s.store && sid !in store then s.(store := store, log := s.log + [Dropped({sid})]) else s
  }

  function Found(s: State, sid: Text): Option<Session> { Lookup(s.store, sid, s.clock).1 }

  function FetchPublic(s: State, t: nat, sid: Text, missing: bool): State
    requires t in s.threads
  {
    var s1 := Fetch(s, sid);
    match Found(s, sid)
    case None => Finish(s1, t, [], missing)
    case Some(session) => Move(s1, t, [PublicFetched(t, sid, session.publicKey, s.clock)], KeyShown(|s1.log|))
  }

  /** The first fetch of an execution is for the ZIP; the second, with the opened ZIP at hand, for the CSV. */
  function FetchPrivate(s: State, t: nat, sid: Text, atHand: Option<(nat, Bytes)>): State
    requires t in s.threads
  {
    var s1 := Fetch(s, sid);
    match Found(s, sid)
    case None => Finish(s1, t, [], false)
    case Some(session) => Move(s1, t, [PrivateFetched(t, sid, session.privateKey, s.clock)],
                               if atHand.None? then ZipKeyed(|s1.log|)
                               else CsvKeyed(atHand.value.0, atHand.value.1, |s1.log|))
  }

  /** `json.dumps({'public_key': ..., 'session_id': ...})` */
  function SessionJson(publicKey: Text, sid: Text): Bytes {
    var record := Json.Obj([Keyed(A("public_key"), Json.Str(publicKey)), Keyed(A("session_id"), Json.Str(sid))]);
    Json.Dumps(record, Json.Spaced)
  }

  /** The user data for a session key: its hash for the proxy, the JSON record otherwise; None if it is empty or cannot
      be encoded. */
  function KeyUserData(env: Env, request: Request, publicKey: Text, sid: Text): Option<Bytes> {
    if publicKey == [] then None
    else if request.Proxy? then
      match Utf8.Encode(publicKey) case None => None case Some(b) => Some(env.h(b))
    else Some(SessionJson(publicKey, sid))
  }

  /** `bytes.fromhex(atl_nonce) if atl_nonce else None`; the outer None is its ValueError. */
  function ExternalNonce(request: Request): Option<Option<Bytes>>
    requires request.Execute?
  {
    if Proof.Given(request.atlNonce) then
      match Hex.FromHex(request.atlNonce.value) case None => None case Some(b) => Some(Some(b))
    else Some(None)
  }

  function RunExecution(env: Env, run: Event): Option<Proof.Execution>
    requires run.Executed? && run.request.Execute? && run.request.sessionId.Some? && run.outcome.RunOk?
  {
    match ExternalNonce(run.request)
    case None => None
    case Some(nonce) =>
      Some(Binding.AttestedExecution(env.h, run.request.sessionId.value, run.outcome.output, run.outcome.files,
                                     run.zip, run.csv, nonce, run.request.contextHash))
  }

  function AttestRun(env: Env, s: State, t: nat, runAt: nat, c: Choice): State
    requires t in s.threads && runAt < |s.log| && s.log[runAt].Executed?
  {
    var run := s.log[runAt];
    if !(run.request.Execute? && run.request.sessionId.Some? && run.outcome.RunOk?) then Finish(s, t, [], false)
    else match RunExecution(env, run)
      case None => Finish(s, t, [], false)
      case Some(x) =>
        match Proof.ProofOf(env.h, x, s.clock.Floor, c.urandom)
        case None => Finish(s, t, [], true)
        case Some(p) =>
          Finish(s, t, [Attested(t, run.request, Proof.ProofBytes(p), runAt, s.clock.Floor, c.urandom)], true)
  }

  function Begin(env: Env, s: State, t: nat, c: Choice): State
    requires t in s.threads
  {
    var r := s.threads[t].request;
    if !WellFormed(r) then Finish(s, t, [], false)
    else match r
      case Generate(jobId, keySize) => Draw(env, s, t, jobId.value, keySize, c)
      case Proxy(jobId, keySize) => Draw(env, s, t, jobId.value, keySize, c)
      case Attestation(sid, _) => FetchPublic(s, t, sid.value, false)
      case Execute(sid, _, _, _, _) => FetchPrivate(s, t, sid.value, None)
      case Harmless(ok) => Finish(s, t, [], ok)
  }

  /** Key material and id are drawn and the creation time read before the lock is taken. */
  function Draw(env: Env, s: State, t: nat, jobId: Text, keySize: nat, c: Choice): State
    requires t in s.threads
  {
    if keySize !in ALLOWED_KEY_SIZES then Finish(s, t, [], false)
    else Move(s, t, [], Drawn(SessionId(c.idBytes), Session(jobId, c.privateKey, c.publicKey, s.clock, env.ttl)))
  }

  function OpenZip(env: Env, s: State, t: nat, zipAt: nat): State
    requires t in s.threads && zipAt < |s.log| && s.log[zipAt].PrivateFetched?
  {
    var r := s.threads[t].request;
    if !(r.Execute? && r.data.Some?) then Finish(s, t, [], false)
    else match Decrypt.DecryptCombined(env.crypto, s.log[zipAt].privateKey, r.data.value)
      case None => Finish(s, t, [], false)
      case Some(zip) =>
        if Proof.Given(r.csv) then Move(s, t, [], ZipOpen(zipAt, zip))
        else Move(s, t, [], Ready(zipAt, zip, None, None))
  }

  function OpenCsv(env: Env, s: State, t: nat, zipAt: nat, zip: Bytes, csvAt: nat): State
    requires t in s.threads && csvAt < |s.log| && s.log[csvAt].PrivateFetched?
  {
    var r := s.threads[t].request;
    if !(r.Execute? && r.csv.Some?) then Finish(s, t, [], false)
    else match Decrypt.DecryptCombined(env.crypto, s.log[csvAt].privateKey, r.csv.value)
      case None => Finish(s, t, [], false)
      case Some(csv) => Move(s, t, [], Ready(zipAt, zip, Some(csvAt), Some(csv)))
  }

  function SidOf(r: Request): Text {
    match r
    case Attestation(sid, _) => if sid.Some? then sid.value else []
    case Execute(sid, _, _, _, _) => if sid.Some? then sid.value else []
    case _ => []
  }

  /** What a thread remembers points at its own entries; kept by every step. */
  ghost predicate PcOk(log: seq<Event>, t: nat, th: Thread) {
    var r := th.request;
    match th.pc
    case Start => true
    case Drawn(_, _) => (r.Generate? || r.Proxy?) && WellFormed(r)
    case Inserted(_) => (r.Generate? || r.Proxy?) && WellFormed(r)
    case KeyShown(p) => WellFormed(r) && (r.Generate? || r.Proxy? || r.Attestation?) && PublicAt(log, t, p)
                        && (r.Attestation? ==> log[p].sid == SidOf(r))
    case ZipKeyed(z) => r.Execute? && WellFormed(r) && PrivateAt(log, t, SidOf(r), z)
    case ZipOpen(z, _) => r.Execute? && WellFormed(r) && PrivateAt(log, t, SidOf(r), z) && Proof.Given(r.csv)
    case CsvKeyed(z, _, c) => r.Execute? && WellFormed(r) && PrivateAt(log, t, SidOf(r), z) && Proof.Given(r.csv)
                              && PrivateAt(log, t, SidOf(r), c) && z < c
    case Ready(z, _, c, csv) => r.Execute? && WellFormed(r) && PrivateAt(log, t, SidOf(r), z)
                                && (c.Some? ==> PrivateAt(log, t, SidOf(r), c.value) && z < c.value)
                                && (c.Some? <==> csv.Some?)
    case Ran(i) => r.Execute? && WellFormed(r) && RunAt(log, t, r, i)
    case Cleaned(i) => r.Execute? && WellFormed(r) && RunAt(log, t, r, i) && log[i].outcome.RunOk?
    case Done(_) => true
  }

  predicate PublicAt(log: seq<Event>, t: nat, i: nat) { i < |log| && log[i].PublicFetched? && log[i].t == t }
  predicate PrivateAt(log: seq<Event>, t: nat, sid: Text, i: nat) {
    i < |log| && log[i].PrivateFetched? && log[i].t == t && log[i].sid == sid
  }
  predicate RunAt(log: seq<Event>, t: nat, r: Request, i: nat) {
    i < |log| && log[i].Executed? && log[i].t == t && log[i].request == r
  }

  ghost function Advance(env: Env, s: State, t: nat, c: Choice): State
    requires t in s.threads && PcOk(s.log, t, s.threads[t])
  {
    var r := s.threads[t].request;
    match s.threads[t].pc
    case Start => Begin(env, s, t, c)
    case Drawn(sid, session) => Move(s.(store := s.store[sid := session]), t, [Created(t, sid, session)], Inserted(sid))
    case Inserted(sid) => FetchPublic(s, t, sid, r.Generate?)
    case KeyShown(p) =>
      if r.Generate? then Finish(s, t, [], true)
      else (match KeyUserData(env, r, s.log[p].publicKey, s.log[p].sid)
            case None => Finish(s, t, [], false)
            case Some(ud) => Finish(s, t, [Attested(t, r, ud, p, 0, [])], r.Proxy? || c.attestOk))
    case ZipKeyed(z) => OpenZip(env, s, t, z)
    case ZipOpen(z, zip) => FetchPrivate(s, t, SidOf(r), Some((z, zip)))
    case CsvKeyed(z, zip, i) => OpenCsv(env, s, t, z, zip, i)
    case Ready(z, zip, i, csv) => Move(s, t, [Executed(t, r, z, zip, i, csv, c.outcome)], Ran(|s.log|))
    case Ran(i) =>
      var s1 := s.(store := s.store - {SidOf(r)});
      if s.log[i].outcome.RunOk? then Move(s1, t, [Deleted(t, SidOf(r), i)], Cleaned(i))
      else Finish(s1, t, [Deleted(t, SidOf(r), i)], false)
    case Cleaned(i) => AttestRun(env, s, t, i, c)
    case Done(_) => s
  }

  // ---- the whole system ----

  ghost predicate ThreadsOk(s: State) { forall t :: t in s.threads ==> PcOk(s.log, t, s.threads[t]) }

  ghost function Next(env: Env, s: State, step: Step): State
    requires ThreadsOk(s) && Enabled(env, s, step)
  {
    match step
    case Tick(delta) => s.(clock := s.clock + delta)
    case PurgeRead => s.(purge := Some(s.clock))
    case PurgeApply =>
      var gone := Expired(s.store, s.purge.value);
      s.(store := s.store - gone, purge := None, log := s.log + [Dropped(gone)])
    case Arrive(t, r) => s.(threads := s.threads[t := Thread(r, Start)], log := s.log + [Arrived(t)])
    case Go(t, c) => Advance(env, s, t, c)
  }
}
