/** Every step of the protocol keeps the invariant. */
module ProtocolSteps {
  import opened Basics
  import opened SessionStore
  import opened Protocol
  import opened ProtocolInvariant
  import Decrypt
  import Proof
  import Binding

  lemma InvInit(env: Env)
    ensures Inv(env, INIT)
  {
  }

  // ---- the moving thread, by kind of event ----

  /** An event that is neither a run, a deletion nor the end. */
  lemma OwnStep(env: Env, log: seq<Event>, e: Event, t: nat, th: Thread, pc: Pc)
    requires ThreadOk(env, log, t, th) && !th.pc.Ran? && !th.pc.Done?
    requires Owner(e) == Some(t) && !e.Finished? && !e.Executed?
    requires (Late(th.pc) ==> Late(pc)) && !pc.Ran? && Holds(env, log + [e], t, Thread(th.request, pc))
    ensures ThreadOk(env, log + [e], t, Thread(th.request, pc))
  {
    hide Holds;
    var all := log + [e];
    FinishedExtends(log, e, t);
    forall x | 0 <= x < |all| && all[x].Executed? && all[x].t == t ensures CleanedAfter(all, x) {
      assert all[x] == log[x];
      CleanedExtends(log, e, x);
    }
  }

  lemma OwnRun(env: Env, log: seq<Event>, e: Event, t: nat, th: Thread)
    requires ThreadOk(env, log, t, th) && !Late(th.pc) && e.Executed? && e.t == t
    ensures ThreadOk(env, log + [e], t, Thread(th.request, Ran(|log|)))
  {
    var all := log + [e];
    FinishedExtends(log, e, t);
    assert forall x :: 0 <= x < |log| ==> all[x] == log[x];
  }

  lemma OwnDelete(env: Env, log: seq<Event>, t: nat, th: Thread, i: nat, pc: Pc)
    requires ThreadOk(env, log, t, th) && th.pc == Ran(i) && RunAt(log, t, th.request, i)
    requires pc.Cleaned? || pc.Done?
    ensures ThreadOk(env, log + [Deleted(t, SidOf(th.request), i)], t, Thread(th.request, pc))
  {
    var e := Deleted(t, SidOf(th.request), i);
    var all := log + [e];
    FinishedExtends(log, e, t);
    forall x | 0 <= x < |all| && all[x].Executed? && all[x].t == t ensures CleanedAfter(all, x) {
      assert all[x] == log[x];
      if x == i {
        assert all[|log|] == e;
      } else {
        CleanedExtends(log, e, x);
      }
    }
  }

  lemma OwnFinish(env: Env, log: seq<Event>, t: nat, th: Thread, ok: bool)
    requires ThreadOk(env, log, t, th) && !th.pc.Ran?
    ensures ThreadOk(env, log + [Finished(t, ok)], t, Thread(th.request, Done(ok)))
    ensures EventOk(env, log, Finished(t, ok))
  {
    var e := Finished(t, ok);
    var all := log + [e];
    FinishedExtends(log, e, t);
    forall x | 0 <= x < |all| && all[x].Executed? && all[x].t == t ensures CleanedAfter(all, x) {
      assert all[x] == log[x];
      CleanedExtends(log, e, x);
    }
  }

  lemma OwnQuiet(env: Env, log: seq<Event>, t: nat, th: Thread, pc: Pc)
    requires ThreadOk(env, log, t, th) && !th.pc.Ran? && !th.pc.Done? && !Late(th.pc)
    requires Holds(env, log, t, Thread(th.request, pc))
    ensures ThreadOk(env, log, t, Thread(th.request, pc))
  {
    hide Holds;
  }

  // ---- the whole state ----

  ghost predicate Moves(s: State, s': State, t: nat, e: Event, pc: Pc) {
    && t in s.threads && Owner(e) == Some(t) && !e.Arrived?
    && s'.threads == s.threads[t := Thread(s.threads[t].request, pc)] && s'.log == s.log + [e]
  }

  /** One event by thread `t`, which now stands at `pc`. */
  lemma InvMoves(env: Env, s: State, s': State, t: nat, e: Event, pc: Pc)
    requires Inv(env, s) && Moves(s, s', t, e, pc) && StoreOk(s') && EventOk(env, s.log, e)
    requires var th' := Thread(s.threads[t].request, pc); PcOk(s'.log, t, th') && ThreadOk(env, s'.log, t, th')
    ensures Inv(env, s')
  {
    hide StoreOk, EventOk, PcOk, ThreadOk, EventsOk;
    EventsExtend(env, s.log, e);
    forall u | u in s'.threads ensures PcOk(s'.log, u, s'.threads[u]) && ThreadOk(env, s'.log, u, s'.threads[u]) {
      if u != t {
        PcOkExtends(s.log, e, u, s.threads[u]);
        ThreadExtends(env, s.log, e, u, s.threads[u]);
      }
    }
  }

  /** No event: only the position of thread `t` changes. */
  lemma InvQuiet(env: Env, s: State, t: nat, pc: Pc)
    requires Inv(env, s) && t in s.threads && !Late(s.threads[t].pc)
    requires var th' := Thread(s.threads[t].request, pc); PcOk(s.log, t, th') && Holds(env, s.log, t, th')
    ensures Inv(env, Move(s, t, [], pc))
  {
    hide EventOk, PcOk, ThreadOk, EventsOk, Holds, Physical, Reference;
    var s' := Move(s, t, [], pc);
    assert s'.log == s.log;
    OwnQuiet(env, s.log, t, s.threads[t], pc);
  }

  lemma InvFinish(env: Env, s: State, t: nat, ok: bool)
    requires Inv(env, s) && t in s.threads && !s.threads[t].pc.Ran?
    ensures Inv(env, Finish(s, t, [], ok))
  {
    hide EventOk, StoreOk, ThreadOk, EventsOk;
    var s' := Finish(s, t, [], ok);
    var e := Finished(t, ok);
    assert [] + [e] == [e];
    OwnFinish(env, s.log, t, s.threads[t], ok);
    StoreKept(s, s', e);
    InvMoves(env, s, s', t, e, Done(ok));
  }

  /** Dropping expired sessions. */
  lemma InvDrops(env: Env, s: State, s': State, sids: set<Text>)
    requires Inv(env, s) && s'.threads == s.threads && s'.store == s.store - sids && s'.log == s.log + [Dropped(sids)]
    requires s'.clock == s.clock && (s'.purge == s.purge || s'.purge.None?)
    requires forall sid :: sid in sids ==> sid in s.store && !Live(s.store[sid], s.clock)
    ensures Inv(env, s')
  {
    hide StoreOk, EventOk, PcOk, ThreadOk, EventsOk;
    StoreDrops(s, s', sids);
    EventsExtend(env, s.log, Dropped(sids));
    forall u | u in s'.threads ensures PcOk(s'.log, u, s'.threads[u]) && ThreadOk(env, s'.log, u, s'.threads[u]) {
      PcOkExtends(s.log, Dropped(sids), u, s.threads[u]);
      ThreadExtends(env, s.log, Dropped(sids), u, s.threads[u]);
    }
  }

  lemma InvFetch(env: Env, s: State, sid: Text)
    requires Inv(env, s)
    ensures Inv(env, Fetch(s, sid)) && Fetch(s, sid).threads == s.threads
    ensures Found(s, sid).Some? ==>
      && Fetch(s, sid) == s && sid in s.store && Found(s, sid).value == s.store[sid] && Live(s.store[sid], s.clock)
  {
    hide Inv;
    if sid in s.store && !Live(s.store[sid], s.clock) { InvDrops(env, s, Fetch(s, sid), {sid}); }
  }

  lemma IsActive(env: Env, s: State, t: nat)
    requires Inv(env, s) && t in s.threads && !s.threads[t].pc.Done?
    ensures Active(s.log, t)
  {
    hide StoreOk, EventsOk, ThreadsOk, Holds;
  }

  // ---- one lemma per position of the program counter ----

  lemma StepFetchPublic(env: Env, s: State, t: nat, sid: Text, missing: bool)
    requires Inv(env, s) && t in s.threads && (s.threads[t].pc.Start? || s.threads[t].pc == Inserted(sid))
    requires var r := s.threads[t].request;
      && (s.threads[t].pc.Start? ==> r.Attestation? && WellFormed(r) && sid == SidOf(r))
      && (s.threads[t].pc.Inserted? ==> r.Generate? || r.Proxy?)
    ensures Inv(env, FetchPublic(s, t, sid, missing))
  {
    hide Inv, StoreOk, ThreadOk, PcOk, EventOk;
    InvFetch(env, s, sid);
    var s1 := Fetch(s, sid);
    if Found(s, sid).None? {
      InvFinish(env, s1, t, missing);
    } else {
      var e := PublicFetched(t, sid, s.store[sid].publicKey, s.clock);
      FetchedPublicly(env, s, t, sid, e);
    }
  }

  lemma FetchedPublicly(env: Env, s: State, t: nat, sid: Text, e: Event)
    requires Inv(env, s) && t in s.threads && (s.threads[t].pc.Start? || s.threads[t].pc == Inserted(sid))
    requires var r := s.threads[t].request;
      && (s.threads[t].pc.Start? ==> r.Attestation? && WellFormed(r) && sid == SidOf(r))
      && (s.threads[t].pc.Inserted? ==> r.Generate? || r.Proxy?)
    requires sid in s.store && Live(s.store[sid], s.clock)
    requires e == PublicFetched(t, sid, s.store[sid].publicKey, s.clock)
    ensures Inv(env, Move(s, t, [e], KeyShown(|s.log|)))
  {
    hide StoreOk, EventsOk, CleanedAfter;
    var th := s.threads[t];
    var s' := Move(s, t, [e], KeyShown(|s.log|));
    assert s'.log[|s.log|] == e;
    IsActive(env, s, t);
    PhysicalIs(s);
    assert EventOk(env, s.log, e);
    StoreKept(s, s', e);
    if th.pc.Inserted? { DrewExtends(s.log, e, t, sid); }
    OwnStep(env, s.log, e, t, th, KeyShown(|s.log|));
    InvMoves(env, s, s', t, e, KeyShown(|s.log|));
  }

  lemma PhysicalIs(s: State)
    requires StoreOk(s)
    ensures s.store == Physical(s.log)
  {
  }

  lemma DrewExtends(log: seq<Event>, e: Event, t: nat, sid: Text)
    requires Drew(log, t, sid) || (e.Created? && e.t == t && e.sid == sid)
    ensures Drew(log + [e], t, sid)
  {
    if Drew(log, t, sid) {
      var c :| 0 <= c < |log| && log[c].Created? && log[c].t == t && log[c].sid == sid;
      assert (log + [e])[c] == log[c];
    } else {
      assert (log + [e])[|log|] == e;
    }
  }

  lemma StepDrawn(env: Env, s: State, t: nat, c: Choice)
    requires Inv(env, s) && t in s.threads && s.threads[t].pc.Drawn?
    ensures Inv(env, Advance(env, s, t, c))
  {
    hide StoreOk, EventsOk, CleanedAfter, IsSessionId;
    var th := s.threads[t];
    var sid, session := th.pc.sid, th.pc.session;
    var e := Created(t, sid, session);
    var s' := Advance(env, s, t, c);
    StoreCreates(s, s', t, sid, session);
    DrewExtends(s.log, e, t, sid);
    OwnStep(env, s.log, e, t, th, Inserted(sid));
    InvMoves(env, s, s', t, e, Inserted(sid));
  }

  /** Attesting leaves the thread where it was; then it ends. */
  lemma InvAttests(env: Env, s: State, t: nat, e: Event, ok: bool)
    requires Inv(env, s) && t in s.threads && (s.threads[t].pc.KeyShown? || s.threads[t].pc.Cleaned?)
    requires e.Attested? && e.t == t && AttestGrounded(env, s.log, e)
    ensures Inv(env, Finish(s, t, [e], ok))
  {
    hide StoreOk, EventsOk, CleanedAfter, AttestGrounded;
    var th := s.threads[t];
    var s1 := Move(s, t, [e], th.pc);
    StoreKept(s, s1, e);
    PcOkExtends(s.log, e, t, th);
    if th.pc.KeyShown? && !th.request.Attestation? {
      DrewExtends(s.log, e, t, s.log[th.pc.pubAt].sid);
      assert s1.log[th.pc.pubAt] == s.log[th.pc.pubAt];
    }
    OwnStep(env, s.log, e, t, th, th.pc);
    assert Thread(th.request, th.pc) == th;
    InvMoves(env, s, s1, t, e, th.pc);
    InvFinish(env, s1, t, ok);
    SameEnd(s, t, e, th.pc, ok);
  }

  /** Two events at once or one after the other. */
  lemma SameEnd(s: State, t: nat, e: Event, pc: Pc, ok: bool)
    requires t in s.threads
    ensures Finish(Move(s, t, [e], pc), t, [], ok) == Finish(s, t, [e], ok)
  {
    assert s.log + [e] + ([] + [Finished(t, ok)]) == s.log + ([e] + [Finished(t, ok)]);
  }

  lemma StepKeyShown(env: Env, s: State, t: nat, c: Choice)
    requires Inv(env, s) && t in s.threads && s.threads[t].pc.KeyShown?
    ensures Inv(env, Advance(env, s, t, c))
  {
    hide StoreOk, EventsOk, CleanedAfter, KeyUserData;
    var th := s.threads[t];
    var r, p := th.request, th.pc.pubAt;
    var ud := KeyUserData(env, r, s.log[p].publicKey, s.log[p].sid);
    if r.Generate? {
      InvFinish(env, s, t, true);
    } else if ud.None? {
      InvFinish(env, s, t, false);
    } else {
      InvAttests(env, s, t, Attested(t, r, ud.value, p, 0, []), r.Proxy? || c.attestOk);
    }
  }

  lemma FetchedPrivately(env: Env, s: State, t: nat, sid: Text, e: Event, pc: Pc)
    requires Inv(env, s) && t in s.threads && s.threads[t].request.Execute? && WellFormed(s.threads[t].request)
    requires sid == SidOf(s.threads[t].request)
    requires (s.threads[t].pc.Start? && pc == ZipKeyed(|s.log|)) ||
             (s.threads[t].pc.ZipOpen? && pc == CsvKeyed(s.threads[t].pc.zipAt, s.threads[t].pc.zip, |s.log|))
    requires sid in s.store && Live(s.store[sid], s.clock)
    requires e == PrivateFetched(t, sid, s.store[sid].privateKey, s.clock)
    ensures Inv(env, Move(s, t, [e], pc))
  {
    hide StoreOk, EventsOk, CleanedAfter, Decrypt.DecryptCombined, Grounded, AttestGrounded, HasRun,
      Binding.IsCollected, Drew;
    var th := s.threads[t];
    var s' := Move(s, t, [e], pc);
    assert s'.log[|s.log|] == e;
    assert forall i :: 0 <= i < |s.log| ==> s'.log[i] == s.log[i];
    IsActive(env, s, t);
    PhysicalIs(s);
    assert EventOk(env, s.log, e);
    StoreKept(s, s', e);
    OwnStep(env, s.log, e, t, th, pc);
    InvMoves(env, s, s', t, e, pc);
  }

  lemma StepFetchPrivate(env: Env, s: State, t: nat, sid: Text, atHand: Option<(nat, Bytes)>)
    requires Inv(env, s) && t in s.threads && s.threads[t].request.Execute? && WellFormed(s.threads[t].request)
    requires sid == SidOf(s.threads[t].request)
    requires if atHand.None? then s.threads[t].pc.Start? else s.threads[t].pc == ZipOpen(atHand.value.0, atHand.value.1)
    ensures Inv(env, FetchPrivate(s, t, sid, atHand))
  {
    hide Inv, StoreOk, ThreadOk, PcOk, EventOk;
    InvFetch(env, s, sid);
    var s1 := Fetch(s, sid);
    if Found(s, sid).None? {
      InvFinish(env, s1, t, false);
    } else {
      var pc := if atHand.None? then ZipKeyed(|s1.log|) else CsvKeyed(atHand.value.0, atHand.value.1, |s1.log|);
      FetchedPrivately(env, s, t, sid, PrivateFetched(t, sid, s.store[sid].privateKey, s.clock), pc);
    }
  }

  lemma StepZipKeyed(env: Env, s: State, t: nat, c: Choice)
    requires Inv(env, s) && t in s.threads && s.threads[t].pc.ZipKeyed?
    ensures Inv(env, Advance(env, s, t, c))
  {
    hide StoreOk, EventsOk, ThreadOk, Decrypt.DecryptCombined;
    var r, z := s.threads[t].request, s.threads[t].pc.zipAt;
    var zip := Decrypt.DecryptCombined(env.crypto, s.log[z].privateKey, r.data.value);
    if zip.None? {
      InvFinish(env, s, t, false);
    } else if Proof.Given(r.csv) {
      InvQuiet(env, s, t, ZipOpen(z, zip.value));
    } else {
      InvQuiet(env, s, t, Ready(z, zip.value, None, None));
    }
  }

  lemma StepCsvKeyed(env: Env, s: State, t: nat, c: Choice)
    requires Inv(env, s) && t in s.threads && s.threads[t].pc.CsvKeyed?
    ensures Inv(env, Advance(env, s, t, c))
  {
    hide StoreOk, EventsOk, CleanedAfter, HasFinished, HasRun, Decrypt.DecryptCombined;
    var r, pc := s.threads[t].request, s.threads[t].pc;
    var csv := Decrypt.DecryptCombined(env.crypto, s.log[pc.keyAt].privateKey, r.csv.value);
    if csv.None? {
      InvFinish(env, s, t, false);
    } else {
      InvQuiet(env, s, t, Ready(pc.zipAt, pc.zip, Some(pc.keyAt), csv));
    }
  }

  lemma ReadyEvent(env: Env, s: State, t: nat, e: Event)
    requires Inv(env, s) && t in s.threads && s.threads[t].pc.Ready? && Active(s.log, t) && e.Executed?
    requires var pc := s.threads[t].pc;
      e == Executed(t, s.threads[t].request, pc.zipAt, pc.zip, pc.csvAt, pc.csv, e.outcome)
    requires e.outcome.RunOk? ==> Binding.IsCollected(env.h, e.outcome.files)
    ensures EventOk(env, s.log, e)
  {
    hide StoreOk, EventsOk, CleanedAfter, Decrypt.DecryptCombined, Binding.IsCollected, Grounded, WellFormed;
  }

  lemma StepReady(env: Env, s: State, t: nat, c: Choice)
    requires Inv(env, s) && Enabled(env, s, Go(t, c)) && s.threads[t].pc.Ready?
    ensures Inv(env, Advance(env, s, t, c))
  {
    hide StoreOk, EventsOk, ThreadOk, EventOk;
    var th := s.threads[t];
    var e := Executed(t, th.request, th.pc.zipAt, th.pc.zip, th.pc.csvAt, th.pc.csv, c.outcome);
    var s' := Advance(env, s, t, c);
    assert s'.log[|s.log|] == e;
    IsActive(env, s, t);
    ReadyEvent(env, s, t, e);
    StoreKept(s, s', e);
    OwnRun(env, s.log, e, t, th);
    InvMoves(env, s, s', t, e, Ran(|s.log|));
  }

  lemma StepRan(env: Env, s: State, t: nat, c: Choice)
    requires Inv(env, s) && t in s.threads && s.threads[t].pc.Ran?
    ensures Inv(env, Advance(env, s, t, c))
  {
    hide StoreOk, EventsOk, CleanedAfter, ThreadOk;
    var th := s.threads[t];
    var i, sid := th.pc.runAt, SidOf(th.request);
    var e := Deleted(t, sid, i);
    var s0 := s.(store := s.store - {sid});
    var pc := if s.log[i].outcome.RunOk? then Cleaned(i) else Done(false);
    var s1 := Move(s0, t, [e], pc);
    StoreDeletes(s, s1, t, sid, i);
    OwnDelete(env, s.log, t, th, i, pc);
    PcOkExtends(s.log, e, t, th);
    assert s1.log[i] == s.log[i];
    InvMoves(env, s, s1, t, e, pc);
    if !s.log[i].outcome.RunOk? {
      InvFinish(env, s1, t, false);
      SameEnd(s0, t, e, pc, false);
    }
  }

  lemma StepCleaned(env: Env, s: State, t: nat, c: Choice)
    requires Inv(env, s) && t in s.threads && s.threads[t].pc.Cleaned?
    ensures Inv(env, Advance(env, s, t, c))
  {
    hide StoreOk, EventsOk, ThreadOk, RunExecution, Proof.ProofOf, Proof.ProofBytes;
    var i := s.threads[t].pc.runAt;
    var run := s.log[i];
    var x := RunExecution(env, run);
    if x.None? {
      InvFinish(env, s, t, false);
    } else {
      var p := Proof.ProofOf(env.h, x.value, s.clock.Floor, c.urandom);
      if p.None? {
        InvFinish(env, s, t, true);
      } else {
        InvAttests(env, s, t, Attested(t, run.request, Proof.ProofBytes(p.value), i, s.clock.Floor, c.urandom), true);
      }
    }
  }

  lemma StepStart(env: Env, s: State, t: nat, c: Choice)
    requires Inv(env, s) && t in s.threads && s.threads[t].pc.Start? && |c.idBytes| == 4
    ensures Inv(env, Advance(env, s, t, c))
  {
    hide StoreOk, EventsOk, ThreadOk;
    var r := s.threads[t].request;
    if !WellFormed(r) {
      InvFinish(env, s, t, false);
    } else {
      match r
      case Generate(jobId, keySize) => StepDraw(env, s, t, jobId.value, keySize, c);
      case Proxy(jobId, keySize) => StepDraw(env, s, t, jobId.value, keySize, c);
      case Attestation(sid, _) => StepFetchPublic(env, s, t, sid.value, false);
      case Execute(sid, _, _, _, _) => StepFetchPrivate(env, s, t, sid.value, None);
      case Harmless(ok) => InvFinish(env, s, t, ok);
    }
  }

  lemma StepDraw(env: Env, s: State, t: nat, jobId: Text, keySize: nat, c: Choice)
    requires Inv(env, s) && t in s.threads && s.threads[t].pc.Start?
    requires (s.threads[t].request.Generate? || s.threads[t].request.Proxy?) && |c.idBytes| == 4
    requires s.threads[t].request.jobId == Some(jobId) && s.threads[t].request.keySize == keySize
    ensures Inv(env, Draw(env, s, t, jobId, keySize, c))
  {
    hide StoreOk, EventsOk, ThreadOk;
    if keySize !in ALLOWED_KEY_SIZES {
      InvFinish(env, s, t, false);
    } else {
      assert IsSessionId(SessionId(c.idBytes));
      InvQuiet(env, s, t, Drawn(SessionId(c.idBytes), Session(jobId, c.privateKey, c.publicKey, s.clock, env.ttl)));
    }
  }

  // ---- every step ----

  lemma InvGo(env: Env, s: State, t: nat, c: Choice)
    requires Inv(env, s) && Enabled(env, s, Go(t, c))
    ensures Inv(env, Advance(env, s, t, c))
  {
    hide StoreOk, EventsOk, ThreadOk, Begin, OpenZip, OpenCsv, AttestRun, FetchPublic, FetchPrivate, Move, Finish;
    match s.threads[t].pc
    case Start => StepStart(env, s, t, c);
    case Drawn(_, _) => StepDrawn(env, s, t, c);
    case Inserted(sid) => StepFetchPublic(env, s, t, sid, s.threads[t].request.Generate?);
    case KeyShown(_) => StepKeyShown(env, s, t, c);
    case ZipKeyed(_) => StepZipKeyed(env, s, t, c);
    case ZipOpen(z, zip) => StepFetchPrivate(env, s, t, SidOf(s.threads[t].request), Some((z, zip)));
    case CsvKeyed(_, _, _) => StepCsvKeyed(env, s, t, c);
    case Ready(_, _, _, _) => StepReady(env, s, t, c);
    case Ran(_) => StepRan(env, s, t, c);
    case Cleaned(_) => StepCleaned(env, s, t, c);
  }

  /** A thread that has not arrived has neither run nor finished. */
  lemma NoTraces(env: Env, log: seq<Event>, t: nat)
    requires EventsOk(env, log) && Arrived(t) !in log
    ensures !HasFinished(log, t) && !HasRun(log, t)
  {
    hide Grounded, AttestGrounded, Physical, CleanedAfter, HasRun, Binding.IsCollected;
    forall i | 0 <= i < |log| && (log[i].Finished? || log[i].Executed?) ensures log[i].t != t {
      assert EventOk(env, log[..i], log[i]);
      assert Arrived(log[i].t) in log[..i];
    }
    NoneSuch(log, t);
  }

  lemma NoneSuch(log: seq<Event>, t: nat)
    requires forall i :: 0 <= i < |log| && (log[i].Finished? || log[i].Executed?) ==> log[i].t != t
    ensures !HasFinished(log, t) && !HasRun(log, t)
  {
  }

  lemma NewThread(env: Env, log: seq<Event>, t: nat, r: Request)
    requires !HasFinished(log, t) && !HasRun(log, t)
    ensures ThreadOk(env, log + [Arrived(t)], t, Thread(r, Start)) && PcOk(log + [Arrived(t)], t, Thread(r, Start))
  {
    FinishedExtends(log, Arrived(t), t);
  }

  lemma InvArrive(env: Env, s: State, t: nat, r: Request)
    requires Inv(env, s) && t !in s.threads
    ensures Inv(env, Next(env, s, Arrive(t, r)))
  {
    hide StoreOk, PcOk, EventsOk, ThreadOk;
    var s' := Next(env, s, Arrive(t, r));
    var e := Arrived(t);
    StoreKept(s, s', e);
    EventsExtend(env, s.log, e);
    NoTraces(env, s.log, t);
    NewThread(env, s.log, t, r);
    forall u | u in s'.threads ensures PcOk(s'.log, u, s'.threads[u]) && ThreadOk(env, s'.log, u, s'.threads[u]) {
      if u != t {
        PcOkExtends(s.log, e, u, s.threads[u]);
        ThreadExtends(env, s.log, e, u, s.threads[u]);
      }
    }
  }

  lemma InvTick(env: Env, s: State, delta: real)
    requires Inv(env, s) && delta >= 0.0
    ensures Inv(env, Next(env, s, Tick(delta)))
  {
    hide PcOk, EventsOk, ThreadOk, Physical, Reference;
    var s' := Next(env, s, Tick(delta));
    forall sid | sid in Reference(s.log) ensures sid in s.store || !Live(Reference(s.log)[sid], s'.clock) {
      if sid !in s.store { ExpiryIsFinal(Reference(s.log)[sid], s.clock, s'.clock); }
    }
  }

  /** The purge may act on a clock reading that has gone stale. */
  lemma InvPurge(env: Env, s: State)
    requires Inv(env, s) && s.purge.Some?
    ensures Inv(env, Next(env, s, PurgeApply))
  {
    hide PcOk, EventsOk, ThreadOk, Physical, Reference;
    var gone := Expired(s.store, s.purge.value);
    forall sid | sid in gone ensures sid in s.store && !Live(s.store[sid], s.clock) {
      ExpiryIsFinal(s.store[sid], s.purge.value, s.clock);
    }
    InvDrops(env, s, Next(env, s, PurgeApply), gone);
  }

  lemma InvStep(env: Env, s: State, step: Step)
    requires Inv(env, s) && Enabled(env, s, step)
    ensures Inv(env, Next(env, s, step))
  {
    hide PcOk, EventsOk, ThreadOk, Physical, Reference, Advance;
    match step
    case Tick(delta) => InvTick(env, s, delta);
    case PurgeRead =>
    case PurgeApply => InvPurge(env, s);
    case Arrive(t, r) => InvArrive(env, s, t, r);
    case Go(t, c) => InvGo(env, s, t, c);
  }
}
