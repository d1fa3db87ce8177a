/** What a step answers to a request, case by case, on the log: the successes, their attestations, and the refusals. */
module Services {
  import opened Basics
  import opened SessionStore
  import opened Protocol
  import opened ProtocolInvariant
  import opened Runs
  import ProtocolSteps
  import AttestedRuns
  import Decrypt
  import ExactJson
  import Proof
  import Binding
  import Json
  import JsonRoundTrip
  import Hex
  import Utf8

  /** Thread `t` ended: these events, then its end, and nothing else changed. */
  ghost predicate Ends(s: State, s': State, t: nat, events: seq<Event>, ok: bool) {
    && t in s.threads
    && s' == State(s.clock, s.store, s.threads[t := Thread(s.threads[t].request, Done(ok))], s.purge,
                   s.log + events + [Finished(t, ok)])
  }

  ghost predicate AtStart(env: Env, s: State, t: nat, c: Choice) {
    Inv(env, s) && Enabled(env, s, Go(t, c)) && s.threads[t].pc.Start?
  }

  lemma InvThreads(env: Env, s: State)
    requires Inv(env, s)
    ensures ThreadsOk(s)
  {
  }

  // ---- clock, purge, arrival ----

  /** The steps of no thread: time passes; a purge reads the clock, and later removes exactly the sessions that were as
      old as their lifetime at that reading; a request arrives. */
  lemma OtherSteps(env: Env, s: State, delta: real, t: nat, r: Request)
    requires ThreadsOk(s)
    ensures delta >= 0.0 ==> Next(env, s, Tick(delta)) == s.(clock := s.clock + delta)
    ensures s.purge.None? ==> Next(env, s, PurgeRead) == s.(purge := Some(s.clock))
    ensures s.purge.Some? ==>
      var s' := Next(env, s, PurgeApply);
      && s'.purge.None? && s'.clock == s.clock && s'.threads == s.threads
      && s'.log == s.log + [Dropped(s.store.Keys - s'.store.Keys)]
      && s'.store.Keys <= s.store.Keys && (forall sid :: sid in s'.store ==> s'.store[sid] == s.store[sid])
      && forall sid :: sid in s.store ==>
           (sid in s'.store <==> s.purge.value - s.store[sid].createdAt < s.store[sid].ttl)
    ensures t !in s.threads ==>
      Next(env, s, Arrive(t, r)) == s.(threads := s.threads[t := Thread(r, Start)], log := s.log + [Arrived(t)])
  {
    hide ThreadsOk;
    if s.purge.Some? { assert s.store.Keys - Next(env, s, PurgeApply).store.Keys == Expired(s.store, s.purge.value); }
  }

  // ---- refusals ----

  /** A missing required field, user data brought to a session attestation, or a key size other than the three allowed.
      */
  predicate Refused(r: Request) {
    match r
    case Generate(jobId, size) => jobId.None? || (size != 2048 && size != 3072 && size != 4096)
    case Proxy(jobId, size) => jobId.None? || (size != 2048 && size != 3072 && size != 4096)
    case Attestation(sid, hasUserData) => sid.None? || hasUserData
    case Execute(sid, data, _, _, _) => sid.None? || data.None?
    case Harmless(ok) => !ok
  }

  /** Such a request ends in one step, without success and without touching anything. */
  lemma RefusedEnds(env: Env, s: State, t: nat, c: Choice)
    requires AtStart(env, s, t, c) && Refused(s.threads[t].request)
    ensures ThreadsOk(s) && Ends(s, Next(env, s, Go(t, c)), t, [], false)
  {
    hide Inv, StoreOk, EventsOk, ThreadOk, PcOk, Binding.IsCollected, FetchPublic, FetchPrivate;
    InvThreads(env, s);
    assert s.log + [] == s.log && [] + [Finished(t, false)] == [Finished(t, false)];
  }

  /** The session a thread is about to look up, and whether it still ends with success without it. */
  predicate LooksUp(th: Thread, sid: Text, ok: bool) {
    match th.pc
    case Start =>
      && !ok && !Refused(th.request)
      && (th.request.Attestation? || th.request.Execute?) && th.request.sessionId == Some(sid)
    case Inserted(id) => id == sid && (if th.request.Generate? then ok else th.request.Proxy? && !ok)
    case ZipOpen(_, _) => !ok && th.request.Execute? && th.request.sessionId == Some(sid)
    case _ => false
  }

  /** A lookup that finds no session, or one as old as its lifetime or older, ends the request; the old one is dropped.
      */
  lemma MissingSessionEnds(env: Env, s: State, t: nat, c: Choice, sid: Text, ok: bool)
    requires Inv(env, s) && Enabled(env, s, Go(t, c)) && LooksUp(s.threads[t], sid, ok)
    requires sid in s.store ==> s.clock - s.store[sid].createdAt >= s.store[sid].ttl
    ensures ThreadsOk(s)
    ensures var dropped := if sid in s.store then [Dropped({sid})] else [];
      Next(env, s, Go(t, c)) ==
      State(s.clock, s.store - {sid}, s.threads[t := Thread(s.threads[t].request, Done(ok))], s.purge,
            s.log + dropped + [Finished(t, ok)])
  {
    hide Inv, StoreOk, EventsOk, ThreadOk, PcOk, Binding.IsCollected, OpenZip, OpenCsv, AttestRun;
    InvThreads(env, s);
    assert [] + [Finished(t, ok)] == [Finished(t, ok)] && s.log + [] == s.log;
    assert sid !in s.store ==> s.store - {sid} == s.store;
  }

  /** The payload a thread is about to open, and the key it fetched for it. */
  ghost predicate Opens(s: State, t: nat, key: Bytes, payload: Text) {
    && t in s.threads && s.threads[t].request.Execute?
    && match s.threads[t].pc
       case ZipKeyed(z) =>
         && z < |s.log| && s.log[z].PrivateFetched? && s.log[z].privateKey == key
         && s.threads[t].request.data == Some(payload)
       case CsvKeyed(_, _, k) =>
         && k < |s.log| && s.log[k].PrivateFetched? && s.log[k].privateKey == key
         && s.threads[t].request.csv == Some(payload)
       case _ => false
  }

  /** A payload that does not open ends the request before anything runs. */
  lemma UnopenedEnds(env: Env, s: State, t: nat, c: Choice, key: Bytes, payload: Text)
    requires Inv(env, s) && Enabled(env, s, Go(t, c)) && Opens(s, t, key, payload)
    requires Decrypt.DecryptCombined(env.crypto, key, payload).None?
    ensures ThreadsOk(s) && Ends(s, Next(env, s, Go(t, c)), t, [], false)
  {
    hide Inv, StoreOk, EventsOk, ThreadOk, PcOk, Binding.IsCollected, Begin, FetchPublic, FetchPrivate, AttestRun,
      Decrypt.DecryptCombined;
    InvThreads(env, s);
    assert [] + [Finished(t, false)] == [Finished(t, false)] && s.log + [] == s.log;
  }

  // ---- attestations ----

  /** The nonce of an execution can be used: absent, empty, or hex. */
  predicate NonceReads(r: Request)
    requires r.Execute?
  {
    r.atlNonce.None? || r.atlNonce.value == [] || Hex.FromHex(r.atlNonce.value).Some?
  }

  ghost predicate AfterCleanup(env: Env, s: State, t: nat, c: Choice, i: nat) {
    Inv(env, s) && Enabled(env, s, Go(t, c)) && s.threads[t].pc == Cleaned(i)
  }

  lemma CleanedRun(env: Env, s: State, t: nat, c: Choice, i: nat)
    requires AfterCleanup(env, s, t, c, i)
    ensures ThreadsOk(s) && i < |s.log| && s.log[i].Executed? && s.log[i].outcome.RunOk? && s.log[i].t == t
    ensures s.log[i].request == s.threads[t].request && s.log[i].request.Execute?
    ensures s.log[i].request.sessionId.Some? && s.log[i].request.data.Some?
  {
    hide StoreOk, EventsOk, ThreadOk, Binding.IsCollected;
  }

  /** `e` is the attestation of the run at `i`, made now, with user data that states the run. */
  ghost predicate StatesRun(env: Env, s: State, t: nat, c: Choice, i: nat, e: Event) {
    && i < |s.log| && s.log[i].Executed? && s.log[i].request.Execute? && s.log[i].outcome.RunOk?
    && e.Attested? && e.t == t && e.request == s.log[i].request && e.from == i
    && e.stamp == s.clock.Floor && e.urandom == c.urandom
    && Proof.ParseProof(e.userData).Some?
    && AttestedRuns.Describes(env, s.log[i], e, Proof.ParseProof(e.userData).value)
  }

  /** A successful execution whose output can be encoded and whose nonce reads is attested, with a proof that states
      the run, and answered with success; with an output that cannot be encoded it is answered with success and no
      attestation; with a nonce that does not read it is answered with failure. */
  lemma SuccessIsAttested(env: Env, s: State, t: nat, c: Choice, i: nat) returns (e: Event)
    requires AfterCleanup(env, s, t, c, i)
    ensures ThreadsOk(s) && i < |s.log| && s.log[i].Executed? && s.log[i].outcome.RunOk? && s.log[i].request.Execute?
    ensures NonceReads(s.log[i].request) && Utf8.Encode(s.log[i].outcome.output).Some? ==>
      Ends(s, Next(env, s, Go(t, c)), t, [e], true) && StatesRun(env, s, t, c, i, e)
    ensures NonceReads(s.log[i].request) && Utf8.Encode(s.log[i].outcome.output).None? ==>
      Ends(s, Next(env, s, Go(t, c)), t, [], true)
    ensures !NonceReads(s.log[i].request) ==> Ends(s, Next(env, s, Go(t, c)), t, [], false)
  {
    hide Inv, Ends, StatesRun, Enabled, Proof.ProofBytes, AfterCleanup, Proof.ProofOf, NonceReads, Utf8.Encode,
      AttestRun;
    CleanedRun(env, s, t, c, i);
    IsEnabled(env, s, t, c, i);
    AttestSteps(env, s, t, c, i);
    e := Finished(t, true);
    if NonceReads(s.log[i].request) && Utf8.Encode(s.log[i].outcome.output).Some? {
      e := NewAttestation(env, s, t, c, i);
    }
  }

  lemma IsEnabled(env: Env, s: State, t: nat, c: Choice, i: nat)
    requires AfterCleanup(env, s, t, c, i)
    ensures Enabled(env, s, Go(t, c)) && t in s.threads && s.threads[t].pc == Cleaned(i)
  {
  }

  lemma NonceIs(r: Request)
    requires r.Execute?
    ensures NonceReads(r) <==> ExternalNonce(r).Some?
  {
  }

  lemma EncodedIs(env: Env, x: Proof.Execution, now: int, urandom: Bytes)
    ensures Proof.ProofOf(env.h, x, now, urandom).Some? <==> Utf8.Encode(x.output).Some?
  {
  }

  /** The two ways without an attestation. */
  lemma AttestSteps(env: Env, s: State, t: nat, c: Choice, i: nat)
    requires t in s.threads && i < |s.log| && s.log[i].Executed? && s.log[i].request.Execute?
    requires s.log[i].request.sessionId.Some? && s.log[i].outcome.RunOk?
    ensures !NonceReads(s.log[i].request) ==> Ends(s, AttestRun(env, s, t, i, c), t, [], false)
    ensures NonceReads(s.log[i].request) && Utf8.Encode(s.log[i].outcome.output).None? ==>
      Ends(s, AttestRun(env, s, t, i, c), t, [], true)
  {
    hide Proof.ProofOf, Proof.ProofBytes, NonceReads, ExternalNonce, Utf8.Encode;
    NonceIs(s.log[i].request);
    assert s.log + [] == s.log && forall ok :: [] + [Finished(t, ok)] == [Finished(t, ok)];
    if RunExecution(env, s.log[i]).Some? {
      EncodedIs(env, RunExecution(env, s.log[i]).value, s.clock.Floor, c.urandom);
    }
  }

  /** The state after the step, if it can be taken. */
  ghost function Served(env: Env, s: State, t: nat, c: Choice): State {
    if ThreadsOk(s) && Enabled(env, s, Go(t, c)) then Next(env, s, Go(t, c)) else s
  }

  lemma NewAttestation(env: Env, s: State, t: nat, c: Choice, i: nat) returns (e: Event)
    requires i < |s.log| && s.log[i].Executed? && s.log[i].request.Execute? && s.log[i].outcome.RunOk?
    requires NonceReads(s.log[i].request) && Utf8.Encode(s.log[i].outcome.output).Some?
    requires AfterCleanup(env, s, t, c, i)
    ensures Ends(s, Served(env, s, t, c), t, [e], true) && StatesRun(env, s, t, c, i, e)
  {
    hide Inv, Proof.ProofBytes, Proof.ProofOf, Proof.ParseProof, NonceReads, ExternalNonce, Utf8.Encode,
      AttestedRuns.Describes, EventsOk;
    CleanedRun(env, s, t, c, i);
    NonceIs(s.log[i].request);
    var run := s.log[i];
    var x := RunExecution(env, run).value;
    EncodedIs(env, x, s.clock.Floor, c.urandom);
    var p := Proof.ProofOf(env.h, x, s.clock.Floor, c.urandom).value;
    e := Attested(t, run.request, Proof.ProofBytes(p), i, s.clock.Floor, c.urandom);
    var s' := Next(env, s, Go(t, c));
    assert s.log + ([e] + [Finished(t, true)]) == s.log + [e] + [Finished(t, true)];
    ProtocolSteps.InvStep(env, s, Go(t, c));
    EventsOf(env, s');
    assert s'.log[|s.log|] == e && s'.log[i] == run;
    AttestedRuns.ProofDescribes(env, s'.log, |s.log|, i);
  }

  lemma EventsOf(env: Env, s: State)
    requires Inv(env, s)
    ensures EventsOk(env, s.log)
  {
  }

  /** The record of a session as `json.dumps` writes it. */
  function RecordText(publicKey: Text, sid: Text): Text {
    A("{") + ExactJson.Separated([A("\"public_key\": ") + Json.Quoted(publicKey),
                                  A("\"session_id\": ") + Json.Quoted(sid)], A(", ")) + A("}")
  }

  lemma RecordIs(publicKey: Text, sid: Text)
    ensures SessionJson(publicKey, sid) == RecordText(publicKey, sid)
  {
    hide A, Json.Dumps, Json.Quoted, ExactJson.Separated, ExactJson.ColonOf;
    var ms := [Keyed(A("public_key"), Json.Str(publicKey)), Keyed(A("session_id"), Json.Str(sid))];
    ExactJson.DictionaryText(ms, Json.Spaced);
    ExactJson.SpacedKey("public_key");
    ExactJson.SpacedKey("session_id");
    RecordKeys();
    assert ExactJson.Lines(ms, Json.Spaced) ==
      [ExactJson.Line(ms[0], Json.Spaced), ExactJson.Line(ms[1], Json.Spaced)];
    StrIs(publicKey);
    StrIs(sid);
    Grouped(Json.Quoted(A("public_key")), ExactJson.ColonOf(Json.Spaced), Json.Quoted(publicKey));
    Grouped(Json.Quoted(A("session_id")), ExactJson.ColonOf(Json.Spaced), Json.Quoted(sid));
  }

  lemma RecordKeys()
    ensures "\"" + "public_key" + "\": " == "\"public_key\": " && "\"" + "session_id" + "\": " == "\"session_id\": "
  {
  }

  lemma StrIs(t: Text)
    ensures Json.Dumps(Json.Str(t), Json.Spaced) == Json.Quoted(t)
  {
  }

  lemma Grouped(a: Bytes, b: Bytes, c: Bytes)
    ensures a + (b + c) == a + b + c
  {
  }

  /** A request that shows a session key: a generation ends with success; a proxy request attests the hash of the key
      and ends with success; a session attestation attests the record of key and id and ends as the device says. */
  lemma KeyIsAttested(env: Env, s: State, t: nat, c: Choice, p: nat)
    requires Inv(env, s) && Enabled(env, s, Go(t, c)) && s.threads[t].pc == KeyShown(p)
    ensures ThreadsOk(s) && p < |s.log| && s.log[p].PublicFetched? && s.log[p].t == t
    ensures var r, key, s' := s.threads[t].request, s.log[p].publicKey, Next(env, s, Go(t, c));
      && (r.Generate? || r.Proxy? || (r.Attestation? && r.sessionId == Some(s.log[p].sid) && !r.hasUserData))
      && (r.Generate? ==> Ends(s, s', t, [], true))
      && (r.Proxy? && key != [] && Utf8.Encode(key).Some? ==>
           Ends(s, s', t, [Attested(t, r, env.h(Utf8.Encode(key).value), p, 0, [])], true))
      && (r.Proxy? && (key == [] || Utf8.Encode(key).None?) ==> Ends(s, s', t, [], false))
      && (r.Attestation? && key == [] ==> Ends(s, s', t, [], false))
      && (r.Attestation? && key != [] ==>
           SessionJson(key, s.log[p].sid) == RecordText(key, s.log[p].sid)
           && Ends(s, s', t, [Attested(t, r, SessionJson(key, s.log[p].sid), p, 0, [])], c.attestOk))
  {
    hide StoreOk, EventsOk, ThreadOk, Binding.IsCollected, SessionJson, RecordText, Utf8.Encode, Begin, FetchPublic,
      FetchPrivate, OpenZip, OpenCsv, AttestRun;
    RecordIs(s.log[p].publicKey, s.log[p].sid);
    assert s.log + [] == s.log;
    assert forall ok, e: Event :: s.log + ([e] + [Finished(t, ok)]) == s.log + [e] + [Finished(t, ok)];
  }
}
