/** Undisturbed requests from any reachable state: what they log from arrival to end. Each shows that the successes the
    other theorems speak of do happen. */
module Scenarios {
  import opened Basics
  import opened SessionStore
  import opened Protocol
  import opened ProtocolInvariant
  import opened Runs
  import opened Services
  import AttestedRuns
  import Decrypt
  import Proof
  import Binding
  import Utf8

  ghost predicate Reachable(env: Env, s: State) {
    exists states, steps :: IsRun(env, states, steps) && states[|steps|] == s
  }

  lemma ReachStep(env: Env, s: State, step: Step)
    requires Reachable(env, s) && Enabled(env, s, step)
    ensures ThreadsOk(s) && Reachable(env, Next(env, s, step))
  {
    hide Next, Enabled, ThreadsOk;
    var states, steps :| IsRun(env, states, steps) && states[|steps|] == s;
    RunExtends(env, states, steps, step);
    var longer := states + [Next(env, s, step)];
    assert IsRun(env, longer, steps + [step]) && longer[|steps + [step]|] == Next(env, s, step);
  }

  lemma ReachInit(env: Env)
    ensures Reachable(env, INIT)
  {
    var states: seq<State>, steps: seq<Step> := [INIT], [];
    assert IsRun(env, states, steps) && states[|steps|] == INIT;
  }

  lemma ReachInv(env: Env, s: State)
    requires Reachable(env, s)
    ensures Inv(env, s)
  {
    hide Inv, Follows;
    var states, steps :| IsRun(env, states, steps) && states[|steps|] == s;
    RunInv(env, states, steps, |steps|);
  }

  const QUIET := Choice([0, 0, 0, 0], [], [], RunFailed, [], true)

  // ---- keys ----

  /** A request stores the session drawn for it under an id of nature's choosing. */
  lemma StoreNew(env: Env, s: State, t: nat, r: Request, idBytes: Bytes, key: Bytes, pub: Text) returns (s': State)
    requires Reachable(env, s) && t !in s.threads && |idBytes| == 4
    requires (r.Generate? || r.Proxy?) && r.jobId.Some? && (r.keySize == 2048 || r.keySize == 3072 || r.keySize == 4096)
    ensures Reachable(env, s')
    ensures var sid := SessionId(idBytes); var session := Session(r.jobId.value, key, pub, s.clock, env.ttl);
      s' == State(s.clock, s.store[sid := session], s.threads[t := Thread(r, Inserted(sid))], s.purge,
                  s.log + [Arrived(t), Created(t, sid, session)])
  {
    hide Reachable, SessionId, Binding.IsCollected, FetchPublic, FetchPrivate, OpenZip, OpenCsv, AttestRun, KeyUserData;
    var sid := SessionId(idBytes);
    var session := Session(r.jobId.value, key, pub, s.clock, env.ttl);
    var c := QUIET.(idBytes := idBytes, privateKey := key, publicKey := pub);
    ReachStep(env, s, Arrive(t, r));
    var s1 := Next(env, s, Arrive(t, r));
    ReachStep(env, s1, Go(t, c));
    var s2 := Next(env, s1, Go(t, c));
    assert s2 == State(s.clock, s.store, s.threads[t := Thread(r, Drawn(sid, session))], s.purge, s.log + [Arrived(t)]);
    ReachStep(env, s2, Go(t, c));
    s' := Next(env, s2, Go(t, c));
    assert s'.log == s.log + [Arrived(t), Created(t, sid, session)];
  }

  /** A generation or proxy request with an allowed key size stores what was drawn for it and shows it. */
  lemma KeyGenerated(env: Env, s: State, t: nat, r: Request, idBytes: Bytes, key: Bytes, pub: Text) returns (s': State)
    requires Reachable(env, s) && t !in s.threads && |idBytes| == 4 && env.ttl > 0.0
    requires (r.Generate? || r.Proxy?) && r.jobId.Some? && (r.keySize == 2048 || r.keySize == 3072 || r.keySize == 4096)
    ensures Reachable(env, s')
    ensures var sid := SessionId(idBytes); var session := Session(r.jobId.value, key, pub, s.clock, env.ttl);
      s' == State(s.clock, s.store[sid := session], s.threads[t := Thread(r, KeyShown(|s.log| + 2))], s.purge,
                  s.log + [Arrived(t), Created(t, sid, session), PublicFetched(t, sid, pub, s.clock)])
  {
    hide Reachable, SessionId, Binding.IsCollected, FetchPrivate, OpenZip, OpenCsv, AttestRun, KeyUserData, Begin;
    var s1 := StoreNew(env, s, t, r, idBytes, key, pub);
    ReachStep(env, s1, Go(t, QUIET));
    s' := Next(env, s1, Go(t, QUIET));
    assert s'.log == s.log + [Arrived(t), Created(t, SessionId(idBytes), s1.store[SessionId(idBytes)]),
                              PublicFetched(t, SessionId(idBytes), pub, s.clock)];
  }

  /** So a proxy request ends with the hash of its own new key attested. */
  lemma ProxyAttested(env: Env, s: State, t: nat, r: Request, idBytes: Bytes, key: Bytes, pub: Text) returns (s': State)
    requires Reachable(env, s) && t !in s.threads && |idBytes| == 4 && env.ttl > 0.0
    requires r.Proxy? && r.jobId.Some? && (r.keySize == 2048 || r.keySize == 3072 || r.keySize == 4096)
    requires pub != [] && Utf8.Encode(pub).Some?
    ensures Reachable(env, s')
    ensures var sid, p := SessionId(idBytes), |s.log| + 2;
      var session := Session(r.jobId.value, key, pub, s.clock, env.ttl);
      s'.log == s.log + [Arrived(t), Created(t, sid, session), PublicFetched(t, sid, pub, s.clock),
                         Attested(t, r, env.h(Utf8.Encode(pub).value), p, 0, []), Finished(t, true)]
  {
    hide Reachable, SessionId, Inv, Next, Utf8.Encode, Enabled;
    var s1 := KeyGenerated(env, s, t, r, idBytes, key, pub);
    ReachInv(env, s1);
    QuietEnabled(env, s1, t);
    KeyIsAttested(env, s1, t, QUIET, |s.log| + 2);
    ReachStep(env, s1, Go(t, QUIET));
    s' := Next(env, s1, Go(t, QUIET));
  }

  lemma QuietEnabled(env: Env, s: State, t: nat)
    requires t in s.threads && !s.threads[t].pc.Done?
    ensures Enabled(env, s, Go(t, QUIET))
  {
  }

  /** A request to attest a live session ends with the record of its key and id attested. */
  lemma SessionAttested(env: Env, s: State, t: nat, sid: Text) returns (s': State)
    requires Reachable(env, s) && t !in s.threads && sid in s.store
    requires s.clock - s.store[sid].createdAt < s.store[sid].ttl && s.store[sid].publicKey != []
    ensures Reachable(env, s')
    ensures var r, pub, p := Attestation(Some(sid), false), s.store[sid].publicKey, |s.log| + 1;
      && SessionJson(pub, sid) == RecordText(pub, sid)
      && s'.log == s.log + [Arrived(t), PublicFetched(t, sid, pub, s.clock),
                         Attested(t, r, SessionJson(pub, sid), p, 0, []), Finished(t, true)]
  {
    hide Reachable, Inv, SessionJson, RecordText, OpenZip, OpenCsv, AttestRun, FetchPrivate, KeyUserData;
    var r, pub := Attestation(Some(sid), false), s.store[sid].publicKey;
    ReachStep(env, s, Arrive(t, r));
    var s1 := Next(env, s, Arrive(t, r));
    ReachStep(env, s1, Go(t, QUIET));
    var s2 := Next(env, s1, Go(t, QUIET));
    assert s2.log == s.log + [Arrived(t), PublicFetched(t, sid, pub, s.clock)];
    assert s2.threads[t] == Thread(r, KeyShown(|s.log| + 1));
    ReachInv(env, s2);
    KeyIsAttested(env, s2, t, QUIET, |s.log| + 1);
    ReachStep(env, s2, Go(t, QUIET));
    s' := Next(env, s2, Go(t, QUIET));
  }

  // ---- executions ----

  /** A request for a live session opens its ZIP. */
  lemma ZipOpened(env: Env, s: State, t: nat, r: Request, sid: Text, zip: Bytes) returns (s': State)
    requires Reachable(env, s) && t !in s.threads && sid in s.store
    requires s.clock - s.store[sid].createdAt < s.store[sid].ttl
    requires r.Execute? && r.sessionId == Some(sid) && r.data.Some?
    requires Decrypt.DecryptCombined(env.crypto, s.store[sid].privateKey, r.data.value) == Some(zip)
    ensures Reachable(env, s')
    ensures var z := |s.log| + 1;
      var pc := if r.csv.Some? && r.csv.value != [] then ZipOpen(z, zip) else Ready(z, zip, None, None);
      s' == State(s.clock, s.store, s.threads[t := Thread(r, pc)], s.purge,
                  s.log + [Arrived(t), PrivateFetched(t, sid, s.store[sid].privateKey, s.clock)])
  {
    hide Reachable, Binding.IsCollected, FetchPublic, Draw, OpenCsv, AttestRun, Decrypt.DecryptCombined;
    var key := s.store[sid].privateKey;
    ReachStep(env, s, Arrive(t, r));
    var s1 := Next(env, s, Arrive(t, r));
    ReachStep(env, s1, Go(t, QUIET));
    var s2 := Next(env, s1, Go(t, QUIET));
    var log := s.log + [Arrived(t), PrivateFetched(t, sid, key, s.clock)];
    assert s2.log == log;
    assert s2 == State(s.clock, s.store, s.threads[t := Thread(r, ZipKeyed(|s.log| + 1))], s.purge, log);
    ReachStep(env, s2, Go(t, QUIET));
    s' := Next(env, s2, Go(t, QUIET));
    assert s'.log == log;
  }

  /** Then its table, with a second fetch of the key. */
  lemma CsvOpened(env: Env, s: State, t: nat, r: Request, sid: Text, z: nat, zip: Bytes, table: Bytes)
    returns (s': State)
    requires Reachable(env, s) && t in s.threads && s.threads[t] == Thread(r, ZipOpen(z, zip))
    requires r.Execute? && r.sessionId == Some(sid) && r.csv.Some?
    requires sid in s.store && s.clock - s.store[sid].createdAt < s.store[sid].ttl
    requires Decrypt.DecryptCombined(env.crypto, s.store[sid].privateKey, r.csv.value) == Some(table)
    ensures Reachable(env, s')
    ensures s' == State(s.clock, s.store, s.threads[t := Thread(r, Ready(z, zip, Some(|s.log|), Some(table)))], s.purge,
                        s.log + [PrivateFetched(t, sid, s.store[sid].privateKey, s.clock)])
  {
    hide Reachable, Binding.IsCollected, FetchPublic, Begin, OpenZip, AttestRun, Decrypt.DecryptCombined;
    var log := s.log + [PrivateFetched(t, sid, s.store[sid].privateKey, s.clock)];
    ReachStep(env, s, Go(t, QUIET));
    var s1 := Next(env, s, Go(t, QUIET));
    assert s1 == State(s.clock, s.store, s.threads[t := Thread(r, CsvKeyed(z, zip, |s.log|))], s.purge, log);
    ReachStep(env, s1, Go(t, QUIET));
    s' := Next(env, s1, Go(t, QUIET));
    assert s'.log == log;
  }

  /** Then it runs, with whatever outcome. */
  lemma RunDone(env: Env, s: State, t: nat, r: Request, z: nat, zip: Bytes, csvAt: Option<nat>, csv: Option<Bytes>,
                outcome: Outcome) returns (s': State)
    requires Reachable(env, s) && t in s.threads && s.threads[t] == Thread(r, Ready(z, zip, csvAt, csv))
    requires outcome.RunOk? ==> Binding.IsCollected(env.h, outcome.files)
    ensures Reachable(env, s')
    ensures s' == State(s.clock, s.store, s.threads[t := Thread(r, Ran(|s.log|))], s.purge,
                        s.log + [Executed(t, r, z, zip, csvAt, csv, outcome)])
  {
    hide Reachable, Binding.IsCollected, FetchPublic, FetchPrivate, Begin, OpenZip, OpenCsv, AttestRun;
    var c := QUIET.(outcome := outcome);
    ReachStep(env, s, Go(t, c));
    s' := Next(env, s, Go(t, c));
  }

  /** And the session of its id is removed, whether the run failed or not. */
  lemma SessionCleaned(env: Env, s: State, t: nat, r: Request, sid: Text, x: nat) returns (s': State)
    requires Reachable(env, s) && t in s.threads && s.threads[t] == Thread(r, Ran(x))
    requires r.Execute? && r.sessionId == Some(sid) && x < |s.log| && s.log[x].Executed?
    ensures Reachable(env, s') && s'.clock == s.clock && s'.store == s.store - {sid}
    ensures s.log[x].outcome.RunOk? ==>
      s'.log == s.log + [Deleted(t, sid, x)] && s'.threads == s.threads[t := Thread(r, Cleaned(x))]
    ensures s.log[x].outcome.RunFailed? ==>
      && s'.log == s.log + [Deleted(t, sid, x), Finished(t, false)]
      && s'.threads == s.threads[t := Thread(r, Done(false))]
  {
    hide Reachable, Binding.IsCollected, FetchPublic, FetchPrivate, Begin, OpenZip, OpenCsv, AttestRun;
    ReachStep(env, s, Go(t, QUIET));
    s' := Next(env, s, Go(t, QUIET));
    assert s.log + ([Deleted(t, sid, x)] + [Finished(t, false)]) == s.log + [Deleted(t, sid, x), Finished(t, false)];
  }

  /** The entries of the key fetches of an execution request. */
  function Fetched(s: State, t: nat, r: Request, sid: Text): seq<Event>
    requires r.Execute? && sid in s.store
  {
    var fetch := PrivateFetched(t, sid, s.store[sid].privateKey, s.clock);
    if r.csv.Some? && r.csv.value != [] then [Arrived(t), fetch, fetch] else [Arrived(t), fetch]
  }

  /** The table, if one was sent, opens to `csv` under the key. */
  predicate TableOpens(env: Env, key: Bytes, r: Request, csv: Option<Bytes>)
    requires r.Execute?
  {
    if r.csv.Some? && r.csv.value != [] then
      csv.Some? && Decrypt.DecryptCombined(env.crypto, key, r.csv.value) == csv
    else csv == None
  }

  /** The entry of the run itself. */
  function RunEntry(s: State, t: nat, r: Request, zip: Bytes, csv: Option<Bytes>, outcome: Outcome): Event {
    Executed(t, r, |s.log| + 1, zip, if csv.Some? then Some(|s.log| + 2) else None, csv, outcome)
  }

  lemma PayloadsOpened(env: Env, s: State, t: nat, r: Request, sid: Text, zip: Bytes, csv: Option<Bytes>)
    returns (s': State)
    requires Reachable(env, s) && t !in s.threads && sid in s.store
    requires s.clock - s.store[sid].createdAt < s.store[sid].ttl
    requires r.Execute? && r.sessionId == Some(sid) && r.data.Some? && TableOpens(env, s.store[sid].privateKey, r, csv)
    requires Decrypt.DecryptCombined(env.crypto, s.store[sid].privateKey, r.data.value) == Some(zip)
    ensures Reachable(env, s')
    ensures var csvAt := if csv.Some? then Some(|s.log| + 2) else None;
      s' == State(s.clock, s.store, s.threads[t := Thread(r, Ready(|s.log| + 1, zip, csvAt, csv))], s.purge,
                  s.log + Fetched(s, t, r, sid))
  {
    hide Reachable, Decrypt.DecryptCombined;
    s' := ZipOpened(env, s, t, r, sid, zip);
    if csv.Some? {
      var s1 := s';
      s' := CsvOpened(env, s1, t, r, sid, |s.log| + 1, zip, csv.value);
      assert s'.log == s.log + Fetched(s, t, r, sid);
    }
  }

  /** An execution request for a live session whose payloads open under its key, from arrival to end: it fetches, runs
      once on what it opened, removes the session, and a successful run with encodable output and a readable nonce is
      attested by a proof that states it. */
  lemma ExecutionServed(env: Env, s: State, t: nat, r: Request, sid: Text, zip: Bytes, csv: Option<Bytes>,
                        outcome: Outcome) returns (s': State, e: Event)
    requires Reachable(env, s) && t !in s.threads && sid in s.store
    requires s.clock - s.store[sid].createdAt < s.store[sid].ttl
    requires r.Execute? && r.sessionId == Some(sid) && r.data.Some? && TableOpens(env, s.store[sid].privateKey, r, csv)
    requires Decrypt.DecryptCombined(env.crypto, s.store[sid].privateKey, r.data.value) == Some(zip)
    requires outcome.RunOk? ==> Binding.IsCollected(env.h, outcome.files)
    ensures Reachable(env, s') && s'.store == s.store - {sid}
    ensures var x, run := |s.log + Fetched(s, t, r, sid)|, RunEntry(s, t, r, zip, csv, outcome);
      var log := s.log + Fetched(s, t, r, sid) + [run] + [Deleted(t, sid, x)];
      && (outcome.RunFailed? ==> s'.log == log + [Finished(t, false)])
      && (outcome.RunOk? && !NonceReads(r) ==> s'.log == log + [Finished(t, false)])
      && (outcome.RunOk? && NonceReads(r) && Utf8.Encode(outcome.output).None? ==> s'.log == log + [Finished(t, true)])
      && (outcome.RunOk? && NonceReads(r) && Utf8.Encode(outcome.output).Some? ==>
           s'.log == log + [e] + [Finished(t, true)] && States(env, run, e, x))
  {
    hide Reachable, Decrypt.DecryptCombined, Binding.IsCollected, Inv, Next, Enabled, NonceReads, Utf8.Encode,
      TableOpens, Fetched;
    var x := |s.log + Fetched(s, t, r, sid)|;
    var csvAt := if csv.Some? then Some(|s.log| + 2) else None;
    var s1 := PayloadsOpened(env, s, t, r, sid, zip, csv);
    var s2 := RunDone(env, s1, t, r, |s.log| + 1, zip, csvAt, csv, outcome);
    assert s2.log[x] == RunEntry(s, t, r, zip, csv, outcome);
    var s3 := SessionCleaned(env, s2, t, r, sid, x);
    s', e := s3, Finished(t, false);
    if outcome.RunOk? {
      assert s3.log[x] == s2.log[x];
      ReachInv(env, s3);
      QuietEnabled(env, s3, t);
      e := SuccessIsAttested(env, s3, t, QUIET, x);
      ReachStep(env, s3, Go(t, QUIET));
      s' := Next(env, s3, Go(t, QUIET));
    } else {
      assert s2.log + [Deleted(t, sid, x), Finished(t, false)] == s2.log + [Deleted(t, sid, x)] + [Finished(t, false)];
    }
  }

  /** `e` attests the run entered at `x` with user data that states it. */
  ghost predicate States(env: Env, run: Event, e: Event, x: nat) {
    && run.Executed? && run.request.Execute? && run.outcome.RunOk?
    && e.Attested? && e.t == run.t && e.request == run.request && e.from == x
    && Proof.ParseProof(e.userData).Some?
    && AttestedRuns.Describes(env, run, e, Proof.ParseProof(e.userData).value)
  }
}
