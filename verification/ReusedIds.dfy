/** Why key agreement needs fresh session ids: a run in which an id is drawn twice. The source draws four random bytes
    and stores the new session without looking for an old one (implementations/keypair_manager_impl.py:78,107-108). */
module ReusedIds {
  import opened Basics
  import opened SessionStore
  import opened Protocol
  import opened Runs
  import opened Scenarios
  import Decrypt
  import Binding

  const GENERATE := Generate(Some([]), 2048)

  function Bundle(sid: Text, data: Text, csv: Text): Request { Execute(Some(sid), Some(data), Some(csv), None, None) }

  /** A generation request does. */
  lemma CreateSession(env: Env, s: State, t: nat, idBytes: Bytes, key: Bytes, pub: Text) returns (s': State)
    requires Reachable(env, s) && t !in s.threads && |idBytes| == 4
    ensures Reachable(env, s')
    ensures var sid := SessionId(idBytes); var session := Session([], key, pub, s.clock, env.ttl);
      s' == State(s.clock, s.store[sid := session], s.threads[t := Thread(GENERATE, Inserted(sid))], s.purge,
                  s.log + [Arrived(t), Created(t, sid, session)])
  {
    hide Reachable, SessionId;
    s' := StoreNew(env, s, t, GENERATE, idBytes, key, pub);
  }

  /** A request fetches the key of a live session and opens its ZIP. */
  lemma OpenBundle(env: Env, s: State, t: nat, sid: Text, data: Text, csv: Text, zip: Bytes) returns (s': State)
    requires Reachable(env, s) && t !in s.threads && sid in s.store && Live(s.store[sid], s.clock) && |csv| > 0
    requires Decrypt.DecryptCombined(env.crypto, s.store[sid].privateKey, data) == Some(zip)
    ensures Reachable(env, s')
    ensures s' == State(s.clock, s.store, s.threads[t := Thread(Bundle(sid, data, csv), ZipOpen(|s.log| + 1, zip))],
                        s.purge, s.log + [Arrived(t), PrivateFetched(t, sid, s.store[sid].privateKey, s.clock)])
  {
    hide Reachable, Decrypt.DecryptCombined;
    s' := ZipOpened(env, s, t, Bundle(sid, data, csv), sid, zip);
  }

  /** The request fetches again, opens its CSV and runs. */
  lemma RunBundle(env: Env, s: State, t: nat, sid: Text, data: Text, csv: Text, z: nat, zip: Bytes, table: Bytes)
    returns (s': State)
    requires Reachable(env, s) && t in s.threads && s.threads[t] == Thread(Bundle(sid, data, csv), ZipOpen(z, zip))
    requires sid in s.store && Live(s.store[sid], s.clock)
    requires Decrypt.DecryptCombined(env.crypto, s.store[sid].privateKey, csv) == Some(table)
    ensures Reachable(env, s')
    ensures s' == State(s.clock, s.store, s.threads[t := Thread(Bundle(sid, data, csv), Ran(|s.log| + 1))], s.purge,
                        s.log + [PrivateFetched(t, sid, s.store[sid].privateKey, s.clock),
                                 Executed(t, Bundle(sid, data, csv), z, zip, Some(|s.log|), Some(table), RunFailed)])
  {
    hide Reachable, Decrypt.DecryptCombined;
    var r := Bundle(sid, data, csv);
    var s1 := CsvOpened(env, s, t, r, sid, z, zip, table);
    s' := RunDone(env, s1, t, r, z, zip, Some(|s.log|), Some(table), RunFailed);
    assert s'.log == s.log + [PrivateFetched(t, sid, s.store[sid].privateKey, s.clock),
                              Executed(t, r, z, zip, Some(|s.log|), Some(table), RunFailed)];
  }

  /** Key agreement fails without fresh ids: whatever two keys are drawn under one id, and whatever payloads open under
      them, a run reaches an execution that opened its ZIP with the first key and its CSV with the second. */
  lemma ReusedIdSplitsKeys(env: Env, idBytes: Bytes, k1: Bytes, k2: Bytes, pub: Text, data: Text, csv: Text,
                           zip: Bytes, table: Bytes) returns (s: State)
    requires |idBytes| == 4 && env.ttl > 0.0 && |csv| > 0
    requires Decrypt.DecryptCombined(env.crypto, k1, data) == Some(zip)
    requires Decrypt.DecryptCombined(env.crypto, k2, csv) == Some(table)
    ensures Reachable(env, s) && |s.log| == 8 && !FreshIds(s.log)
    ensures s.log[7] == Executed(1, Bundle(SessionId(idBytes), data, csv), 3, zip, Some(6), Some(table), RunFailed)
    ensures s.log[3] == PrivateFetched(1, SessionId(idBytes), k1, 0.0)
    ensures s.log[6] == PrivateFetched(1, SessionId(idBytes), k2, 0.0)
    ensures k1 != k2 ==> forall c: nat :: !KeysAgree(env, s.log, 7, c)
  {
    hide Reachable, SessionId, Decrypt.DecryptCombined, Bundle;
    var sid := SessionId(idBytes);
    ReachInit(env);
    var s3 := CreateSession(env, INIT, 0, idBytes, k1, pub);
    var s6 := OpenBundle(env, s3, 1, sid, data, csv, zip);
    var s9 := CreateSession(env, s6, 2, idBytes, k2, pub);
    s := RunBundle(env, s9, 1, sid, data, csv, 3, zip, table);
    assert s.log[1].Created? && s.log[5].Created? && s.log[1].sid == s.log[5].sid;
    BundleSid(sid, data, csv);
  }

  lemma BundleSid(sid: Text, data: Text, csv: Text)
    ensures SidOf(Bundle(sid, data, csv)) == sid
  {
  }

  /** A request whose run failed removes the session of its id and ends. */
  lemma CleanUp(env: Env, s: State, t: nat, sid: Text, data: Text, csv: Text, x: nat) returns (s': State)
    requires Reachable(env, s) && t in s.threads && s.threads[t] == Thread(Bundle(sid, data, csv), Ran(x))
    requires x < |s.log| && s.log[x].Executed? && s.log[x].outcome.RunFailed?
    ensures Reachable(env, s') && s'.store == s.store - {sid} && s'.clock == s.clock
    ensures s'.log == s.log + [Deleted(t, sid, x), Finished(t, false)]
  {
    hide Reachable;
    s' := SessionCleaned(env, s, t, Bundle(sid, data, csv), sid, x);
  }

  /** Deletion by id alone also fails without fresh ids: a run in which the late cleanup of one request deletes the live
      session another request has just created under the same id, before any key of it was fetched. */
  lemma LateCleanupRemovesNewSession(env: Env, idBytes: Bytes, k1: Bytes, k2: Bytes, pub: Text, data: Text, csv: Text,
                                     zip: Bytes, table: Bytes) returns (s: State)
    requires |idBytes| == 4 && env.ttl > 0.0 && |csv| > 0
    requires Decrypt.DecryptCombined(env.crypto, k1, data) == Some(zip)
    requires Decrypt.DecryptCombined(env.crypto, k1, csv) == Some(table)
    ensures var sid := SessionId(idBytes); var redrawn := Session([], k2, pub, 0.0, env.ttl);
      && Reachable(env, s) && |s.log| == 10 && sid !in s.store && Live(redrawn, s.clock)
      && s.log[7] == Created(2, sid, redrawn) && s.log[8] == Deleted(1, sid, 5)
      && forall j :: 7 < j < 10 ==> !Fetches(s.log[j], sid)
  {
    hide Reachable, SessionId, Decrypt.DecryptCombined, Bundle;
    var sid := SessionId(idBytes);
    ReachInit(env);
    var s3 := CreateSession(env, INIT, 0, idBytes, k1, pub);
    var s6 := OpenBundle(env, s3, 1, sid, data, csv, zip);
    var s9 := RunBundle(env, s6, 1, sid, data, csv, 3, zip, table);
    var s12 := CreateSession(env, s9, 2, idBytes, k2, pub);
    assert s12.log[5] == s9.log[5];
    s := CleanUp(env, s12, 1, sid, data, csv, 5);
    assert s.log[7] == s12.log[7];
  }

  /** Fresh ids alone do not make sessions one-shot: two overlapping requests for one session, drawn once, are both
      executed. */
  lemma OverlappingExecutions(env: Env, idBytes: Bytes, key: Bytes, pub: Text, data: Text, csv: Text, zip: Bytes,
                              table: Bytes) returns (s: State)
    requires |idBytes| == 4 && env.ttl > 0.0 && |csv| > 0
    requires Decrypt.DecryptCombined(env.crypto, key, data) == Some(zip)
    requires Decrypt.DecryptCombined(env.crypto, key, csv) == Some(table)
    ensures Reachable(env, s) && |s.log| == 10 && FreshIds(s.log)
    ensures s.log[7] == Executed(1, Bundle(SessionId(idBytes), data, csv), 3, zip, Some(6), Some(table), RunFailed)
    ensures s.log[9] == Executed(2, Bundle(SessionId(idBytes), data, csv), 5, zip, Some(8), Some(table), RunFailed)
  {
    hide Reachable, SessionId, Decrypt.DecryptCombined, Bundle;
    var sid := SessionId(idBytes);
    ReachInit(env);
    var s1 := CreateSession(env, INIT, 0, idBytes, key, pub);
    var s2 := OpenBundle(env, s1, 1, sid, data, csv, zip);
    var s3 := OpenBundle(env, s2, 2, sid, data, csv, zip);
    var s4 := RunBundle(env, s3, 1, sid, data, csv, 3, zip, table);
    s := RunBundle(env, s4, 2, sid, data, csv, 5, zip, table);
    assert s.log[7] == s4.log[7];
    OneCreation(s.log, s1.log);
  }

  /** Entries after the first creation that create nothing leave ids fresh. */
  lemma OneCreation(log: seq<Event>, start: seq<Event>)
    requires |start| == 2 && start <= log && !start[0].Created?
    requires forall k :: 2 <= k < |log| ==> !log[k].Created?
    ensures FreshIds(log)
  {
  }
}
