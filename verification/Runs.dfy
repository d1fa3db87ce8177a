/** Theorems over every run: any interleaving of request threads, purges and clock ticks. */
module Runs {
  import opened Basics
  import opened SessionStore
  import opened Protocol
  import opened ProtocolInvariant
  import ProtocolSteps
  import Decrypt
  import Hex
  import Proof
  import Binding

  ghost predicate IsRun(env: Env, states: seq<State>, steps: seq<Step>) {
    && |states| == |steps| + 1 && states[0] == INIT
    && forall i :: 0 <= i < |steps| ==> Follows(env, states[i], steps[i], states[i + 1])
  }

  ghost predicate Follows(env: Env, s: State, step: Step, s': State) {
    ThreadsOk(s) && Enabled(env, s, step) && s' == Next(env, s, step)
  }

  /** Every state of every run meets the invariant. */
  lemma {:induction false} RunInv(env: Env, states: seq<State>, steps: seq<Step>, i: nat)
    requires IsRun(env, states, steps) && i < |states|
    ensures Inv(env, states[i])
  {
    hide Inv, Enabled, Next;
    if i == 0 {
      ProtocolSteps.InvInit(env);
    } else {
      RunInv(env, states, steps, i - 1);
      assert Follows(env, states[i - 1], steps[i - 1], states[i]);
      ProtocolSteps.InvStep(env, states[i - 1], steps[i - 1]);
    }
  }

  /** Any step enabled at the end of a run extends it. */
  lemma RunExtends(env: Env, states: seq<State>, steps: seq<Step>, step: Step)
    requires IsRun(env, states, steps) && Enabled(env, states[|steps|], step)
    ensures ThreadsOk(states[|steps|]) && IsRun(env, states + [Next(env, states[|steps|], step)], steps + [step])
  {
    hide Enabled, Next, ThreadsOk;
    RunInv(env, states, steps, |steps|);
    var s' := Next(env, states[|steps|], step);
    forall i | 0 <= i < |steps + [step]|
      ensures Follows(env, (states + [s'])[i], (steps + [step])[i], (states + [s'])[i + 1])
    {
      if i < |steps| { assert Follows(env, states[i], steps[i], states[i + 1]); }
    }
  }

  /** No run is stuck: time can pass at its end, and every request that has not ended can take its next step. */
  lemma RunContinues(env: Env, states: seq<State>, steps: seq<Step>, outside: Choice)
    requires IsRun(env, states, steps) && outside.outcome.RunFailed? && |outside.idBytes| == 4
    ensures ThreadsOk(states[|steps|])
    ensures var s := states[|steps|];
      && IsRun(env, states + [Next(env, s, Tick(0.0))], steps + [Tick(0.0)])
      && forall t :: t in s.threads && !s.threads[t].pc.Done? ==>
           IsRun(env, states + [Next(env, s, Go(t, outside))], steps + [Go(t, outside)])
  {
    hide Next, ThreadsOk, Follows;
    RunInv(env, states, steps, |steps|);
    var s := states[|steps|];
    RunExtends(env, states, steps, Tick(0.0));
    forall t | t in s.threads && !s.threads[t].pc.Done?
      ensures IsRun(env, states + [Next(env, s, Go(t, outside))], steps + [Go(t, outside)])
    {
      RunExtends(env, states, steps, Go(t, outside));
    }
  }

  // ---- purge transparency ----

  /** Wherever purges and lazy expiry fall, a lookup now or later answers as the store that knows only creations and
      explicit deletions would. */
  lemma PurgeTransparency(env: Env, states: seq<State>, steps: seq<Step>, i: nat, sid: Text, now: real)
    requires IsRun(env, states, steps) && i < |states| && now >= states[i].clock
    ensures Lookup(states[i].store, sid, now).1 == Lookup(Reference(states[i].log), sid, now).1
  {
    hide EventsOk, ThreadsOk, ThreadOk, Physical, Reference, IsRun;
    RunInv(env, states, steps, i);
    var s := states[i];
    if sid in Reference(s.log) && sid !in s.store { ExpiryIsFinal(Reference(s.log)[sid], s.clock, now); }
  }

  // ---- creations and removals ----

  predicate Creates(e: Event, sid: Text) { e.Created? && e.sid == sid }
  predicate Removes(e: Event, sid: Text) { (e.Deleted? && e.sid == sid) || (e.Dropped? && sid in e.sids) }
  predicate Fetches(e: Event, sid: Text) { (e.PrivateFetched? || e.PublicFetched?) && e.sid == sid }

  /** No session id is drawn twice; the source draws four random bytes without looking. */
  ghost predicate FreshIds(log: seq<Event>) {
    forall i, j :: 0 <= i < j < |log| && log[i].Created? && log[j].Created? ==> log[i].sid != log[j].sid
  }

  /** `c` is the last creation of `sid` before position `j`, and nothing removed it since. */
  ghost predicate Latest(log: seq<Event>, sid: Text, c: nat, j: nat) {
    && c < j <= |log| && Creates(log[c], sid)
    && forall k :: c < k < j ==> !Creates(log[k], sid) && !Removes(log[k], sid)
  }

  /** The dictionary holds the record of the latest creation. */
  lemma {:induction false} LatestCreation(log: seq<Event>, sid: Text, j: nat) returns (c: nat)
    requires j <= |log| && sid in Physical(log[..j])
    ensures Latest(log, sid, c, j) && log[c].session == Physical(log[..j])[sid]
  {
    hide Physical;
    EmptyPhysical();
    assert log[..0] == [];
    if j == 0 {
      assert false;
    } else {
      var e := log[j - 1];
      assert log[..j] == log[..j - 1] + [e];
      Appended(log[..j - 1], e);
      if Creates(e, sid) {
        c := j - 1;
      } else {
        c := LatestCreation(log, sid, j - 1);
      }
    }
  }

  lemma EmptyPhysical()
    ensures Physical([]) == map[]
  {
  }

  /** A fetch sees the latest creation, live: with or without fresh ids. */
  lemma FetchSeesLatest(env: Env, log: seq<Event>, i: nat) returns (c: nat)
    requires EventsOk(env, log) && i < |log| && (log[i].PrivateFetched? || log[i].PublicFetched?)
    ensures Latest(log, log[i].sid, c, i) && log[i].at - log[c].session.createdAt < log[c].session.ttl
    ensures log[i].PrivateFetched? ==> log[i].privateKey == log[c].session.privateKey
    ensures log[i].PublicFetched? ==> log[i].publicKey == log[c].session.publicKey
  {
    hide Physical, Grounded, AttestGrounded, Active;
    assert EventOk(env, log[..i], log[i]);
    c := LatestCreation(log, log[i].sid, i);
  }

  /** Nothing is removed that had not been created. */
  lemma RemovedWasCreated(env: Env, log: seq<Event>, d: nat, sid: Text) returns (c: nat)
    requires EventsOk(env, log) && d < |log| && Removes(log[d], sid)
    ensures c < d && Creates(log[c], sid)
  {
    hide Physical, AttestGrounded, Active, HasRun, Decrypt.DecryptCombined, Binding.IsCollected;
    assert EventOk(env, log[..d], log[d]);
    if log[d].Dropped? {
      c := LatestCreation(log, sid, d);
    } else {
      var x := log[d].runAt;
      assert log[..d][x] == log[x];
      assert EventOk(env, log[..x], log[x]);
      var z := log[x].zipAt;
      assert log[..x][z] == log[z];
      c := FetchSeesLatest(env, log, z);
    }
  }

  /** A key fetched for an id after a removal of it is that of a session created in between. */
  lemma FetchAfterRemoval(env: Env, log: seq<Event>, d: nat, sid: Text, i: nat) returns (c: nat)
    requires EventsOk(env, log) && d < i < |log| && Removes(log[d], sid) && Fetches(log[i], sid)
    ensures d < c < i && Creates(log[c], sid)
    ensures log[i].PrivateFetched? ==> log[i].privateKey == log[c].session.privateKey
    ensures log[i].PublicFetched? ==> log[i].publicKey == log[c].session.publicKey
  {
    hide EventsOk;
    c := FetchSeesLatest(env, log, i);
  }

  /** A removal is final until the id is drawn again, and for good if ids are fresh. */
  lemma RemovalIsFinal(env: Env, log: seq<Event>, d: nat, sid: Text, i: nat)
    requires EventsOk(env, log) && d < i < |log| && Removes(log[d], sid)
    ensures Fetches(log[i], sid) ==> CreatedBetween(log, sid, d, i)
    ensures FreshIds(log) ==> !Fetches(log[i], sid)
  {
    hide EventsOk;
    if Fetches(log[i], sid) {
      var c := FetchAfterRemoval(env, log, d, sid, i);
      var c0 := RemovedWasCreated(env, log, d, sid);
      assert log[c0].Created? && log[c].Created? && log[c0].sid == log[c].sid;
    }
  }

  ghost predicate CreatedBetween(log: seq<Event>, sid: Text, d: nat, i: nat) {
    exists c :: d < c < i && c < |log| && Creates(log[c], sid)
  }

  /** Which session a cleanup removes: that of the latest creation of the id. It is the one whose key the cleaning
      thread's own run used exactly when the id was not drawn again between that fetch and the cleanup. */
  lemma CleanupRemoves(env: Env, log: seq<Event>, d: nat) returns (own: nat, gone: nat)
    requires EventsOk(env, log) && d < |log| && log[d].Deleted? && log[d].sid in Physical(log[..d])
    ensures log[d].runAt < d && log[log[d].runAt].Executed? && log[log[d].runAt].zipAt < log[d].runAt
    ensures var sid, x := log[d].sid, log[d].runAt;
      && SidOf(log[x].request) == sid && log[x].t == log[d].t
      && Latest(log, sid, own, log[x].zipAt) && Latest(log, sid, gone, d)
      && log[log[x].zipAt].PrivateFetched? && log[log[x].zipAt].privateKey == log[own].session.privateKey
      && log[gone].session == Physical(log[..d])[sid]
      && Physical(log[..d + 1]) == Physical(log[..d]) - {sid}
      && (own == gone <==> forall k :: log[x].zipAt < k < d ==> !Creates(log[k], sid))
  {
    hide EventsOk, Physical, Decrypt.DecryptCombined, Binding.IsCollected, Active, HasRun, Live;
    var sid, x := log[d].sid, log[d].runAt;
    DeletedFacts(env, log, d);
    RunFacts(env, log, x);
    own := FetchSeesLatest(env, log, log[x].zipAt);
    gone := LatestCreation(log, sid, d);
    assert log[..d + 1] == log[..d] + [log[d]];
    Appended(log[..d], log[d]);
  }

  lemma DeletedFacts(env: Env, log: seq<Event>, d: nat)
    requires EventsOk(env, log) && d < |log| && log[d].Deleted?
    ensures var x := log[d].runAt;
      x < d && log[x].Executed? && log[x].t == log[d].t && SidOf(log[x].request) == log[d].sid
  {
    hide Physical, Grounded, AttestGrounded;
    assert EventOk(env, log[..d], log[d]);
    assert log[..d][log[d].runAt] == log[log[d].runAt];
  }

  // ---- key agreement ----

  /** The only creation of an id. */
  ghost predicate OnlyCreation(log: seq<Event>, sid: Text, c: nat) {
    c < |log| && Creates(log[c], sid) && forall k :: 0 <= k < |log| && Creates(log[k], sid) ==> k == c
  }

  /** A fetch of the private key of `session`, while it was live and before anything removed it. */
  ghost predicate GoodFetch(log: seq<Event>, t: nat, sid: Text, session: Session, i: nat) {
    && i < |log| && log[i].PrivateFetched? && log[i].t == t && log[i].sid == sid
    && log[i].privateKey == session.privateKey && log[i].at - session.createdAt < session.ttl
    && forall d :: 0 <= d < i ==> !Removes(log[d], sid)
  }

  /** The run at `x` opened both payloads with the one key stored at `c`, whose public half is all that was ever shown.
      */
  ghost predicate KeysAgree(env: Env, log: seq<Event>, x: nat, c: nat)
    requires x < |log| && log[x].Executed?
  {
    var run := log[x];
    var r, sid := run.request, SidOf(run.request);
    && r.Execute? && WellFormed(r) && FormOfId(sid) && OnlyCreation(log, sid, c) && c < run.zipAt < x
    && var session := log[c].session;
    && GoodFetch(log, run.t, sid, session, run.zipAt)
    && Some(run.zip) == Decrypt.DecryptCombined(env.crypto, session.privateKey, r.data.value)
    && (run.csvAt.Some? <==> Proof.Given(r.csv))
    && (run.csvAt.Some? ==>
        && run.zipAt < run.csvAt.value < x
        && GoodFetch(log, run.t, sid, session, run.csvAt.value)
        && run.csv.Some? && run.csv == Decrypt.DecryptCombined(env.crypto, session.privateKey, r.csv.value))
    && (run.csvAt.None? ==> run.csv.None?)
    && (forall p :: 0 <= p < |log| && log[p].PublicFetched? && log[p].sid == sid ==>
          log[p].publicKey == session.publicKey)
  }

  lemma FetchIsGood(env: Env, log: seq<Event>, i: nat, c: nat)
    requires EventsOk(env, log) && FreshIds(log) && i < |log| && log[i].PrivateFetched?
    requires Latest(log, log[i].sid, c, i) && log[i].at - log[c].session.createdAt < log[c].session.ttl
    requires log[i].privateKey == log[c].session.privateKey
    ensures GoodFetch(log, log[i].t, log[i].sid, log[c].session, i) && OnlyCreation(log, log[i].sid, c)
  {
    hide EventsOk;
    forall d | 0 <= d < i ensures !Removes(log[d], log[i].sid) {
      if Removes(log[d], log[i].sid) { RemovalIsFinal(env, log, d, log[i].sid, i); }
    }
  }

  /** What an execution's own event says, in positions of the whole log. */
  lemma RunFacts(env: Env, log: seq<Event>, x: nat)
    requires EventsOk(env, log) && x < |log| && log[x].Executed?
    ensures log[x].zipAt < x && (log[x].csvAt.Some? ==> log[x].zipAt < log[x].csvAt.value < x)
    ensures Grounded(env, log, log[x].t, log[x].request, log[x].zipAt, log[x].zip, log[x].csvAt, log[x].csv)
    ensures log[x].outcome.RunOk? ==> Binding.IsCollected(env.h, log[x].outcome.files)
    ensures Active(log[..x], log[x].t) && !HasRun(log[..x], log[x].t)
  {
    hide Physical, AttestGrounded, Active, HasRun, Decrypt.DecryptCombined, Binding.IsCollected, CleanedAfter;
    assert EventOk(env, log[..x], log[x]);
    assert forall i :: 0 <= i < x ==> log[..x][i] == log[i];
  }

  /** "rsa-session-" and eight lower-case hex digits. */
  predicate FormOfId(sid: Text) {
    && |sid| == 20 && sid[..12] == A("rsa-session-")
    && forall i :: 12 <= i < 20 ==> 0x30 <= sid[i] <= 0x39 || 0x61 <= sid[i] <= 0x66
  }

  lemma SessionIdForm(sid: Text)
    requires IsSessionId(sid)
    ensures FormOfId(sid)
  {
    hide Hex.Encode;
    var b: Bytes :| |b| == 4 && sid == SessionId(b);
    assert |A("rsa-session-")| == 12;
    forall i | 12 <= i < 20 ensures 0x30 <= sid[i] <= 0x39 || 0x61 <= sid[i] <= 0x66 {
      assert sid[i] == Hex.Encode(b)[i - 12];
    }
  }

  lemma CreatedIds(env: Env, log: seq<Event>, c: nat)
    requires EventsOk(env, log) && c < |log| && log[c].Created?
    ensures IsSessionId(log[c].sid)
  {
    hide IsSessionId;
    assert EventOk(env, log[..c], log[c]);
  }

  /** Key agreement, for logs. */
  lemma ExecutionKeys(env: Env, log: seq<Event>, x: nat) returns (c: nat)
    requires EventsOk(env, log) && FreshIds(log) && x < |log| && log[x].Executed?
    ensures KeysAgree(env, log, x, c)
  {
    hide EventsOk, FreshIds, Decrypt.DecryptCombined, WellFormed, Binding.IsCollected, Active, HasRun, GoodFetch,
      SidOf, Latest, Live, IsSessionId, FormOfId;
    RunFacts(env, log, x);
    var run := log[x];
    c := FetchSeesLatest(env, log, run.zipAt);
    assert Latest(log, SidOf(run.request), c, run.zipAt);
    assert c < run.zipAt by { LatestBefore(log, SidOf(run.request), c, run.zipAt); }
    FetchIsGood(env, log, run.zipAt, c);
    CreatedIds(env, log, c);
    SessionIdForm(log[c].sid);
    if run.csvAt.Some? {
      var c2 := FetchSeesLatest(env, log, run.csvAt.value);
      FetchIsGood(env, log, run.csvAt.value, c2);
      assert c2 == c;
      assert log[run.csvAt.value].privateKey == log[c].session.privateKey;
    }
    forall p | 0 <= p < |log| && log[p].PublicFetched? && log[p].sid == SidOf(run.request)
      ensures log[p].publicKey == log[c].session.publicKey
    {
      var c3 := FetchSeesLatest(env, log, p);
      LatestBefore(log, log[p].sid, c3, p);
    }
  }

  lemma LatestBefore(log: seq<Event>, sid: Text, c: nat, j: nat)
    requires Latest(log, sid, c, j)
    ensures c < j <= |log| && Creates(log[c], sid)
  {
  }

  /** On every run with fresh ids, every execution used the one key stored when its session was created. */
  lemma KeyAgreement(env: Env, states: seq<State>, steps: seq<Step>, i: nat, x: nat) returns (c: nat)
    requires IsRun(env, states, steps) && i < |states| && FreshIds(states[i].log)
    requires x < |states[i].log| && states[i].log[x].Executed?
    ensures KeysAgree(env, states[i].log, x, c)
  {
    hide IsRun, StoreOk, EventsOk, ThreadOk, KeysAgree, FreshIds;
    RunInv(env, states, steps, i);
    c := ExecutionKeys(env, states[i].log, x);
  }

  /** Without assuming fresh ids: the ZIP and the CSV key stem from one creation exactly when the id was not drawn again
      between the two fetches. */
  lemma AgreementExactly(env: Env, log: seq<Event>, x: nat) returns (cz: nat, cc: nat)
    requires EventsOk(env, log) && x < |log| && log[x].Executed? && log[x].csvAt.Some?
    ensures log[x].zipAt < log[x].csvAt.value < x
    ensures log[x].request.Execute? && log[x].request.data.Some? && log[x].request.csv.Some?
    ensures var sid := SidOf(log[x].request);
      && Latest(log, sid, cz, log[x].zipAt) && Latest(log, sid, cc, log[x].csvAt.value)
      && Decrypt.DecryptCombined(env.crypto, log[cz].session.privateKey, log[x].request.data.value) == Some(log[x].zip)
      && Decrypt.DecryptCombined(env.crypto, log[cc].session.privateKey, log[x].request.csv.value) == log[x].csv
      && (cz == cc <==> forall k :: log[x].zipAt < k < log[x].csvAt.value ==> !Creates(log[k], sid))
  {
    hide EventsOk, Decrypt.DecryptCombined, Binding.IsCollected, Active, HasRun, Live;
    RunFacts(env, log, x);
    cz := FetchSeesLatest(env, log, log[x].zipAt);
    cc := FetchSeesLatest(env, log, log[x].csvAt.value);
  }

  // ---- one-shot sessions ----

  /** A thread that executed and finished deleted its session in between, however the run and the attestation went. */
  lemma ExecutedThenDeleted(env: Env, log: seq<Event>, x: nat, f: nat)
    requires EventsOk(env, log) && x < |log| && f < |log|
    requires log[x].Executed? && log[f].Finished? && log[f].t == log[x].t
    ensures exists d :: x < d < f && log[d] == Deleted(log[x].t, SidOf(log[x].request), x)
  {
    hide Physical, AttestGrounded, Grounded, Decrypt.DecryptCombined, Binding.IsCollected, EventsOk;
    RunFacts(env, log, x);
    forall k | 0 <= k < x && log[k].Finished? ensures log[k].t != log[x].t {
      assert log[..x][k] == log[k];
    }
    assert x < f;
    FinishedFacts(env, log, f);
    assert log[..f][x] == log[x];
    var d :| x < d < |log[..f]| && log[..f][d] == Deleted(log[x].t, SidOf(log[x].request), x);
    assert log[d] == log[..f][d];
  }

  lemma FinishedFacts(env: Env, log: seq<Event>, f: nat)
    requires EventsOk(env, log) && f < |log| && log[f].Finished?
    ensures forall x :: 0 <= x < |log[..f]| && log[..f][x].Executed? && log[..f][x].t == log[f].t ==>
      CleanedAfter(log[..f], x)
  {
    hide Physical, AttestGrounded, Grounded, CleanedAfter;
    assert EventOk(env, log[..f], log[f]);
  }

  /** One-shot sessions, on every run: an executing thread that has finished deleted its session, and from then on a
      key, public or private, is fetched for that id only if the id was drawn again in between; never if ids are fresh.
      */
  lemma OneShot(env: Env, states: seq<State>, steps: seq<Step>, i: nat, x: nat, f: nat) returns (d: nat)
    requires IsRun(env, states, steps) && i < |states|
    requires var log := states[i].log;
      x < |log| && f < |log| && log[x].Executed? && log[f].Finished? && log[f].t == log[x].t
    ensures var log := states[i].log; var sid := SidOf(log[x].request);
      && x < d < f && log[d] == Deleted(log[x].t, sid, x)
      && (forall j :: d < j < |log| && Fetches(log[j], sid) ==> CreatedBetween(log, sid, d, j))
      && (FreshIds(log) ==> forall j :: d < j < |log| ==> !Fetches(log[j], sid))
  {
    hide IsRun, StoreOk, EventsOk, ThreadOk, FreshIds, CreatedBetween;
    RunInv(env, states, steps, i);
    var log := states[i].log;
    var sid := SidOf(log[x].request);
    ExecutedThenDeleted(env, log, x, f);
    d :| x < d < f && log[d] == Deleted(log[x].t, sid, x);
    forall j | d < j < |log|
      ensures Fetches(log[j], sid) ==> CreatedBetween(log, sid, d, j)
      ensures FreshIds(log) ==> !Fetches(log[j], sid)
    {
      RemovalIsFinal(env, log, d, sid, j);
    }
  }

  /** Overlapping or not, every execution fetched its keys before anything removed its session. */
  lemma FetchedBeforeRemoval(env: Env, states: seq<State>, steps: seq<Step>, i: nat, x: nat, d: nat)
    requires IsRun(env, states, steps) && i < |states| && FreshIds(states[i].log)
    requires var log := states[i].log;
      x < |log| && log[x].Executed? && d < |log| && Removes(log[d], SidOf(log[x].request))
    ensures var run := states[i].log[x]; run.zipAt < d && (run.csvAt.Some? ==> run.csvAt.value < d)
  {
    hide IsRun, FreshIds, OnlyCreation, Decrypt.DecryptCombined, Live;
    var c := KeyAgreement(env, states, steps, i, x);
  }

  /** `d` is the deletion that ends the execution at `x`. */
  predicate EndsAt(log: seq<Event>, x: nat, d: nat) {
    x < |log| && d < |log| && log[x].Executed? && log[d].Deleted? && log[d].runAt == x
  }

  /** Two executions of one session id, whether ids are fresh or not: each fetched its keys before the other's
      deletion, or the id was drawn again in between. */
  lemma ExecutionsOfOneId(env: Env, log: seq<Event>, x: nat, dx: nat, y: nat)
    requires EventsOk(env, log) && EndsAt(log, x, dx) && y < |log| && log[y].Executed?
    requires SidOf(log[x].request) == SidOf(log[y].request)
    ensures var sid := SidOf(log[x].request);
      && log[y].zipAt < y
      && (log[y].zipAt < dx || CreatedBetween(log, sid, dx, log[y].zipAt))
      && (log[y].csvAt.Some? ==> log[y].csvAt.value < dx || CreatedBetween(log, sid, dx, log[y].csvAt.value))
      && (FreshIds(log) ==> log[y].zipAt < dx && (log[y].csvAt.Some? ==> log[y].csvAt.value < dx))
  {
    hide EventsOk, Decrypt.DecryptCombined, Binding.IsCollected, Active, HasRun, FreshIds, CreatedBetween;
    var sid := SidOf(log[x].request);
    DeletedFacts(env, log, dx);
    RunFacts(env, log, y);
    if dx < log[y].zipAt { RemovalIsFinal(env, log, dx, sid, log[y].zipAt); }
    if log[y].csvAt.Some? && dx < log[y].csvAt.value { RemovalIsFinal(env, log, dx, sid, log[y].csvAt.value); }
  }

  /** On every run with fresh ids, executions whose spans from ZIP fetch to deletion do not overlap are of different
      sessions. */
  lemma DisjointExecutionsDiffer(env: Env, states: seq<State>, steps: seq<Step>, i: nat, x: nat, dx: nat, y: nat,
                                dy: nat)
    requires IsRun(env, states, steps) && i < |states| && FreshIds(states[i].log)
    requires EndsAt(states[i].log, x, dx) && EndsAt(states[i].log, y, dy)
    requires dx < states[i].log[y].zipAt || dy < states[i].log[x].zipAt
    ensures SidOf(states[i].log[x].request) != SidOf(states[i].log[y].request)
  {
    hide IsRun, StoreOk, EventsOk, ThreadOk, FreshIds, SidOf;
    RunInv(env, states, steps, i);
    var log := states[i].log;
    if SidOf(log[x].request) == SidOf(log[y].request) {
      ExecutionsOfOneId(env, log, x, dx, y);
      ExecutionsOfOneId(env, log, y, dy, x);
    }
  }

  /** Every request has finished before the next one arrives. */
  ghost predicate Sequential(log: seq<Event>) {
    forall i, j :: 0 <= i < j < |log| && log[i].Arrived? && log[j].Arrived? ==>
      exists f :: i < f < j && log[f].Finished? && log[f].t == log[i].t
  }

  lemma ArrivedOnce(env: Env, log: seq<Event>, i: nat, j: nat)
    requires EventsOk(env, log) && i < |log| && j < |log| && log[i].Arrived? && log[j] == log[i]
    ensures i == j
  {
    hide Physical, AttestGrounded, Grounded;
    assert EventOk(env, log[..i], log[i]) && EventOk(env, log[..j], log[j]);
    forall k | 0 <= k < j ensures log[k] != log[j] { assert log[..j][k] == log[k]; }
    forall k | 0 <= k < i ensures log[k] != log[i] { assert log[..i][k] == log[k]; }
  }

  /** A thread acts only between its arrival and its end. */
  lemma ActsWhileActive(env: Env, log: seq<Event>, a: nat, i: nat)
    requires EventsOk(env, log) && a < |log| && i < |log| && (log[i].PrivateFetched? || log[i].Executed?)
    requires log[a] == Arrived(log[i].t)
    ensures a < i && forall f :: 0 <= f < i && log[f].Finished? ==> log[f].t != log[i].t
  {
    hide Physical, AttestGrounded, Grounded;
    assert EventOk(env, log[..i], log[i]);
    assert Active(log[..i], log[i].t);
    var b :| 0 <= b < i && log[b] == Arrived(log[i].t);
    ArrivedOnce(env, log, a, b);
    forall f | 0 <= f < i && log[f].Finished? ensures log[f].t != log[i].t {
      assert log[..i][f] == log[f];
    }
  }

  lemma ArrivalOf(env: Env, log: seq<Event>, x: nat) returns (a: nat)
    requires EventsOk(env, log) && x < |log| && log[x].Executed?
    ensures a < x && log[a] == Arrived(log[x].t)
  {
    hide EventsOk, Grounded, HasRun, HasFinished;
    RunFacts(env, log, x);
    a :| 0 <= a < x && log[a] == Arrived(log[x].t);
  }

  /** When requests do not overlap, a session is executed at most once. */
  lemma ExecutedAtMostOnce(env: Env, log: seq<Event>, x: nat, y: nat)
    requires EventsOk(env, log) && FreshIds(log) && Sequential(log)
    requires x < y < |log| && log[x].Executed? && log[y].Executed?
    ensures SidOf(log[x].request) != SidOf(log[y].request)
  {
    hide EventsOk, FreshIds, Active, Decrypt.DecryptCombined, Binding.IsCollected, SidOf, HasFinished;
    RunFacts(env, log, x);
    RunFacts(env, log, y);
    assert log[..y][x] == log[x];
    assert log[x].t != log[y].t;
    var i := ArrivalOf(env, log, x);
    var j := ArrivalOf(env, log, y);
    var z := log[y].zipAt;
    ActsWhileActive(env, log, i, x);
    ActsWhileActive(env, log, j, y);
    ActsWhileActive(env, log, j, z);
    if j < i {
      assert false;
    } else {
      var f :| i < f < j && log[f].Finished? && log[f].t == log[i].t;
      ExecutedThenDeleted(env, log, x, f);
      var d :| x < d < f && log[d] == Deleted(log[x].t, SidOf(log[x].request), x);
      RemovalIsFinal(env, log, d, SidOf(log[x].request), z);
    }
  }

  lemma SequentialRunsExecuteOnce(env: Env, states: seq<State>, steps: seq<Step>, i: nat, x: nat, y: nat)
    requires IsRun(env, states, steps) && i < |states| && FreshIds(states[i].log) && Sequential(states[i].log)
    requires var log := states[i].log; x < |log| && y < |log| && log[x].Executed? && log[y].Executed?
    requires SidOf(states[i].log[x].request) == SidOf(states[i].log[y].request)
    ensures x == y
  {
    hide IsRun, StoreOk, EventsOk, ThreadOk, FreshIds, Sequential, SidOf;
    RunInv(env, states, steps, i);
    if x < y { ExecutedAtMostOnce(env, states[i].log, x, y); }
    if y < x { ExecutedAtMostOnce(env, states[i].log, y, x); }
  }

  // ---- every request ends ----

  /** The most steps a thread can still take. */
  function Rank(pc: Pc): nat {
    match pc
    case Start => 7
    case Drawn(_, _) => 3
    case Inserted(_) => 2
    case KeyShown(_) => 1
    case ZipKeyed(_) => 6
    case ZipOpen(_, _) => 5
    case CsvKeyed(_, _, _) => 4
    case Ready(_, _, _, _) => 3
    case Ran(_) => 2
    case Cleaned(_) => 1
    case Done(_) => 0
  }

  /** Only thread `t` moved, and it came nearer its end. */
  ghost predicate Lowers(s: State, s': State, t: nat) {
    && t in s.threads && t in s'.threads && Rank(s'.threads[t].pc) < Rank(s.threads[t].pc)
    && s'.threads == s.threads[t := Thread(s.threads[t].request, s'.threads[t].pc)]
  }

  lemma FetchLowers(s: State, t: nat, sid: Text)
    requires t in s.threads
    ensures forall missing :: Rank(s.threads[t].pc) > 1 ==> Lowers(s, FetchPublic(s, t, sid, missing), t)
    ensures Rank(s.threads[t].pc) > 6 ==> Lowers(s, FetchPrivate(s, t, sid, None), t)
    ensures forall z, zip :: Rank(s.threads[t].pc) > 4 ==> Lowers(s, FetchPrivate(s, t, sid, Some((z, zip))), t)
  {
  }

  lemma OpenLowers(env: Env, s: State, t: nat, c: Choice)
    requires t in s.threads && PcOk(s.log, t, s.threads[t])
    requires s.threads[t].pc.ZipKeyed? || s.threads[t].pc.CsvKeyed?
    ensures Lowers(s, Advance(env, s, t, c), t)
  {
    hide Decrypt.DecryptCombined, KeyUserData, AttestRun, Begin, FetchPublic, FetchPrivate;
  }

  lemma AttestLowers(env: Env, s: State, t: nat, c: Choice)
    requires t in s.threads && PcOk(s.log, t, s.threads[t])
    requires s.threads[t].pc.Cleaned? || s.threads[t].pc.KeyShown?
    ensures Lowers(s, Advance(env, s, t, c), t)
  {
    hide Proof.ProofOf, RunExecution, KeyUserData, OpenZip, OpenCsv, Begin, FetchPublic, FetchPrivate;
  }

  lemma BeginLowers(env: Env, s: State, t: nat, c: Choice)
    requires t in s.threads && s.threads[t].pc.Start?
    ensures Lowers(s, Begin(env, s, t, c), t)
  {
    hide FetchPublic, FetchPrivate, Lowers;
    FetchLowers(s, t, SidOf(s.threads[t].request));
    QuickLowers(s, t);
  }

  lemma QuickLowers(s: State, t: nat)
    requires t in s.threads && !s.threads[t].pc.Done?
    ensures forall ok :: Lowers(s, Finish(s, t, [], ok), t)
    ensures forall sid, session :: s.threads[t].pc.Start? ==> Lowers(s, Move(s, t, [], Drawn(sid, session)), t)
  {
  }

  lemma MoveLowers(env: Env, s: State, t: nat, c: Choice)
    requires t in s.threads && PcOk(s.log, t, s.threads[t]) && !s.threads[t].pc.Done?
    ensures Lowers(s, Advance(env, s, t, c), t)
  {
    hide Begin, FetchPublic, FetchPrivate, OpenZip, OpenCsv, AttestRun, KeyUserData;
    match s.threads[t].pc
    case Start => BeginLowers(env, s, t, c);
    case Inserted(sid) => FetchLowers(s, t, sid);
    case ZipOpen(_, _) => FetchLowers(s, t, SidOf(s.threads[t].request));
    case ZipKeyed(_) => OpenLowers(env, s, t, c);
    case CsvKeyed(_, _, _) => OpenLowers(env, s, t, c);
    case Cleaned(_) => AttestLowers(env, s, t, c);
    case KeyShown(_) => AttestLowers(env, s, t, c);
    case _ =>
  }

  /** Each step of a thread brings it nearer its end, and steps of others leave it where it is. */
  lemma StepLowers(env: Env, s: State, step: Step, t: nat)
    requires ThreadsOk(s) && Enabled(env, s, step) && t in s.threads
    ensures t in Next(env, s, step).threads
    ensures step.Go? && step.t == t ==> Rank(Next(env, s, step).threads[t].pc) < Rank(s.threads[t].pc)
    ensures !(step.Go? && step.t == t) ==> Next(env, s, step).threads[t] == s.threads[t]
  {
    hide Advance, PcOk, Expired, Binding.IsCollected, Rank;
    if step.Go? { MoveLowers(env, s, step.t, step.choice); }
  }

  /** A thread that is not there stays away until it arrives, and arrives at its start. */
  lemma StepArrives(env: Env, s: State, step: Step, t: nat)
    requires ThreadsOk(s) && Enabled(env, s, step) && t !in s.threads
    ensures !(step.Go? && step.t == t)
    ensures t in Next(env, s, step).threads ==> Next(env, s, step).threads[t].pc.Start?
  {
    hide Advance, PcOk, Expired, Binding.IsCollected, Rank;
    if step.Go? { MoveLowers(env, s, step.t, step.choice); }
  }

  /** How often thread `t` moved. */
  function Turns(steps: seq<Step>, t: nat): nat {
    if steps == [] then 0
    else
      var last := steps[|steps| - 1];
      Turns(steps[..|steps| - 1], t) + if last.Go? && last.t == t then 1 else 0
  }

  /** Every request ends: on every run a thread has taken at most seven steps, and the ones it took and the most it can
      still take make at most seven; so after seven it is done. */
  lemma {:induction false} ThreadsEnd(env: Env, states: seq<State>, steps: seq<Step>, i: nat, t: nat)
    requires IsRun(env, states, steps) && i < |states|
    ensures t in states[i].threads ==> Turns(steps[..i], t) + Rank(states[i].threads[t].pc) <= 7
    ensures t !in states[i].threads ==> Turns(steps[..i], t) == 0
    ensures Turns(steps[..i], t) <= 7
  {
    hide Enabled, Next, Rank, ThreadsOk;
    if i > 0 {
      ThreadsEnd(env, states, steps, i - 1, t);
      assert Follows(env, states[i - 1], steps[i - 1], states[i]);
      assert steps[..i][..i - 1] == steps[..i - 1];
      if t in states[i - 1].threads {
        StepLowers(env, states[i - 1], steps[i - 1], t);
      } else {
        StepArrives(env, states[i - 1], steps[i - 1], t);
        StartRank();
      }
    } else {
      assert steps[..0] == [];
    }
  }

  lemma StartRank()
    ensures Rank(Start) == 7
  {
  }
}
