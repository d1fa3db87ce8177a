/** What is attested on any run, and what a verifier of it learns. */
module AttestedRuns {
  import opened Basics
  import opened SessionStore
  import opened Protocol
  import opened ProtocolInvariant
  import opened Runs
  import Proof
  import Binding
  import Manifest
  import JsonRoundTrip
  import Hex
  import Json
  import Requests
  import Utf8

  /** The fetch at `at` showed the key of the session created at `c`, which was live and had not been removed. */
  ghost predicate LiveKey(log: seq<Event>, at: nat, sid: Text, c: nat) {
    && at < |log| && log[at].PublicFetched? && log[at].sid == sid
    && Latest(log, sid, c, at) && log[at].at - log[c].session.createdAt < log[c].session.ttl
  }

  /** The user data attested at `i`, by kind of request: it depends on the caller only through which session or run is
      attested and through the nonce and context of a run. */
  ghost predicate Scoped(env: Env, log: seq<Event>, i: nat)
    requires i < |log| && log[i].Attested?
  {
    var e := log[i];
    && e.from < i && WellFormed(e.request)
    && match e.request
       case Proxy(_, _) =>
         && log[e.from].PublicFetched? && Drew(log[..i], e.t, log[e.from].sid)
         && exists c: nat ::
           && LiveKey(log, e.from, log[e.from].sid, c)
           && Utf8.Encode(log[c].session.publicKey).Some?
           && e.userData == env.h(Utf8.Encode(log[c].session.publicKey).value)
       case Attestation(sid, hasUserData) =>
         sid.Some? && !hasUserData &&
         exists c: nat ::
           && LiveKey(log, e.from, sid.value, c)
           && e.userData == SessionJson(log[c].session.publicKey, sid.value)
       case Execute(sid, _, _, _, contextHash) =>
         var run := log[e.from];
         && run.Executed? && run.t == e.t && run.request == e.request && run.outcome.RunOk?
         && exists nonce ::
           && ExternalNonce(e.request) == Some(nonce)
           && IsProofOf(
             env,
             Binding.AttestedExecution(env.h, sid.value, run.outcome.output, run.outcome.files, run.zip, run.csv, nonce,
                                       contextHash),
             e)
       case _ => false
  }

  ghost predicate IsProofOf(env: Env, x: Proof.Execution, e: Event)
    requires e.Attested?
  {
    var p := Proof.ProofOf(env.h, x, e.stamp, e.urandom);
    p.Some? && e.userData == Proof.ProofBytes(p.value)
  }

  lemma AttestedFacts(env: Env, log: seq<Event>, i: nat)
    requires EventsOk(env, log) && i < |log| && log[i].Attested?
    ensures AttestGrounded(env, log[..i], log[i])
    ensures log[i].from < i && log[..i][log[i].from] == log[log[i].from]
  {
    hide Physical, Grounded;
    assert EventOk(env, log[..i], log[i]);
  }

  lemma AttestedScope(env: Env, log: seq<Event>, i: nat)
    requires EventsOk(env, log) && i < |log| && log[i].Attested?
    ensures Scoped(env, log, i)
  {
    hide EventsOk, Proof.ProofOf, Proof.ProofBytes, Utf8.Encode, SessionJson, Binding.AttestedExecution, Latest, Live;
    AttestedFacts(env, log, i);
    var e := log[i];
    if log[e.from].PublicFetched? {
      var c := FetchSeesLatest(env, log, e.from);
      LatestBefore(log, log[e.from].sid, c, e.from);
      assert LiveKey(log, e.from, log[e.from].sid, c);
    }
  }

  /** On every run, all user data handed to the attestation device is the hash of a session key the same request drew
      an id for, the record of a session live at lookup by a request that brought no user data, or the proof of a run
      that succeeded. */
  lemma AttestationScope(env: Env, states: seq<State>, steps: seq<Step>, i: nat, a: nat)
    requires IsRun(env, states, steps) && i < |states| && a < |states[i].log| && states[i].log[a].Attested?
    ensures Scoped(env, states[i].log, a)
  {
    hide IsRun, StoreOk, EventsOk, ThreadOk, Scoped;
    RunInv(env, states, steps, i);
    AttestedScope(env, states[i].log, a);
  }

  /** With fresh ids, the key whose hash a proxy request has attested is the one that request itself generated. */
  lemma ProxyAttestsItsOwnKey(env: Env, log: seq<Event>, i: nat) returns (c: nat)
    requires EventsOk(env, log) && FreshIds(log) && i < |log| && log[i].Attested? && log[i].request.Proxy?
    ensures c < i && log[c].Created? && log[c].t == log[i].t
    ensures Utf8.Encode(log[c].session.publicKey).Some?
    ensures log[i].userData == env.h(Utf8.Encode(log[c].session.publicKey).value)
  {
    hide EventsOk, Utf8.Encode, Live;
    AttestedScope(env, log, i);
    var sid := log[log[i].from].sid;
    var c0: nat :| LiveKey(log, log[i].from, sid, c0)
      && Utf8.Encode(log[c0].session.publicKey).Some?
      && log[i].userData == env.h(Utf8.Encode(log[c0].session.publicKey).value);
    var c1 :| 0 <= c1 < i && log[..i][c1].Created? && log[..i][c1].t == log[i].t && log[..i][c1].sid == sid;
    assert log[..i][c1] == log[c1];
    assert c0 == c1;
    c := c0;
  }

  /** The record of a session reads back as its key and id exactly when neither holds an adjacent surrogate pair, so two
      such records are equal only for the same key and id. */
  lemma SessionRecordReads(publicKey: Text, sid: Text)
    ensures Json.Loads(SessionJson(publicKey, sid)) ==
            Some(Json.Obj([Keyed(A("public_key"), Json.Str(publicKey)), Keyed(A("session_id"), Json.Str(sid))]))
            <==> JsonRoundTrip.Unpaired(publicKey) && JsonRoundTrip.Unpaired(sid)
  {
    hide A, Json.Loads, Json.Dumps, JsonRoundTrip.Unpaired;
    var ms := [Keyed(A("public_key"), Json.Str(publicKey)), Keyed(A("session_id"), Json.Str(sid))];
    Manifest.BytesUnpaired(A("public_key"));
    Manifest.BytesUnpaired(A("session_id"));
    JsonRoundTrip.RoundTripExactly(Json.Obj(ms), Json.Spaced);
    assert ms[0] in ms && ms[1] in ms;
  }

  // ---- responses ----

  /** The event at `a` attests the run at `x`. */
  predicate AttestsRun(log: seq<Event>, a: nat, x: nat) {
    a < |log| && log[a].Attested? && log[a].from == x < |log| && log[x].Executed?
  }

  lemma SessionIdUnpaired(env: Env, log: seq<Event>, x: nat)
    requires EventsOk(env, log) && x < |log| && log[x].Executed?
    ensures JsonRoundTrip.Merge(SidOf(log[x].request)) == SidOf(log[x].request)
  {
    hide EventsOk, Binding.IsCollected, JsonRoundTrip.Unpaired, JsonRoundTrip.Merge, Active, HasRun, Live, SessionId;
    RunFacts(env, log, x);
    var c := FetchSeesLatest(env, log, log[x].zipAt);
    CreatedIds(env, log, c);
    var b: Bytes :| |b| == 4 && log[c].sid == SessionId(b);
    Manifest.BytesUnpaired(SessionId(b));
    JsonRoundTrip.MergeLength(SessionId(b));
  }

  /** The facts a reader of the proof learns are those of the run: its session, the bundle and table it opened, its
      output, its files, and the caller's nonce and context. */
  ghost predicate Describes(env: Env, run: Event, e: Event, p: Proof.ProofData)
    requires run.Executed? && run.request.Execute? && run.outcome.RunOk? && e.Attested?
  {
    var out := Utf8.Encode(run.outcome.output);
    var nonce := ExternalNonce(run.request);
    && p.jobId == SidOf(run.request)
    && p.scriptHash == (if run.zip == [] then [] else Hex.Encode(env.h(run.zip)))
    && p.datasetHash == (if run.csv.None? || run.csv.value == [] then [] else Hex.Encode(env.h(run.csv.value)))
    && out.Some? && p.outputHash == Hex.Encode(env.h(out.value))
    && p.timestamp == e.stamp
    && p.manifestHash == Some(Manifest.FilesManifestSha256(env.h, Manifest.BuildFilesManifest(run.outcome.files)))
    && (p.contextHash.Some? <==> Proof.Given(run.request.contextHash))
    && (p.contextHash.Some? ==> p.contextHash.value == JsonRoundTrip.Merge(run.request.contextHash.value))
    && nonce.Some? && (p.randomNonce <==> nonce.value.None? || nonce.value.value == [])
    && p.nonce == (if p.randomNonce then e.urandom else nonce.value.value)
  }

  lemma ProofDescribes(env: Env, log: seq<Event>, a: nat, x: nat)
    requires EventsOk(env, log) && AttestsRun(log, a, x)
    ensures log[x].request.Execute? && log[x].outcome.RunOk?
    ensures Proof.ParseProof(log[a].userData).Some?
    ensures Describes(env, log[x], log[a], Proof.ParseProof(log[a].userData).value)
  {
    hide EventsOk, Proof.ProofBytes, Proof.ParseProof, Utf8.Encode, Hex.Encode, JsonRoundTrip.Merge,
      JsonRoundTrip.Unpaired, Manifest.FilesManifestSha256, Manifest.BuildFilesManifest, Grounded;
    AttestedFacts(env, log, a);
    SessionIdUnpaired(env, log, x);
    var run := log[x];
    var p := Proof.ProofOf(env.h, RunExecution(env, run).value, log[a].stamp, log[a].urandom).value;
    Proof.ProofReadsAs(p);
    forall b: Bytes ensures JsonRoundTrip.Merge(b) == b {
      Manifest.BytesUnpaired(b);
      JsonRoundTrip.MergeLength(b);
    }
  }

  /** On every run, the attested proof of an execution states that execution. */
  lemma ProofDescribesRun(env: Env, states: seq<State>, steps: seq<Step>, i: nat, a: nat, x: nat)
    requires IsRun(env, states, steps) && i < |states| && AttestsRun(states[i].log, a, x)
    ensures var log := states[i].log;
      && log[x].request.Execute? && log[x].outcome.RunOk? && Proof.ParseProof(log[a].userData).Some?
      && Describes(env, log[x], log[a], Proof.ParseProof(log[a].userData).value)
  {
    hide IsRun, StoreOk, EventsOk, ThreadOk, Describes, Proof.ParseProof;
    RunInv(env, states, steps, i);
    ProofDescribes(env, states[i].log, a, x);
  }

  lemma AttestedIsAccepted(env: Env, log: seq<Event>, a: nat, x: nat, got: seq<Keyed<Bytes>>)
    requires EventsOk(env, log) && AttestsRun(log, a, x) && log[x].outcome.RunOk?
    requires multiset(got) == multiset(Binding.Contents(log[x].outcome.files))
    ensures var out := log[x].outcome;
      && Binding.ReceivedFiles(Binding.ResponseFiles(out.files)) == Some(Binding.Contents(out.files))
      && Binding.Accepts(env.h, log[a].userData, out.output, got)
  {
    hide EventsOk, Proof.ProofBytes, Utf8.Encode, Binding.IsCollected, Binding.Accepts, Binding.Contents, Active,
      HasRun, Binding.ReceivedFiles, Binding.ResponseFiles, Manifest.BuildFilesManifest, Manifest.FilesManifestSha256;
    AttestedFacts(env, log, a);
    RunFacts(env, log, x);
    var run := log[x];
    var nonce := ExternalNonce(run.request).value;
    Binding.GenuineAccepted(env.h, run.request.sessionId.value, run.outcome.output, run.outcome.files, run.zip, run.csv,
                            nonce, run.request.contextHash, log[a].stamp, log[a].urandom, got);
  }

  /** End to end, on every run: whenever a run is attested it succeeded, and a verifier that decodes the response
      files, in any order, rebuilds the manifest and hashes the output accepts; whatever else it would accept against
      the same user data is the same output and the same files, or exhibits a collision of the hash. */
  lemma ResponseBinds(env: Env, states: seq<State>, steps: seq<Step>, i: nat, a: nat, x: nat, got: seq<Keyed<Bytes>>,
                      output: Text, files: seq<Keyed<Bytes>>)
    requires IsRun(env, states, steps) && i < |states| && AttestsRun(states[i].log, a, x)
    ensures states[i].log[x].outcome.RunOk?
    ensures var userData, out := states[i].log[a].userData, states[i].log[x].outcome;
      && Binding.ReceivedFiles(Binding.ResponseFiles(out.files)) == Some(Binding.Contents(out.files))
      && (multiset(got) == multiset(Binding.Contents(out.files)) ==>
          Binding.Accepts(env.h, userData, out.output, got))
      && (Binding.RuleAbiding(files) && Binding.Accepts(env.h, userData, output, files) ==>
          Binding.SameOrCollision(env.h, out.output, Binding.Contents(out.files), output, files))
  {
    hide IsRun, StoreOk, EventsOk, ThreadOk, Proof.ProofBytes, Binding.Accepts, Binding.SameOrCollision,
      Binding.Contents, Active, HasRun, Binding.ReceivedFiles, Binding.ResponseFiles, RunExecution, Grounded,
      Binding.RuleAbiding;
    RunInv(env, states, steps, i);
    var log := states[i].log;
    AttestedFacts(env, log, a);
    RunFacts(env, log, x);
    var sent := Binding.Contents(log[x].outcome.files);
    AttestedIsAccepted(env, log, a, x, sent);
    if multiset(got) == multiset(sent) { AttestedIsAccepted(env, log, a, x, got); }
    if Binding.RuleAbiding(files) && Binding.Accepts(env.h, log[a].userData, output, files) {
      Binding.AcceptanceBinds(env.h, log[a].userData, log[x].outcome.output, sent, output, files);
    }
  }

  /** If the request came over the wire, the context in the attested proof is the caller's, character for character. */
  lemma WireContextIsAttested(env: Env, states: seq<State>, steps: seq<Step>, i: nat, a: nat, x: nat, b: Bytes)
    requires IsRun(env, states, steps) && i < |states| && AttestsRun(states[i].log, a, x)
    requires Requests.WireRequest(b) == Some(states[i].log[x].request)
    ensures var p := Proof.ParseProof(states[i].log[a].userData); var r := states[i].log[x].request;
      r.Execute? && p.Some? && p.value.contextHash == if Proof.Given(r.contextHash) then r.contextHash else None
  {
    hide IsRun, Requests.WireRequest, Proof.ParseProof, JsonRoundTrip.Merge, JsonRoundTrip.Unpaired, Utf8.Encode,
      Hex.Encode, Manifest.FilesManifestSha256, Manifest.BuildFilesManifest;
    ProofDescribesRun(env, states, steps, i, a, x);
    var r := states[i].log[x].request;
    if r.contextHash.Some? {
      Requests.WireContextIsClean(b);
      JsonRoundTrip.MergeLength(r.contextHash.value);
    }
  }
}
