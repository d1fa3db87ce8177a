/** The response of an execution, from the handler to the verifier (implementations/request_handler_impl.py:197-225). */
module Responses {
  import opened Basics
  import opened Json
  import opened OutputFiles
  import opened Requests
  import Protocol
  import ProtocolInvariant
  import Runs
  import AttestedRuns
  import Binding
  import Manifest
  import Proof
  import Names
  import JsonRoundTrip
  import Framing
  import Base64
  import Hex
  import Utf8

  /** One file of the response. */
  function FileJson(f: OutFile): (v: Value)
    ensures Plain(v)
  {
    Obj([Keyed(A("name"), Str(f.name)), Keyed(A("size"), Int(f.size)), Keyed(A("sha256"), Str(f.sha256)),
         Keyed(A("type"), Str(f.fileType)), Keyed(A("content_b64"), Str(Base64.Encode(f.content)))])
  }

  function FilesJson(files: seq<OutFile>): (r: seq<Value>)
    ensures |r| == |files| && forall i :: 0 <= i < |r| ==> r[i] == FileJson(files[i])
    ensures forall x :: x in r ==> Plain(x)
  {
    seq(|files|, i requires 0 <= i < |files| => FileJson(files[i]))
  }

  /** What the response holds besides: timing, whose numbers are floats, and the attestation result are any values. */
  datatype Extras = Extras(inEnclave: bool, timing: Value, attestation: Value)

  predicate PlainExtras(x: Extras) { Plain(x.timing) && Plain(x.attestation) }
  predicate CleanExtras(x: Extras) { JsonRoundTrip.Clean(x.timing) && JsonRoundTrip.Clean(x.attestation) }

  function Results(h: Hash, output: Text, files: seq<OutFile>): (ms: seq<Keyed<Value>>)
    ensures forall m :: m in ms ==> Plain(m.value)
  {
    [Keyed(A("success"), Bool(true)), Keyed(A("output"), Str(output)), Keyed(A("files"), Arr(FilesJson(files))),
     Keyed(A("files_manifest_sha256"), Str(Manifest.FilesManifestSha256(h, Manifest.BuildFilesManifest(files))))]
  }

  function EnclaveProof(inEnclave: bool): (v: Value)
    ensures Plain(v)
  {
    Obj([Keyed(A("ran_in_enclave"), Bool(inEnclave)), Keyed(A("attestation_available"), Bool(true))])
  }

  function Circumstances(sid: Text, x: Extras): (ms: seq<Keyed<Value>>)
    requires PlainExtras(x)
    ensures forall m :: m in ms ==> Plain(m.value)
  {
    [Keyed(A("session_id"), Str(sid)), Keyed(A("enclave_proof"), EnclaveProof(x.inEnclave)),
     Keyed(A("timing"), x.timing), Keyed(A("attestation"), x.attestation)]
  }

  /** The dictionary of a successful, attested response. */
  function ResponseJson(h: Hash, sid: Text, output: Text, files: seq<OutFile>, x: Extras): (v: Value)
    requires PlainExtras(x)
    ensures Plain(v)
  {
    Obj(Results(h, output, files) + Circumstances(sid, x))
  }

  // ---- reading a response ----

  datatype Response = Response(output: Text, files: seq<Keyed<Text>>)

  function ReadFileJson(v: Value): Option<Keyed<Text>> {
    if !v.Obj? then None
    else match (Last(v.members, A("name")), Last(v.members, A("content_b64")))
      case (Some(Str(name)), Some(Str(content))) => Some(Keyed(name, content))
      case _ => None
  }

  function ReadFileList(vs: seq<Value>): (r: Option<seq<Keyed<Text>>>) {
    if vs == [] then Some([])
    else match (ReadFileJson(vs[0]), ReadFileList(vs[1..]))
      case (Some(f), Some(fs)) => Some([f] + fs)
      case _ => None
  }

  function ReadResponse(v: Value): Option<Response> {
    if !v.Obj? then None
    else match (Last(v.members, A("output")), Last(v.members, A("files")))
      case (Some(Str(output)), Some(Arr(vs))) =>
        (match ReadFileList(vs) case None => None case Some(fs) => Some(Response(output, fs)))
      case _ => None
  }

  /** The value of a key that occurs once. */
  lemma {:induction false} LastAt(ms: seq<Keyed<Value>>, i: nat)
    requires i < |ms| && forall j :: i < j < |ms| ==> ms[j].key != ms[i].key
    ensures Last(ms, ms[i].key) == Some(ms[i].value)
  {
    if i < |ms| - 1 { LastAt(ms[..|ms| - 1], i); }
  }

  lemma AllKeysApart()
    ensures |A("success")| == 7 && |A("output")| == 6 && |A("files")| == 5 && |A("files_manifest_sha256")| == 21
    ensures |A("session_id")| == 10 && |A("enclave_proof")| == 13 && |A("timing")| == 6 && |A("attestation")| == 11
    ensures A("output")[0] != A("timing")[0] && |A("ran_in_enclave")| == 14 && |A("attestation_available")| == 21
    ensures |A("name")| == 4 && |A("size")| == 4 && |A("sha256")| == 6 && |A("type")| == 4 && |A("content_b64")| == 11
    ensures A("name")[0] == 0x6E && A("size")[0] == 0x73 && A("type")[0] == 0x74
  {
  }

  /** Every field of a file in the response. */
  lemma FileFields(f: OutFile)
    ensures var ms := FileJson(f).members;
      && Last(ms, A("name")) == Some(Str(f.name)) && Last(ms, A("size")) == Some(Int(f.size))
      && Last(ms, A("sha256")) == Some(Str(f.sha256)) && Last(ms, A("type")) == Some(Str(f.fileType))
      && Last(ms, A("content_b64")) == Some(Str(Base64.Encode(f.content)))
  {
    hide A, Last, Base64.Encode;
    AllKeysApart();
    var ms := FileJson(f).members;
    LastAt(ms, 0);
    LastAt(ms, 1);
    LastAt(ms, 2);
    LastAt(ms, 3);
    LastAt(ms, 4);
  }

  lemma EnclaveFields(inEnclave: bool)
    ensures var ms := EnclaveProof(inEnclave).members;
      && Last(ms, A("ran_in_enclave")) == Some(Bool(inEnclave))
      && Last(ms, A("attestation_available")) == Some(Bool(true))
  {
    hide A, Last;
    AllKeysApart();
    LastAt(EnclaveProof(inEnclave).members, 0);
    LastAt(EnclaveProof(inEnclave).members, 1);
  }

  lemma MembersAre(h: Hash, sid: Text, output: Text, files: seq<OutFile>, x: Extras)
    requires PlainExtras(x)
    ensures ResponseJson(h, sid, output, files, x) == Obj(
      [Keyed(A("success"), Bool(true)), Keyed(A("output"), Str(output)), Keyed(A("files"), Arr(FilesJson(files))),
       Keyed(A("files_manifest_sha256"), Str(Manifest.FilesManifestSha256(h, Manifest.BuildFilesManifest(files)))),
       Keyed(A("session_id"), Str(sid)), Keyed(A("enclave_proof"), EnclaveProof(x.inEnclave)),
       Keyed(A("timing"), x.timing), Keyed(A("attestation"), x.attestation)])
  {
    hide A, Plain, PlainExtras, FilesJson, EnclaveProof, Manifest.FilesManifestSha256;
    var a, b := Results(h, output, files), Circumstances(sid, x);
    assert a + b == [a[0], a[1], a[2], a[3], b[0], b[1], b[2], b[3]];
  }

  /** Every field of the response. */
  lemma ResponseFields(h: Hash, sid: Text, output: Text, files: seq<OutFile>, x: Extras)
    requires PlainExtras(x)
    ensures var ms := ResponseJson(h, sid, output, files, x).members;
      && Last(ms, A("success")) == Some(Bool(true)) && Last(ms, A("output")) == Some(Str(output))
      && Last(ms, A("files")) == Some(Arr(FilesJson(files))) && |FilesJson(files)| == |files|
      && (forall i :: 0 <= i < |files| ==> FilesJson(files)[i] == FileJson(files[i]))
      && Last(ms, A("files_manifest_sha256")) ==
         Some(Str(Hex.Encode(h(Manifest.CanonicalManifestBytes(Manifest.BuildFilesManifest(files))))))
      && Last(ms, A("session_id")) == Some(Str(sid))
      && Last(ms, A("enclave_proof")) == Some(EnclaveProof(x.inEnclave))
      && Last(ms, A("timing")) == Some(x.timing) && Last(ms, A("attestation")) == Some(x.attestation)
  {
    hide A, Last, FilesJson, PlainExtras, Plain, EnclaveProof, ResponseJson, Hex.Encode,
      Manifest.CanonicalManifestBytes;
    AllKeysApart();
    MembersAre(h, sid, output, files, x);
    var ms := ResponseJson(h, sid, output, files, x).members;
    LastAt(ms, 0);
    LastAt(ms, 1);
    LastAt(ms, 2);
    LastAt(ms, 3);
    LastAt(ms, 4);
    LastAt(ms, 5);
    LastAt(ms, 6);
    LastAt(ms, 7);
  }

  lemma FileReads(f: OutFile)
    ensures ReadFileJson(FileJson(f)) == Some(Keyed(f.name, Base64.Encode(f.content)))
  {
    hide A, Last, Base64.Encode;
    FileFields(f);
  }

  lemma {:induction false} FilesRead(files: seq<OutFile>)
    ensures ReadFileList(FilesJson(files)) == Some(Binding.ResponseFiles(files))
  {
    hide FileJson, ReadFileJson, Base64.Encode;
    if files != [] {
      FileReads(files[0]);
      FilesRead(files[1..]);
      assert FilesJson(files)[1..] == FilesJson(files[1..]);
      assert Binding.ResponseFiles(files) ==
        [Keyed(files[0].name, Base64.Encode(files[0].content))] + Binding.ResponseFiles(files[1..]);
    }
  }

  /** A reader of the dictionary finds the output and every file's name and encoded content. */
  lemma ResponseReads(h: Hash, sid: Text, output: Text, files: seq<OutFile>, x: Extras)
    requires PlainExtras(x)
    ensures ReadResponse(ResponseJson(h, sid, output, files, x)) ==
            Some(Response(output, Binding.ResponseFiles(files)))
  {
    hide A, Last, FilesJson, ReadFileList, PlainExtras, Plain, Binding.ResponseFiles, ResponseJson, Hex.Encode,
      Manifest.CanonicalManifestBytes;
    ResponseFields(h, sid, output, files, x);
    MembersAre(h, sid, output, files, x);
    FilesRead(files);
  }

  // ---- nothing in a response is lost in JSON ----

  lemma FileClean(h: Hash, f: OutFile)
    requires Names.IsValidOutputFileName(f.name)
    ensures JsonRoundTrip.Clean(FileJson(f))
  {
    hide A, Base64.Encode, JsonRoundTrip.Unpaired, Names.IsValidOutputFileName;
    forall b: Bytes ensures JsonRoundTrip.Unpaired(b) { Manifest.BytesUnpaired(b); }
    Names.ValidNameAscii(f.name);
    Binding.AsciiUnpaired(f.name);
  }

  lemma FilesClean(h: Hash, files: seq<OutFile>)
    requires Binding.IsCollected(h, files)
    ensures JsonRoundTrip.Clean(Arr(FilesJson(files)))
  {
    hide FileJson, Names.IsValidOutputFileName;
    forall i | 0 <= i < |files| ensures JsonRoundTrip.Clean(FilesJson(files)[i]) {
      assert Binding.Contents(files)[i].key == files[i].name;
      FileClean(h, files[i]);
    }
  }

  /** Output that could be hashed for the proof holds no surrogate. */
  lemma OutputClean(output: Text)
    requires Utf8.Encode(output).Some?
    ensures JsonRoundTrip.Unpaired(output)
  {
    hide Utf8.Encode;
    Utf8.RoundTrip(output);
  }

  ghost predicate CleanMembers(ms: seq<Keyed<Value>>) {
    forall m :: m in ms ==> JsonRoundTrip.Unpaired(m.key) && JsonRoundTrip.Clean(m.value)
  }

  lemma ResultsClean(h: Hash, output: Text, files: seq<OutFile>)
    requires JsonRoundTrip.Unpaired(output) && Binding.IsCollected(h, files)
    ensures CleanMembers(Results(h, output, files))
  {
    hide A, FilesJson, JsonRoundTrip.Unpaired, Manifest.FilesManifestSha256, Binding.IsCollected;
    forall b: Bytes ensures JsonRoundTrip.Unpaired(b) { Manifest.BytesUnpaired(b); }
    FilesClean(h, files);
  }

  lemma EnclaveProofClean(inEnclave: bool)
    ensures JsonRoundTrip.Clean(EnclaveProof(inEnclave))
  {
    hide A, JsonRoundTrip.Unpaired;
    Manifest.BytesUnpaired(A("ran_in_enclave"));
    Manifest.BytesUnpaired(A("attestation_available"));
  }

  lemma CircumstancesClean(sid: Text, x: Extras)
    requires PlainExtras(x) && CleanExtras(x) && JsonRoundTrip.Unpaired(sid)
    ensures CleanMembers(Circumstances(sid, x))
  {
    hide A, JsonRoundTrip.Unpaired, Plain, EnclaveProof;
    EnclaveProofClean(x.inEnclave);
    forall b: Bytes ensures JsonRoundTrip.Unpaired(b) { Manifest.BytesUnpaired(b); }
  }

  lemma ResponseClean(h: Hash, sid: Text, output: Text, files: seq<OutFile>, x: Extras)
    requires PlainExtras(x) && CleanExtras(x)
    requires JsonRoundTrip.Unpaired(sid) && JsonRoundTrip.Unpaired(output) && Binding.IsCollected(h, files)
    ensures JsonRoundTrip.Clean(ResponseJson(h, sid, output, files, x))
  {
    hide Results, Circumstances, JsonRoundTrip.Unpaired, Binding.IsCollected, PlainExtras, CleanExtras, Plain;
    ResultsClean(h, output, files);
    CircumstancesClean(sid, x);
  }

  /** The response of this run as it goes on the wire. */
  function Wire(h: Hash, sid: Text, out: Protocol.Outcome, x: Extras): Bytes
    requires out.RunOk? && PlainExtras(x)
  {
    Dumps(ResponseJson(h, sid, out.output, out.files, x), Spaced)
  }

  /** What a client of the framed protocol makes of bytes it is sent: the output and the decoded files. */
  function ClientReads(sent: Bytes, closes: bool, max: nat): Option<(Text, seq<Keyed<Bytes>>)> {
    match Framing.FramedResult(sent, closes, max).0
    case Rejected(_, _) => None
    case Request(t, _) =>
      match Loads(t)
      case None => None
      case Some(v) =>
        match ReadResponse(v)
        case None => None
        case Some(r) => (match Binding.ReceivedFiles(r.files) case None => None case Some(fs) => Some((r.output, fs)))
  }

  /** Framed, sent and read, a clean response gives back its output and its files. */
  lemma WireRoundTrip(h: Hash, sid: Text, out: Protocol.Outcome, x: Extras, closes: bool, max: nat)
    requires out.RunOk? && PlainExtras(x) && CleanExtras(x) && Binding.IsCollected(h, out.files)
    requires JsonRoundTrip.Unpaired(sid) && JsonRoundTrip.Unpaired(out.output)
    requires |Wire(h, sid, out, x)| <= max && |Wire(h, sid, out, x)| < 0x1_0000_0000
    ensures ClientReads(Framing.Frame(Wire(h, sid, out, x)).value, closes, max) ==
            Some((out.output, Binding.Contents(out.files)))
  {
    hide Dumps, Loads, Plain, ResponseJson, ReadResponse, Binding.Contents, Binding.ReceivedFiles,
      Binding.ResponseFiles, Framing.FramedResult, JsonRoundTrip.Unpaired, JsonRoundTrip.Clean, Binding.IsCollected,
      PlainExtras, CleanExtras;
    ResponseReads(h, sid, out.output, out.files, x);
    ResponseClean(h, sid, out.output, out.files, x);
    Framing.ResponseSurvives(ResponseJson(h, sid, out.output, out.files, x), closes, max);
    Binding.ReceivedAsSent(out.files);
  }

  lemma AttestedRunIsClean(env: Protocol.Env, log: seq<Protocol.Event>, a: nat, x: nat)
    requires ProtocolInvariant.EventsOk(env, log) && AttestedRuns.AttestsRun(log, a, x)
    ensures log[x].outcome.RunOk? && Binding.IsCollected(env.h, log[x].outcome.files)
    ensures JsonRoundTrip.Unpaired(Protocol.SidOf(log[x].request)) && JsonRoundTrip.Unpaired(log[x].outcome.output)
  {
    hide ProtocolInvariant.EventsOk, Proof.ParseProof, JsonRoundTrip.Unpaired, JsonRoundTrip.Merge, Utf8.Encode,
      Hex.Encode, Binding.IsCollected, ProtocolInvariant.Grounded, ProtocolInvariant.Active, ProtocolInvariant.HasRun,
      Manifest.FilesManifestSha256, Manifest.BuildFilesManifest;
    AttestedRuns.ProofDescribes(env, log, a, x);
    Runs.RunFacts(env, log, x);
    AttestedRuns.SessionIdUnpaired(env, log, x);
    JsonRoundTrip.MergeLength(Protocol.SidOf(log[x].request));
    OutputClean(log[x].outcome.output);
  }

  /** From handler to verdict, on every run: a client that reads the framed response of an attested execution gets the
      output and the files of that run, whole, and they are accepted against the attested user data. */
  lemma ResponseReachesVerifier(env: Protocol.Env, states: seq<Protocol.State>, steps: seq<Protocol.Step>, i: nat,
                                a: nat, x: nat, extras: Extras, closes: bool, max: nat)
    requires Runs.IsRun(env, states, steps) && i < |states| && AttestedRuns.AttestsRun(states[i].log, a, x)
    requires PlainExtras(extras) && CleanExtras(extras)
    ensures var run := states[i].log[x]; var sid := Protocol.SidOf(run.request);
      && run.outcome.RunOk?
      && Binding.Accepts(env.h, states[i].log[a].userData, run.outcome.output, Binding.Contents(run.outcome.files))
      && var wire := Wire(env.h, sid, run.outcome, extras);
      |wire| <= max && |wire| < 0x1_0000_0000 ==>
        ClientReads(Framing.Frame(wire).value, closes, max) ==
          Some((run.outcome.output, Binding.Contents(run.outcome.files)))
  {
    hide Runs.IsRun, ProtocolInvariant.StoreOk, ProtocolInvariant.EventsOk, ProtocolInvariant.ThreadOk, Wire,
      ClientReads, Binding.Accepts, Binding.Contents, Framing.Frame, JsonRoundTrip.Unpaired, Binding.IsCollected,
      PlainExtras, CleanExtras;
    Runs.RunInv(env, states, steps, i);
    var log := states[i].log;
    AttestedRunIsClean(env, log, a, x);
    var sid, out := Protocol.SidOf(log[x].request), log[x].outcome;
    AttestedRuns.AttestedIsAccepted(env, log, a, x, Binding.Contents(out.files));
    if |Wire(env.h, sid, out, extras)| <= max && |Wire(env.h, sid, out, extras)| < 0x1_0000_0000 {
      WireRoundTrip(env.h, sid, out, extras, closes, max);
    }
  }
}
