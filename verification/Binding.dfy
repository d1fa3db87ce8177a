/** What a verifier learns from an attested response (implementations/request_handler_impl.py:163-225). */
module Binding {
  import opened Basics
  import opened Ordering
  import opened OutputFiles
  import Manifest
  import Proof
  import Names
  import FileTree
  import JsonRoundTrip
  import Cose
  import Base64
  import Hex
  import Utf8

  /** The content of a file in a response travels as base64. */
  function ResponseFiles(files: seq<OutFile>): (r: seq<Keyed<Bytes>>)
    ensures |r| == |files| && forall i :: 0 <= i < |r| ==> r[i] == Keyed(files[i].name, Base64.Encode(files[i].content))
  {
    seq(|files|, i requires 0 <= i < |files| => Keyed(files[i].name, Base64.Encode(files[i].content)))
  }

  /** Names and contents as a reader of the response has them; None if some content is not base64. */
  function ReceivedFiles(files: seq<Keyed<Text>>): (r: Option<seq<Keyed<Bytes>>>)
    ensures r.Some? ==> |r.value| == |files|
  {
    if files == [] then Some([])
    else match (Base64.Decode(files[0].value), ReceivedFiles(files[1..]))
      case (Some(c), Some(rest)) => Some([Keyed(files[0].key, c)] + rest)
      case _ => None
  }

  function Contents(files: seq<OutFile>): (r: seq<Keyed<Bytes>>)
    ensures |r| == |files| && forall i :: 0 <= i < |r| ==> r[i] == Keyed(files[i].name, files[i].content)
  {
    seq(|files|, i requires 0 <= i < |files| => Keyed(files[i].name, files[i].content))
  }

  /** Files described afresh from names and contents. */
  function Described(h: Hash, files: seq<Keyed<Bytes>>): (r: seq<OutFile>)
    ensures |r| == |files| && forall i :: 0 <= i < |r| ==> r[i] == Describe(h, files[i].key, files[i].value)
  {
    seq(|files|, i requires 0 <= i < |files| => Describe(h, files[i].key, files[i].value))
  }

  function Rebuilt(h: Hash, files: seq<Keyed<Bytes>>): seq<Manifest.Entry> {
    Manifest.BuildFilesManifest(Described(h, files))
  }

  /** A verifier of attested user data: the proof must carry the hash of the output and of the rebuilt manifest. */
  predicate Accepts(h: Hash, userData: Bytes, output: Text, files: seq<Keyed<Bytes>>) {
    var p := Proof.ParseProof(userData);
    var out := Utf8.Encode(output);
    && p.Some? && out.Some?
    && p.value.outputHash == Hex.Encode(h(out.value))
    && p.value.manifestHash == Some(Manifest.FilesManifestSha256(h, Rebuilt(h, files)))
  }

  // ---- the rebuilt manifest ----

  function EntryFor(h: Hash, f: Keyed<Bytes>): Manifest.Entry { Manifest.EntryOf(Describe(h, f.key, f.value)) }

  function EntriesFor(h: Hash, files: seq<Keyed<Bytes>>): (r: seq<Manifest.Entry>)
    ensures |r| == |files| && forall i :: 0 <= i < |r| ==> r[i] == EntryFor(h, files[i])
  {
    seq(|files|, i requires 0 <= i < |files| => EntryFor(h, files[i]))
  }

  lemma {:induction false} InsertFor(h: Hash, x: Keyed<Bytes>, s: seq<Keyed<Bytes>>)
    ensures Insert(EntryFor(h, x), EntriesFor(h, s)) == EntriesFor(h, Insert(x, s))
  {
    hide Hex.Encode, Names.OutputFileType, Less;
    if s == [] || !Less(s[0].key, x.key) {
      assert EntriesFor(h, [x] + s) == [EntryFor(h, x)] + EntriesFor(h, s);
    } else {
      InsertFor(h, x, s[1..]);
      assert EntriesFor(h, s)[1..] == EntriesFor(h, s[1..]);
      assert EntriesFor(h, [s[0]] + Insert(x, s[1..])) == [EntryFor(h, s[0])] + EntriesFor(h, Insert(x, s[1..]));
    }
  }

  /** Sorting and describing commute, because both look at the name alone. */
  lemma {:induction false} SortFor(h: Hash, s: seq<Keyed<Bytes>>)
    ensures Sort(EntriesFor(h, s)) == EntriesFor(h, Sort(s))
  {
    hide EntryFor, Insert;
    if s != [] {
      SortFor(h, s[1..]);
      assert EntriesFor(h, s)[1..] == EntriesFor(h, s[1..]);
      InsertFor(h, s[0], Sort(s[1..]));
    }
  }

  lemma RebuiltIs(h: Hash, files: seq<Keyed<Bytes>>)
    ensures Rebuilt(h, files) == EntriesFor(h, Sort(files))
  {
    hide Sort, Hex.Encode, Names.OutputFileType;
    assert Manifest.Entries(Described(h, files)) == EntriesFor(h, files);
    SortFor(h, files);
  }

  /** The order in which files are received does not matter when names are distinct. */
  lemma RebuildIgnoresOrder(h: Hash, a: seq<Keyed<Bytes>>, b: seq<Keyed<Bytes>>)
    requires multiset(a) == multiset(b) && DistinctKeys(b)
    ensures Rebuilt(h, a) == Rebuilt(h, b)
  {
    hide Sort, Rebuilt;
    DistinctPermuted(a, b);
    RebuiltIs(h, a);
    RebuiltIs(h, b);
    SortStrict(a);
    SortStrict(b);
    SamePermutation(a, b);
    forall x ensures x in Sort(a) <==> x in Sort(b) {
      SortMember(a, x);
      SortMember(b, x);
    }
    StrictSortedUnique(Sort(a), Sort(b));
  }

  // ---- genuine responses are accepted ----

  predicate RuleAbiding(files: seq<Keyed<Bytes>>) {
    forall i :: 0 <= i < |files| ==> Names.IsValidOutputFileName(files[i].key)
  }

  /** Files as collection returns them: described by their own names and contents, names distinct and rule-abiding. */
  ghost predicate IsCollected(h: Hash, files: seq<OutFile>) {
    && (forall i :: 0 <= i < |files| ==> files[i] == Describe(h, files[i].name, files[i].content))
    && DistinctKeys(Contents(files)) && RuleAbiding(Contents(files))
  }

  /** Whatever `collect_output_files` returns is of that kind. */
  lemma CollectionQualifies(h: Hash, root: FileTree.Node, at: nat -> FileTree.Node, maxFiles: int, maxTotal: int,
                            files: seq<OutFile>)
    requires root.Dir? && FileTree.WellFormed(root) && Collectable(root, at, maxFiles, maxTotal)
    requires var names := SortedNames(root);
      && |files| == |names|
      && forall k :: 0 <= k < |names| ==> files[k] == Describe(h, names[k], Opened(at(k), names[k]).value)
    ensures IsCollected(h, files)
  {
    hide Sort, AllFiles, Names.IsValidOutputFileName, Names.OutputFileType, Hex.Encode, WalkAccepts, Opened,
      FileTree.WellFormed, ReadTotal;
    CollectedNames(root, maxFiles);
    forall i | 0 <= i < |files| ensures files[i].name == SortedNames(root)[i] {}
  }

  lemma {:induction false} ReceivedAsSent(files: seq<OutFile>)
    ensures ReceivedFiles(ResponseFiles(files)) == Some(Contents(files))
  {
    hide Base64.Encode, Base64.Decode;
    if files != [] {
      Base64.RoundTrip(files[0].content);
      ReceivedAsSent(files[1..]);
      assert ResponseFiles(files)[1..] == ResponseFiles(files[1..]);
      assert Contents(files) == [Keyed(files[0].name, files[0].content)] + Contents(files[1..]);
    }
  }

  /** The attested manifest is the one a verifier rebuilds from names and contents, in any order. */
  lemma RebuildsAttested(h: Hash, files: seq<OutFile>, got: seq<Keyed<Bytes>>)
    requires IsCollected(h, files) && multiset(got) == multiset(Contents(files))
    ensures Rebuilt(h, got) == Manifest.BuildFilesManifest(files)
  {
    RebuildIgnoresOrder(h, got, Contents(files));
    assert Described(h, Contents(files)) == files;
  }

  /** The execution the handler attests after a successful run. */
  function AttestedExecution(h: Hash, sessionId: Text, output: Text, files: seq<OutFile>, script: Bytes,
                             dataset: Option<Bytes>, externalNonce: Option<Bytes>,
                             contextHash: Option<Text>): Proof.Execution
  {
    Proof.Execution(sessionId, output, Some(script), dataset, externalNonce, contextHash,
                    Some(Manifest.FilesManifestSha256(h, Manifest.BuildFilesManifest(files))))
  }

  /** A verifier that rebuilds the manifest from the response, files in any order, accepts every genuine response. */
  lemma GenuineAccepted(h: Hash, sessionId: Text, output: Text, files: seq<OutFile>, script: Bytes,
                        dataset: Option<Bytes>, externalNonce: Option<Bytes>, contextHash: Option<Text>, now: int,
                        urandom: Bytes, got: seq<Keyed<Bytes>>)
    requires Utf8.Encode(output).Some? && IsCollected(h, files)
    requires multiset(got) == multiset(Contents(files))
    ensures ReceivedFiles(ResponseFiles(files)) == Some(Contents(files))
    ensures var x := AttestedExecution(h, sessionId, output, files, script, dataset, externalNonce, contextHash);
      Accepts(h, Proof.ProofBytes(Proof.ProofOf(h, x, now, urandom).value), output, got)
  {
    hide JsonRoundTrip.Unpaired, JsonRoundTrip.Merge, Utf8.Encode, Hex.Encode, Proof.ProofBytes, Proof.ParseProof,
      IsCollected, Rebuilt, DistinctKeys, ReceivedFiles, ResponseFiles, Contents;
    var x := AttestedExecution(h, sessionId, output, files, script, dataset, externalNonce, contextHash);
    var p := Proof.ProofOf(h, x, now, urandom).value;
    Proof.ProofReadsAs(p);
    Manifest.BytesUnpaired(p.outputHash);
    JsonRoundTrip.MergeLength(p.outputHash);
    Manifest.BytesUnpaired(x.manifestHash.value);
    JsonRoundTrip.MergeLength(x.manifestHash.value);
    ReceivedAsSent(files);
    RebuildsAttested(h, files, got);
  }

  // ---- what acceptance binds ----

  lemma AsciiUnpaired(t: Text)
    requires forall i :: 0 <= i < |t| ==> t[i] < 0x80
    ensures JsonRoundTrip.Unpaired(t)
  {
  }

  lemma RebuiltClean(h: Hash, files: seq<Keyed<Bytes>>)
    requires RuleAbiding(files)
    ensures forall e :: e in Rebuilt(h, files) ==> Manifest.CleanEntry(e)
  {
    hide Sort, Names.IsValidOutputFileName, Hex.Encode, Names.OutputFileType, JsonRoundTrip.Unpaired, Rebuilt;
    RebuiltIs(h, files);
    forall e | e in EntriesFor(h, Sort(files)) ensures Manifest.CleanEntry(e) {
      var i :| 0 <= i < |Sort(files)| && EntriesFor(h, Sort(files))[i] == e;
      SortMember(files, Sort(files)[i]);
      var j :| 0 <= j < |files| && files[j] == Sort(files)[i];
      Names.ValidNameAscii(files[j].key);
      AsciiUnpaired(files[j].key);
      Manifest.BytesUnpaired(Hex.Encode(h(files[j].value)));
      Manifest.BytesUnpaired(Names.OutputFileType(files[j].key));
    }
  }

  lemma EqualHexHashes(h: Hash, x: Bytes, y: Bytes)
    requires Hex.Encode(h(x)) == Hex.Encode(h(y))
    ensures x == y || Collides(h, x, y)
  {
    Hex.Injective(h(x), h(y));
  }

  lemma SameOutput(h: Hash, o1: Text, o2: Text)
    requires Utf8.Encode(o1).Some? && Utf8.Encode(o2).Some?
    requires Hex.Encode(h(Utf8.Encode(o1).value)) == Hex.Encode(h(Utf8.Encode(o2).value))
    ensures o1 == o2 || Collides(h, Utf8.Encode(o1).value, Utf8.Encode(o2).value)
  {
    hide Utf8.Encode, Hex.Encode, Utf8.Decode;
    EqualHexHashes(h, Utf8.Encode(o1).value, Utf8.Encode(o2).value);
    Utf8.RoundTrip(o1);
    Utf8.RoundTrip(o2);
  }

  /** Equal rebuilt manifests: the sorted files agree in names, and in contents unless two of them collide. */
  lemma SameManifestSameFiles(h: Hash, a: seq<Keyed<Bytes>>, b: seq<Keyed<Bytes>>)
    requires Rebuilt(h, a) == Rebuilt(h, b)
    ensures |Sort(a)| == |Sort(b)|
    ensures forall i :: 0 <= i < |Sort(a)| ==>
      && Sort(a)[i].key == Sort(b)[i].key
      && (Sort(a)[i].value == Sort(b)[i].value || Collides(h, Sort(a)[i].value, Sort(b)[i].value))
  {
    hide Sort, Rebuilt, Hex.Encode, Names.OutputFileType;
    RebuiltIs(h, a);
    RebuiltIs(h, b);
    var ea, eb := EntriesFor(h, Sort(a)), EntriesFor(h, Sort(b));
    forall i | 0 <= i < |Sort(a)|
      ensures Sort(a)[i].key == Sort(b)[i].key
      ensures Sort(a)[i].value == Sort(b)[i].value || Collides(h, Sort(a)[i].value, Sort(b)[i].value)
    {
      assert ea[i] == eb[i];
      EqualHexHashes(h, Sort(a)[i].value, Sort(b)[i].value);
    }
  }

  /** Some pair of file contents at the same sorted position collides. */
  ghost predicate ContentsCollide(h: Hash, a: seq<Keyed<Bytes>>, b: seq<Keyed<Bytes>>) {
    exists i :: 0 <= i < |Sort(a)| && i < |Sort(b)| && Collides(h, Sort(a)[i].value, Sort(b)[i].value)
  }

  /** The outputs are equal or collide, and the files are the same up to order, or the two canonical manifests collide,
      or two contents do. Each alternative is a concrete pair of inputs to the hash. */
  ghost predicate SameOrCollision(h: Hash, o1: Text, f1: seq<Keyed<Bytes>>, o2: Text, f2: seq<Keyed<Bytes>>) {
    && Utf8.Encode(o1).Some? && Utf8.Encode(o2).Some?
    && (o1 == o2 || Collides(h, Utf8.Encode(o1).value, Utf8.Encode(o2).value))
    && (|| (Sort(f1) == Sort(f2) && multiset(f1) == multiset(f2))
        || Collides(h, Manifest.CanonicalManifestBytes(Rebuilt(h, f1)), Manifest.CanonicalManifestBytes(Rebuilt(h, f2)))
        || ContentsCollide(h, f1, f2))
  }

  /** Two acceptances against one proof: the same output and files, or a collision. */
  lemma AcceptanceBinds(h: Hash, userData: Bytes, o1: Text, f1: seq<Keyed<Bytes>>, o2: Text, f2: seq<Keyed<Bytes>>)
    requires RuleAbiding(f1) && RuleAbiding(f2)
    requires Accepts(h, userData, o1, f1) && Accepts(h, userData, o2, f2)
    ensures SameOrCollision(h, o1, f1, o2, f2)
  {
    hide Sort, Rebuilt, RuleAbiding, Hex.Encode, Utf8.Encode, Proof.ParseProof, Manifest.CanonicalManifestBytes;
    SameOutput(h, o1, o2);
    var m1, m2 := Rebuilt(h, f1), Rebuilt(h, f2);
    var c1, c2 := Manifest.CanonicalManifestBytes(m1), Manifest.CanonicalManifestBytes(m2);
    EqualHexHashes(h, c1, c2);
    if c1 == c2 {
      RebuiltClean(h, f1);
      RebuiltClean(h, f2);
      Manifest.CanonicalBytesInjective(m1, m2);
      SameManifestSameFiles(h, f1, f2);
      if !ContentsCollide(h, f1, f2) {
        forall i | 0 <= i < |Sort(f1)| ensures Sort(f1)[i] == Sort(f2)[i] {}
        assert Sort(f1) == Sort(f2);
        SortPermutes(f1);
        SortPermutes(f2);
      }
    }
  }

  // ---- through the attestation document ----

  /** The user data an attestation document carries. */
  function DocumentUserData(doc: Bytes): Option<Bytes> {
    match Cose.OpenDocument(doc)
    case None => None
    case Some(o) => Cose.PayloadField(o.payload, Cose.USER_DATA)
  }

  /** From document bytes to verdict: a local document made for a genuine proof carries exactly that proof, so a
      verifier that starts from the document accepts the response. */
  lemma GenuineDocumentAccepted(h: Hash, env: Cose.Surroundings, sign: Cose.Signer, userData: Bytes, nonce: Bytes,
                                output: Text, got: seq<Keyed<Bytes>>)
    requires Accepts(h, userData, output, got)
    requires Cose.PayloadFits(env, Some(userData), Some(nonce), None)
    requires Cose.Short(sign(Cose.SignedBytes(Cose.PayloadBytes(env, Some(userData), Some(nonce), None))))
    ensures var payload := Cose.PayloadBytes(env, Some(userData), Some(nonce), None);
      var carried := DocumentUserData(Cose.DocumentBytes(payload, sign(Cose.SignedBytes(payload))));
      carried == Some(userData) && Accepts(h, carried.value, output, got)
  {
    hide Accepts, Cose.PayloadBytes, Cose.SignedBytes, Cose.DocumentBytes, Cose.PayloadFits, Cose.OpenDocument,
      Cose.PayloadField;
    Cose.DocumentBinds(env, sign, Some(userData), Some(nonce), None);
  }
}
