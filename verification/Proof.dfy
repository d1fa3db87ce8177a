/** The per-execution proof that becomes the attested user data (implementations/attestation_service_impl.py:285-341).
    */
module Proof {
  import opened Basics
  import opened Ordering
  import opened Json
  import JsonRoundTrip
  import Manifest
  import Base64
  import Hex
  import Utf8

  /** The facts a proof states. Hashes are hex text, empty for a missing script or dataset. */
  datatype ProofData = ProofData(
    jobId: Text, scriptHash: Text, datasetHash: Text, outputHash: Text, timestamp: int,
    contextHash: Option<Text>, manifestHash: Option<Text>, nonce: Bytes, randomNonce: bool)

  /** What `create_execution_attestation` is called with. */
  datatype Execution = Execution(
    jobId: Text, output: Text, script: Option<Bytes>, dataset: Option<Bytes>,
    externalNonce: Option<Bytes>, contextHash: Option<Text>, manifestHash: Option<Text>)

  function HexHash(h: Hash, data: Option<Bytes>): Text {
    if data.Some? && data.value != [] then Hex.Encode(h(data.value)) else []
  }

  predicate Given<T>(v: Option<seq<T>>) { v.Some? && |v.value| > 0 }

  /** The proof of an execution; None when the output cannot be encoded as UTF-8. */
  function ProofOf(h: Hash, x: Execution, now: int, urandom: Bytes): Option<ProofData> {
    match Utf8.Encode(x.output)
    case None => None
    case Some(out) => Some(ProofData(
      x.jobId, HexHash(h, x.script), HexHash(h, x.dataset), Hex.Encode(h(out)), now,
      if Given(x.contextHash) then x.contextHash else None, x.manifestHash,
      if Given(x.externalNonce) then x.externalNonce.value else urandom, !Given(x.externalNonce)))
  }

  ghost predicate AllPlain(d: seq<Keyed<Value>>) { forall m :: m in d ==> Plain(m.value) }

  /** `d[k] = v` for a new key. */
  function Put(d: seq<Keyed<Value>>, k: Bytes, v: Value): (r: seq<Keyed<Value>>)
    requires AllPlain(d) && Plain(v)
    ensures AllPlain(r)
  {
    d + [Keyed(k, v)]
  }

  function PutStr(d: seq<Keyed<Value>>, k: Bytes, t: Option<Text>): (r: seq<Keyed<Value>>)
    requires AllPlain(d)
    ensures AllPlain(r)
  {
    if t.Some? then Put(d, k, Str(t.value)) else d
  }

  /** The dictionary in the order the source fills it. */
  function ProofDict(p: ProofData): (d: seq<Keyed<Value>>)
    ensures AllPlain(d)
  {
    var d1 := Put([], A("job_id"), Str(p.jobId));
    var d2 := Put(d1, A("script_hash"), Str(p.scriptHash));
    var d3 := Put(d2, A("dataset_hash"), Str(p.datasetHash));
    var d4 := Put(d3, A("output_hash"), Str(p.outputHash));
    var d5 := Put(d4, A("timestamp"), Int(p.timestamp));
    var d6 := PutStr(d5, A("context_hash"), p.contextHash);
    var d7 := PutStr(d6, A("files_manifest_sha256"), p.manifestHash);
    var d8 := Put(d7, A("nonce"), Str(Base64.Encode(p.nonce)));
    PutStr(d8, A("nonce_source"), if p.randomNonce then Some(A("random")) else None)
  }

  /** `json.dumps(proof_data, sort_keys=True).encode()` */
  function ProofBytes(p: ProofData): Bytes { Dumps(Manifest.SortedObj(ProofDict(p)), Spaced) }

  /** `create_execution_attestation` up to the call of the attestation device: the user data and the nonce. */
  method CreateExecutionAttestation(h: Hash, x: Execution, now: int, urandom: Bytes) returns (r: Option<(Bytes, Bytes)>)
    ensures r == match ProofOf(h, x, now, urandom) case None => None case Some(p) => Some((ProofBytes(p), p.nonce))
  {
    hide A, Dumps, Sort, Utf8.Encode, Hex.Encode, Base64.Encode, Put, AllPlain, Plain;
    Strings();
    var scriptHash: Text := if x.script.Some? && x.script.value != [] then Hex.Encode(h(x.script.value)) else [];
    var datasetHash: Text := if x.dataset.Some? && x.dataset.value != [] then Hex.Encode(h(x.dataset.value)) else [];
    var out := Utf8.Encode(x.output);
    if out.None? { return None; }
    var proof := Put([], A("job_id"), Str(x.jobId));
    proof := Put(proof, A("script_hash"), Str(scriptHash));
    proof := Put(proof, A("dataset_hash"), Str(datasetHash));
    proof := Put(proof, A("output_hash"), Str(Hex.Encode(h(out.value))));
    proof := Put(proof, A("timestamp"), Int(now));
    if Given(x.contextHash) { proof := Put(proof, A("context_hash"), Str(x.contextHash.value)); }
    if x.manifestHash.Some? { proof := Put(proof, A("files_manifest_sha256"), Str(x.manifestHash.value)); }
    var nonce: Bytes;
    if Given(x.externalNonce) {
      nonce := x.externalNonce.value;
      proof := Put(proof, A("nonce"), Str(Base64.Encode(nonce)));
    } else {
      nonce := urandom;
      proof := Put(proof, A("nonce"), Str(Base64.Encode(nonce)));
      proof := Put(proof, A("nonce_source"), Str(A("random")));
    }
    assert proof == ProofDict(ProofOf(h, x, now, urandom).value);
    PlainMembers(proof);
    r := Some((Dumps(Manifest.SortedObj(proof), Spaced), nonce));
  }

  lemma Strings()
    ensures AllPlain([]) && (forall t :: Plain(Str(t))) && forall n :: Plain(Int(n))
  {
  }

  lemma PlainMembers(d: seq<Keyed<Value>>)
    requires AllPlain(d)
    ensures forall m :: m in d ==> Plain(m.value)
  {
  }

  // ---- reading a proof back ----

  function ParseProof(t: Text): Option<ProofData> {
    var v: Option<Value> := Loads(t);
    if v.None? || !v.value.Obj? then None else ReadProof(v.value.members)
  }

  function ReadProof(d: seq<Keyed<Value>>): Option<ProofData> {
    var jobId := Manifest.ReadStr(d, A("job_id"));
    var script := Manifest.ReadStr(d, A("script_hash"));
    var dataset := Manifest.ReadStr(d, A("dataset_hash"));
    var output := Manifest.ReadStr(d, A("output_hash"));
    var timestamp := Manifest.ReadInt(d, A("timestamp"));
    var nonce := Manifest.ReadStr(d, A("nonce"));
    if jobId.None? || script.None? || dataset.None? || output.None? || timestamp.None? || nonce.None? then None
    else match Base64.Decode(nonce.value)
      case None => None
      case Some(n) => Some(ProofData(
        jobId.value, script.value, dataset.value, output.value, timestamp.value,
        Manifest.ReadStr(d, A("context_hash")), Manifest.ReadStr(d, A("files_manifest_sha256")), n,
        Manifest.ReadStr(d, A("nonce_source")).Some?))
  }

  predicate CleanProof(p: ProofData) {
    && JsonRoundTrip.Unpaired(p.jobId) && JsonRoundTrip.Unpaired(p.scriptHash)
    && JsonRoundTrip.Unpaired(p.datasetHash) && JsonRoundTrip.Unpaired(p.outputHash)
    && (p.contextHash.Some? ==> JsonRoundTrip.Unpaired(p.contextHash.value))
    && (p.manifestHash.Some? ==> JsonRoundTrip.Unpaired(p.manifestHash.value))
  }

  /** Lengths and first letters tell the nine keys apart. */
  lemma KeyFacts()
    ensures |A("job_id")| == 6 && |A("timestamp")| == 9 && |A("files_manifest_sha256")| == 21 && |A("nonce")| == 5
    ensures |A("script_hash")| == 11 && |A("output_hash")| == 11 && A("script_hash")[0] != A("output_hash")[0]
    ensures |A("dataset_hash")| == 12 && |A("context_hash")| == 12 && |A("nonce_source")| == 12
    ensures A("dataset_hash")[0] == 0x64 && A("context_hash")[0] == 0x63 && A("nonce_source")[0] == 0x6E
  {
  }

  /** A new key is added and nothing else changes. */
  lemma {:induction false} PutGet(d: seq<Keyed<Value>>, k: Bytes, v: Value)
    requires AllPlain(d) && Plain(v) && DistinctKeys(d) && Get(d, k).None?
    ensures DistinctKeys(Put(d, k, v))
    ensures forall k' :: Get(Put(d, k, v), k') == if k' == k then Some(v) else Get(d, k')
  {
    forall i | 0 <= i < |d| ensures d[i].key != k { GetIsMembership(d, k, d[i].value); }
    forall k' ensures Get(Put(d, k, v), k') == if k' == k then Some(v) else Get(d, k') { GetSnoc(d, k, v, k'); }
  }

  lemma {:induction false} GetSnoc(d: seq<Keyed<Value>>, k: Text, v: Value, k': Text)
    requires Get(d, k).None?
    ensures Get(d + [Keyed(k, v)], k') == if k' == k then Some(v) else Get(d, k')
  {
    if d == [] {
      var one: seq<Keyed<Value>> := d + [Keyed(k, v)];
      assert one[0] == Keyed(k, v) && one[1..] == [];
    } else {
      GetSnoc(d[1..], k, v, k');
      assert (d + [Keyed(k, v)])[1..] == d[1..] + [Keyed(k, v)];
    }
  }

  lemma PutStrGet(d: seq<Keyed<Value>>, k: Bytes, t: Option<Text>)
    requires AllPlain(d) && DistinctKeys(d) && Get(d, k).None?
    ensures DistinctKeys(PutStr(d, k, t))
    ensures forall k' :: Get(PutStr(d, k, t), k') == if k' == k && t.Some? then Some(Str(t.value)) else Get(d, k')
  {
    hide Put;
    if t.Some? { PutGet(d, k, Str(t.value)); }
  }

  /** What the finished dictionary answers for every key. */
  lemma DictGets(p: ProofData)
    ensures DistinctKeys(ProofDict(p))
    ensures var d := ProofDict(p);
      && Get(d, A("job_id")) == Some(Str(p.jobId)) && Get(d, A("script_hash")) == Some(Str(p.scriptHash))
      && Get(d, A("dataset_hash")) == Some(Str(p.datasetHash)) && Get(d, A("output_hash")) == Some(Str(p.outputHash))
      && Get(d, A("timestamp")) == Some(Int(p.timestamp)) && Get(d, A("nonce")) == Some(Str(Base64.Encode(p.nonce)))
      && Get(d, A("context_hash")) == (if p.contextHash.Some? then Some(Str(p.contextHash.value)) else None)
      && Get(d, A("files_manifest_sha256")) == (if p.manifestHash.Some? then Some(Str(p.manifestHash.value)) else None)
      && Get(d, A("nonce_source")) == (if p.randomNonce then Some(Str(A("random"))) else None)
  {
    hide A, Put, PutStr, DistinctKeys, AllPlain, Plain, Base64.Encode, Get;
    KeyFacts();
    Strings();
    EmptyDict();
    var d1 := Put([], A("job_id"), Str(p.jobId));
    PutGet([], A("job_id"), Str(p.jobId));
    var d2 := Put(d1, A("script_hash"), Str(p.scriptHash));
    PutGet(d1, A("script_hash"), Str(p.scriptHash));
    var d3 := Put(d2, A("dataset_hash"), Str(p.datasetHash));
    PutGet(d2, A("dataset_hash"), Str(p.datasetHash));
    var d4 := Put(d3, A("output_hash"), Str(p.outputHash));
    PutGet(d3, A("output_hash"), Str(p.outputHash));
    var d5 := Put(d4, A("timestamp"), Int(p.timestamp));
    PutGet(d4, A("timestamp"), Int(p.timestamp));
    var d6 := PutStr(d5, A("context_hash"), p.contextHash);
    PutStrGet(d5, A("context_hash"), p.contextHash);
    var d7 := PutStr(d6, A("files_manifest_sha256"), p.manifestHash);
    PutStrGet(d6, A("files_manifest_sha256"), p.manifestHash);
    var d8 := Put(d7, A("nonce"), Str(Base64.Encode(p.nonce)));
    PutGet(d7, A("nonce"), Str(Base64.Encode(p.nonce)));
    PutStrGet(d8, A("nonce_source"), if p.randomNonce then Some(A("random")) else None);
  }

  lemma EmptyDict()
    ensures DistinctKeys<Value>([]) && forall k :: Get<Value>([], k) == None
  {
  }

  // ---- strings as a JSON reader returns them ----

  function MergeText(t: Option<Text>): Option<Text> { if t.None? then None else Some(JsonRoundTrip.Merge(t.value)) }

  /** The proof with every adjacent surrogate pair in its texts read as one character. */
  function MergeProof(p: ProofData): ProofData {
    ProofData(JsonRoundTrip.Merge(p.jobId), JsonRoundTrip.Merge(p.scriptHash), JsonRoundTrip.Merge(p.datasetHash),
              JsonRoundTrip.Merge(p.outputHash), p.timestamp, MergeText(p.contextHash), MergeText(p.manifestHash),
              p.nonce, p.randomNonce)
  }

  ghost predicate ByteKeys(d: seq<Keyed<Value>>) { forall m :: m in d ==> JsonRoundTrip.Unpaired(m.key) }

  lemma PutByteKey(d: seq<Keyed<Value>>, k: Bytes, v: Value)
    requires AllPlain(d) && Plain(v) && ByteKeys(d)
    ensures ByteKeys(Put(d, k, v))
  {
    hide JsonRoundTrip.Unpaired;
    Manifest.BytesUnpaired(k);
  }

  lemma PutStrByteKey(d: seq<Keyed<Value>>, k: Bytes, t: Option<Text>)
    requires AllPlain(d) && ByteKeys(d)
    ensures ByteKeys(PutStr(d, k, t))
  {
    if t.Some? { PutByteKey(d, k, Str(t.value)); }
  }

  lemma DictByteKeys(p: ProofData)
    ensures ByteKeys(ProofDict(p))
  {
    hide A, Put, PutStr, AllPlain, ByteKeys, Plain, Base64.Encode;
    Strings();
    NoKeys();
    var d1 := Put([], A("job_id"), Str(p.jobId));
    PutByteKey([], A("job_id"), Str(p.jobId));
    var d2 := Put(d1, A("script_hash"), Str(p.scriptHash));
    PutByteKey(d1, A("script_hash"), Str(p.scriptHash));
    var d3 := Put(d2, A("dataset_hash"), Str(p.datasetHash));
    PutByteKey(d2, A("dataset_hash"), Str(p.datasetHash));
    var d4 := Put(d3, A("output_hash"), Str(p.outputHash));
    PutByteKey(d3, A("output_hash"), Str(p.outputHash));
    var d5 := Put(d4, A("timestamp"), Int(p.timestamp));
    PutByteKey(d4, A("timestamp"), Int(p.timestamp));
    var d6 := PutStr(d5, A("context_hash"), p.contextHash);
    PutStrByteKey(d5, A("context_hash"), p.contextHash);
    var d7 := PutStr(d6, A("files_manifest_sha256"), p.manifestHash);
    PutStrByteKey(d6, A("files_manifest_sha256"), p.manifestHash);
    var d8 := Put(d7, A("nonce"), Str(Base64.Encode(p.nonce)));
    PutByteKey(d7, A("nonce"), Str(Base64.Encode(p.nonce)));
    PutStrByteKey(d8, A("nonce_source"), if p.randomNonce then Some(A("random")) else None);
  }

  lemma NoKeys()
    ensures ByteKeys([])
  {
  }

  /** Reading a key of the merged dictionary is merging what the key holds. */
  lemma {:induction false} GetMerged(d: seq<Keyed<Value>>, k: Text)
    requires ByteKeys(d)
    ensures Get(JsonRoundTrip.MergeMembers(d), k) ==
      match Get(d, k) case None => None case Some(v) => Some(JsonRoundTrip.MergeValue(v))
  {
    hide JsonRoundTrip.Unpaired, JsonRoundTrip.Merge, JsonRoundTrip.MergeValue;
    if d != [] {
      JsonRoundTrip.MergeLength(d[0].key);
      GetMerged(d[1..], k);
    }
  }

  lemma SortedGets(p: ProofData, k: Text)
    ensures Get(JsonRoundTrip.MergeMembers(Sort(ProofDict(p))), k) ==
      match Get(ProofDict(p), k) case None => None case Some(v) => Some(JsonRoundTrip.MergeValue(v))
  {
    hide A, Sort, ProofDict, Get, DistinctKeys, JsonRoundTrip.MergeMembers, JsonRoundTrip.Unpaired,
      JsonRoundTrip.MergeValue;
    var d := ProofDict(p);
    DictGets(p);
    DictByteKeys(p);
    GetSorted(d, k);
    SortMembers(d);
    GetMerged(Sort(d), k);
  }

  lemma ReadSorted(p: ProofData)
    ensures ReadProof(JsonRoundTrip.MergeMembers(Sort(ProofDict(p)))) == Some(MergeProof(p))
  {
    hide A, Sort, ProofDict, Get, DistinctKeys, Base64.Encode, Base64.Decode, JsonRoundTrip.MergeMembers,
      JsonRoundTrip.Merge, JsonRoundTrip.Unpaired;
    DictGets(p);
    forall k: Text
      ensures Get(JsonRoundTrip.MergeMembers(Sort(ProofDict(p))), k) ==
        match Get(ProofDict(p), k) case None => None case Some(v) => Some(JsonRoundTrip.MergeValue(v))
    {
      SortedGets(p, k);
    }
    Manifest.BytesUnpaired(Base64.Encode(p.nonce));
    JsonRoundTrip.MergeLength(Base64.Encode(p.nonce));
    Base64.RoundTrip(p.nonce);
  }

  /** Whatever the strings, parsing the sorted-key JSON recovers the job id, every hash, the time, the nonce and which
      optional fields are there, with surrogate pairs read as the characters they spell. */
  lemma ProofReadsAs(p: ProofData)
    ensures ParseProof(ProofBytes(p)) == Some(MergeProof(p))
  {
    hide Loads, Dumps, ProofDict, ReadProof, Sort, MergeProof, JsonRoundTrip.MergeMembers;
    JsonRoundTrip.LoadsDumps(Manifest.SortedObj(ProofDict(p)), Spaced);
    ReadSorted(p);
  }

  /** The proof itself comes back exactly when no string in it holds an adjacent surrogate pair. */
  lemma ProofRoundTrip(p: ProofData)
    ensures ParseProof(ProofBytes(p)) == Some(p) <==> CleanProof(p)
  {
    hide ParseProof, ProofBytes, JsonRoundTrip.Merge, JsonRoundTrip.Unpaired;
    ProofReadsAs(p);
    forall t: Text ensures JsonRoundTrip.Merge(t) == t <==> JsonRoundTrip.Unpaired(t) { JsonRoundTrip.MergeLength(t); }
  }

  /** Proof bytes determine the proof, up to surrogate pairs and the characters they spell. */
  lemma ProofBytesInjective(p: ProofData, q: ProofData)
    requires ProofBytes(p) == ProofBytes(q)
    ensures MergeProof(p) == MergeProof(q)
    ensures CleanProof(p) && CleanProof(q) ==> p == q
  {
    hide ParseProof, ProofBytes, MergeProof, CleanProof;
    ProofReadsAs(p);
    ProofReadsAs(q);
    ProofRoundTrip(p);
    ProofRoundTrip(q);
  }
}
