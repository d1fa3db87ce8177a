/** The exact text of the JSON the enclave writes, piece by piece, without the printer. */
module ExactJson {
  import opened Basics
  import opened Ordering
  import opened Json
  import JsonRoundTrip
  import Manifest
  import Names
  import OutputFiles
  import Proof
  import Base64
  import Hex

  /** `sep.join(parts)` */
  function Separated(parts: seq<Text>, sep: Text): Text {
    if parts == [] then []
    else if |parts| == 1 then parts[0]
    else parts[0] + (sep + Separated(parts[1..], sep))
  }

  function CommaOf(style: Style): Bytes { if style.Compact? then A(",") else A(", ") }
  function ColonOf(style: Style): Bytes { if style.Compact? then A(":") else A(": ") }

  lemma Separators(style: Style)
    ensures Sep(COMMA, style) == CommaOf(style) && Sep(COLON, style) == ColonOf(style)
  {
    if style.Spaced? {
      assert A(", ") == [0x2C, 0x20] && A(": ") == [0x3A, 0x20];
    } else {
      assert A(",") == [0x2C] && A(":") == [0x3A];
    }
  }

  // ---- lists ----

  function Texts(items: seq<Value>, style: Style): (r: seq<Text>)
    requires forall x :: x in items ==> Plain(x)
    ensures |r| == |items| && forall i :: 0 <= i < |r| ==> r[i] == Dumps(items[i], style)
  {
    seq(|items|, i requires 0 <= i < |items| => Dumps(items[i], style))
  }

  lemma {:induction false} ItemsText(items: seq<Value>, style: Style)
    requires forall x :: x in items ==> Plain(x)
    ensures DumpsItems(items, style) == Separated(Texts(items, style), CommaOf(style))
  {
    hide Dumps, Plain, CommaOf, Sep;
    Separators(style);
    if |items| > 1 {
      ItemsText(items[1..], style);
      assert Texts(items, style)[1..] == Texts(items[1..], style);
    }
  }

  /** A printed list: brackets around the items' texts, joined by the comma of the style. */
  lemma ListText(items: seq<Value>, style: Style)
    requires forall x :: x in items ==> Plain(x)
    ensures Dumps(Arr(items), style) == A("[") + Separated(Texts(items, style), CommaOf(style)) + A("]")
  {
    hide Separated, Texts, CommaOf, DumpsItems;
    ItemsText(items, style);
    assert A("[") == [LBRACK] && A("]") == [RBRACK];
  }

  // ---- dictionaries ----

  function Line(m: Keyed<Value>, style: Style): Bytes
    requires Plain(m.value)
  {
    Quoted(m.key) + (ColonOf(style) + Dumps(m.value, style))
  }

  function Lines(ms: seq<Keyed<Value>>, style: Style): (r: seq<Text>)
    requires forall m :: m in ms ==> Plain(m.value)
    ensures |r| == |ms| && forall i :: 0 <= i < |r| ==> r[i] == Line(ms[i], style)
  {
    seq(|ms|, i requires 0 <= i < |ms| => Line(ms[i], style))
  }

  lemma {:induction false} MembersText(ms: seq<Keyed<Value>>, style: Style)
    requires forall m :: m in ms ==> Plain(m.value)
    ensures DumpsMembers(ms, style) == Separated(Lines(ms, style), CommaOf(style))
  {
    hide Dumps, Quoted, Plain, CommaOf, ColonOf, Sep;
    Separators(style);
    if |ms| > 1 {
      MembersText(ms[1..], style);
      assert Lines(ms, style)[1..] == Lines(ms[1..], style);
    }
  }

  /** A printed dictionary: braces around the lines in the order of the members, joined by the comma of the style. */
  lemma DictionaryText(ms: seq<Keyed<Value>>, style: Style)
    requires forall m :: m in ms ==> Plain(m.value)
    ensures Dumps(Obj(ms), style) == A("{") + Separated(Lines(ms, style), CommaOf(style)) + A("}")
  {
    hide Separated, Lines, CommaOf, DumpsMembers;
    MembersText(ms, style);
    assert A("{") == [LBRACE] && A("}") == [RBRACE];
  }

  // ---- the canonical manifest ----

  /** Text that JSON prints as it is. */
  predicate Bare(t: Text) { forall i :: 0 <= i < |t| ==> 0x20 <= t[i] < 0x7F && t[i] != QUOTE && t[i] != BACKSLASH }

  predicate BareEntry(e: Manifest.Entry) { Bare(e.key) && Bare(e.value.sha256) && Bare(e.value.fileType) }

  lemma {:induction false} BareEscapes(t: Text)
    requires Bare(t)
    ensures EscapeAll(t) == t
  {
    if t != [] {
      BareEscapes(t[1..]);
      assert t == [t[0]] + t[1..];
    }
  }

  /** One entry, as every other repository writes it. */
  function EntryText(e: Manifest.Entry): Text {
    var name: Text := A("\"name\":\"") + e.key + A("\"");
    var sha: Text := A("\"sha256\":\"") + e.value.sha256 + A("\"");
    var size: Text := A("\"size\":") + PrintNat(e.value.size);
    var kind: Text := A("\"type\":\"") + e.value.fileType + A("\"");
    A("{") + Separated([name, sha, size, kind], A(",")) + A("}")
  }

  lemma TextLine(key: Bytes, before: Bytes, t: Text)
    requires Bare(key) && Bare(t) && before == [QUOTE] + key + [QUOTE, COLON, QUOTE]
    ensures Line(Keyed(key, Str(t)), Compact) == before + t + A("\"")
  {
    hide EscapeAll;
    BareEscapes(key);
    BareEscapes(t);
    assert A(":") == [COLON] && A("\"") == [QUOTE];
  }

  lemma NumberLine(key: Bytes, before: Bytes, n: nat)
    requires Bare(key) && before == [QUOTE] + key + [QUOTE, COLON]
    ensures Line(Keyed(key, Int(n)), Compact) == before + PrintNat(n)
  {
    hide EscapeAll, PrintNat;
    BareEscapes(key);
    assert A(":") == [COLON];
  }

  lemma LiteralConcat(s: string, t: string)
    ensures A(s + t) == A(s) + A(t)
  {
  }

  lemma LiteralBare(k: string)
    requires forall i :: 0 <= i < |k| ==> 'a' <= k[i] <= 'z' || '0' <= k[i] <= '9' || k[i] == '_'
    ensures Bare(A(k))
  {
  }

  /** A quoted key as one literal: `"key":` before a number, `"key":"` before a text. */
  lemma KeyLiteral(k: string)
    requires forall i :: 0 <= i < |k| ==> 'a' <= k[i] <= 'z' || '0' <= k[i] <= '9' || k[i] == '_'
    ensures Bare(A(k))
    ensures A("\"" + k + "\":") == [QUOTE] + A(k) + [QUOTE, COLON]
    ensures A("\"" + k + "\":\"") == [QUOTE] + A(k) + [QUOTE, COLON, QUOTE]
  {
    LiteralBare(k);
    Marks();
    hide A, Bare;
    LiteralConcat("\"" + k, "\":");
    LiteralConcat("\"" + k, "\":\"");
    LiteralConcat("\"", k);
  }

  lemma Marks()
    ensures A("\"") == [QUOTE] && A("\":") == [QUOTE, COLON] && A("\":\"") == [QUOTE, COLON, QUOTE]
  {
  }

  lemma TextEntryLines(e: Manifest.Entry)
    requires BareEntry(e)
    ensures Line(Keyed(A("name"), Str(e.key)), Compact) == A("\"name\":\"") + e.key + A("\"")
    ensures Line(Keyed(A("sha256"), Str(e.value.sha256)), Compact) == A("\"sha256\":\"") + e.value.sha256 + A("\"")
  {
    hide A, Bare, Line;
    KeyLiteral("name");
    KeyLiteral("sha256");
    assert "\"" + "name" + "\":\"" == "\"name\":\"" && "\"" + "sha256" + "\":\"" == "\"sha256\":\"";
    TextLine(A("name"), A("\"name\":\""), e.key);
    TextLine(A("sha256"), A("\"sha256\":\""), e.value.sha256);
  }

  lemma OtherEntryLines(e: Manifest.Entry)
    requires BareEntry(e)
    ensures Line(Keyed(A("size"), Int(e.value.size)), Compact) == A("\"size\":") + PrintNat(e.value.size)
    ensures Line(Keyed(A("type"), Str(e.value.fileType)), Compact) == A("\"type\":\"") + e.value.fileType + A("\"")
  {
    hide A, Bare, PrintNat, Line;
    KeyLiteral("size");
    KeyLiteral("type");
    assert "\"" + "size" + "\":" == "\"size\":" && "\"" + "type" + "\":\"" == "\"type\":\"";
    NumberLine(A("size"), A("\"size\":"), e.value.size);
    TextLine(A("type"), A("\"type\":\""), e.value.fileType);
  }

  lemma EntryTextIs(e: Manifest.Entry)
    requires BareEntry(e)
    ensures Dumps(Manifest.EntryJson(e), Compact) == EntryText(e)
  {
    hide A, BareEntry, Dumps, PrintNat, Line, Manifest.EntryJson, Separated;
    Manifest.EntryKeyOrder(e);
    TextEntryLines(e);
    OtherEntryLines(e);
    var ms := Manifest.EntryJson(e).members;
    DictionaryText(ms, Compact);
    assert Lines(ms, Compact) ==
      [Line(ms[0], Compact), Line(ms[1], Compact), Line(ms[2], Compact), Line(ms[3], Compact)];
  }

  function EntryTexts(m: seq<Manifest.Entry>): (r: seq<Text>)
    ensures |r| == |m| && forall i :: 0 <= i < |r| ==> r[i] == EntryText(m[i])
  {
    seq(|m|, i requires 0 <= i < |m| => EntryText(m[i]))
  }

  /** The bytes that are hashed: the entries' texts between brackets, joined by single commas. */
  lemma CanonicalBytes(m: seq<Manifest.Entry>)
    requires forall e :: e in m ==> BareEntry(e)
    ensures Manifest.CanonicalManifestBytes(m) == A("[") + Separated(EntryTexts(m), A(",")) + A("]")
  {
    hide A, Dumps, EntryText, BareEntry, Manifest.EntryJson, Separated;
    var items := Manifest.ManifestJson(m).items;
    ListText(items, Compact);
    forall i | 0 <= i < |m| ensures Texts(items, Compact)[i] == EntryTexts(m)[i] {
      EntryTextIs(m[i]);
    }
    assert Texts(items, Compact) == EntryTexts(m);
  }

  // ---- the proof ----

  function Opt(key: Bytes, t: Option<Text>): seq<Keyed<Value>> { if t.None? then [] else [Keyed(key, Str(t.value))] }

  function Source(p: Proof.ProofData): Option<Text> { if p.randomNonce then Some(A("random")) else None }

  function FirstFields(p: Proof.ProofData): (r: seq<Keyed<Value>>)
    ensures forall m :: m in r ==> Plain(m.value)
  {
    Opt(A("context_hash"), p.contextHash) + Opt(A("dataset_hash"), Some(p.datasetHash))
    + Opt(A("files_manifest_sha256"), p.manifestHash) + Opt(A("job_id"), Some(p.jobId))
  }

  function LastFields(p: Proof.ProofData): (r: seq<Keyed<Value>>)
    ensures forall m :: m in r ==> Plain(m.value)
  {
    Opt(A("nonce"), Some(Base64.Encode(p.nonce))) + Opt(A("nonce_source"), Source(p))
    + Opt(A("output_hash"), Some(p.outputHash)) + Opt(A("script_hash"), Some(p.scriptHash))
    + [Keyed(A("timestamp"), Int(p.timestamp))]
  }

  /** The fields of a proof in the order of their keys. */
  function SortedFields(p: Proof.ProofData): (r: seq<Keyed<Value>>)
    ensures forall m :: m in r ==> Plain(m.value)
  {
    FirstFields(p) + LastFields(p)
  }

  ghost predicate IsField(p: Proof.ProofData, x: Keyed<Value>) {
    || x in Opt(A("context_hash"), p.contextHash) || x in Opt(A("dataset_hash"), Some(p.datasetHash))
    || x in Opt(A("files_manifest_sha256"), p.manifestHash) || x in Opt(A("job_id"), Some(p.jobId))
    || x in Opt(A("nonce"), Some(Base64.Encode(p.nonce))) || x in Opt(A("nonce_source"), Source(p))
    || x in Opt(A("output_hash"), Some(p.outputHash)) || x in Opt(A("script_hash"), Some(p.scriptHash))
    || x == Keyed(A("timestamp"), Int(p.timestamp))
  }

  lemma PutMembers(d: seq<Keyed<Value>>, k: Bytes, v: Value, x: Keyed<Value>)
    requires Proof.AllPlain(d) && Plain(v)
    ensures x in Proof.Put(d, k, v) <==> x in d || x == Keyed(k, v)
  {
  }

  lemma PutStrMembers(d: seq<Keyed<Value>>, k: Bytes, t: Option<Text>, x: Keyed<Value>)
    requires Proof.AllPlain(d)
    ensures x in Proof.PutStr(d, k, t) <==> x in d || x in Opt(k, t)
  {
  }

  lemma DictMembers(p: Proof.ProofData, x: Keyed<Value>)
    ensures x in Proof.ProofDict(p) <==> IsField(p, x)
  {
    hide A, Proof.Put, Proof.PutStr, Proof.AllPlain, Plain, Base64.Encode;
    Proof.Strings();
    var d1 := Proof.Put([], A("job_id"), Str(p.jobId));
    PutMembers([], A("job_id"), Str(p.jobId), x);
    var d2 := Proof.Put(d1, A("script_hash"), Str(p.scriptHash));
    PutMembers(d1, A("script_hash"), Str(p.scriptHash), x);
    var d3 := Proof.Put(d2, A("dataset_hash"), Str(p.datasetHash));
    PutMembers(d2, A("dataset_hash"), Str(p.datasetHash), x);
    var d4 := Proof.Put(d3, A("output_hash"), Str(p.outputHash));
    PutMembers(d3, A("output_hash"), Str(p.outputHash), x);
    var d5 := Proof.Put(d4, A("timestamp"), Int(p.timestamp));
    PutMembers(d4, A("timestamp"), Int(p.timestamp), x);
    var d6 := Proof.PutStr(d5, A("context_hash"), p.contextHash);
    PutStrMembers(d5, A("context_hash"), p.contextHash, x);
    var d7 := Proof.PutStr(d6, A("files_manifest_sha256"), p.manifestHash);
    PutStrMembers(d6, A("files_manifest_sha256"), p.manifestHash, x);
    var d8 := Proof.Put(d7, A("nonce"), Str(Base64.Encode(p.nonce)));
    PutMembers(d7, A("nonce"), Str(Base64.Encode(p.nonce)), x);
    PutStrMembers(d8, A("nonce_source"), Source(p), x);
  }

  ghost predicate Below(s: seq<Keyed<Value>>, k: Text) { StrictSorted(s) && forall x :: x in s ==> Less(x.key, k) }

  /** A strictly sorted list whose keys stay below `k` takes the field `k` and stays below the next key. */
  lemma BelowNext(s: seq<Keyed<Value>>, k: Bytes, f: seq<Keyed<Value>>, next: Bytes)
    requires Below(s, k) && (f == [] || (|f| == 1 && f[0].key == k)) && Less(k, next)
    ensures Below(s + f, next)
  {
    hide Less;
    forall x | x in s + f ensures Less(x.key, next) {
      if x in s { LessTransitive(x.key, k, next); }
    }
    forall i, j | 0 <= i < j < |s + f| ensures Less((s + f)[i].key, (s + f)[j].key) {
      if j == |s| { assert s[i] in s; }
    }
  }

  /** The nine keys in order. */
  lemma KeysSorted()
    ensures Less(A("context_hash"), A("dataset_hash")) && Less(A("dataset_hash"), A("files_manifest_sha256"))
    ensures Less(A("files_manifest_sha256"), A("job_id")) && Less(A("job_id"), A("nonce"))
    ensures Less(A("nonce"), A("nonce_source")) && Less(A("nonce_source"), A("output_hash"))
    ensures Less(A("output_hash"), A("script_hash")) && Less(A("script_hash"), A("timestamp"))
  {
    hide Less;
    Manifest.LessAt(A("context_hash"), A("dataset_hash"), 0);
    Manifest.LessAt(A("dataset_hash"), A("files_manifest_sha256"), 0);
    Manifest.LessAt(A("files_manifest_sha256"), A("job_id"), 0);
    Manifest.LessAt(A("job_id"), A("nonce"), 0);
    Manifest.LessAt(A("nonce_source"), A("output_hash"), 0);
    Manifest.LessAt(A("output_hash"), A("script_hash"), 0);
    Manifest.LessAt(A("script_hash"), A("timestamp"), 0);
    LessExtended(A("nonce"), A("_source"));
    assert "nonce_source" == "nonce" + "_source";
    LiteralConcat("nonce", "_source");
  }

  lemma {:induction false} LessExtended(a: Text, b: Text)
    requires b != []
    ensures Less(a, a + b)
  {
    if a != [] {
      LessExtended(a[1..], b);
      assert (a + b)[1..] == a[1..] + b;
    }
  }

  lemma FirstSorted(p: Proof.ProofData)
    ensures Below(FirstFields(p), A("nonce"))
  {
    hide A, Less, StrictSorted;
    KeysSorted();
    EmptyBelow(A("context_hash"));
    var s1 := Opt(A("context_hash"), p.contextHash);
    assert [] + s1 == s1;
    BelowNext([], A("context_hash"), s1, A("dataset_hash"));
    var s2 := s1 + Opt(A("dataset_hash"), Some(p.datasetHash));
    BelowNext(s1, A("dataset_hash"), Opt(A("dataset_hash"), Some(p.datasetHash)), A("files_manifest_sha256"));
    var s3 := s2 + Opt(A("files_manifest_sha256"), p.manifestHash);
    BelowNext(s2, A("files_manifest_sha256"), Opt(A("files_manifest_sha256"), p.manifestHash), A("job_id"));
    BelowNext(s3, A("job_id"), Opt(A("job_id"), Some(p.jobId)), A("nonce"));
  }

  lemma LastSorted(p: Proof.ProofData, s4: seq<Keyed<Value>>)
    requires Below(s4, A("nonce"))
    ensures StrictSorted(s4 + LastFields(p))
  {
    hide A, Less, Base64.Encode, StrictSorted;
    KeysSorted();
    var nonce, source := Opt(A("nonce"), Some(Base64.Encode(p.nonce))), Opt(A("nonce_source"), Source(p));
    var output, script := Opt(A("output_hash"), Some(p.outputHash)), Opt(A("script_hash"), Some(p.scriptHash));
    var time := [Keyed(A("timestamp"), Int(p.timestamp))];
    BelowNext(s4, A("nonce"), nonce, A("nonce_source"));
    BelowNext(s4 + nonce, A("nonce_source"), source, A("output_hash"));
    BelowNext(s4 + nonce + source, A("output_hash"), output, A("script_hash"));
    BelowNext(s4 + nonce + source + output, A("script_hash"), script, A("timestamp"));
    LessExtended(A("timestamp"), [0]);
    BelowNext(s4 + nonce + source + output + script, A("timestamp"), time, A("timestamp") + [0]);
    FivePieces(s4, nonce, source, output, script, time);
  }

  lemma FivePieces<T>(s: seq<T>, a: seq<T>, b: seq<T>, c: seq<T>, d: seq<T>, e: seq<T>)
    ensures s + (a + b + c + d + e) == s + a + b + c + d + e
  {
    assert s + (a + b + c + d + e) == s + (a + b + c + d) + e;
    assert s + (a + b + c + d) == s + (a + b + c) + d;
    assert s + (a + b + c) == s + (a + b) + c;
    assert s + (a + b) == s + a + b;
  }

  lemma FieldsAre(p: Proof.ProofData, x: Keyed<Value>)
    ensures x in SortedFields(p) <==> IsField(p, x)
  {
    hide A, Opt, Base64.Encode;
  }

  lemma EmptyBelow(k: Text)
    ensures Below([], k)
  {
  }

  lemma ProofSorted(p: Proof.ProofData)
    ensures Sort(Proof.ProofDict(p)) == SortedFields(p)
  {
    hide A, Sort, FirstFields, LastFields, Proof.ProofDict, IsField, Get, StrictSorted, DistinctKeys;
    var d := Proof.ProofDict(p);
    Proof.DictGets(p);
    SortStrict(d);
    FirstSorted(p);
    LastSorted(p, FirstFields(p));
    forall x ensures x in Sort(d) <==> x in SortedFields(p) {
      SortMember(d, x);
      DictMembers(p, x);
      FieldsAre(p, x);
    }
    StrictSortedUnique(Sort(d), SortedFields(p));
  }

  /** A line of the proof, if its field is there. */
  function TextField(before: Bytes, t: Option<Text>): seq<Text> { if t.None? then [] else [before + Quoted(t.value)] }

  function FirstLines(p: Proof.ProofData): seq<Text> {
    TextField(A("\"context_hash\": "), p.contextHash) + TextField(A("\"dataset_hash\": "), Some(p.datasetHash))
    + TextField(A("\"files_manifest_sha256\": "), p.manifestHash) + TextField(A("\"job_id\": "), Some(p.jobId))
  }

  function LastLines(p: Proof.ProofData): seq<Text> {
    TextField(A("\"nonce\": "), Some(Base64.Encode(p.nonce)))
    + (if p.randomNonce then [A("\"nonce_source\": \"random\"")] else [])
    + TextField(A("\"output_hash\": "), Some(p.outputHash)) + TextField(A("\"script_hash\": "), Some(p.scriptHash))
    + [A("\"timestamp\": ") + PrintInt(p.timestamp)]
  }

  /** The lines of a proof as Python prints them. */
  function ProofLines(p: Proof.ProofData): seq<Text> { FirstLines(p) + LastLines(p) }

  lemma LinesConcat(a: seq<Keyed<Value>>, b: seq<Keyed<Value>>, style: Style)
    requires forall m :: m in a + b ==> Plain(m.value)
    ensures forall m :: m in a ==> Plain(m.value)
    ensures forall m :: m in b ==> Plain(m.value)
    ensures Lines(a + b, style) == Lines(a, style) + Lines(b, style)
  {
    hide Line, Plain;
    assert forall m :: m in a ==> m in a + b;
    assert forall m :: m in b ==> m in a + b;
  }

  /** The quoted key and the colon before a value, as one literal. */
  lemma SpacedKey(k: string)
    requires forall i :: 0 <= i < |k| ==> 'a' <= k[i] <= 'z' || '0' <= k[i] <= '9' || k[i] == '_'
    ensures Quoted(A(k)) + ColonOf(Spaced) == A("\"" + k + "\": ")
  {
    LiteralBare(k);
    assert A("\": ") == [QUOTE, 0x3A, 0x20] && A(": ") == [0x3A, 0x20] && A("\"") == [QUOTE];
    hide A, Bare, EscapeAll;
    BareEscapes(A(k));
    LiteralConcat("\"" + k, "\": ");
    LiteralConcat("\"", k);
  }

  lemma OptLines(k: string, t: Option<Text>)
    requires forall i :: 0 <= i < |k| ==> 'a' <= k[i] <= 'z' || '0' <= k[i] <= '9' || k[i] == '_'
    ensures forall m :: m in Opt(A(k), t) ==> Plain(m.value)
    ensures Lines(Opt(A(k), t), Spaced) == TextField(A("\"" + k + "\": "), t)
  {
    hide A, Quoted, ColonOf;
    SpacedKey(k);
    if t.Some? { assert Line(Keyed(A(k), Str(t.value)), Spaced) == A("\"" + k + "\": ") + Quoted(t.value); }
  }

  lemma SourceLine(p: Proof.ProofData)
    ensures forall m :: m in Opt(A("nonce_source"), Source(p)) ==> Plain(m.value)
    ensures Lines(Opt(A("nonce_source"), Source(p)), Spaced) ==
            if p.randomNonce then [A("\"nonce_source\": \"random\"")] else []
  {
    hide A, Quoted;
    OptLines("nonce_source", Source(p));
    assert "\"" + "nonce_source" + "\": " == "\"nonce_source\": ";
    RandomQuoted();
    LiteralConcat("\"nonce_source\": ", "\"random\"");
    assert "\"nonce_source\": " + "\"random\"" == "\"nonce_source\": \"random\"";
  }

  lemma RandomQuoted()
    ensures Quoted(A("random")) == A("\"random\"")
  {
    QuotedLiteral("random");
    assert "\"" + "random" + "\"" == "\"random\"";
  }

  lemma QuotedLiteral(k: string)
    requires forall i :: 0 <= i < |k| ==> 'a' <= k[i] <= 'z' || '0' <= k[i] <= '9' || k[i] == '_'
    ensures Quoted(A(k)) == A("\"" + k + "\"")
  {
    LiteralBare(k);
    Marks();
    hide A, EscapeAll, Bare;
    BareEscapes(A(k));
    LiteralConcat("\"" + k, "\"");
    LiteralConcat("\"", k);
  }

  lemma FirstText(p: Proof.ProofData)
    ensures Lines(FirstFields(p), Spaced) == FirstLines(p)
  {
    hide A, Opt, TextField, Plain;
    OptLines("context_hash", p.contextHash);
    OptLines("dataset_hash", Some(p.datasetHash));
    OptLines("files_manifest_sha256", p.manifestHash);
    OptLines("job_id", Some(p.jobId));
    FirstKeys();
    var f1 := Opt(A("context_hash"), p.contextHash);
    var f2 := f1 + Opt(A("dataset_hash"), Some(p.datasetHash));
    var f3 := f2 + Opt(A("files_manifest_sha256"), p.manifestHash);
    LinesConcat(f3, Opt(A("job_id"), Some(p.jobId)), Spaced);
    LinesConcat(f2, Opt(A("files_manifest_sha256"), p.manifestHash), Spaced);
    LinesConcat(f1, Opt(A("dataset_hash"), Some(p.datasetHash)), Spaced);
  }

  lemma FirstKeys()
    ensures "\"" + "context_hash" + "\": " == "\"context_hash\": "
    ensures "\"" + "dataset_hash" + "\": " == "\"dataset_hash\": "
    ensures "\"" + "files_manifest_sha256" + "\": " == "\"files_manifest_sha256\": "
    ensures "\"" + "job_id" + "\": " == "\"job_id\": "
  {
  }

  lemma LastText(p: Proof.ProofData)
    ensures Lines(LastFields(p), Spaced) == LastLines(p)
  {
    hide A, Opt, TextField, Plain, Base64.Encode;
    OptLines("nonce", Some(Base64.Encode(p.nonce)));
    SourceLine(p);
    OptLines("output_hash", Some(p.outputHash));
    OptLines("script_hash", Some(p.scriptHash));
    LastKeys();
    var time := [Keyed(A("timestamp"), Int(p.timestamp))];
    TimeLine(p.timestamp);
    var f1 := Opt(A("nonce"), Some(Base64.Encode(p.nonce)));
    var f2 := f1 + Opt(A("nonce_source"), Source(p));
    var f3 := f2 + Opt(A("output_hash"), Some(p.outputHash));
    var f4 := f3 + Opt(A("script_hash"), Some(p.scriptHash));
    LinesConcat(f4, time, Spaced);
    LinesConcat(f3, Opt(A("script_hash"), Some(p.scriptHash)), Spaced);
    LinesConcat(f2, Opt(A("output_hash"), Some(p.outputHash)), Spaced);
    LinesConcat(f1, Opt(A("nonce_source"), Source(p)), Spaced);
  }

  lemma LastKeys()
    ensures "\"" + "nonce" + "\": " == "\"nonce\": "
    ensures "\"" + "output_hash" + "\": " == "\"output_hash\": "
    ensures "\"" + "script_hash" + "\": " == "\"script_hash\": "
  {
  }

  lemma TimeLine(n: int)
    ensures Plain(Int(n)) && Lines([Keyed(A("timestamp"), Int(n))], Spaced) == [A("\"timestamp\": ") + PrintInt(n)]
  {
    hide A, Quoted, ColonOf, PrintInt;
    SpacedKey("timestamp");
    assert "\"" + "timestamp" + "\": " == "\"timestamp\": ";
    assert Line(Keyed(A("timestamp"), Int(n)), Spaced) == A("\"timestamp\": ") + PrintInt(n);
  }

  /** The bytes of a proof: its lines in key order between braces, joined by comma and space. */
  lemma ProofText(p: Proof.ProofData)
    ensures Proof.ProofBytes(p) == A("{") + Separated(ProofLines(p), A(", ")) + A("}")
  {
    hide A, Dumps, Sort, FirstFields, LastFields, FirstLines, LastLines, Proof.ProofDict, Plain, Separated;
    ProofSorted(p);
    DictionaryText(SortedFields(p), Spaced);
    LinesConcat(FirstFields(p), LastFields(p), Spaced);
    FirstText(p);
    LastText(p);
  }

  // ---- characters and numbers ----

  /** The escapes of `ensure_ascii`: the short ones, printable ASCII as it is, and four lower-case hex digits otherwise,
      twice above U+FFFF. */
  lemma Escapes(c: Code)
    ensures Escape(0x22) == [0x5C, 0x22] && Escape(0x5C) == [0x5C, 0x5C] && Escape(0x08) == [0x5C, 0x62]
    ensures Escape(0x09) == [0x5C, 0x74] && Escape(0x0A) == [0x5C, 0x6E] && Escape(0x0C) == [0x5C, 0x66]
    ensures Escape(0x0D) == [0x5C, 0x72]
    ensures 0x20 <= c < 0x7F && c != 0x22 && c != 0x5C ==> Escape(c) == [c]
    ensures c == 0x7F || 0x80 <= c < 0x1_0000 ==> Escape(c) == [0x5C, 0x75] + FourDigits(c)
    ensures c < 8 || c == 0x0B || 0x0E <= c < 0x20 ==> Escape(c) == [0x5C, 0x75] + FourDigits(c)
    ensures 0x1_0000 <= c ==>
      Escape(c) == [0x5C, 0x75] + FourDigits(0xD800 + (c - 0x1_0000) / 0x400)
                   + ([0x5C, 0x75] + FourDigits(0xDC00 + (c - 0x1_0000) % 0x400))
  {
    hide UnitEscape, FourDigits;
    if c < 0x1_0000 {
      UnitText(c);
    } else {
      UnitText(HighOf(c));
      UnitText(LowOf(c));
    }
  }

  lemma UnitText(n: nat)
    requires n < 0x1_0000
    ensures UnitEscape(n) == [0x5C, 0x75] + FourDigits(n)
  {
    hide HexDigit, Hex.Digit;
    DigitText(n / 0x1000);
    DigitText(n / 0x100 % 0x10);
    DigitText(n / 0x10 % 0x10);
    DigitText(n % 0x10);
  }

  lemma DigitText(n: nat)
    requires n < 16
    ensures Hex.Digit(n) == HexDigit(n)
  {
  }

  /** `f'{n:04x}'` */
  function FourDigits(n: int): seq<int>
    requires 0 <= n < 0x1_0000
  {
    [HexDigit(n / 0x1000), HexDigit(n / 0x100 % 0x10), HexDigit(n / 0x10 % 0x10), HexDigit(n % 0x10)]
  }

  function HexDigit(n: int): int
    requires 0 <= n < 16
  {
    "0123456789abcdef"[n] as int
  }

  /** Decimal digits without leading zeros that stand for the number. */
  lemma Decimal(n: nat)
    ensures PrintNat(n) != [] && (forall i :: 0 <= i < |PrintNat(n)| ==> 0x30 <= PrintNat(n)[i] <= 0x39)
    ensures PrintNat(n)[0] == 0x30 ==> |PrintNat(n)| == 1
    ensures n >= 10 ==> PrintNat(n) == PrintNat(n / 10) + [0x30 + n % 10]
    ensures n < 10 ==> PrintNat(n) == [0x30 + n]
  {
  }

  // ---- what a reader makes of other texts ----

  /** The escapes as they are read: each short one, and four hex digits. */
  lemma EscapesRead(s: Text)
    ensures NextChar([0x5C, 0x22] + s) == Ok(0x22, s) && NextChar([0x5C, 0x5C] + s) == Ok(0x5C, s)
    ensures NextChar([0x5C, 0x2F] + s) == Ok(0x2F, s) && NextChar([0x5C, 0x62] + s) == Ok(0x08, s)
    ensures NextChar([0x5C, 0x66] + s) == Ok(0x0C, s) && NextChar([0x5C, 0x6E] + s) == Ok(0x0A, s)
    ensures NextChar([0x5C, 0x72] + s) == Ok(0x0D, s) && NextChar([0x5C, 0x74] + s) == Ok(0x09, s)
  {
    forall c: Code ensures ([0x5C, c] + s)[2..] == s {}
  }

  /** A string holds no bare control character and no other escape. */
  lemma StringRefused(c: Code, s: Text)
    ensures c < 0x20 ==> ParseChars([c] + s).Fail?
    ensures ParseChars([0x5C, c] + s).Ok? ==>
      || c == 0x22 || c == 0x5C || c == 0x2F || c == 0x62 || c == 0x66 || c == 0x6E || c == 0x72 || c == 0x74
      || c == 0x75
    ensures ReadHex4(s).None? ==> ParseChars([0x5C, 0x75] + s).Fail?
    ensures ParseChars([]).Fail?
  {
    hide ReadHex4;
    assert ([0x5C, 0x75] + s)[2..] == s;
  }

  /** A leading zero is a number by itself, and a sign needs a digit. */
  lemma NumberRefused(d: Code, s: Text, negative: bool)
    ensures IsDigit(d) ==> ParseUnsigned([0x30, d] + s, negative) == Ok(Int(0), [d] + s)
    ensures !IsDigit(d) ==> ParseUnsigned([d] + s, negative).Fail? && ParseUnsigned([], negative).Fail?
  {
    var p := [0x30, d] + s;
    assert p[1..] == [d] + s && p[..1] == [0x30];
    if IsDigit(d) {
      assert IntLen(p) == 1 && FracLen(p[1..]) == 0 && ExpLen(p[1..]) == 0;
      assert [0x30][..0] == [] && DecValue([0x30]) == 0;
    }
  }

  /** After an item only a comma or the closing bracket may come; after the comma another item. */
  lemma ListRefused(s: Text)
    requires ParseValue(s).Ok?
    ensures var t := SkipWs(ParseValue(s).rest);
      && (t == [] || (t[0] != 0x2C && t[0] != 0x5D) ==> ParseItems(s).Fail?)
      && (t != [] && t[0] == 0x2C && (SkipWs(t[1..]) == [] || SkipWs(t[1..])[0] == 0x5D) ==> ParseItems(s).Fail?)
  {
    hide ParseValue, SkipWs;
    var t := SkipWs(ParseValue(s).rest);
    if t != [] && t[0] == 0x2C { NoValue(SkipWs(t[1..])); }
  }

  lemma NoValue(s: Text)
    ensures s == [] || s[0] == 0x5D || s[0] == 0x7D ==> ParseValue(s).Fail?
  {
    if s != [] && (s[0] == 0x5D || s[0] == 0x7D) {
      assert A("null")[0] == 0x6E && A("true")[0] == 0x74 && A("false")[0] == 0x66;
      assert A("NaN")[0] == 0x4E && A("Infinity")[0] == 0x49 && A("-Infinity")[0] == 0x2D;
    }
  }

  /** A key is a string with a colon; after a member only a comma or the closing brace may come, after the comma a key.
      */
  lemma MembersRefused(s: Text)
    ensures s == [] || s[0] != 0x22 ==> ParseMembers(s).Fail?
    ensures s != [] && s[0] == 0x22 && ParseChars(s[1..]).Ok? ==>
      var t := SkipWs(ParseChars(s[1..]).rest);
      t == [] || t[0] != 0x3A ==> ParseMembers(s).Fail?
    ensures ParseKey(s).Ok? && ParseValue(ParseKey(s).rest).Ok? ==>
      var t := SkipWs(ParseValue(ParseKey(s).rest).rest);
      && (t == [] || (t[0] != 0x2C && t[0] != 0x7D) ==> ParseMembers(s).Fail?)
      && (t != [] && t[0] == 0x2C && (SkipWs(t[1..]) == [] || SkipWs(t[1..])[0] != 0x22) ==> ParseMembers(s).Fail?)
  {
    hide ParseValue, SkipWs, ParseChars;
  }

  /** A document is one value with whitespace around it. */
  lemma DocumentRefused(s: Text)
    ensures ParseValue(SkipWs(s)).Ok? && SkipWs(ParseValue(SkipWs(s)).rest) != [] ==> Loads(s) == None
    ensures ParseValue(SkipWs(s)).Fail? ==> Loads(s) == None
  {
  }
}
