/** The attested manifest and its canonical bytes (implementations/output_files.py:141-157). */
module Manifest {
  import opened Basics
  import opened Ordering
  import opened Json
  import JsonRoundTrip
  import OutputFiles
  import Hex

  datatype Info = Info(size: nat, sha256: Text, fileType: Text)

  /** A manifest entry: the name is its key. */
  type Entry = Keyed<Info>

  function EntryOf(f: OutputFiles.OutFile): Entry { Keyed(f.name, Info(f.size, f.sha256, f.fileType)) }

  function Entries(files: seq<OutputFiles.OutFile>): (r: seq<Entry>)
    ensures |r| == |files| && forall i :: 0 <= i < |r| ==> r[i] == EntryOf(files[i])
  {
    seq(|files|, i requires 0 <= i < |files| => EntryOf(files[i]))
  }

  function BuildFilesManifest(files: seq<OutputFiles.OutFile>): seq<Entry> { Sort(Entries(files)) }

  /** Each file has its entry, with its own name, size, digest and type, and there are no others; in strict name order
      when the names differ. */
  lemma ManifestOfFiles(files: seq<OutputFiles.OutFile>, e: Entry)
    ensures e in BuildFilesManifest(files) <==>
      exists f :: f in files && e.key == f.name && e.value.size == f.size && e.value.sha256 == f.sha256
                  && e.value.fileType == f.fileType
    ensures |BuildFilesManifest(files)| == |files|
    ensures (forall i, j :: 0 <= i < j < |files| ==> files[i].name != files[j].name) ==>
      StrictSorted(BuildFilesManifest(files))
  {
    hide Sort, StrictSorted;
    SortMember(Entries(files), e);
    SortMembers(Entries(files));
    if e in Entries(files) {
      var i :| 0 <= i < |files| && Entries(files)[i] == e;
      assert files[i] in files;
    }
    forall f | f in files ensures EntryOf(f) in Entries(files) {
      var i :| 0 <= i < |files| && files[i] == f;
      assert Entries(files)[i] == EntryOf(f);
    }
    if forall i, j :: 0 <= i < j < |files| ==> files[i].name != files[j].name { SortStrict(Entries(files)); }
  }

  /** The dictionary of an entry in the order the source fills it. */
  function EntryDict(e: Entry): (d: seq<Keyed<Value>>)
    ensures forall m :: m in d ==> Plain(m.value)
  {
    [Keyed(A("name"), Str(e.key)), Keyed(A("size"), Int(e.value.size)),
     Keyed(A("sha256"), Str(e.value.sha256)), Keyed(A("type"), Str(e.value.fileType))]
  }

  lemma SortedPlain(d: seq<Keyed<Value>>)
    requires forall m :: m in d ==> Plain(m.value)
    ensures forall m :: m in Sort(d) ==> Plain(m.value)
  {
    SortPermutes(d);
    forall m | m in Sort(d) ensures Plain(m.value) { assert m in multiset(d); }
  }

  /** `sort_keys=True` */
  function SortedObj(d: seq<Keyed<Value>>): (v: Value)
    requires forall m :: m in d ==> Plain(m.value)
    ensures Plain(v) && v == Obj(Sort(d))
  {
    SortedPlain(d);
    Obj(Sort(d))
  }

  function EntryJson(e: Entry): (v: Value)
    ensures Plain(v)
  {
    SortedObj(EntryDict(e))
  }

  function ManifestJson(m: seq<Entry>): (v: Value)
    ensures Plain(v) && v.Arr? && |v.items| == |m| && forall i :: 0 <= i < |m| ==> v.items[i] == EntryJson(m[i])
  {
    var items := seq(|m|, i requires 0 <= i < |m| => EntryJson(m[i]));
    assert forall x :: x in items ==> Plain(x);
    Arr(items)
  }

  function CanonicalManifestBytes(m: seq<Entry>): Bytes { Dumps(ManifestJson(m), Compact) }

  function FilesManifestSha256(h: Hash, m: seq<Entry>): Bytes { Hex.Encode(h(CanonicalManifestBytes(m))) }

  // ---- reading it back ----

  function ReadStr(d: seq<Keyed<Value>>, k: Text): Option<Text> {
    var v: Option<Value> := Get(d, k);
    if v.Some? && v.value.Str? then Some(v.value.t) else None
  }

  function ReadInt(d: seq<Keyed<Value>>, k: Text): Option<int> {
    var v: Option<Value> := Get(d, k);
    if v.Some? && v.value.Int? then Some(v.value.n) else None
  }

  function ParseEntry(v: Value): Option<Entry> {
    if !v.Obj? then None
    else match (ReadStr(v.members, A("name")), ReadInt(v.members, A("size")), ReadStr(v.members, A("sha256")),
                ReadStr(v.members, A("type")))
      case (Some(name), Some(size), Some(sha), Some(t)) =>
        if size >= 0 then Some(Keyed(name, Info(size, sha, t))) else None
      case _ => None
  }

  function ParseEntries(items: seq<Value>): Option<seq<Entry>> {
    if items == [] then Some([])
    else match (ParseEntry(items[0]), ParseEntries(items[1..]))
      case (Some(e), Some(es)) => Some([e] + es)
      case _ => None
  }

  function ParseManifest(t: Text): Option<seq<Entry>> {
    match Loads(t) case Some(Arr(items)) => ParseEntries(items) case _ => None
  }

  /** The text fields of an entry hold no adjacent surrogate pair; true of every rule-abiding name and every digest. */
  predicate CleanEntry(e: Entry) {
    JsonRoundTrip.Unpaired(e.key) && JsonRoundTrip.Unpaired(e.value.sha256) && JsonRoundTrip.Unpaired(e.value.fileType)
  }

  lemma KeysDistinct(e: Entry)
    ensures DistinctKeys(EntryDict(e))
  {
    assert A("name")[0] == 0x6E && A("size")[0] == 0x73 && A("type")[0] == 0x74;
    assert A("size")[1] == 0x69 && A("sha256")[1] == 0x68;
  }

  lemma EntryRoundTrip(e: Entry)
    ensures ParseEntry(EntryJson(e)) == Some(e)
  {
    hide A, Sort;
    KeysDistinct(e);
    var d := EntryDict(e);
    GetSorted(d, A("name"));
    GetSorted(d, A("size"));
    GetSorted(d, A("sha256"));
    GetSorted(d, A("type"));
    assert d[0] in d && d[1] in d && d[2] in d && d[3] in d;
    GetIsMembership(d, A("name"), Str(e.key));
    GetIsMembership(d, A("size"), Int(e.value.size));
    GetIsMembership(d, A("sha256"), Str(e.value.sha256));
    GetIsMembership(d, A("type"), Str(e.value.fileType));
  }

  lemma {:induction false} EntriesRoundTrip(m: seq<Entry>)
    ensures ParseEntries(ManifestJson(m).items) == Some(m)
  {
    hide EntryJson, ParseEntry;
    if m != [] {
      EntryRoundTrip(m[0]);
      EntriesRoundTrip(m[1..]);
      assert ManifestJson(m).items[1..] == ManifestJson(m[1..]).items;
      assert m == [m[0]] + m[1..];
    }
  }

  lemma BytesUnpaired(b: Bytes)
    ensures JsonRoundTrip.Unpaired(b)
  {
  }

  lemma EntryClean(e: Entry)
    requires CleanEntry(e)
    ensures JsonRoundTrip.Clean(EntryJson(e))
  {
    hide A, Sort, JsonRoundTrip.Unpaired;
    var d := EntryDict(e);
    BytesUnpaired(A("name"));
    BytesUnpaired(A("size"));
    BytesUnpaired(A("sha256"));
    BytesUnpaired(A("type"));
    SortPermutes(d);
    forall m | m in Sort(d) ensures JsonRoundTrip.Unpaired(m.key) && JsonRoundTrip.Clean(m.value) {
      assert m in multiset(d);
    }
  }

  /** A parser recovers every manifest from its canonical bytes, whatever its length and sizes. */
  lemma ManifestRoundTrip(m: seq<Entry>)
    requires forall e :: e in m ==> CleanEntry(e)
    ensures ParseManifest(CanonicalManifestBytes(m)) == Some(m)
  {
    hide EntryJson, Loads, Dumps, CleanEntry, ParseEntries;
    var v := ManifestJson(m);
    forall x | x in v.items ensures JsonRoundTrip.Clean(x) {
      var i :| 0 <= i < |v.items| && v.items[i] == x;
      EntryClean(m[i]);
    }
    JsonRoundTrip.RoundTripExactly(v, Compact);
    EntriesRoundTrip(m);
  }

  /** Different manifests never share canonical bytes. */
  lemma CanonicalBytesInjective(a: seq<Entry>, b: seq<Entry>)
    requires forall e :: e in a ==> CleanEntry(e)
    requires forall e :: e in b ==> CleanEntry(e)
    requires CanonicalManifestBytes(a) == CanonicalManifestBytes(b)
    ensures a == b
  {
    ManifestRoundTrip(a);
    ManifestRoundTrip(b);
  }

  // ---- the exact bytes ----

  lemma LessAt(a: Text, b: Text, k: nat)
    requires k < |a| && k < |b| && a[..k] == b[..k] && a[k] < b[k]
    ensures Less(a, b)
  {
    if k > 0 {
      assert a[0] == a[..k][0] && b[0] == b[..k][0];
      assert a[1..][..k - 1] == a[..k][1..] && b[1..][..k - 1] == b[..k][1..];
      LessAt(a[1..], b[1..], k - 1);
    }
  }

  /** The keys of an entry come out as name, sha256, size, type. */
  lemma EntryKeyOrder(e: Entry)
    ensures EntryJson(e) == Obj([
      Keyed(A("name"), Str(e.key)), Keyed(A("sha256"), Str(e.value.sha256)),
      Keyed(A("size"), Int(e.value.size)), Keyed(A("type"), Str(e.value.fileType))])
  {
    var d := EntryDict(e);
    var s := [Keyed(A("name"), Str(e.key)), Keyed(A("sha256"), Str(e.value.sha256)),
              Keyed(A("size"), Int(e.value.size)), Keyed(A("type"), Str(e.value.fileType))];
    LessAt(A("name"), A("sha256"), 0);
    LessAt(A("name"), A("size"), 0);
    LessAt(A("name"), A("type"), 0);
    LessAt(A("sha256"), A("type"), 0);
    LessAt(A("size"), A("type"), 0);
    assert A("sha256")[..1] == A("size")[..1];
    LessAt(A("sha256"), A("size"), 1);
    EntrySorted(d, s, e);
  }

  lemma EntrySorted(d: seq<Keyed<Value>>, s: seq<Keyed<Value>>, e: Entry)
    requires d == EntryDict(e) && |s| == 4 && s[0] == d[0] && s[1] == d[2] && s[2] == d[1] && s[3] == d[3]
    requires Less(s[0].key, s[1].key) && Less(s[0].key, s[2].key) && Less(s[0].key, s[3].key)
    requires Less(s[1].key, s[2].key) && Less(s[1].key, s[3].key) && Less(s[2].key, s[3].key)
    ensures Sort(d) == s
  {
    hide A, Sort, Less;
    KeysDistinct(e);
    SortStrict(d);
    SortMembers(d);
    forall x ensures x in Sort(d) <==> x in s {
      SortMember(d, x);
      assert s == [d[0], d[2], d[1], d[3]];
    }
    StrictSortedUnique(Sort(d), s);
  }

  /** Text that needs no escape. */
  predicate Bare(t: Bytes) { forall i :: 0 <= i < |t| ==> 0x20 <= t[i] < 0x7F && t[i] != QUOTE && t[i] != BACKSLASH }

  lemma {:induction false} BareEscape(t: Bytes)
    requires Bare(t)
    ensures EscapeAll(t) == t
  {
    if t != [] {
      BareEscape(t[1..]);
      assert t == [t[0]] + t[1..];
    }
  }

  function Field(key: Bytes, value: Bytes): Bytes { [QUOTE] + key + [QUOTE, COLON] + value }
  function InQuotes(t: Bytes): Bytes { [QUOTE] + t + [QUOTE] }

  lemma FieldText(key: Bytes, v: Value)
    requires Bare(key) && Plain(v)
    ensures DumpsMember(Keyed(key, v), Compact) == Field(key, Dumps(v, Compact))
  {
    hide Dumps;
    BareEscape(key);
  }

  /** The exact bytes of an entry: `{"name":"...","sha256":"...","size":n,"type":"..."}` with no spaces. */
  lemma EntryBytes(e: Entry, name: Bytes, sha: Bytes, fileType: Bytes)
    requires e.key == name && e.value.sha256 == sha && e.value.fileType == fileType
    requires Bare(name) && Bare(sha) && Bare(fileType)
    ensures Dumps(EntryJson(e), Compact)
      == [LBRACE] + ((Field(A("name"), InQuotes(name)) + ([COMMA] + (Field(A("sha256"), InQuotes(sha)) + ([COMMA]
         + (Field(A("size"), PrintNat(e.value.size)) + ([COMMA] + Field(A("type"), InQuotes(fileType)))))))) + [RBRACE])
  {
    hide A, EntryJson, Field, DumpsMember, DumpsMembers, PrintNat;
    EntryKeyOrder(e);
    KeysBare();
    StrText(name);
    StrText(sha);
    StrText(fileType);
    FieldText(A("name"), Str(name));
    FieldText(A("sha256"), Str(sha));
    FieldText(A("size"), Int(e.value.size));
    FieldText(A("type"), Str(fileType));
    FourMembers(Keyed(A("name"), Str(name)), Keyed(A("sha256"), Str(sha)),
                Keyed(A("size"), Int(e.value.size)), Keyed(A("type"), Str(fileType)));
  }

  lemma FourMembers(a: Keyed<Value>, b: Keyed<Value>, c: Keyed<Value>, d: Keyed<Value>)
    requires Plain(a.value) && Plain(b.value) && Plain(c.value) && Plain(d.value)
    ensures DumpsMembers([a, b, c, d], Compact)
      == DumpsMember(a, Compact) + ([COMMA] + (DumpsMember(b, Compact) + ([COMMA]
         + (DumpsMember(c, Compact) + ([COMMA] + DumpsMember(d, Compact))))))
  {
    hide DumpsMember, DumpsMembers, Plain;
    LastMember(d);
    MoreMembers(c, [d]);
    assert [c] + [d] == [c, d];
    MoreMembers(b, [c, d]);
    assert [b] + [c, d] == [b, c, d];
    MoreMembers(a, [b, c, d]);
    assert [a] + [b, c, d] == [a, b, c, d];
  }

  lemma LastMember(m: Keyed<Value>)
    requires Plain(m.value)
    ensures DumpsMembers([m], Compact) == DumpsMember(m, Compact)
  {
  }

  lemma MoreMembers(m: Keyed<Value>, rest: seq<Keyed<Value>>)
    requires rest != [] && Plain(m.value) && forall x :: x in rest ==> Plain(x.value)
    ensures forall x :: x in [m] + rest ==> Plain(x.value)
    ensures DumpsMembers([m] + rest, Compact) == DumpsMember(m, Compact) + ([COMMA] + DumpsMembers(rest, Compact))
  {
    hide DumpsMember, Plain;
    assert ([m] + rest)[1..] == rest;
  }

  lemma StrText(t: Bytes)
    requires Bare(t)
    ensures Dumps(Str(t), Compact) == InQuotes(t)
  {
    BareEscape(t);
  }

  lemma KeysBare()
    ensures Bare(A("name")) && Bare(A("sha256")) && Bare(A("size")) && Bare(A("type"))
  {
    hide Bare;
    assert Bare(A("name")) by { BareLiteral("name"); }
    assert Bare(A("sha256")) by { BareLiteral("sha256"); }
    assert Bare(A("size")) by { BareLiteral("size"); }
    assert Bare(A("type")) by { BareLiteral("type"); }
  }

  lemma BareLiteral(s: string)
    requires forall c :: c in s ==> 'a' <= c <= 'z' || '0' <= c <= '9'
    ensures Bare(A(s))
  {
    assert forall i :: 0 <= i < |s| ==> s[i] in s;
  }

  /** No files: the two bytes `[]`. */
  lemma EmptyManifest()
    ensures CanonicalManifestBytes([]) == A("[]")
  {
    assert ManifestJson([]).items == [];
    assert A("[]") == [LBRACK, RBRACK];
  }
}
