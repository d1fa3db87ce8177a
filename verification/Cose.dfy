/** The COSE_Sign1 document of the local backend (implementations/local_attestation_service.py:166-253). */
module Cose {
  import opened Basics
  import opened Cbor
  import BigEndian

  const USER_DATA := A("user_data")
  const NONCE := A("nonce")
  const PUBLIC_KEY := A("public_key")

  /** What surrounds the caller's data: module id, time, measurements and certificates. */
  datatype Surroundings = Surroundings(moduleId: Bytes, timestamp: nat, pcrs: seq<Pair>, leaf: Bytes,
                                       intermediate: Bytes, root: Bytes)

  function BasePayload(env: Surroundings): seq<Pair> {
    [Pair(Utf8(A("module_id")), Utf8(env.moduleId)),
     Pair(Utf8(A("digest")), Utf8(A("SHA384"))),
     Pair(Utf8(A("timestamp")), UInt(env.timestamp)),
     Pair(Utf8(A("pcrs")), Map(env.pcrs)),
     Pair(Utf8(A("certificate")), Raw(env.leaf)),
     Pair(Utf8(A("cabundle")), Array([Raw(env.intermediate), Raw(env.root)]))]
  }

  function Optional(name: Bytes, value: Option<Bytes>): seq<Pair> {
    if value.Some? then [Pair(Utf8(name), Raw(value.value))] else []
  }

  function PayloadMap(env: Surroundings, userData: Option<Bytes>, nonce: Option<Bytes>,
                      publicKey: Option<Bytes>): seq<Pair>
  {
    BasePayload(env) + Optional(USER_DATA, userData) + Optional(NONCE, nonce) + Optional(PUBLIC_KEY, publicKey)
  }

  /** `cbor2.dumps({1: -35})`: ES384. */
  function ProtectedHeader(): Bytes { Encode(Map([Pair(UInt(1), NInt(34))])) }

  /** Sig_structure of section 4.4 of RFC 8152, with empty external data. */
  function SigItem(protectedHeader: Bytes, payload: Bytes): Item {
    Array([Utf8(A("Signature1")), Raw(protectedHeader), Raw([]), Raw(payload)])
  }

  function SigStructure(protectedHeader: Bytes, payload: Bytes): Bytes { Encode(SigItem(protectedHeader, payload)) }

  function DocumentItem(protectedHeader: Bytes, payload: Bytes, signature: Bytes): Item {
    Tag(18, Array([Raw(protectedHeader), Map([]), Raw(payload), Raw(signature)]))
  }

  // ---- the bytes, written out ----

  function ByteString(b: Bytes): Bytes { HeadText(0x40, |b|) + b }
  function TextString(b: Bytes): Bytes { HeadText(0x60, |b|) + b }

  function Entry(name: Bytes, value: Bytes): Bytes { TextString(name) + value }

  function OptionalEntry(name: Bytes, value: Option<Bytes>): Bytes {
    if value.Some? then Entry(name, ByteString(value.value)) else []
  }

  function Count(value: Option<Bytes>): nat { if value.Some? then 1 else 0 }

  function FirstEntries(env: Surroundings): Bytes {
    Entry(A("module_id"), TextString(env.moduleId)) + Entry(A("digest"), TextString(A("SHA384")))
    + Entry(A("timestamp"), HeadText(0x00, env.timestamp))
  }

  function LastEntries(env: Surroundings): Bytes {
    Entry(A("pcrs"), Encode(Map(env.pcrs))) + Entry(A("certificate"), ByteString(env.leaf))
    + Entry(A("cabundle"), [0x82] + ByteString(env.intermediate) + ByteString(env.root))
  }

  function OptionalEntries(userData: Option<Bytes>, nonce: Option<Bytes>, publicKey: Option<Bytes>): Bytes {
    OptionalEntry(A("user_data"), userData) + OptionalEntry(A("nonce"), nonce)
    + OptionalEntry(A("public_key"), publicKey)
  }

  /** The payload: a map of six entries and the optional ones, in the order the source fills it. */
  function PayloadBytes(env: Surroundings, userData: Option<Bytes>, nonce: Option<Bytes>,
                        publicKey: Option<Bytes>): Bytes
  {
    var head: Bytes := [0xA6 + Count(userData) + Count(nonce) + Count(publicKey)];
    var fixed: Bytes := FirstEntries(env) + LastEntries(env);
    head + (fixed + OptionalEntries(userData, nonce, publicKey))
  }

  /** What is signed: the array of "Signature1", the header {1: -35}, no external data and the payload. */
  function SignedBytes(payload: Bytes): Bytes {
    [0x84] + ([0x6A] + A("Signature1")) + [0x44, 0xA1, 0x01, 0x38, 0x22] + [0x40] + ByteString(payload)
  }

  /** The document: tag 18 on the array of header, empty map, payload and the 96 bytes of the signature. */
  function DocumentBytes(payload: Bytes, rs: (nat, nat)): Bytes {
    var signature: Bytes := [0x58, 0x60] + (BigEndian.Encode(rs.0, 48) + BigEndian.Encode(rs.1, 48));
    [0xD2] + ([0x84] + [0x44, 0xA1, 0x01, 0x38, 0x22] + [0xA0] + ByteString(payload) + signature)
  }

  lemma HeaderBytes()
    ensures ProtectedHeader() == [0xA1, 0x01, 0x38, 0x22]
  {
    var p := Pair(UInt(1), NInt(34));
    assert ProtectedHeader() == Head(5, 1) + EncodePairs([p]);
    hide Encode, Head;
    OnePair(p);
    Scalars([], 1);
    Scalars([], 34);
    ShortestHead(5, 1);
  }

  lemma {:induction false} ItemsOf(a: Item, rest: seq<Item>)
    ensures EncodeAll([a] + rest) == Encode(a) + EncodeAll(rest) && EncodeAll([]) == []
  {
    hide Encode;
    assert ([a] + rest)[1..] == rest;
  }

  lemma ArrayOfFour(a: Item, b: Item, c: Item, d: Item)
    ensures Encode(Array([a, b, c, d])) == [0x84] + Encode(a) + Encode(b) + Encode(c) + Encode(d)
  {
    assert Encode(Array([a, b, c, d])) == Head(4, 4) + EncodeAll([a, b, c, d]);
    ShortestHead(4, 4);
    hide Encode, EncodeAll;
    ItemsOf(d, []);
    ItemsOf(c, [d]);
    ItemsOf(b, [c, d]);
    ItemsOf(a, [b, c, d]);
    assert [d] + [] == [d] && [c] + [d] == [c, d] && [b] + [c, d] == [b, c, d] && [a] + [b, c, d] == [a, b, c, d];
    Flat([0x84], Encode(a), Encode(b), Encode(c), Encode(d));
  }

  lemma Flat(h: Bytes, a: Bytes, b: Bytes, c: Bytes, d: Bytes)
    ensures h + (a + (b + (c + (d + [])))) == h + a + b + c + d
  {
    assert d + [] == d;
    assert h + (a + (b + (c + d))) == h + a + (b + (c + d));
    assert h + a + (b + (c + d)) == h + a + b + (c + d);
  }

  /** The signed bytes are those of section 4.4 of RFC 8152. */
  lemma SigStructureBytes(payload: Bytes)
    ensures SigStructure(ProtectedHeader(), payload) == SignedBytes(payload)
  {
    hide Encode, A, HeadText;
    SmallHeads();
    HeaderBytes();
    LiteralLength();
    ArrayOfFour(Utf8(A("Signature1")), Raw(ProtectedHeader()), Raw([]), Raw(payload));
    Scalars(A("Signature1"), 0);
    Scalars(ProtectedHeader(), 0);
    Scalars([], 0);
    Scalars(payload, 0);
  }

  lemma LiteralLength()
    ensures |A("Signature1")| == 10
  {
  }

  lemma SmallHeads()
    ensures HeadText(0xC0, 18) == [0xD2] && HeadText(0xA0, 0) == [0xA0] && HeadText(0x40, 4) == [0x44]
    ensures HeadText(0x40, 0) == [0x40] && HeadText(0x40, 96) == [0x58, 0x60] && HeadText(0x60, 10) == [0x6A]
  {
  }

  lemma DocumentText(payload: Bytes, rs: (nat, nat))
    ensures Encode(DocumentItem(ProtectedHeader(), payload, RawSignature(rs))) == DocumentBytes(payload, rs)
  {
    var parts := Array([Raw(ProtectedHeader()), Map([]), Raw(payload), Raw(RawSignature(rs))]);
    assert Encode(Tag(18, parts)) == Head(6, 18) + Encode(parts);
    assert Encode(Map([])) == Head(5, 0) + EncodePairs([]);
    hide Encode, Head, HeadText, BigEndian.Encode, RawSignature;
    SmallHeads();
    hide ByteString;
    ByteStringIs(payload);
    ShortestHead(6, 18);
    ShortestHead(5, 0);
    NoPairs();
    HeaderBytes();
    ArrayOfFour(Raw(ProtectedHeader()), Map([]), Raw(payload), Raw(RawSignature(rs)));
    Scalars(ProtectedHeader(), 0);
    Scalars(payload, 0);
    Scalars(RawSignature(rs), 0);
    SignatureIs(rs);
    assert Encode(Raw(ProtectedHeader())) == [0x44, 0xA1, 0x01, 0x38, 0x22] && Encode(Map([])) == [0xA0];
  }

  lemma EntryPair(name: Bytes, v: Item)
    ensures EncodePairs([Pair(Utf8(name), v)]) == Entry(name, Encode(v))
  {
    hide Encode, HeadText;
    OnePair(Pair(Utf8(name), v));
    Scalars(name, 0);
  }

  lemma OptionalText(name: Bytes, value: Option<Bytes>)
    ensures EncodePairs(Optional(name, value)) == OptionalEntry(name, value)
  {
    hide Encode, HeadText;
    NoPairs();
    if value.Some? {
      EntryPair(name, Raw(value.value));
      Scalars(value.value, 0);
    }
  }

  lemma CertificatesText(env: Surroundings)
    ensures Encode(Array([Raw(env.intermediate), Raw(env.root)]))
         == [0x82] + ByteString(env.intermediate) + ByteString(env.root)
  {
    var a, b := Raw(env.intermediate), Raw(env.root);
    hide Encode, EncodeAll, HeadText;
    ContainersText([], [a, b]);
    SmallHeadText(0x80, 2);
    ItemsOf(b, []);
    ItemsOf(a, [b]);
    assert [b] + [] == [b] && [a] + [b] == [a, b] && Encode(b) + [] == Encode(b);
    Scalars(env.intermediate, 0);
    Scalars(env.root, 0);
    assert [0x82] + (Encode(a) + Encode(b)) == [0x82] + Encode(a) + Encode(b);
  }

  lemma FirstEntriesText(env: Surroundings)
    ensures EncodePairs(BasePayload(env)[..3]) == FirstEntries(env)
  {
    hide Encode, HeadText, A;
    var ps := BasePayload(env);
    var p0, p1, p2 := ps[0], ps[1], ps[2];
    assert ps[..3] == [p0] + [p1] + [p2];
    PairsConcat([p0] + [p1], [p2]);
    PairsConcat([p0], [p1]);
    EntryPair(A("module_id"), Utf8(env.moduleId));
    EntryPair(A("digest"), Utf8(A("SHA384")));
    EntryPair(A("timestamp"), UInt(env.timestamp));
    Scalars(env.moduleId, env.timestamp);
    Scalars(A("SHA384"), 0);
  }

  lemma LastEntriesText(env: Surroundings)
    ensures EncodePairs(BasePayload(env)[3..]) == LastEntries(env)
  {
    hide Encode, HeadText, A;
    var ps := BasePayload(env);
    var p3, p4, p5 := ps[3], ps[4], ps[5];
    assert ps[3..] == [p3] + [p4] + [p5];
    PairsConcat([p3] + [p4], [p5]);
    PairsConcat([p3], [p4]);
    EntryPair(A("pcrs"), Map(env.pcrs));
    EntryPair(A("certificate"), Raw(env.leaf));
    EntryPair(A("cabundle"), Array([Raw(env.intermediate), Raw(env.root)]));
    Scalars(env.leaf, 0);
    CertificatesText(env);
  }

  lemma BaseText(env: Surroundings)
    ensures EncodePairs(BasePayload(env)) == FirstEntries(env) + LastEntries(env)
  {
    var base := BasePayload(env);
    assert base == base[..3] + base[3..];
    hide BasePayload, EncodePairs, FirstEntries, LastEntries;
    FirstEntriesText(env);
    LastEntriesText(env);
    PairsConcat(base[..3], base[3..]);
  }

  lemma PairsText(env: Surroundings, userData: Option<Bytes>, nonce: Option<Bytes>, publicKey: Option<Bytes>)
    ensures EncodePairs(PayloadMap(env, userData, nonce, publicKey))
         == FirstEntries(env) + LastEntries(env) + OptionalEntries(userData, nonce, publicKey)
  {
    hide BasePayload, EncodePairs, Optional, OptionalEntry, A, FirstEntries, LastEntries;
    BaseText(env);
    OptionalText(USER_DATA, userData);
    OptionalText(NONCE, nonce);
    OptionalText(PUBLIC_KEY, publicKey);
    var base, u, n := BasePayload(env), Optional(USER_DATA, userData), Optional(NONCE, nonce);
    PairsConcat(base, u);
    PairsConcat(base + u, n);
    PairsConcat(base + u + n, Optional(PUBLIC_KEY, publicKey));
    ThreePieces(EncodePairs(base), OptionalEntry(USER_DATA, userData), OptionalEntry(NONCE, nonce),
                OptionalEntry(PUBLIC_KEY, publicKey));
  }

  lemma ThreePieces(b: Bytes, x: Bytes, y: Bytes, z: Bytes)
    ensures b + x + y + z == b + (x + y + z)
  {
  }

  /** The encoded payload, byte for byte. */
  lemma PayloadText(env: Surroundings, userData: Option<Bytes>, nonce: Option<Bytes>, publicKey: Option<Bytes>)
    ensures Encode(Map(PayloadMap(env, userData, nonce, publicKey))) == PayloadBytes(env, userData, nonce, publicKey)
  {
    var ps := PayloadMap(env, userData, nonce, publicKey);
    var n := 6 + Count(userData) + Count(nonce) + Count(publicKey);
    hide Encode, EncodePairs, HeadText, FirstEntries, LastEntries, OptionalEntries, A;
    assert |ps| == n;
    ContainersText(ps, []);
    SmallHeadText(0xA0, n);
    PairsText(env, userData, nonce, publicKey);
  }

  lemma ByteStringIs(b: Bytes)
    ensures ByteString(b) == HeadText(0x40, |b|) + b
  {
  }

  lemma SignatureIs(rs: (nat, nat))
    ensures RawSignature(rs) == BigEndian.Encode(rs.0, 48) + BigEndian.Encode(rs.1, 48)
  {
  }

  /** P-384 signing gives two integers; `sign` is left abstract. */
  type Signer = Bytes -> (nat, nat)

  /** Python's 48-byte big-endian form fails on larger numbers. */
  predicate Short(rs: (nat, nat)) { rs.0 < BigEndian.Pow256(48) && rs.1 < BigEndian.Pow256(48) }

  function RawSignature(rs: (nat, nat)): (b: Bytes)
    ensures |b| == 96
  {
    BigEndian.Encode(rs.0, 48) + BigEndian.Encode(rs.1, 48)
  }

  /** The payload fits CBOR's eight-byte lengths, as every value in memory does. */
  predicate PayloadFits(env: Surroundings, userData: Option<Bytes>, nonce: Option<Bytes>, publicKey: Option<Bytes>) {
    Fits(Map(PayloadMap(env, userData, nonce, publicKey)))
    && |Encode(Map(PayloadMap(env, userData, nonce, publicKey)))| < BigEndian.Pow256(8)
  }

  /** `generate_local_attestation`, given the time, the identifiers and the signing key; None is its error result. */
  method GenerateLocalAttestation(env: Surroundings, sign: Signer, userData: Option<Bytes>, nonce: Option<Bytes>,
                                  publicKey: Option<Bytes>) returns (doc: Option<Bytes>)
    ensures var payload := PayloadBytes(env, userData, nonce, publicKey);
      var rs := sign(SignedBytes(payload));
      doc == if Short(rs) then Some(DocumentBytes(payload, rs)) else None
  {
    hide Encode, PayloadBytes, SignedBytes, DocumentBytes, SigStructure, ProtectedHeader;
    var payloadMap := BasePayload(env);
    if userData.Some? { payloadMap := payloadMap + [Pair(Utf8(USER_DATA), Raw(userData.value))]; }
    if nonce.Some? { payloadMap := payloadMap + [Pair(Utf8(NONCE), Raw(nonce.value))]; }
    if publicKey.Some? { payloadMap := payloadMap + [Pair(Utf8(PUBLIC_KEY), Raw(publicKey.value))]; }
    assert payloadMap == PayloadMap(env, userData, nonce, publicKey);
    var payload := Encode(Map(payloadMap));
    PayloadText(env, userData, nonce, publicKey);
    SigStructureBytes(payload);
    var rs := sign(SigStructure(ProtectedHeader(), payload));
    if !Short(rs) { return None; }
    DocumentText(payload, rs);
    doc := Some(Encode(DocumentItem(ProtectedHeader(), payload, RawSignature(rs))));
  }

  // ---- a verifier's reading ----

  datatype Opened = Opened(protectedHeader: Bytes, payload: Bytes, signature: Bytes)

  function OpenDocument(doc: Bytes): Option<Opened> {
    match Decode(doc)
    case Got(Tag(18, Array(parts)), rest) =>
      if rest == [] && |parts| == 4 && parts[0].Raw? && parts[1].Map? && parts[2].Raw? && parts[3].Raw?
      then Some(Opened(parts[0].bytes, parts[2].bytes, parts[3].bytes)) else None
    case _ => None
  }

  function LookupPair(pairs: seq<Pair>, name: Bytes): Option<Item> {
    if pairs == [] then None
    else if pairs[0].key == Utf8(name) then Some(pairs[0].value)
    else LookupPair(pairs[1..], name)
  }

  /** A byte-string field of a payload. */
  function PayloadField(payload: Bytes, name: Bytes): Option<Bytes> {
    match Decode(payload)
    case Got(Map(pairs), rest) =>
      var v: Option<Item> := LookupPair(pairs, name);
      if v.Some? && v.value.Raw? then Some(v.value.bytes) else None
    case _ => None
  }

  function SignatureNumbers(signature: Bytes): (nat, nat)
    requires |signature| == 96
  {
    (BigEndian.Decode(signature[..48]), BigEndian.Decode(signature[48..]))
  }

  /** The fixed-width form gives both integers back. */
  lemma SignatureRoundTrip(rs: (nat, nat))
    requires Short(rs)
    ensures SignatureNumbers(RawSignature(rs)) == rs
  {
    hide BigEndian.Pow256, BigEndian.Encode, BigEndian.Decode;
    var b := RawSignature(rs);
    assert b[..48] == BigEndian.Encode(rs.0, 48) && b[48..] == BigEndian.Encode(rs.1, 48);
    BigEndian.RoundTrip(rs.0, 48);
    BigEndian.RoundTrip(rs.1, 48);
  }

  lemma {:induction false} LookupConcat(a: seq<Pair>, b: seq<Pair>, name: Bytes)
    ensures LookupPair(a + b, name) == if LookupPair(a, name).Some? then LookupPair(a, name) else LookupPair(b, name)
  {
    if a == [] {
      assert a + b == b;
    } else {
      LookupConcat(a[1..], b, name);
      assert (a + b)[1..] == a[1..] + b;
    }
  }

  lemma NamesApart()
    ensures USER_DATA != NONCE && NONCE != PUBLIC_KEY && USER_DATA != PUBLIC_KEY
  {
  }

  lemma BaseHasNone(env: Surroundings, name: Bytes)
    requires name == USER_DATA || name == NONCE || name == PUBLIC_KEY
    ensures LookupPair(BasePayload(env), name) == None
  {
    var ps := BasePayload(env);
    assert A("module_id")[0] == 0x6D && A("digest")[0] == 0x64 && A("timestamp")[0] == 0x74;
    assert A("pcrs")[1] == 0x63 && A("certificate")[0] == 0x63 && A("cabundle")[0] == 0x63;
    assert USER_DATA[0] == 0x75 && NONCE[0] == 0x6E && PUBLIC_KEY[1] == 0x75;
    forall i | 0 <= i < |ps| ensures ps[i].key != Utf8(name) {}
    AbsentName(ps, name);
  }

  lemma {:induction false} AbsentName(ps: seq<Pair>, name: Bytes)
    requires forall i :: 0 <= i < |ps| ==> ps[i].key != Utf8(name)
    ensures LookupPair(ps, name) == None
  {
    if ps != [] { AbsentName(ps[1..], name); }
  }

  lemma OptionalLookup(name: Bytes, value: Option<Bytes>, other: Bytes)
    ensures LookupPair(Optional(name, value), other)
         == if other == name && value.Some? then Some(Raw(value.value)) else None
  {
    if value.Some? { assert Optional(name, value)[1..] == []; }
  }

  /** Each optional field is found as it was given, absent if it was absent. */
  lemma FieldsInMap(env: Surroundings, userData: Option<Bytes>, nonce: Option<Bytes>, publicKey: Option<Bytes>,
                    name: Bytes)
    requires name == USER_DATA || name == NONCE || name == PUBLIC_KEY
    ensures LookupPair(PayloadMap(env, userData, nonce, publicKey), name) ==
      var value := if name == USER_DATA then userData else if name == NONCE then nonce else publicKey;
      if value.Some? then Some(Raw(value.value)) else None
  {
    hide A, BasePayload, LookupPair, Optional;
    NamesApart();
    BaseHasNone(env, name);
    LookupConcat(BasePayload(env), Optional(USER_DATA, userData), name);
    LookupConcat(BasePayload(env) + Optional(USER_DATA, userData), Optional(NONCE, nonce), name);
    LookupConcat(BasePayload(env) + Optional(USER_DATA, userData) + Optional(NONCE, nonce),
                 Optional(PUBLIC_KEY, publicKey), name);
    OptionalLookup(USER_DATA, userData, name);
    OptionalLookup(NONCE, nonce, name);
    OptionalLookup(PUBLIC_KEY, publicKey, name);
  }

  /** Opening a document gives back its three parts. */
  lemma OpensToParts(protectedHeader: Bytes, payload: Bytes, signature: Bytes)
    requires |protectedHeader| < BigEndian.Pow256(8) && |payload| < BigEndian.Pow256(8)
    requires |signature| < BigEndian.Pow256(8)
    ensures OpenDocument(Encode(DocumentItem(protectedHeader, payload, signature)))
         == Some(Opened(protectedHeader, payload, signature))
  {
    hide Encode, Decode;
    BigEndian.Widths();
    var v := DocumentItem(protectedHeader, payload, signature);
    DocumentRoundTrip(v);
  }

  lemma HeaderShort()
    ensures |ProtectedHeader()| < BigEndian.Pow256(8)
  {
    BigEndian.Widths();
    var ps := [Pair(UInt(1), NInt(34))];
    assert ps[1..] == [];
    assert |BigEndian.Encode(34, 1)| == 1;
    assert |Encode(UInt(1))| == 1 && |Encode(NInt(34))| <= 9;
    assert EncodePairs(ps) == EncodePair(ps[0]) + EncodePairs([]);
    assert |EncodePairs(ps)| <= 10;
  }

  /** Decoding a produced document gives back the user data, nonce and public key that were passed in, absence included;
      the signature gives back both integers; and the bytes a verifier rebuilds from the decoded
      parts by section 4.4 of RFC 8152 are the bytes that were signed. */
  lemma DocumentBinds(env: Surroundings, sign: Signer, userData: Option<Bytes>, nonce: Option<Bytes>,
                      publicKey: Option<Bytes>)
    requires PayloadFits(env, userData, nonce, publicKey)
    requires Short(sign(SignedBytes(PayloadBytes(env, userData, nonce, publicKey))))
    ensures var payload := PayloadBytes(env, userData, nonce, publicKey);
      var opened' := OpenDocument(DocumentBytes(payload, sign(SignedBytes(payload))));
      && opened'.Some? && opened'.value.payload == payload
      && opened'.value.protectedHeader == [0xA1, 0x01, 0x38, 0x22]
      && SigStructure(opened'.value.protectedHeader, opened'.value.payload) == SignedBytes(payload)
      && |opened'.value.signature| == 96
      && SignatureNumbers(opened'.value.signature) == sign(SignedBytes(payload))
    ensures var payload := PayloadBytes(env, userData, nonce, publicKey);
      && PayloadField(payload, A("user_data")) == userData && PayloadField(payload, A("nonce")) == nonce
      && PayloadField(payload, A("public_key")) == publicKey
  {
    hide Encode, Decode, A, LookupPair, PayloadMap, PayloadBytes, SignedBytes, DocumentBytes, BigEndian.Pow256;
    PayloadText(env, userData, nonce, publicKey);
    var payload := PayloadBytes(env, userData, nonce, publicKey);
    SigStructureBytes(payload);
    var rs := sign(SignedBytes(payload));
    DocumentText(payload, rs);
    HeaderBytes();
    HeaderShort();
    BigEndian.Widths();
    OpensToParts(ProtectedHeader(), payload, RawSignature(rs));
    SignatureRoundTrip(rs);
    DocumentRoundTrip(Map(PayloadMap(env, userData, nonce, publicKey)));
    FieldsInMap(env, userData, nonce, publicKey, USER_DATA);
    FieldsInMap(env, userData, nonce, publicKey, NONCE);
    FieldsInMap(env, userData, nonce, publicKey, PUBLIC_KEY);
  }
}
