/** The TDX commitment and its way to the quote helper (implementations/tdx_attestation_service_impl.py,
    tdx/tdquote/main.go). */
module Tdx {
  import opened Basics
  import BigEndian
  import Hex

  /** SHA-512 is left abstract: any function from bytes to 64 bytes. */
  type Digest64 = d: Bytes | |d| == 64 witness seq(64, i => 0)
  type Hash64 = Bytes -> Digest64

  const LIMIT := 0x1_0000_0000

  function One(c: Option<Bytes>): seq<Bytes> { if c.None? then [] else [c.value] }

  /** The slots that are not None, in order. */
  function Present(chunks: seq<Option<Bytes>>): seq<Bytes> {
    if chunks == [] then [] else One(chunks[0]) + Present(chunks[1..])
  }

  predicate Fits(cs: seq<Bytes>) { forall i :: 0 <= i < |cs| ==> |cs[i]| < LIMIT }

  /** What is fed to the hash: each chunk after its length in four bytes. */
  function Preimage(cs: seq<Bytes>): Bytes {
    if cs == [] then [] else BigEndian.Encode(|cs[0]|, 4) + cs[0] + Preimage(cs[1..])
  }

  lemma {:induction false} PreimageSnoc(cs: seq<Bytes>, c: Bytes)
    ensures Preimage(cs + [c]) == Preimage(cs) + BigEndian.Encode(|c|, 4) + c
  {
    hide BigEndian.Encode;
    if cs == [] {
      assert [] + [c] == [c] && [c][1..] == [];
    } else {
      PreimageSnoc(cs[1..], c);
      assert (cs + [c])[1..] == cs[1..] + [c];
    }
  }

  /** `_report_data_from`: the running hash is the bytes fed so far; None is the OverflowError of a length that does not
      fit four bytes. */
  method ReportDataFrom(h: Hash64, chunks: seq<Option<Bytes>>) returns (r: Option<Bytes>)
    ensures r.Some? <==> Fits(Present(chunks))
    ensures r.Some? ==> r.value == h(Preimage(Present(chunks)))
  {
    hide Preimage, Present, BigEndian.Encode;
    var fed: Bytes := [];
    ghost var seen: seq<Bytes> := [];
    EmptyPreimage();
    assert chunks[0..] == chunks && chunks[|chunks|..] == [];
    var i := 0;
    while i < |chunks|
      invariant 0 <= i <= |chunks|
      invariant Present(chunks) == seen + Present(chunks[i..])
      invariant Fits(seen) && fed == Preimage(seen)
    {
      PresentFrom(chunks, i);
      ghost var rest := Present(chunks[i + 1..]);
      if chunks[i].Some? {
        var c := chunks[i].value;
        if |c| >= LIMIT {
          assert Present(chunks)[|seen|] == c;
          return None;
        }
        PreimageSnoc(seen, c);
        fed := fed + BigEndian.Encode(|c|, 4);
        fed := fed + c;
        assert seen + ([c] + rest) == seen + [c] + rest;
        seen := seen + [c];
      }
      i := i + 1;
    }
    assert Present(chunks) == seen;
    r := Some(h(fed));
  }

  lemma PresentFrom(chunks: seq<Option<Bytes>>, i: nat)
    requires i < |chunks|
    ensures Present(chunks[i..]) == One(chunks[i]) + Present(chunks[i + 1..])
  {
    assert chunks[i..][1..] == chunks[i + 1..];
  }

  lemma EmptyPreimage()
    ensures Preimage([]) == [] && Present([]) == []
  {
  }

  // ---- the pre-image is unambiguous ----

  /** A reader of pre-images. */
  function Parse(b: Bytes): (r: Option<seq<Bytes>>)
    decreases |b|
  {
    if b == [] then Some([])
    else if |b| < 4 then None
    else
      var n := BigEndian.Decode(b[..4]);
      if |b| < 4 + n then None
      else match Parse(b[4 + n..])
        case None => None
        case Some(rest) => Some([b[4..4 + n]] + rest)
  }

  lemma {:induction false} PreimageRoundTrip(cs: seq<Bytes>)
    requires Fits(cs)
    ensures Parse(Preimage(cs)) == Some(cs)
  {
    if cs != [] {
      var c, rest := cs[0], Preimage(cs[1..]);
      var len := BigEndian.Encode(|c|, 4);
      var b := Preimage(cs);
      PreimageRoundTrip(cs[1..]);
      BigEndian.Widths();
      BigEndian.RoundTrip(|c|, 4);
      assert b == len + c + rest;
      assert b[..4] == len && b[4..4 + |c|] == c && b[4 + |c|..] == rest;
      assert cs == [c] + cs[1..];
    }
  }

  /** The reader accepts nothing but pre-images. */
  lemma {:induction false} ParsesOnlyPreimages(b: Bytes)
    requires Parse(b).Some?
    ensures Fits(Parse(b).value) && Preimage(Parse(b).value) == b
    decreases |b|
  {
    hide BigEndian.Encode, BigEndian.Decode, Preimage;
    EmptyPreimage();
    if b != [] {
      var n := BigEndian.Decode(b[..4]);
      var rest := Parse(b[4 + n..]).value;
      ParsesOnlyPreimages(b[4 + n..]);
      BigEndian.Widths();
      BigEndian.Back(b[..4]);
      PreimageCons(b[4..4 + n], rest);
      assert b == b[..4] + b[4..4 + n] + b[4 + n..];
    }
  }

  lemma PreimageCons(c: Bytes, cs: seq<Bytes>)
    ensures Preimage([c] + cs) == BigEndian.Encode(|c|, 4) + c + Preimage(cs)
  {
    hide BigEndian.Encode;
    assert ([c] + cs)[1..] == cs;
  }

  /** Two calls feed the hash the same bytes if and only if their present chunks are the same, in order. */
  lemma PreimageUnambiguous(a: seq<Option<Bytes>>, b: seq<Option<Bytes>>)
    requires Fits(Present(a)) && Fits(Present(b))
    ensures Preimage(Present(a)) == Preimage(Present(b)) <==> Present(a) == Present(b)
  {
    PreimageRoundTrip(Present(a));
    PreimageRoundTrip(Present(b));
  }

  /** Which slot was left out is not committed to: an absent slot may stand anywhere. */
  lemma {:induction false} AbsentSlotMoves(a: seq<Option<Bytes>>, b: seq<Option<Bytes>>)
    ensures Present(a + [None] + b) == Present(a + b)
  {
    if a == [] {
      assert [] + [None] + b == [None] + b && ([None] + b)[1..] == b && [] + b == b;
    } else {
      AbsentSlotMoves(a[1..], b);
      assert (a + [None] + b)[1..] == a[1..] + [None] + b && (a + b)[1..] == a[1..] + b;
    }
  }

  /** The three slots of an attestation, in their order; an empty one counts, an absent one does not. */
  lemma SlotsInOrder(u: Bytes, n: Bytes, k: Bytes)
    ensures Present([Some(u), Some(n), Some(k)]) == [u, n, k] && Present([None, Some(n), Some(k)]) == [n, k]
    ensures Present([Some(u), None, Some(k)]) == [u, k] && Present([Some(u), Some(n), None]) == [u, n]
    ensures Present([Some(u), None, None]) == [u] && Present([None, Some(n), None]) == [n]
    ensures Present([None, None, Some(k)]) == [k] && Present([None, None, None]) == []
  {
    Slots(Some(u), Some(n), Some(k));
    Slots(None, Some(n), Some(k));
    Slots(Some(u), None, Some(k));
    Slots(Some(u), Some(n), None);
    Slots(Some(u), None, None);
    Slots(None, Some(n), None);
    Slots(None, None, Some(k));
    Slots(None, None, None);
  }

  lemma Slots(u: Option<Bytes>, n: Option<Bytes>, k: Option<Bytes>)
    ensures Present([u, n, k]) == One(u) + One(n) + One(k)
  {
    var s3, s2, s1 := [u, n, k], [n, k], [k];
    assert s3[1..] == s2 && s2[1..] == s1 && s1[1..] == [];
    assert Present(s1) == One(k);
    assert Present(s2) == One(n) + One(k);
    assert Present(s3) == One(u) + (One(n) + One(k));
  }

  /** A chunk is fed after its length in four bytes, most significant first. */
  lemma ChunkBytes(c: Bytes, rest: seq<Bytes>)
    requires |c| < LIMIT
    ensures Preimage([c] + rest) ==
      [|c| / 0x100_0000, |c| / 0x1_0000 % 0x100, |c| / 0x100 % 0x100, |c| % 0x100] + c + Preimage(rest)
    ensures Preimage([]) == []
  {
    hide BigEndian.Encode, Preimage;
    EmptyPreimage();
    PreimageCons(c, rest);
    BigEndian.Written(|c|);
  }

  // ---- the quote helper ----

  /** A rune of white space as Go's `unicode.IsSpace` has it, in UTF-8. */
  predicate SpaceRune(b: Bytes) {
    || (|b| == 1 && (9 <= b[0] <= 13 || b[0] == 32))
    || (|b| == 2 && b[0] == 0xC2 && (b[1] == 0x85 || b[1] == 0xA0))
    || b == [0xE1, 0x9A, 0x80] || b == [0xE2, 0x81, 0x9F] || b == [0xE3, 0x80, 0x80]
    || (|b| == 3 && b[0] == 0xE2 && b[1] == 0x80
        && (0x80 <= b[2] <= 0x8A || b[2] == 0xA8 || b[2] == 0xA9 || b[2] == 0xAF))
  }

  /** Length of the white space rune at the front, 0 if there is none. */
  function SpaceFront(b: Bytes): (k: nat)
    ensures k <= |b|
  {
    if |b| >= 1 && SpaceRune(b[..1]) then 1
    else if |b| >= 2 && SpaceRune(b[..2]) then 2
    else if |b| >= 3 && SpaceRune(b[..3]) then 3
    else 0
  }

  /** Length of the white space rune at the back, 0 if there is none. */
  function SpaceBack(b: Bytes): (k: nat)
    ensures k <= |b|
  {
    if |b| >= 1 && SpaceRune(b[|b| - 1..]) then 1
    else if |b| >= 2 && SpaceRune(b[|b| - 2..]) then 2
    else if |b| >= 3 && SpaceRune(b[|b| - 3..]) then 3
    else 0
  }

  function TrimLeft(b: Bytes): Bytes { if SpaceFront(b) == 0 then b else TrimLeft(b[SpaceFront(b)..]) }

  function TrimRight(b: Bytes): Bytes { if SpaceBack(b) == 0 then b else TrimRight(b[..|b| - SpaceBack(b)]) }

  function TrimSpace(b: Bytes): Bytes { TrimRight(TrimLeft(b)) }

  /** The report data the helper makes of its standard input; None when it exits with an error. */
  function Received(raw: Bytes): (r: Option<Bytes>)
    ensures r.Some? ==> |r.value| == 64
  {
    if |raw| == 64 then Some(raw)
    else if |TrimSpace(raw)| == 128 then Hex.Decode(TrimSpace(raw))
    else None
  }

  /** `copy(reportData[:], b)` */
  method CopyInto(dst: array<Byte>, src: Bytes)
    requires dst.Length == |src|
    modifies dst
    ensures dst[..] == src
  {
    var i := 0;
    while i < dst.Length
      invariant 0 <= i <= dst.Length && dst[..i] == src[..i]
    {
      dst[i] := src[i];
      i := i + 1;
    }
    assert dst[..] == dst[..i] && src[..i] == src;
  }

  /** The switch in the helper's `main`. */
  method ReadReportData(raw: Bytes, reportData: array<Byte>) returns (ok: bool)
    requires reportData.Length == 64
    modifies reportData
    ensures ok <==> Received(raw).Some?
    ensures ok ==> reportData[..] == Received(raw).value
    ensures !ok ==> reportData[..] == old(reportData[..])
  {
    hide Hex.Decode, TrimSpace;
    var s := TrimSpace(raw);
    if |raw| == 64 {
      CopyInto(reportData, raw);
      return true;
    } else if |s| == 128 {
      var b := Hex.Decode(s);
      if b.None? { return false; }
      CopyInto(reportData, b.value);
      return true;
    }
    ok := false;
  }

  /** Exactly which inputs the helper accepts as given report data. */
  lemma ReceivedExactly(raw: Bytes)
    ensures Received(raw).Some? <==>
      || |raw| == 64
      || (|TrimSpace(raw)| == 128 && forall i :: 0 <= i < 128 ==> Hex.Value(TrimSpace(raw)[i]).Some?)
  {
    hide TrimSpace;
    Hex.DecodesExactly(TrimSpace(raw));
  }

  predicate AllBlank(b: Bytes) { forall i :: 0 <= i < |b| ==> SpaceRune([b[i]]) }

  lemma FirstBlank(blank: Bytes, b: Bytes)
    requires AllBlank(blank) && blank != []
    ensures SpaceFront(blank + b) == 1 && (blank + b)[1..] == blank[1..] + b
  {
    hide SpaceRune;
    assert (blank + b)[..1] == [blank[0]];
  }

  lemma LastBlank(b: Bytes, blank: Bytes)
    requires AllBlank(blank) && blank != []
    ensures SpaceBack(b + blank) == 1 && (b + blank)[..|b| + |blank| - 1] == b + blank[..|blank| - 1]
  {
    hide SpaceRune;
    assert (b + blank)[|b| + |blank| - 1..] == [blank[|blank| - 1]];
  }

  lemma {:induction false} TrimLeftBlank(blank: Bytes, b: Bytes)
    requires AllBlank(blank) && TrimLeft(b) == b
    ensures TrimLeft(blank + b) == b
  {
    hide SpaceFront, SpaceRune;
    if blank == [] {
      assert blank + b == b;
    } else {
      TrimLeftBlank(blank[1..], b);
      FirstBlank(blank, b);
    }
  }

  lemma {:induction false} TrimRightBlank(b: Bytes, blank: Bytes)
    requires AllBlank(blank) && TrimRight(b) == b
    ensures TrimRight(b + blank) == b
  {
    hide SpaceBack, SpaceRune;
    if blank == [] {
      assert b + blank == b;
    } else {
      var n := |blank| - 1;
      TrimRightBlank(b, blank[..n]);
      LastBlank(b, blank);
    }
  }

  /** White space begins and ends with a blank or a non-ASCII byte. */
  lemma SpaceEnds(b: Bytes)
    requires SpaceRune(b)
    ensures b != []
    ensures b[0] <= 32 || b[0] >= 0x80
    ensures b[|b| - 1] <= 32 || b[|b| - 1] >= 0x80
  {
  }

  lemma NoSpaceFront(b: Bytes)
    requires b != [] && 32 < b[0] < 0x80
    ensures SpaceFront(b) == 0
  {
    hide SpaceRune;
    forall k | 1 <= k <= |b| ensures !SpaceRune(b[..k]) {
      if SpaceRune(b[..k]) { SpaceEnds(b[..k]); }
    }
  }

  lemma NoSpaceBack(b: Bytes)
    requires b != [] && 32 < b[|b| - 1] < 0x80
    ensures SpaceBack(b) == 0
  {
    hide SpaceRune;
    forall k | 0 <= k < |b| ensures !SpaceRune(b[k..]) {
      if SpaceRune(b[k..]) { SpaceEnds(b[k..]); }
    }
  }

  /** Any 64 bytes sent as hex, with or without blanks around them, are received as the same 64 bytes; so are 64 raw
      bytes. */
  lemma ReportDataArrives(d: Bytes, before: Bytes, after: Bytes)
    requires |d| == 64 && AllBlank(before) && AllBlank(after)
    ensures Received(before + Hex.Encode(d) + after) == Some(d)
    ensures Received(Hex.Encode(d)) == Some(d)
    ensures Received(d) == Some(d)
  {
    hide Hex.Encode, Hex.Decode, TrimLeft, TrimRight, AllBlank;
    HexArrives(d, before, after);
    EmptyBlank();
    HexArrives(d, [], []);
    assert [] + Hex.Encode(d) + [] == Hex.Encode(d);
  }

  lemma EmptyBlank()
    ensures AllBlank([])
  {
  }

  lemma HexArrives(d: Bytes, before: Bytes, after: Bytes)
    requires |d| == 64 && AllBlank(before) && AllBlank(after)
    ensures Received(before + Hex.Encode(d) + after) == Some(d)
  {
    hide Hex.Encode, Hex.Decode, SpaceFront, SpaceBack, AllBlank;
    var x := Hex.Encode(d);
    NoSpaceFront(x + after);
    NoSpaceBack(x);
    assert before + x + after == before + (x + after);
    TrimLeftBlank(before, x + after);
    TrimRightBlank(x, after);
    Hex.RoundTrip(d);
  }

  /** `_get_td_quote` up to the helper's call of the device: the report data the quote will carry. */
  method GetTdQuote(reportData: Bytes) returns (bound: Option<Bytes>)
    ensures bound == if |reportData| == 64 then Some(reportData) else None
  {
    hide Hex.Encode, Hex.Decode, TrimSpace;
    if |reportData| != 64 { return None; }
    var buffer := new Byte[64](_ => 0);
    var ok := ReadReportData(Hex.Encode(reportData), buffer);
    EmptyBlank();
    ReportDataArrives(reportData, [], []);
    bound := if ok then Some(buffer[..]) else None;
  }

  /** From slots to quote: `generate_attestation` of this backend, as far as the helper. */
  method QuotedReportData(h: Hash64, userData: Option<Bytes>, nonce: Option<Bytes>, publicKey: Option<Bytes>)
    returns (bound: Option<Bytes>)
    ensures var cs := Present([userData, nonce, publicKey]);
      bound == if Fits(cs) then Some(h(Preimage(cs))) else None
  {
    hide Preimage;
    var reportData := ReportDataFrom(h, [userData, nonce, publicKey]);
    if reportData.None? { return None; }
    bound := GetTdQuote(reportData.value);
  }

  /** Two quotes carry the same report data if the present slots are the same, and only then unless the hash collides on
      the two pre-images. */
  lemma QuoteBinds(h: Hash64, a: seq<Option<Bytes>>, b: seq<Option<Bytes>>)
    requires Fits(Present(a)) && Fits(Present(b))
    ensures var x, y := Preimage(Present(a)), Preimage(Present(b));
      && (Present(a) == Present(b) ==> h(x) == h(y))
      && (h(x) == h(y) ==> Present(a) == Present(b) || (x != y && h(x) == h(y)))
  {
    hide Preimage;
    PreimageUnambiguous(a, b);
  }
}
