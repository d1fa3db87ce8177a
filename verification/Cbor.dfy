/** CBOR items (section 3 of RFC 8949) as cbor2 writes them: definite lengths, shortest heads. */
module Cbor {
  import opened Basics
  import BigEndian

  /** `NInt(n)` stands for the integer -1 - n; text is kept as its UTF-8 bytes. */
  datatype Item =
    | UInt(n: nat) | NInt(n: nat) | Raw(bytes: Bytes) | Utf8(bytes: Bytes)
    | Array(items: seq<Item>) | Map(pairs: seq<Pair>) | Tag(n: nat, item: Item)
  datatype Pair = Pair(key: Item, value: Item)

  datatype Decoded<+T> = Bad | Got(value: T, rest: Bytes)

  /** Every number and length fits the eight bytes a head can hold. */
  predicate Fits(v: Item) {
    match v
    case UInt(n) => n < BigEndian.Pow256(8)
    case NInt(n) => n < BigEndian.Pow256(8)
    case Raw(b) => |b| < BigEndian.Pow256(8)
    case Utf8(b) => |b| < BigEndian.Pow256(8)
    case Array(vs) => |vs| < BigEndian.Pow256(8) && forall x :: x in vs ==> Fits(x)
    case Map(ps) => |ps| < BigEndian.Pow256(8) && forall p :: p in ps ==> Fits(p.key) && Fits(p.value)
    case Tag(n, x) => n < BigEndian.Pow256(8) && Fits(x)
  }

  /** Major type and argument. */
  function Head(major: nat, n: nat): (b: Bytes)
    requires major < 8
    ensures |b| > 0
  {
    if n < 24 then [major * 32 + n]
    else if n < BigEndian.Pow256(1) then [major * 32 + 24] + BigEndian.Encode(n, 1)
    else if n < BigEndian.Pow256(2) then [major * 32 + 25] + BigEndian.Encode(n, 2)
    else if n < BigEndian.Pow256(4) then [major * 32 + 26] + BigEndian.Encode(n, 4)
    else [major * 32 + 27] + BigEndian.Encode(n, 8)
  }

  /** A head written out: the shortest form, in numbers. */
  function HeadText(first: nat, n: nat): Bytes
    requires first <= 0xE0
  {
    if n < 24 then [first + n]
    else if n < 0x100 then [first + 24, n]
    else if n < 0x1_0000 then [first + 25, n / 0x100, n % 0x100]
    else if n < 0x1_0000_0000 then
      [first + 26, n / 0x100_0000, n / 0x1_0000 % 0x100, n / 0x100 % 0x100, n % 0x100]
    else
      var hi := n / 0x1_0000_0000;
      [first + 27, hi / 0x100_0000 % 0x100, hi / 0x1_0000 % 0x100, hi / 0x100 % 0x100, hi % 0x100,
       n / 0x100_0000 % 0x100, n / 0x1_0000 % 0x100, n / 0x100 % 0x100, n % 0x100]
  }

  /** Heads are as short as they can be (section 3 of RFC 8949). */
  lemma ShortestHead(major: nat, n: nat)
    requires major < 8
    ensures Head(major, n) == HeadText(major * 32, n)
  {
    hide BigEndian.Encode, BigEndian.Pow256;
    BigEndian.Widths();
    BigEndian.Written(n);
    BigEndian.Written(n / 0x1_0000_0000);
    BigEndian.WrittenEight(n);
  }

  function Encode(v: Item): (b: Bytes)
    ensures |b| > 0
    decreases v, 0
  {
    match v
    case UInt(n) => Head(0, n)
    case NInt(n) => Head(1, n)
    case Raw(b) => Head(2, |b|) + b
    case Utf8(b) => Head(3, |b|) + b
    case Array(vs) => Head(4, |vs|) + EncodeAll(vs)
    case Map(ps) => Head(5, |ps|) + EncodePairs(ps)
    case Tag(n, x) => Head(6, n) + Encode(x)
  }

  function EncodeAll(vs: seq<Item>): Bytes
    decreases vs, 1
  {
    if vs == [] then [] else Encode(vs[0]) + EncodeAll(vs[1..])
  }

  function EncodePairs(ps: seq<Pair>): Bytes
    decreases ps, 1
  {
    if ps == [] then [] else EncodePair(ps[0]) + EncodePairs(ps[1..])
  }

  function EncodePair(p: Pair): Bytes
    decreases p, 1
  {
    Encode(p.key) + Encode(p.value)
  }

  lemma {:induction false} PairsConcat(a: seq<Pair>, b: seq<Pair>)
    ensures EncodePairs(a + b) == EncodePairs(a) + EncodePairs(b)
  {
    hide EncodePair;
    NoPairs();
    if a == [] {
      assert a + b == b && [] + EncodePairs(b) == EncodePairs(b);
    } else {
      PairsConcat(a[1..], b);
      assert (a + b)[1..] == a[1..] + b;
      var x, y, z := EncodePair(a[0]), EncodePairs(a[1..]), EncodePairs(b);
      assert x + (y + z) == x + y + z;
    }
  }

  lemma OnePair(p: Pair)
    ensures EncodePairs([p]) == Encode(p.key) + Encode(p.value)
  {
    hide Encode;
    var ps := [p];
    assert ps[1..] == [];
  }

  lemma NoPairs()
    ensures EncodePairs([]) == []
  {
  }

  /** Strings and numbers written out. */
  lemma Scalars(b: Bytes, n: nat)
    ensures Encode(Raw(b)) == HeadText(0x40, |b|) + b
    ensures Encode(Utf8(b)) == HeadText(0x60, |b|) + b
    ensures Encode(UInt(n)) == HeadText(0x00, n) && Encode(NInt(n)) == HeadText(0x20, n)
  {
    hide Head, HeadText;
    ShortestHead(2, |b|);
    ShortestHead(3, |b|);
    ShortestHead(0, n);
    ShortestHead(1, n);
  }

  lemma ContainersText(ps: seq<Pair>, vs: seq<Item>)
    ensures Encode(Map(ps)) == HeadText(0xA0, |ps|) + EncodePairs(ps)
    ensures Encode(Array(vs)) == HeadText(0x80, |vs|) + EncodeAll(vs)
  {
    hide Head, HeadText, EncodePairs, EncodeAll;
    ShortestHead(5, |ps|);
    ShortestHead(4, |vs|);
  }

  lemma SmallHeadText(first: nat, n: nat)
    requires first <= 0xE0 && n < 24
    ensures HeadText(first, n) == [first + n]
  {
  }

  // ---- decoding ----

  function HeadWidth(info: nat): Option<nat> {
    if info == 24 then Some(1) else if info == 25 then Some(2)
    else if info == 26 then Some(4) else if info == 27 then Some(8) else None
  }

  function ReadHead(s: Bytes): (r: Decoded<(nat, nat)>)
    ensures r.Got? ==> |r.rest| < |s|
  {
    if s == [] then Bad
    else
      var major, info := s[0] / 32, s[0] % 32;
      if info < 24 then Got((major, info), s[1..])
      else match HeadWidth(info)
        case None => Bad
        case Some(w) =>
          if |s| < 1 + w then Bad else Got((major, BigEndian.Decode(s[1..1 + w])), s[1 + w..])
  }

  function Decode(s: Bytes): (r: Decoded<Item>)
    ensures r.Got? ==> |r.rest| < |s|
    decreases |s|, 0
  {
    match ReadHead(s)
    case Bad => Bad
    case Got(h, rest) => DecodeBody(h.0, h.1, rest)
  }

  function DecodeBody(major: nat, n: nat, s: Bytes): (r: Decoded<Item>)
    ensures r.Got? ==> |r.rest| <= |s|
    decreases |s|, 2
  {
    if major == 0 then Got(UInt(n), s)
    else if major == 1 then Got(NInt(n), s)
    else if major == 2 then (if n <= |s| then Got(Raw(s[..n]), s[n..]) else Bad)
    else if major == 3 then (if n <= |s| then Got(Utf8(s[..n]), s[n..]) else Bad)
    else if major == 4 then (match DecodeAll(s, n) case Bad => Bad case Got(vs, rest) => Got(Array(vs), rest))
    else if major == 5 then (match DecodePairs(s, n) case Bad => Bad case Got(ps, rest) => Got(Map(ps), rest))
    else if major == 6 then (match Decode(s) case Bad => Bad case Got(x, rest) => Got(Tag(n, x), rest))
    else Bad
  }

  function DecodeAll(s: Bytes, n: nat): (r: Decoded<seq<Item>>)
    ensures r.Got? ==> |r.rest| <= |s|
    decreases |s|, 1
  {
    if n == 0 then Got([], s)
    else match Decode(s)
      case Bad => Bad
      case Got(x, rest) =>
        match DecodeAll(rest, n - 1)
        case Bad => Bad
        case Got(xs, rest') => Got([x] + xs, rest')
  }

  function DecodePairs(s: Bytes, n: nat): (r: Decoded<seq<Pair>>)
    ensures r.Got? ==> |r.rest| <= |s|
    decreases |s|, 1
  {
    if n == 0 then Got([], s)
    else match Decode(s)
      case Bad => Bad
      case Got(k, rest) =>
        match Decode(rest)
        case Bad => Bad
        case Got(v, rest') =>
          match DecodePairs(rest', n - 1)
          case Bad => Bad
          case Got(ps, rest'') => Got([Pair(k, v)] + ps, rest'')
  }

  // ---- round trip ----

  lemma WideHead(major: nat, info: nat, w: nat, n: nat, rest: Bytes)
    requires major < 8 && 24 <= info < 32 && HeadWidth(info) == Some(w) && n < BigEndian.Pow256(w)
    ensures ReadHead([major * 32 + info] + BigEndian.Encode(n, w) + rest) == Got((major, n), rest)
  {
    hide BigEndian.Encode, BigEndian.Decode, BigEndian.Pow256;
    var s := [major * 32 + info] + BigEndian.Encode(n, w) + rest;
    assert s[0] == major * 32 + info;
    assert s[1..1 + w] == BigEndian.Encode(n, w);
    assert s[1 + w..] == rest;
    BigEndian.RoundTrip(n, w);
  }

  lemma HeadRoundTrip(major: nat, n: nat, rest: Bytes)
    requires major < 8 && n < BigEndian.Pow256(8)
    ensures ReadHead(Head(major, n) + rest) == Got((major, n), rest)
  {
    hide ReadHead, BigEndian.Pow256, BigEndian.Encode;
    if n < 24 {
      SmallHead(major, n, rest);
    } else if n < BigEndian.Pow256(1) {
      WideHead(major, 24, 1, n, rest);
    } else if n < BigEndian.Pow256(2) {
      WideHead(major, 25, 2, n, rest);
    } else if n < BigEndian.Pow256(4) {
      WideHead(major, 26, 4, n, rest);
    } else {
      WideHead(major, 27, 8, n, rest);
    }
  }

  lemma SmallHead(major: nat, n: nat, rest: Bytes)
    requires major < 8 && n < 24
    ensures ReadHead([major * 32 + n] + rest) == Got((major, n), rest)
  {
    assert ([major * 32 + n] + rest)[1..] == rest;
  }

  /** Any item that fits comes back from its encoding, with what follows untouched. */
  lemma {:induction false} RoundTrip(v: Item, rest: Bytes)
    requires Fits(v)
    ensures Decode(Encode(v) + rest) == Got(v, rest)
    decreases v, 0
  {
    hide ReadHead, Head, BigEndian.Pow256, EncodeAll, EncodePairs, DecodeAll, DecodePairs;
    match v
    case UInt(n) => HeadRoundTrip(0, n, rest);
    case NInt(n) => HeadRoundTrip(1, n, rest);
    case Raw(b) => StringRoundTrip(2, b, rest);
    case Utf8(b) => StringRoundTrip(3, b, rest);
    case Array(vs) =>
      assert Encode(v) + rest == Head(4, |vs|) + (EncodeAll(vs) + rest);
      HeadRoundTrip(4, |vs|, EncodeAll(vs) + rest);
      AllRoundTrip(vs, rest);
    case Map(ps) =>
      assert Encode(v) + rest == Head(5, |ps|) + (EncodePairs(ps) + rest);
      HeadRoundTrip(5, |ps|, EncodePairs(ps) + rest);
      PairsRoundTrip(ps, rest);
    case Tag(n, x) => TagRoundTrip(n, x, rest);
  }

  lemma {:induction false} TagRoundTrip(n: nat, x: Item, rest: Bytes)
    requires n < BigEndian.Pow256(8) && Fits(x)
    ensures Decode(Head(6, n) + Encode(x) + rest) == Got(Tag(n, x), rest)
    decreases x, 1
  {
    hide ReadHead, Head, BigEndian.Pow256, Encode, Fits;
    assert Head(6, n) + Encode(x) + rest == Head(6, n) + (Encode(x) + rest);
    HeadRoundTrip(6, n, Encode(x) + rest);
    RoundTrip(x, rest);
  }

  lemma StringRoundTrip(major: nat, b: Bytes, rest: Bytes)
    requires (major == 2 || major == 3) && |b| < BigEndian.Pow256(8)
    ensures Decode(Head(major, |b|) + b + rest) == Got(if major == 2 then Raw(b) else Utf8(b), rest)
  {
    hide ReadHead, Head, BigEndian.Pow256;
    assert Head(major, |b|) + b + rest == Head(major, |b|) + (b + rest);
    HeadRoundTrip(major, |b|, b + rest);
    assert (b + rest)[..|b|] == b && (b + rest)[|b|..] == rest;
  }

  lemma {:induction false} AllRoundTrip(vs: seq<Item>, rest: Bytes)
    requires forall x :: x in vs ==> Fits(x)
    ensures DecodeAll(EncodeAll(vs) + rest, |vs|) == Got(vs, rest)
    decreases vs, 1
  {
    hide Decode, Encode, Fits;
    if vs == [] {
      assert EncodeAll(vs) + rest == rest;
    } else {
      assert EncodeAll(vs) + rest == Encode(vs[0]) + (EncodeAll(vs[1..]) + rest);
      RoundTrip(vs[0], EncodeAll(vs[1..]) + rest);
      AllRoundTrip(vs[1..], rest);
      assert vs == [vs[0]] + vs[1..];
    }
  }

  lemma {:induction false} PairsRoundTrip(ps: seq<Pair>, rest: Bytes)
    requires forall p :: p in ps ==> Fits(p.key) && Fits(p.value)
    ensures DecodePairs(EncodePairs(ps) + rest, |ps|) == Got(ps, rest)
    decreases ps, 1
  {
    hide Decode, Encode, EncodePair, Fits;
    if ps != [] { hide DecodePairs; }
    if ps == [] {
      assert EncodePairs(ps) + rest == rest;
    } else {
      var tail := EncodePairs(ps[1..]) + rest;
      assert EncodePairs(ps) + rest == EncodePair(ps[0]) + tail;
      PairRoundTrip(ps[0], tail);
      PairsRoundTrip(ps[1..], rest);
      assert ps == [ps[0]] + ps[1..];
      PairsStep(EncodePairs(ps) + rest, |ps|, ps[0]);
    }
  }

  lemma PairsStep(s: Bytes, n: nat, p: Pair)
    requires n > 0 && Decode(s).Got? && Decode(s).value == p.key
    requires Decode(Decode(s).rest).Got? && Decode(Decode(s).rest).value == p.value
    ensures DecodePairs(s, n) ==
      match DecodePairs(Decode(Decode(s).rest).rest, n - 1)
      case Bad => Bad
      case Got(ps, rest) => Got([p] + ps, rest)
  {
    hide Decode;
  }

  lemma {:induction false} PairRoundTrip(p: Pair, rest: Bytes)
    requires Fits(p.key) && Fits(p.value)
    ensures Decode(EncodePair(p) + rest) == Got(p.key, Encode(p.value) + rest)
    ensures Decode(Encode(p.value) + rest) == Got(p.value, rest)
    decreases p, 1
  {
    hide Decode, Encode, Fits;
    assert EncodePair(p) + rest == Encode(p.key) + (Encode(p.value) + rest);
    RoundTrip(p.key, Encode(p.value) + rest);
    RoundTrip(p.value, rest);
  }

  /** A whole document decodes to the item it was made from. */
  lemma DocumentRoundTrip(v: Item)
    requires Fits(v)
    ensures Decode(Encode(v)) == Got(v, [])
  {
    RoundTrip(v, []);
    assert Encode(v) + [] == Encode(v);
  }
}
