/** `bytes.hex()` and its readers. */
module Hex {
  import opened Basics

  function Digit(n: nat): Byte
    requires n < 16
  {
    if n < 10 then 0x30 + n else 0x57 + n
  }

  /** Value of a hexadecimal digit in either case. */
  function Value(c: Code): (v: Option<nat>)
    ensures v.Some? ==> v.value < 16
  {
    if 0x30 <= c <= 0x39 then Some(c - 0x30)
    else if 0x61 <= c <= 0x66 then Some(c - 0x57)
    else if 0x41 <= c <= 0x46 then Some(c - 0x37)
    else None
  }

  lemma DigitValue(n: nat)
    requires n < 16
    ensures Value(Digit(n)) == Some(n)
  {
  }

  /** Lower-case hexadecimal, two digits a byte. */
  function Encode(b: Bytes): (h: Bytes)
    ensures |h| == 2 * |b|
    ensures forall i :: 0 <= i < |h| ==> 0x30 <= h[i] <= 0x39 || 0x61 <= h[i] <= 0x66
  {
    if b == [] then [] else [Digit(b[0] / 16), Digit(b[0] % 16)] + Encode(b[1..])
  }

  function Decode(t: Text): (r: Option<Bytes>)
    ensures r.Some? ==> 2 * |r.value| == |t|
  {
    if t == [] then Some([])
    else if |t| == 1 || Value(t[0]).None? || Value(t[1]).None? then None
    else match Decode(t[2..])
      case None => None
      case Some(b) => Some([ByteOf(t[0], t[1])] + b)
  }

  function ByteOf(hi: Code, lo: Code): Byte
    requires Value(hi).Some? && Value(lo).Some?
  {
    Value(hi).value * 16 + Value(lo).value
  }

  lemma {:induction false} RoundTrip(b: Bytes)
    ensures Decode(Encode(b)) == Some(b)
  {
    if b != [] {
      RoundTrip(b[1..]);
      var h := Encode(b);
      assert h[2..] == Encode(b[1..]);
      assert b == [b[0]] + b[1..];
    }
  }

  /** Digit by digit: the high half of each byte first, in lower case. */
  lemma {:induction false} DigitsOf(b: Bytes, i: nat)
    requires i < |b|
    ensures Encode(b)[2 * i] as int == "0123456789abcdef"[b[i] / 16] as int
    ensures Encode(b)[2 * i + 1] as int == "0123456789abcdef"[b[i] % 16] as int
  {
    hide Digit;
    if i == 0 {
      DigitIs(b[0] / 16);
      DigitIs(b[0] % 16);
    } else {
      DigitsOf(b[1..], i - 1);
    }
  }

  lemma DigitIs(n: nat)
    requires n < 16
    ensures Digit(n) as int == "0123456789abcdef"[n] as int
  {
  }

  /** Equal hex strings come from equal bytes. */
  lemma Injective(a: Bytes, b: Bytes)
    requires Encode(a) == Encode(b)
    ensures a == b
  {
    RoundTrip(a);
    RoundTrip(b);
  }

  /** Decoding succeeds exactly on an even number of hex digits. */
  lemma {:induction false} DecodesExactly(t: Text)
    ensures Decode(t).Some? <==> |t| % 2 == 0 && forall i :: 0 <= i < |t| ==> Value(t[i]).Some?
  {
    if |t| >= 2 {
      DecodesExactly(t[2..]);
      assert forall i :: 0 <= i < |t| - 2 ==> t[2..][i] == t[i + 2];
      assert t == t[..2] + t[2..];
    }
  }

  predicate IsSpace(c: Code) { 9 <= c <= 13 || c == 32 }

  /** `bytes.fromhex`: pairs of digits, ASCII whitespace skipped between pairs; None is its ValueError. */
  function FromHex(t: Text): Option<Bytes> {
    if t == [] then Some([])
    else if IsSpace(t[0]) then FromHex(t[1..])
    else if |t| == 1 || Value(t[0]).None? || Value(t[1]).None? then None
    else match FromHex(t[2..])
      case None => None
      case Some(b) => Some([ByteOf(t[0], t[1])] + b)
  }

  /** `bytes.fromhex` reads plain hex like any other reader, whitespace before a byte is skipped, and a lone digit or
      anything else is refused. */
  lemma {:induction false} FromHexReads(t: Text, c: Code)
    ensures (forall i :: 0 <= i < |t| ==> !IsSpace(t[i])) ==> FromHex(t) == Decode(t)
    ensures c == 0x20 || 0x09 <= c <= 0x0D ==> FromHex([c] + t) == FromHex(t)
    ensures Value(c).Some? ==> FromHex([c]) == None
    ensures !IsSpace(c) && Value(c).None? ==> FromHex([c] + t) == None
  {
    assert ([c] + t)[1..] == t;
    if |t| >= 2 {
      FromHexReads(t[2..], c);
    } else if |t| == 1 {
      assert t == [t[0]];
    }
  }
}

/** Fixed-width big-endian integers: `int.to_bytes(k, 'big')`. */
module BigEndian {
  import opened Basics

  function Pow256(k: nat): (p: nat)
    ensures p > 0
  {
    if k == 0 then 1 else 256 * Pow256(k - 1)
  }

  function Encode(n: nat, k: nat): (b: Bytes)
    ensures |b| == k
  {
    if k == 0 then [] else Encode(n / 256, k - 1) + [n % 256]
  }

  function Decode(b: Bytes): nat {
    if b == [] then 0 else 256 * Decode(b[..|b| - 1]) + b[|b| - 1]
  }

  lemma {:induction false} RoundTrip(n: nat, k: nat)
    requires n < Pow256(k)
    ensures Decode(Encode(n, k)) == n
  {
    if k > 0 {
      RoundTrip(n / 256, k - 1);
      var b := Encode(n, k);
      assert b[..|b| - 1] == Encode(n / 256, k - 1);
    }
  }

  lemma {:induction false} Back(b: Bytes)
    ensures Decode(b) < Pow256(|b|)
    ensures Encode(Decode(b), |b|) == b
  {
    if b != [] {
      Back(b[..|b| - 1]);
      assert b == b[..|b| - 1] + [b[|b| - 1]];
    }
  }

  lemma FourBytes(b: Bytes)
    requires |b| == 4
    ensures Decode(b) == 0x100_0000 * (b[0] as int) + 0x1_0000 * (b[1] as int) + 0x100 * (b[2] as int) + b[3] as int
  {
    var b3, b2, b1 := b[..3], b[..2], b[..1];
    assert b3[..2] == b2 && b2[..1] == b1 && b1[..0] == [];
    assert Decode(b1) == b[0];
    assert Decode(b2) == 256 * Decode(b1) + b[1];
    assert Decode(b3) == 256 * Decode(b2) + b[2];
  }

  lemma LastTwo(n: nat, k: nat)
    ensures Encode(n, k + 2) == Encode(n / 0x1_0000, k) + [n / 0x100 % 0x100, n % 0x100]
  {
    var n1 := n / 0x100;
    assert Encode(n, k + 2) == Encode(n1, k + 1) + [n % 0x100];
    assert Encode(n1, k + 1) == Encode(n1 / 0x100, k) + [n1 % 0x100];
    assert n1 / 0x100 == n / 0x1_0000;
  }

  lemma Four(n: nat)
    ensures Encode(n, 4) == Encode(n / 0x1_0000, 2) + Encode(n, 2)
  {
    hide Encode;
    LastTwo(n, 2);
    LastTwo(n, 0);
    NoBytes(n / 0x1_0000);
  }

  lemma NoBytes(n: nat)
    ensures Encode(n, 0) == []
  {
  }

  lemma OneWritten(n: nat)
    ensures Encode(n, 1) == [n % 0x100]
  {
  }

  lemma TwoWritten(n: nat)
    ensures Encode(n, 2) == [n / 0x100 % 0x100, n % 0x100]
  {
    hide Encode;
    LastTwo(n, 0);
    NoBytes(n / 0x1_0000);
  }

  lemma Quarter(n: nat)
    ensures n / 0x1_0000 / 0x100 == n / 0x100_0000
  {
  }

  /** The bytes written out, most significant first. */
  lemma Written(n: nat)
    ensures Encode(n, 1) == [n % 0x100]
    ensures Encode(n, 2) == [n / 0x100 % 0x100, n % 0x100]
    ensures Encode(n, 4) == [n / 0x100_0000 % 0x100, n / 0x1_0000 % 0x100, n / 0x100 % 0x100, n % 0x100]
  {
    hide Encode;
    OneWritten(n);
    TwoWritten(n);
    TwoWritten(n / 0x1_0000);
    Quarter(n);
    Four(n);
  }

  /** Eight bytes are the four of the upper half and the four of the lower. */
  lemma WrittenEight(n: nat)
    ensures Encode(n, 8) == Encode(n / 0x1_0000_0000, 4) + Encode(n, 4)
  {
    hide Encode;
    var n2 := n / 0x1_0000;
    LastTwo(n, 6);
    LastTwo(n2, 4);
    LastTwo(n, 2);
    LastTwo(n2, 0);
    NoBytes(n2 / 0x1_0000);
    assert n2 / 0x1_0000 == n / 0x1_0000_0000;
  }

  lemma Widths()
    ensures Pow256(1) == 0x100 && Pow256(2) == 0x1_0000 && Pow256(4) == 0x1_0000_0000
    ensures Pow256(8) == 0x1_0000_0000_0000_0000
  {
    assert Pow256(3) == 256 * Pow256(2);
    assert Pow256(5) == 256 * Pow256(4);
    assert Pow256(7) == 256 * Pow256(6);
  }
}

/** Base64 with padding (section 4 of RFC 4648). */
module Base64 {
  import opened Basics

  const PAD: Byte := 0x3D

  function Char(n: nat): Byte
    requires n < 64
  {
    if n < 26 then 0x41 + n
    else if n < 52 then 0x61 + n - 26
    else if n < 62 then 0x30 + n - 52
    else if n == 62 then 0x2B else 0x2F
  }

  function Value(c: Code): (n: nat)
    ensures n < 64 || n == 64
  {
    if 0x41 <= c <= 0x5A then c - 0x41
    else if 0x61 <= c <= 0x7A then c - 0x61 + 26
    else if 0x30 <= c <= 0x39 then c - 0x30 + 52
    else if c == 0x2B then 62
    else if c == 0x2F then 63
    else 64
  }

  lemma CharValue(n: nat)
    requires n < 64
    ensures Value(Char(n)) == n && Char(n) != PAD && 0x20 < Char(n) < 0x7F && Char(n) != QUOTE && Char(n) != 0x5C
  {
  }

  /** Three bytes as four characters. */
  /** The alphabet of section 4 of RFC 4648: 'A' to 'Z', 'a' to 'z', '0' to '9', '+' and '/'. */
  lemma Alphabet(n: nat)
    requires n < 64
    ensures Char(0) as int == 'A' as int && Char(25) as int == 'Z' as int && Char(26) as int == 'a' as int
    ensures Char(51) as int == 'z' as int && Char(52) as int == '0' as int && Char(61) as int == '9' as int
    ensures Char(62) as int == '+' as int && Char(63) as int == '/' as int
    ensures n != 25 && n != 51 && n < 61 ==> Char(n + 1) as int == Char(n) as int + 1
  {
  }

  function Quad(b0: Byte, b1: Byte, b2: Byte): (t: Bytes)
    ensures |t| == 4
  {
    [Char(b0 / 4), Char(b0 % 4 * 16 + b1 / 16), Char(b1 % 16 * 4 + b2 / 64), Char(b2 % 64)]
  }

  function Encode(b: Bytes): (t: Bytes)
    ensures |t| % 4 == 0
  {
    if b == [] then []
    else if |b| == 1 then Quad(b[0], 0, 0)[..2] + [PAD, PAD]
    else if |b| == 2 then Quad(b[0], b[1], 0)[..3] + [PAD]
    else Quad(b[0], b[1], b[2]) + Encode(b[3..])
  }

  /** Three bytes are 24 bits, written six at a time from the top; one or two bytes are padded. */
  lemma Groups(a: Byte, b: Byte, c: Byte, rest: Bytes)
    ensures Encode([a, b, c] + rest) ==
      [Char(a / 4), Char(a % 4 * 16 + b / 16), Char(b % 16 * 4 + c / 64), Char(c % 64)] + Encode(rest)
    ensures Encode([a, b]) == Encode([a, b, 0])[..3] + [0x3D]
    ensures Encode([a]) == Encode([a, 0, 0])[..2] + [0x3D, 0x3D] && Encode([]) == []
  {
    hide Char;
    EncodeTriple(a, b, c, rest);
    EncodePadded(a, b);
  }

  lemma EncodeTriple(a: Byte, b: Byte, c: Byte, rest: Bytes)
    ensures Encode([a, b, c] + rest) == Quad(a, b, c) + Encode(rest)
  {
    hide Quad;
    var s := [a, b, c] + rest;
    assert s[3..] == rest && s[0] == a && s[1] == b && s[2] == c;
  }

  lemma EncodePadded(a: Byte, b: Byte)
    ensures Encode([a, b]) == Encode([a, b, 0])[..3] + [0x3D]
    ensures Encode([a]) == Encode([a, 0, 0])[..2] + [0x3D, 0x3D] && Encode([]) == []
  {
    EncodeTriple(a, b, 0, []);
    EncodeTriple(a, 0, 0, []);
    assert [a, b, 0] + [] == [a, b, 0] && [a, 0, 0] + [] == [a, 0, 0] && Encode([]) == [];
    hide Quad;
  }

  function First(v0: nat, v1: nat): nat { v0 * 4 + v1 / 16 }
  function Second(v1: nat, v2: nat): nat { v1 % 16 * 16 + v2 / 4 }
  function Third(v2: nat, v3: nat): nat { v2 % 4 * 64 + v3 }

  function Decode(t: Text): Option<Bytes> {
    if t == [] then Some([])
    else if |t| < 4 || Value(t[0]) == 64 || Value(t[1]) == 64 then None
    else
      var b0: Byte := First(Value(t[0]), Value(t[1]));
      if t[2] == PAD then
        if |t| == 4 && t[3] == PAD && Value(t[1]) % 16 == 0 then Some([b0]) else None
      else if Value(t[2]) == 64 then None
      else
        var b1: Byte := Second(Value(t[1]), Value(t[2]));
        if t[3] == PAD then
          if |t| == 4 && Value(t[2]) % 4 == 0 then Some([b0, b1]) else None
        else if Value(t[3]) == 64 then None
        else
          var b2: Byte := Third(Value(t[2]), Value(t[3]));
          match Decode(t[4..])
          case None => None
          case Some(rest) => Some([b0, b1, b2] + rest)
  }

  /** What the four characters of a group say. */
  lemma QuadValues(b0: Byte, b1: Byte, b2: Byte)
    ensures var t := Quad(b0, b1, b2);
      && (forall i :: 0 <= i < 4 ==> Value(t[i]) < 64 && t[i] != PAD)
      && First(Value(t[0]), Value(t[1])) == b0
      && Second(Value(t[1]), Value(t[2])) == b1
      && Third(Value(t[2]), Value(t[3])) == b2
      && (b1 == 0 ==> Value(t[1]) % 16 == 0)
      && (b2 == 0 ==> Value(t[2]) % 4 == 0)
  {
    hide Char, Value;
    CharValue(b0 / 4);
    CharValue(b0 % 4 * 16 + b1 / 16);
    CharValue(b1 % 16 * 4 + b2 / 64);
    CharValue(b2 % 64);
  }

  lemma {:induction false} RoundTrip(b: Bytes)
    ensures Decode(Encode(b)) == Some(b)
  {
    hide Char, Value, Quad, First, Second, Third;
    if b == [] {
    } else if |b| == 1 {
      QuadValues(b[0], 0, 0);
      assert b == [b[0]];
    } else if |b| == 2 {
      QuadValues(b[0], b[1], 0);
      assert b == [b[0], b[1]];
    } else {
      QuadValues(b[0], b[1], b[2]);
      RoundTrip(b[3..]);
      assert Encode(b)[4..] == Encode(b[3..]);
      assert b == [b[0], b[1], b[2]] + b[3..];
    }
  }
}

/** Strict UTF-8 (RFC 3629), as `str.encode()` and `bytes.decode('utf-8')`. */
module Utf8 {
  import opened Basics

  predicate Surrogate(c: Code) { 0xD800 <= c <= 0xDFFF }

  function EncodeOne(c: Code): (b: Bytes)
    ensures 1 <= |b| <= 4
  {
    if c < 0x80 then [c]
    else if c < 0x800 then [0xC0 + c / 64, 0x80 + c % 64]
    else if c < 0x1_0000 then [0xE0 + c / 4096, 0x80 + c / 64 % 64, 0x80 + c % 64]
    else [0xF0 + c / 262144, 0x80 + c / 4096 % 64, 0x80 + c / 64 % 64, 0x80 + c % 64]
  }

  /** None is Python's UnicodeEncodeError: the text holds a surrogate. */
  function Encode(t: Text): Option<Bytes> {
    if t == [] then Some([])
    else if Surrogate(t[0]) then None
    else match Encode(t[1..])
      case None => None
      case Some(b) => Some(EncodeOne(t[0]) + b)
  }

  predicate Cont(b: Byte) { 0x80 <= b < 0xC0 }

  /** The first code point of `b` and how many bytes it takes. */
  function DecodeOne(b: Bytes): (r: Option<(Code, nat)>)
    requires b != []
    ensures r.Some? ==> 1 <= r.value.1 <= |b| && r.value.1 <= 4
  {
    if b[0] < 0x80 then Some((b[0], 1))
    else if 0xC2 <= b[0] < 0xE0 && |b| >= 2 && Cont(b[1]) then
      Some(((b[0] as int - 0xC0) * 64 + (b[1] as int - 0x80), 2))
    else if 0xE0 <= b[0] < 0xF0 && |b| >= 3 && Cont(b[1]) && Cont(b[2]) then
      var c: Code := (b[0] as int - 0xE0) * 4096 + (b[1] as int - 0x80) * 64 + (b[2] as int - 0x80);
      if c < 0x800 || Surrogate(c) then None else Some((c, 3))
    else if 0xF0 <= b[0] < 0xF5 && |b| >= 4 && Cont(b[1]) && Cont(b[2]) && Cont(b[3]) then
      var c: int := (b[0] as int - 0xF0) * 262144 + (b[1] as int - 0x80) * 4096 + (b[2] as int - 0x80) * 64
                    + (b[3] as int - 0x80);
      if c < 0x1_0000 || c >= 0x11_0000 then None else Some((c, 4))
    else None
  }

  function Decode(b: Bytes): Option<Text> {
    if b == [] then Some([])
    else match DecodeOne(b)
      case None => None
      case Some(p) =>
        match Decode(b[p.1..])
        case None => None
        case Some(t) => Some([p.0] + t)
  }

  lemma OneRoundTrip(c: Code, rest: Bytes)
    requires !Surrogate(c)
    ensures DecodeOne(EncodeOne(c) + rest) == Some((c, |EncodeOne(c)|))
  {
    var b := EncodeOne(c) + rest;
    assert forall i :: 0 <= i < |EncodeOne(c)| ==> b[i] == EncodeOne(c)[i];
    if c >= 0x1_0000 {
      assert c == c / 64 * 64 + c % 64;
      assert c / 64 == c / 4096 * 64 + c / 64 % 64;
      assert c / 4096 == c / 262144 * 64 + c / 4096 % 64;
    } else if c >= 0x800 {
      assert c == c / 64 * 64 + c % 64;
      assert c / 64 == c / 4096 * 64 + c / 64 % 64;
    }
  }

  /** Decoding the encoding gives the text back, so different texts have different encodings. */
  lemma {:induction false} RoundTrip(t: Text)
    ensures Encode(t).Some? <==> forall i :: 0 <= i < |t| ==> !Surrogate(t[i])
    ensures Encode(t).Some? ==> Decode(Encode(t).value) == Some(t)
  {
    if t != [] {
      RoundTrip(t[1..]);
      assert forall i :: 0 <= i < |t| - 1 ==> t[1..][i] == t[i + 1];
      if Encode(t).Some? {
        var rest := Encode(t[1..]).value;
        OneRoundTrip(t[0], rest);
        assert (EncodeOne(t[0]) + rest)[|EncodeOne(t[0])|..] == rest;
        assert t == [t[0]] + t[1..];
      } else {
        assert t == [t[0]] + t[1..];
      }
    }
  }

  lemma OneExtends(a: Bytes, b: Bytes)
    requires a != [] && DecodeOne(a).Some?
    ensures DecodeOne(a + b) == DecodeOne(a)
  {
    assert forall i :: 0 <= i < |a| ==> (a + b)[i] == a[i];
  }

  lemma DecodeNil()
    ensures Decode([]) == Some([])
  {
  }

  lemma DecodeStep(b: Bytes)
    requires b != []
    ensures Decode(b) ==
      match DecodeOne(b)
      case None => None
      case Some(p) => match Decode(b[p.1..]) case None => None case Some(t) => Some([p.0] + t)
  {
    hide DecodeOne;
  }

  /** Text that ends on a character boundary decodes on its own. */
  lemma {:induction false} DecodeConcat(a: Bytes, b: Bytes)
    requires Decode(a).Some?
    ensures Decode(a + b) == match Decode(b) case None => None case Some(q) => Some(Decode(a).value + q)
  {
    hide DecodeOne, Decode;
    if a == [] {
      DecodeNil();
      assert a + b == b;
      if Decode(b).Some? { assert [] + Decode(b).value == Decode(b).value; }
    } else {
      DecodeStep(a);
      DecodeStep(a + b);
      OneExtends(a, b);
      var n := DecodeOne(a).value.1;
      DecodeConcat(a[n..], b);
      assert (a + b)[n..] == a[n..] + b;
      if Decode(b).Some? {
        assert [DecodeOne(a).value.0] + (Decode(a[n..]).value + Decode(b).value)
            == ([DecodeOne(a).value.0] + Decode(a[n..]).value) + Decode(b).value;
      }
    }
  }

  /** Decoded text holds no surrogate. */
  lemma {:induction false} DecodedIsScalar(b: Bytes)
    requires Decode(b).Some?
    ensures forall i :: 0 <= i < |Decode(b).value| ==> !Surrogate(Decode(b).value[i])
  {
    if b != [] { DecodedIsScalar(b[DecodeOne(b).value.1..]); }
  }

  /** A decoding that is all ASCII is the bytes themselves. */
  lemma {:induction false} DecodeAscii(b: Bytes)
    requires Decode(b).Some?
    requires forall i :: 0 <= i < |Decode(b).value| ==> Decode(b).value[i] < 0x80
    ensures Decode(b).value == b
  {
    hide DecodeOne, Decode;
    if b == [] {
      DecodeNil();
    } else {
      DecodeStep(b);
      var p := DecodeOne(b).value;
      var t := Decode(b[p.1..]).value;
      assert Decode(b).value == [p.0] + t;
      assert Decode(b).value[0] == p.0;
      assert forall i :: 0 <= i < |t| ==> t[i] == Decode(b).value[i + 1];
      DecodeAscii(b[p.1..]);
      AsciiOne(b);
      assert b == [b[0]] + b[1..];
    }
  }

  lemma AsciiOne(b: Bytes)
    requires b != [] && DecodeOne(b).Some? && DecodeOne(b).value.0 < 0x80
    ensures DecodeOne(b).value == (b[0], 1)
  {
  }

  /** The four lengths of an encoded character, in bits (section 3 of RFC 3629). */
  lemma CharacterBytes(c: Code)
    ensures c < 0x80 ==> EncodeOne(c) == [c]
    ensures 0x80 <= c < 0x800 ==> EncodeOne(c) == [0xC0 + c / 0x40, 0x80 + c % 0x40]
    ensures 0x800 <= c < 0x1_0000 ==> EncodeOne(c) == [0xE0 + c / 0x1000, 0x80 + c / 0x40 % 0x40, 0x80 + c % 0x40]
    ensures 0x1_0000 <= c ==>
      EncodeOne(c) == [0xF0 + c / 0x4_0000, 0x80 + c / 0x1000 % 0x40, 0x80 + c / 0x40 % 0x40, 0x80 + c % 0x40]
  {
  }

  lemma OneAlone(b: Bytes)
    requires b != [] && DecodeOne(b).Some?
    ensures DecodeOne(b[..DecodeOne(b).value.1]) == DecodeOne(b)
  {
  }

  lemma FirstAlone(b: Bytes)
    requires b != [] && DecodeOne(b).Some?
    ensures Decode(b[..DecodeOne(b).value.1]) == Some([DecodeOne(b).value.0])
  {
    hide DecodeOne, Decode;
    var a := b[..DecodeOne(b).value.1];
    OneAlone(b);
    DecodeStep(a);
    DecodeNil();
    assert a[|a|..] == [];
    assert [DecodeOne(b).value.0] + [] == [DecodeOne(b).value.0];
  }

  /** Six-bit digits come apart again. */
  lemma SixBits(q: nat, r: nat)
    requires r < 64
    ensures (q * 64 + r) / 64 == q && (q * 64 + r) % 64 == r
  {
  }

  lemma Higher(c: nat)
    ensures c / 4096 == c / 64 / 64 && c / 262144 == c / 64 / 64 / 64
  {
  }

  lemma TwoExactly(b0: Byte, b1: Byte)
    requires 0xC2 <= b0 < 0xE0 && Cont(b1)
    ensures EncodeOne((b0 as int - 0xC0) * 64 + (b1 as int - 0x80)) == [b0, b1]
  {
    SixBits(b0 as int - 0xC0, b1 as int - 0x80);
  }

  lemma ThreeExactly(b0: Byte, b1: Byte, b2: Byte, c: Code)
    requires 0xE0 <= b0 < 0xF0 && Cont(b1) && Cont(b2) && c >= 0x800
    requires c == (b0 as int - 0xE0) * 4096 + (b1 as int - 0x80) * 64 + (b2 as int - 0x80)
    ensures EncodeOne(c) == [b0, b1, b2]
  {
    var x, y, z := b0 as int - 0xE0, b1 as int - 0x80, b2 as int - 0x80;
    SixBits(x * 64 + y, z);
    SixBits(x, y);
    Higher(c);
  }

  lemma FourExactly(b0: Byte, b1: Byte, b2: Byte, b3: Byte, c: Code)
    requires 0xF0 <= b0 < 0xF5 && Cont(b1) && Cont(b2) && Cont(b3) && c >= 0x1_0000
    requires c == (b0 as int - 0xF0) * 262144 + (b1 as int - 0x80) * 4096 + (b2 as int - 0x80) * 64 + (b3 as int - 0x80)
    ensures EncodeOne(c) == [b0, b1, b2, b3]
  {
    var w, x, y, z := b0 as int - 0xF0, b1 as int - 0x80, b2 as int - 0x80, b3 as int - 0x80;
    SixBits((w * 64 + x) * 64 + y, z);
    SixBits(w * 64 + x, y);
    SixBits(w, x);
    Higher(c);
  }

  lemma OneExactly(b: Bytes)
    requires b != [] && DecodeOne(b).Some?
    ensures var p := DecodeOne(b).value; !Surrogate(p.0) && EncodeOne(p.0) == b[..p.1]
  {
    hide EncodeOne;
    var p := DecodeOne(b).value;
    if b[0] >= 0xF0 {
      assert b[..4] == [b[0], b[1], b[2], b[3]];
      FourExactly(b[0], b[1], b[2], b[3], p.0);
    } else if b[0] >= 0xE0 {
      assert b[..3] == [b[0], b[1], b[2]];
      ThreeExactly(b[0], b[1], b[2], p.0);
    } else if b[0] >= 0x80 {
      assert b[..2] == [b[0], b[1]];
      TwoExactly(b[0], b[1]);
    } else {
      CharacterBytes(p.0);
      assert b[..1] == [b[0]];
    }
  }

  /** The decoder accepts encodings only: nothing overlong, no surrogate, nothing beyond U+10FFFF. */
  lemma {:induction false} DecodesOnlyEncodings(b: Bytes)
    requires Decode(b).Some?
    ensures Encode(Decode(b).value) == Some(b)
    decreases |b|
  {
    hide DecodeOne, EncodeOne, Decode;
    if b == [] {
      DecodeNil();
    } else {
      DecodeStep(b);
      var p := DecodeOne(b).value;
      var t := Decode(b[p.1..]).value;
      OneExactly(b);
      DecodesOnlyEncodings(b[p.1..]);
      var all: Text := [p.0] + t;
      assert all[1..] == t && b == b[..p.1] + b[p.1..];
    }
  }

  /** Text that ends in ASCII has those characters as its last bytes, and the bytes before decode to the text before. */
  lemma {:induction false} AsciiTail(b: Bytes, t: Text, w: Text)
    requires Decode(b) == Some(t + w) && forall i :: 0 <= i < |w| ==> w[i] < 0x80
    ensures |w| <= |b| && b[|b| - |w|..] == w && Decode(b[..|b| - |w|]) == Some(t)
    decreases |b|
  {
    hide DecodeOne, Decode;
    DecodeNil();
    if t == [] {
      assert t + w == w;
      DecodeAscii(b);
      assert b[..0] == [];
    } else {
      DecodeStep(b);
      var p := DecodeOne(b).value;
      var a, c := b[..p.1], b[p.1..];
      assert Decode(c).value == (t + w)[1..] == t[1..] + w;
      AsciiTail(c, t[1..], w);
      FirstAlone(b);
      var m := |b| - |w|;
      assert b[m..] == c[|c| - |w|..];
      assert b[..m] == a + c[..|c| - |w|];
      DecodeConcat(a, c[..|c| - |w|]);
      assert [p.0] + t[1..] == t;
    }
  }

  lemma {:induction false} EncodeAscii(b: Bytes)
    requires forall i :: 0 <= i < |b| ==> b[i] < 0x80
    ensures Encode(b) == Some(b) && Decode(b) == Some(b)
  {
    if b != [] {
      EncodeAscii(b[1..]);
      assert b == [b[0]] + b[1..];
    }
  }
}
