/** Reading back what `dumps` wrote. */
module JsonRoundTrip {
  import opened Basics
  import opened Json
  import Utf8
  import Hex

  // ---- strings ----

  lemma Nibbles(n: nat)
    requires n < 0x1_0000
    ensures n / 4096 < 16
    ensures n / 4096 * 4096 + n / 256 % 16 * 256 + n / 16 % 16 * 16 + n % 16 == n
  {
    assert n == n / 16 * 16 + n % 16;
    assert n / 16 == n / 256 * 16 + n / 16 % 16;
    assert n / 256 == n / 4096 * 16 + n / 256 % 16;
  }

  lemma ReadHex4Hex4(n: nat, rest: Text)
    requires n < 0x1_0000
    ensures ReadHex4(Hex4(n) + rest) == Some(n)
  {
    var s: Text := Hex4(n) + rest;
    Nibbles(n);
    Hex.DigitValue(n / 4096);
    Hex.DigitValue(n / 256 % 16);
    Hex.DigitValue(n / 16 % 16);
    Hex.DigitValue(n % 16);
    assert s[0] == Hex.Digit(n / 4096) && s[1] == Hex.Digit(n / 256 % 16);
    assert s[2] == Hex.Digit(n / 16 % 16) && s[3] == Hex.Digit(n % 16);
  }

  lemma UnitRead(n: nat, rest: Text)
    requires n < 0x1_0000
    ensures var s := UnitEscape(n) + rest;
      |s| >= 6 && s[0] == BACKSLASH && s[1] == 0x75 && ReadHex4(s[2..]) == Some(n) && s[6..] == rest
  {
    hide Hex4, ReadHex4;
    var s: Text := UnitEscape(n) + rest;
    assert s[2..] == Hex4(n) + rest;
    ReadHex4Hex4(n, rest);
  }

  /** A `\uXXXX` escape reads back as its number unless a low surrogate's escape follows a high one. */
  lemma UnitRoundTrip(n: nat, rest: Text)
    requires n < 0x1_0000
    requires !(High(n) && StartsLow(rest))
    ensures NextChar(UnitEscape(n) + rest) == Ok(n, rest)
  {
    hide ReadHex4, UnitEscape, StartsLow;
    UnitRead(n, rest);
  }

  lemma PairRoundTrip(hi: Code, lo: Code, rest: Text)
    requires High(hi) && Low(lo)
    ensures NextChar(UnitEscape(hi) + UnitEscape(lo) + rest) == Ok(Combine(hi, lo), rest)
  {
    hide ReadHex4, UnitEscape;
    var u: Text := UnitEscape(lo) + rest;
    var s: Text := UnitEscape(hi) + u;
    assert s == UnitEscape(hi) + UnitEscape(lo) + rest;
    UnitRead(hi, u);
    UnitRead(lo, rest);
    assert s[8..] == u[2..];
    assert s[12..] == rest;
  }

  /** Characters written as a `\uXXXX` unit. */
  predicate IsUnit(c: Code) {
    0x7F <= c < 0x1_0000 || (c < 0x20 && c != 8 && c != 9 && c != 10 && c != 12 && c != 13)
  }

  lemma ShortRoundTrip(c: Code, rest: Text)
    requires c < 0x7F && !IsUnit(c)
    ensures NextChar(Escape(c) + rest) == Ok(c, rest)
    ensures !StartsLow(Escape(c) + rest)
  {
    var s: Text := Escape(c) + rest;
    assert s[0] == Escape(c)[0];
    if |Escape(c)| == 2 {
      assert s[1] == Escape(c)[1];
      assert s[2..] == rest;
    } else {
      assert s[1..] == rest;
    }
  }

  /** Every character comes back, save a high surrogate before an escaped low one. */
  lemma CharRoundTrip(c: Code, rest: Text)
    requires !(High(c) && StartsLow(rest))
    ensures NextChar(Escape(c) + rest) == Ok(c, rest)
  {
    hide NextChar, StartsLow, UnitEscape, HighOf, LowOf;
    if c >= 0x1_0000 {
      PairRoundTrip(HighOf(c), LowOf(c), rest);
    } else if IsUnit(c) {
      UnitRoundTrip(c, rest);
    } else {
      ShortRoundTrip(c, rest);
    }
  }

  /** An escape opens with a low surrogate's unit only when it is that surrogate. */
  lemma EscapeStartsLow(c: Code, rest: Text)
    ensures StartsLow(Escape(c) + rest) ==> Low(c)
  {
    hide NextChar, ReadHex4, UnitEscape, HighOf, LowOf;
    if c >= 0x1_0000 {
      assert Escape(c) + rest == UnitEscape(HighOf(c)) + (UnitEscape(LowOf(c)) + rest);
      UnitRead(HighOf(c), UnitEscape(LowOf(c)) + rest);
    } else if IsUnit(c) {
      UnitRead(c, rest);
    } else {
      ShortRoundTrip(c, rest);
    }
  }

  /** What a Python string becomes when its adjacent surrogate pairs are read as one character. */
  function Merge(t: Text): Text {
    if t == [] then []
    else if |t| >= 2 && High(t[0]) && Low(t[1]) then [Combine(t[0], t[1])] + Merge(t[2..])
    else [t[0]] + Merge(t[1..])
  }

  /** No high surrogate stands right before a low one: true of every string `json.loads` returns. */
  predicate Unpaired(t: Text) {
    forall i :: 0 <= i < |t| - 1 ==> !(High(t[i]) && Low(t[i + 1]))
  }

  lemma {:induction false} MergeLength(t: Text)
    ensures |Merge(t)| <= |t|
    ensures |Merge(t)| == |t| <==> Unpaired(t)
    ensures Unpaired(t) ==> Merge(t) == t
  {
    if t == [] {
    } else if |t| >= 2 && High(t[0]) && Low(t[1]) {
      MergeLength(t[2..]);
    } else {
      MergeLength(t[1..]);
      assert t == [t[0]] + t[1..];
      assert forall i :: 0 <= i < |t| - 1 ==> t[1..][i] == t[i + 1];
      assert Unpaired(t) <==> Unpaired(t[1..]) by {
        if Unpaired(t[1..]) {
          forall i | 0 <= i < |t| - 1 ensures !(High(t[i]) && Low(t[i + 1])) {
            if i > 0 { assert t[1..][i - 1] == t[i] && t[1..][i] == t[i + 1]; }
          }
        }
      }
    }
  }

  /** A printed tail opens with a low surrogate's escape only if the text does. */
  lemma TailStartsLow(t: Text, rest: Text)
    ensures StartsLow(EscapeAll(t) + ([QUOTE] + rest)) ==> t != [] && Low(t[0])
  {
    hide Escape;
    if t == [] {
      assert (EscapeAll(t) + ([QUOTE] + rest))[0] == QUOTE;
    } else {
      var tail := EscapeAll(t[1..]) + ([QUOTE] + rest);
      assert EscapeAll(t) + ([QUOTE] + rest) == Escape(t[0]) + tail;
      EscapeStartsLow(t[0], tail);
    }
  }

  /** Any string comes back as its merged form. */
  lemma {:induction false} CharsRoundTrip(t: Text, rest: Text)
    ensures ParseChars(EscapeAll(t) + ([QUOTE] + rest)) == Ok(Merge(t), rest)
  {
    hide NextChar, StartsLow, UnitEscape, Escape;
    var s: Text := EscapeAll(t) + ([QUOTE] + rest);
    if t == [] {
      assert s[1..] == rest;
    } else if |t| >= 2 && High(t[0]) && Low(t[1]) {
      var tail: Text := EscapeAll(t[2..]) + ([QUOTE] + rest);
      assert EscapeAll(t[1..]) == Escape(t[1]) + EscapeAll(t[2..]) by { assert t[1..][1..] == t[2..]; }
      SurrogateEscape(t[0]);
      SurrogateEscape(t[1]);
      assert s == UnitEscape(t[0]) + UnitEscape(t[1]) + tail;
      PairRoundTrip(t[0], t[1], tail);
      assert s[0] == UnitEscape(t[0])[0];
      CharsRoundTrip(t[2..], rest);
    } else {
      var tail: Text := EscapeAll(t[1..]) + ([QUOTE] + rest);
      assert s == Escape(t[0]) + tail;
      TailStartsLow(t[1..], rest);
      assert |t| > 1 ==> t[1..][0] == t[1];
      CharRoundTrip(t[0], tail);
      CharsRoundTrip(t[1..], rest);
      assert s[0] == Escape(t[0])[0];
    }
  }

  lemma SurrogateEscape(c: Code)
    requires High(c) || Low(c)
    ensures Escape(c) == UnitEscape(c)
  {
  }

  // ---- numbers ----

  lemma {:induction false} DecRoundTrip(n: nat)
    ensures DecValue(PrintNat(n)) == n
  {
    var b := PrintNat(n);
    if n < 10 {
      assert b[..0] == [];
    } else {
      DecRoundTrip(n / 10);
      assert b[..|b| - 1] == PrintNat(n / 10);
    }
  }

  lemma {:induction false} DigitsConcat(b: Text, rest: Text)
    requires forall i :: 0 <= i < |b| ==> IsDigit(b[i])
    requires rest == [] || !IsDigit(rest[0])
    ensures Digits(b + rest) == |b|
  {
    if b == [] {
      assert b + rest == rest;
    } else {
      assert (b + rest)[1..] == b[1..] + rest;
      DigitsConcat(b[1..], rest);
    }
  }

  /** What may follow a value inside a document. */
  predicate Delimited(rest: Text) {
    rest == [] || rest[0] == COMMA || rest[0] == RBRACK || rest[0] == RBRACE || IsWs(rest[0])
  }

  lemma NoFraction(rest: Text)
    requires Delimited(rest)
    ensures FracLen(rest) == 0 && ExpLen(rest) == 0
  {
  }

  lemma PartsPrintNat(n: nat, rest: Text)
    requires Delimited(rest)
    ensures Parts(PrintNat(n) + rest) == NumberParts(|PrintNat(n)|, 0)
  {
    hide PrintNat, Digits, FracLen, ExpLen;
    var d := PrintNat(n);
    assert (d + rest)[0] == d[0];
    DigitsConcat(d, rest);
    assert (d + rest)[|d|..] == rest;
    NoFraction(rest);
  }

  lemma UnsignedRoundTrip(m: nat, negative: bool, rest: Text)
    requires Delimited(rest)
    ensures ParseUnsigned(PrintNat(m) + rest, negative) == Ok(Int(if negative then -(m as int) else m), rest)
  {
    hide PrintNat, DecValue, Parts, Delimited;
    var d := PrintNat(m);
    var p: Text := d + rest;
    assert p[0] == d[0];
    PartsPrintNat(m, rest);
    assert p[..|d|] == d && p[|d|..] == rest;
    DecRoundTrip(m);
  }

  lemma NumberRoundTrip(n: int, rest: Text)
    requires Delimited(rest)
    ensures ParseNumber(PrintInt(n) + rest) == Ok(Int(n), rest)
  {
    hide PrintNat, ParseUnsigned, Delimited;
    var s: Text := PrintInt(n) + rest;
    if n < 0 {
      assert s[1..] == PrintNat(-n) + rest;
      UnsignedRoundTrip(-n, true, rest);
    } else {
      assert s[0] == PrintNat(n)[0];
      UnsignedRoundTrip(n, false, rest);
    }
  }

  // ---- floats ----

  /** Digits stop where a delimiter starts. */
  lemma {:induction false} DigitsDelimited(s: Text, rest: Text)
    requires Delimited(rest)
    ensures Digits(s + rest) == Digits(s)
  {
    hide Delimited, IsDigit;
    NoSign(rest);
    if s == [] {
      assert s + rest == rest;
      assert Digits(rest) == 0;
      assert Digits(s) == 0;
    } else {
      assert (s + rest)[0] == s[0] && (s + rest)[1..] == s[1..] + rest;
      DigitsDelimited(s[1..], rest);
    }
  }

  lemma NoSign(rest: Text)
    requires Delimited(rest)
    ensures rest != [] ==> !IsDigit(rest[0]) && rest[0] != 0x2B && rest[0] != MINUS
  {
  }

  lemma FracLenDelimited(s: Text, rest: Text)
    requires Delimited(rest)
    ensures FracLen(s + rest) == FracLen(s)
  {
    hide Digits, Delimited;
    NoFraction(rest);
    var y := s + rest;
    if s == [] {
      assert y == rest;
    } else {
      assert y[0] == s[0] && y[1..] == s[1..] + rest;
      assert |s| >= 2 ==> y[1] == s[1];
      assert |s| == 1 && |y| >= 2 ==> y[1] == rest[0];
      NoSign(rest);
      DigitsDelimited(s[1..], rest);
    }
  }

  lemma ExpLenDelimited(s: Text, rest: Text)
    requires Delimited(rest)
    ensures ExpLen(s + rest) == ExpLen(s)
  {
    hide Digits, Delimited;
    NoFraction(rest);
    var y := s + rest;
    if s == [] {
      assert y == rest;
    } else if s[0] == 0x65 || s[0] == 0x45 {
      assert |s| >= 2 ==> y[1] == s[1];
      assert |s| == 1 && |y| >= 2 ==> y[1] == rest[0];
      NoSign(rest);
      var k := if |s| >= 2 && (s[1] == 0x2B || s[1] == MINUS) then 2 else 1;
      assert y[k..] == s[k..] + rest;
      DigitsDelimited(s[k..], rest);
    } else {
      assert y[0] == s[0];
    }
  }

  /** A delimiter after a number leaves its parts as they are. */
  lemma PartsDelimited(p: Text, rest: Text)
    requires Delimited(rest) && p != []
    ensures Parts(p + rest) == Parts(p)
  {
    hide Digits, FracLen, ExpLen, Delimited;
    var k := IntLen(p);
    var f := FracLen(p[k..]);
    assert (p + rest)[0] == p[0];
    DigitsDelimited(p, rest);
    assert (p + rest)[k..] == p[k..] + rest;
    FracLenDelimited(p[k..], rest);
    assert (p + rest)[k + f..] == p[k + f..] + rest;
    ExpLenDelimited(p[k + f..], rest);
  }

  lemma UnsignedDelimited(p: Text, negative: bool, rest: Text)
    requires Delimited(rest) && ParseUnsigned(p, negative).Ok? && ParseUnsigned(p, negative).rest == []
    ensures ParseUnsigned(p + rest, negative) == Ok(ParseUnsigned(p, negative).value, rest)
  {
    hide Parts, DecValue, Delimited;
    var y := p + rest;
    assert y[0] == p[0];
    PartsDelimited(p, rest);
    var n := Parts(p);
    var end := n.whole + n.tail;
    assert end == |p| && p[..end] == p;
    assert y[..end] == p && y[end..] == rest;
  }

  lemma NumberDelimited(s: Text, rest: Text)
    requires Delimited(rest) && ParseNumber(s).Ok? && ParseNumber(s).rest == []
    ensures ParseNumber(s + rest) == Ok(ParseNumber(s).value, rest)
  {
    hide ParseUnsigned, Delimited;
    NumberStart(s);
    assert (s + rest)[0] == s[0];
    if s[0] == MINUS {
      assert (s + rest)[1..] == s[1..] + rest;
      UnsignedDelimited(s[1..], true, rest);
    } else {
      UnsignedDelimited(s, false, rest);
    }
  }

  lemma NumberStart(s: Text)
    requires ParseNumber(s).Ok?
    ensures s != [] && (IsDigit(s[0]) || (s[0] == MINUS && |s| > 1 && IsDigit(s[1])))
  {
  }

  /** The three words for floats. */
  lemma FloatWord(w: Text, rest: Text)
    requires w == A("NaN") || w == A("Infinity") || w == A("-Infinity")
    ensures ParseWord(w + rest) == Ok(Float(w), rest)
  {
    var s := w + rest;
    assert w <= s && s[|w|..] == rest && s[0] == w[0];
    assert A("null")[0] == 0x6E && A("true")[0] == 0x74 && A("false")[0] == 0x66;
    assert A("NaN")[0] == 0x4E && A("Infinity")[0] == 0x49 && A("-Infinity")[0] == 0x2D;
  }

  lemma FloatStart(t: Text)
    requires FloatToken(t)
    ensures t != [] && (IsDigit(t[0]) || t[0] == MINUS || t[0] == 0x4E || t[0] == 0x49)
  {
    hide ParseNumber;
    if ParseNumber(t) == Ok(Float(t), []) { NumberStart(t); }
    assert A("NaN")[0] == 0x4E && A("Infinity")[0] == 0x49 && A("-Infinity")[0] == 0x2D;
  }

  /** Fixed notation, as Python writes a time in milliseconds: a whole part, a point and digits. */
  lemma FixedNotation(n: nat, fraction: Bytes)
    requires fraction != [] && forall i :: 0 <= i < |fraction| ==> IsDigit(fraction[i])
    ensures FloatToken(PrintNat(n) + ([0x2E] + fraction))
  {
    hide PrintNat, Digits, DecValue;
    var d, tail: Text := PrintNat(n), [0x2E] + fraction;
    var t: Text := d + tail;
    assert t[0] == d[0] && t[|d|..] == tail && tail[1..] == fraction;
    DigitsConcat(d, tail);
    DigitsConcat(fraction, []);
    assert fraction + [] == fraction;
    assert IntLen(t) == |d|;
    assert FracLen(tail) == |tail| && tail[|tail|..] == [];
    assert t[|d| + |tail|..] == [] && t[..|t|] == t;
  }

  lemma FloatRoundTrip(t: Text, rest: Text)
    requires FloatToken(t) && Delimited(rest)
    ensures ParseValue(t + rest) == Ok(Float(t), rest)
  {
    hide A, ParseNumber, ParseWord, ParseChars, ParseItems, ParseMembers, Delimited;
    FloatStart(t);
    var s := t + rest;
    assert s[0] == t[0];
    if ParseNumber(t) == Ok(Float(t), []) {
      NumberStart(t);
      assert |t| > 1 ==> s[1] == t[1];
      NotWord(s);
      NumberDelimited(t, rest);
    } else {
      FloatWord(t, rest);
    }
  }

  // ---- values ----

  function MergeValue(v: Value): (r: Value)
    decreases v, 0
  {
    match v
    case Str(t) => Str(Merge(t))
    case Arr(items) => Arr(MergeItems(items))
    case Obj(ms) => Obj(MergeMembers(ms))
    case _ => v
  }

  function MergeItems(items: seq<Value>): (r: seq<Value>)
    ensures |r| == |items|
    decreases items, 1
  {
    if items == [] then [] else [MergeValue(items[0])] + MergeItems(items[1..])
  }

  function MergeMembers(ms: seq<Keyed<Value>>): (r: seq<Keyed<Value>>)
    ensures |r| == |ms|
    decreases ms, 1
  {
    if ms == [] then [] else [Keyed(Merge(ms[0].key), MergeValue(ms[0].value))] + MergeMembers(ms[1..])
  }

  /** Every string of the value, keys included, is free of adjacent surrogate pairs. */
  predicate Clean(v: Value) {
    match v
    case Str(t) => Unpaired(t)
    case Arr(items) => forall x :: x in items ==> Clean(x)
    case Obj(ms) => forall m :: m in ms ==> Unpaired(m.key) && Clean(m.value)
    case _ => true
  }

  lemma {:induction false} MergeValueFixed(v: Value)
    ensures MergeValue(v) == v <==> Clean(v)
    decreases v, 0
  {
    match v
    case Str(t) => MergeLength(t);
    case Arr(items) => MergeItemsFixed(items);
    case Obj(ms) => MergeMembersFixed(ms);
    case _ =>
  }

  lemma {:induction false} MergeItemsFixed(items: seq<Value>)
    ensures MergeItems(items) == items <==> forall x :: x in items ==> Clean(x)
    decreases items, 1
  {
    if items != [] {
      MergeValueFixed(items[0]);
      MergeItemsFixed(items[1..]);
      assert items == [items[0]] + items[1..];
      assert MergeItems(items)[1..] == MergeItems(items[1..]);
    }
  }

  lemma {:induction false} MergeMembersFixed(ms: seq<Keyed<Value>>)
    ensures MergeMembers(ms) == ms <==> forall m :: m in ms ==> Unpaired(m.key) && Clean(m.value)
    decreases ms, 1
  {
    hide Merge, Unpaired, MergeValue, Clean;
    if ms != [] {
      MergeLength(ms[0].key);
      MergeValueFixed(ms[0].value);
      MergeMembersFixed(ms[1..]);
      assert ms == [ms[0]] + ms[1..];
      assert MergeMembers(ms)[1..] == MergeMembers(ms[1..]);
    }
  }

  lemma NoSkip(s: Text)
    requires s == [] || !IsWs(s[0])
    ensures SkipWs(s) == s
  {
  }

  lemma SkipSep(c: Byte, style: Style, rest: Text)
    requires rest == [] || !IsWs(rest[0])
    ensures SkipWs((Sep(c, style) + rest)[1..]) == rest
  {
    if style.Spaced? {
      assert (Sep(c, style) + rest)[1..] == [0x20] + rest;
      assert ([0x20] + rest)[1..] == rest;
    } else {
      assert (Sep(c, style) + rest)[1..] == rest;
    }
  }

  /** The first byte tells what kind of value follows; it is never whitespace or a closing bracket. */
  lemma FirstByte(v: Value, style: Style)
    requires Plain(v)
    ensures var c := Dumps(v, style)[0]; !IsWs(c) && c != RBRACK && c != RBRACE
  {
    if v.Int? { assert Dumps(v, style) == PrintInt(v.n); }
    if v.Float? { FloatStart(v.token); }
  }

  lemma WordRoundTrip(v: Value, style: Style, rest: Text)
    requires v.Null? || v.Bool?
    ensures ParseValue(Dumps(v, style) + rest) == Ok(v, rest)
  {
    var w: Bytes := Dumps(v, style);
    var s: Text := w + rest;
    assert w <= s;
    assert s[|w|..] == rest;
    assert s[0] == w[0];
    assert s[0] != A("null")[0] ==> !(A("null") <= s);
    assert s[0] != A("true")[0] ==> !(A("true") <= s);
  }

  lemma NotPrefix(w: Text, s: Text, i: nat)
    requires i < |w| && i < |s| && w[i] != s[i]
    ensures !(w <= s)
  {
  }

  lemma NotWord(s: Text)
    requires s != [] && (IsDigit(s[0]) || (s[0] == MINUS && |s| > 1 && IsDigit(s[1])))
    ensures ParseWord(s) == Fail
  {
    NotPrefix(A("null"), s, 0);
    NotPrefix(A("true"), s, 0);
    NotPrefix(A("false"), s, 0);
    NotPrefix(A("NaN"), s, 0);
    NotPrefix(A("Infinity"), s, 0);
    NotPrefix(A("-Infinity"), s, if s[0] == MINUS then 1 else 0);
  }

  lemma IntRoundTrip(n: int, rest: Text)
    requires Delimited(rest)
    ensures ParseValue(PrintInt(n) + rest) == Ok(Int(n), rest)
  {
    hide ParseNumber, ParseWord, ParseChars;
    var s: Text := PrintInt(n) + rest;
    assert s[0] == PrintInt(n)[0] && (n < 0 ==> s[1] == PrintNat(-n)[0]);
    NotWord(s);
    NumberRoundTrip(n, rest);
  }

  lemma StrRoundTrip(t: Text, rest: Text)
    ensures ParseValue(Quoted(t) + rest) == Ok(Str(Merge(t)), rest)
  {
    hide ParseNumber, ParseWord, ParseChars, EscapeAll, Merge, ParseItems, ParseMembers;
    assert (Quoted(t) + rest)[1..] == EscapeAll(t) + ([QUOTE] + rest);
    CharsRoundTrip(t, rest);
  }

  lemma {:induction false} ArrRoundTrip(items: seq<Value>, style: Style, rest: Text)
    requires forall x :: x in items ==> Plain(x)
    ensures ParseValue([LBRACK] + (DumpsItems(items, style) + [RBRACK]) + rest) == Ok(Arr(MergeItems(items)), rest)
    decreases items, 2
  {
    hide ParseNumber, ParseWord, ParseChars, ParseItems, ParseMembers, DumpsItems, MergeItems;
    var s: Text := [LBRACK] + (DumpsItems(items, style) + [RBRACK]) + rest;
    assert s[0] == LBRACK && s[1..] == DumpsItems(items, style) + ([RBRACK] + rest);
    ItemsRoundTrip(items, style, rest);
  }

  lemma {:induction false} ObjRoundTrip(ms: seq<Keyed<Value>>, style: Style, rest: Text)
    requires forall m :: m in ms ==> Plain(m.value)
    ensures ParseValue([LBRACE] + (DumpsMembers(ms, style) + [RBRACE]) + rest) == Ok(Obj(MergeMembers(ms)), rest)
    decreases ms, 2
  {
    hide ParseNumber, ParseWord, ParseChars, ParseItems, ParseMembers, DumpsMembers, MergeMembers;
    var s: Text := [LBRACE] + (DumpsMembers(ms, style) + [RBRACE]) + rest;
    assert s[0] == LBRACE && s[1..] == DumpsMembers(ms, style) + ([RBRACE] + rest);
    MembersRoundTrip(ms, style, rest);
  }

  /** Any printed value, in either style, reads back as its merged form. */
  lemma {:induction false} ValueRoundTrip(v: Value, style: Style, rest: Text)
    requires Plain(v) && Delimited(rest)
    ensures ParseValue(Dumps(v, style) + rest) == Ok(MergeValue(v), rest)
    decreases v, 0
  {
    hide ParseValue, PrintInt, Quoted, Merge, DumpsItems, DumpsMembers, MergeItems, MergeMembers, Delimited;
    match v
    case Null => WordRoundTrip(v, style, rest);
    case Bool(_) => WordRoundTrip(v, style, rest);
    case Int(n) => IntRoundTrip(n, rest);
    case Float(t) => FloatRoundTrip(t, rest);
    case Str(t) => StrRoundTrip(t, rest);
    case Arr(items) => ArrRoundTrip(items, style, rest);
    case Obj(ms) => ObjRoundTrip(ms, style, rest);
  }

  lemma {:induction false} LastItemRoundTrip(v: Value, style: Style, rest: Text)
    requires Plain(v)
    ensures ParseItems(Dumps(v, style) + ([RBRACK] + rest)) == Ok([MergeValue(v)], rest)
    decreases v, 1
  {
    hide ParseValue, Dumps, MergeValue, Plain, SkipWs;
    NoSkip([RBRACK] + rest);
    ValueRoundTrip(v, style, [RBRACK] + rest);
    assert ([RBRACK] + rest)[1..] == rest;
  }

  lemma {:induction false} NextItemRoundTrip(v: Value, style: Style, next: Text)
    requires Plain(v) && next != [] && SkipWs(next) == next && ParseItems(next).Ok?
    ensures ParseItems(Dumps(v, style) + (Sep(COMMA, style) + next)) ==
            Ok([MergeValue(v)] + ParseItems(next).value, ParseItems(next).rest)
    decreases v, 1
  {
    hide ParseValue, Dumps, MergeValue, Plain, SkipWs;
    var tail: Text := Sep(COMMA, style) + next;
    assert tail[0] == COMMA;
    NoSkip(tail);
    ValueRoundTrip(v, style, tail);
    SkipSep(COMMA, style, next);
  }

  lemma {:induction false} ItemsRoundTrip(items: seq<Value>, style: Style, rest: Text)
    requires forall x :: x in items ==> Plain(x)
    ensures var s := DumpsItems(items, style) + ([RBRACK] + rest);
      && s != [] && SkipWs(s) == s
      && if items == [] then s[0] == RBRACK && s[1..] == rest && MergeItems(items) == []
         else s[0] != RBRACK && ParseItems(s) == Ok(MergeItems(items), rest)
    decreases items, 1
  {
    hide ParseItems, Dumps, MergeValue, Plain, SkipWs, Sep;
    var s: Text := DumpsItems(items, style) + ([RBRACK] + rest);
    if items == [] {
      NoSkip(s);
    } else if |items| == 1 {
      FirstByte(items[0], style);
      assert s[0] == Dumps(items[0], style)[0];
      NoSkip(s);
      LastItemRoundTrip(items[0], style, rest);
      assert MergeItems(items) == [MergeValue(items[0])];
    } else {
      var next: Text := DumpsItems(items[1..], style) + ([RBRACK] + rest);
      assert s == Dumps(items[0], style) + (Sep(COMMA, style) + next);
      FirstByte(items[0], style);
      assert s[0] == Dumps(items[0], style)[0];
      NoSkip(s);
      ItemsRoundTrip(items[1..], style, rest);
      NextItemRoundTrip(items[0], style, next);
    }
  }

  lemma KeyRoundTrip(k: Text, style: Style, rest: Text)
    requires rest != [] && !IsWs(rest[0])
    ensures ParseKey(Quoted(k) + (Sep(COLON, style) + rest)) == Ok(Merge(k), rest)
  {
    hide ParseChars, EscapeAll, Merge;
    var s: Text := Quoted(k) + (Sep(COLON, style) + rest);
    assert s[1..] == EscapeAll(k) + ([QUOTE] + (Sep(COLON, style) + rest));
    CharsRoundTrip(k, Sep(COLON, style) + rest);
    SkipSep(COLON, style, rest);
    assert (Sep(COLON, style) + rest)[0] == COLON;
  }

  lemma {:induction false} MemberRoundTrip(m: Keyed<Value>, style: Style, tail: Text)
    requires Plain(m.value) && Delimited(tail)
    ensures var key := ParseKey(DumpsMember(m, style) + tail);
      key.Ok? && key.value == Merge(m.key) && ParseValue(key.rest) == Ok(MergeValue(m.value), tail)
    decreases m, 1
  {
    hide ParseValue, Dumps, MergeValue, ParseKey, Quoted, Merge;
    var body: Text := Dumps(m.value, style) + tail;
    assert DumpsMember(m, style) + tail == Quoted(m.key) + (Sep(COLON, style) + body);
    FirstByte(m.value, style);
    assert body[0] == Dumps(m.value, style)[0];
    KeyRoundTrip(m.key, style, body);
    ValueRoundTrip(m.value, style, tail);
  }

  lemma {:induction false} LastMemberRoundTrip(m: Keyed<Value>, style: Style, rest: Text)
    requires Plain(m.value)
    ensures ParseMembers(DumpsMember(m, style) + ([RBRACE] + rest)) ==
            Ok([Keyed(Merge(m.key), MergeValue(m.value))], rest)
    decreases m, 2
  {
    hide ParseValue, DumpsMember, MergeValue, ParseKey, Merge, Plain, SkipWs;
    NoSkip([RBRACE] + rest);
    MemberRoundTrip(m, style, [RBRACE] + rest);
    assert ([RBRACE] + rest)[1..] == rest;
  }

  lemma {:induction false} NextMemberRoundTrip(m: Keyed<Value>, style: Style, next: Text)
    requires Plain(m.value) && next != [] && SkipWs(next) == next && ParseMembers(next).Ok?
    ensures ParseMembers(DumpsMember(m, style) + (Sep(COMMA, style) + next)) ==
            Ok([Keyed(Merge(m.key), MergeValue(m.value))] + ParseMembers(next).value, ParseMembers(next).rest)
    decreases m, 2
  {
    hide ParseValue, DumpsMember, MergeValue, ParseKey, Merge, Plain, SkipWs;
    var tail: Text := Sep(COMMA, style) + next;
    assert tail[0] == COMMA;
    NoSkip(tail);
    MemberRoundTrip(m, style, tail);
    SkipSep(COMMA, style, next);
  }

  lemma {:induction false} MembersRoundTrip(ms: seq<Keyed<Value>>, style: Style, rest: Text)
    requires forall m :: m in ms ==> Plain(m.value)
    ensures var s := DumpsMembers(ms, style) + ([RBRACE] + rest);
      && s != [] && SkipWs(s) == s
      && if ms == [] then s[0] == RBRACE && s[1..] == rest && MergeMembers(ms) == []
         else s[0] != RBRACE && ParseMembers(s) == Ok(MergeMembers(ms), rest)
    decreases ms, 1
  {
    hide ParseMembers, DumpsMember, MergeValue, Merge, Plain, SkipWs, Sep;
    var s: Text := DumpsMembers(ms, style) + ([RBRACE] + rest);
    if ms == [] {
      NoSkip(s);
    } else if |ms| == 1 {
      assert s[0] == DumpsMember(ms[0], style)[0];
      NoSkip(s);
      LastMemberRoundTrip(ms[0], style, rest);
      assert MergeMembers(ms) == [Keyed(Merge(ms[0].key), MergeValue(ms[0].value))];
    } else {
      var next: Text := DumpsMembers(ms[1..], style) + ([RBRACE] + rest);
      assert s == DumpsMember(ms[0], style) + (Sep(COMMA, style) + next);
      assert s[0] == DumpsMember(ms[0], style)[0];
      NoSkip(s);
      MembersRoundTrip(ms[1..], style, rest);
      NextMemberRoundTrip(ms[0], style, next);
    }
  }

  // ---- the alphabet of printed text ----

  predicate Printable(b: Bytes) { forall i :: 0 <= i < |b| ==> 0x20 <= b[i] < 0x7F }

  lemma Joined(a: Bytes, b: Bytes)
    requires Printable(a) && Printable(b)
    ensures Printable(a + b)
  {
  }

  lemma LiteralPrintable(word: string)
    requires forall i :: 0 <= i < |word| ==> 'a' <= word[i] <= 'z'
    ensures Printable(A(word))
  {
  }

  lemma WordPrintable(v: Value, style: Style)
    requires v.Null? || v.Bool?
    ensures Printable(Dumps(v, style))
  {
    hide A, Printable;
    LiteralPrintable("null");
    LiteralPrintable("true");
    LiteralPrintable("false");
  }

  lemma UnitPrintable(n: nat)
    requires n < 0x1_0000
    ensures Printable(UnitEscape(n))
  {
  }

  lemma EscapePrintable(c: Code)
    ensures Printable(Escape(c))
  {
    hide UnitEscape, HighOf, LowOf;
    if c >= 0x1_0000 {
      UnitPrintable(HighOf(c));
      UnitPrintable(LowOf(c));
      Joined(UnitEscape(HighOf(c)), UnitEscape(LowOf(c)));
    } else if IsUnit(c) {
      UnitPrintable(c);
    }
  }

  lemma {:induction false} EscapeAllPrintable(t: Text)
    ensures Printable(EscapeAll(t))
  {
    hide Escape;
    if t != [] {
      EscapePrintable(t[0]);
      EscapeAllPrintable(t[1..]);
      Joined(Escape(t[0]), EscapeAll(t[1..]));
    }
  }

  lemma QuotedPrintable(t: Text)
    ensures Printable(Quoted(t))
  {
    hide EscapeAll;
    EscapeAllPrintable(t);
  }

  /** Printed JSON is printable ASCII, so its UTF-8 encoding is the text itself. */
  lemma {:induction false} DumpsPrintable(v: Value, style: Style)
    requires Plain(v)
    ensures Printable(Dumps(v, style))
    decreases v, 0
  {
    hide Quoted, DumpsItems, DumpsMembers;
    match v
    case Null => WordPrintable(v, style);
    case Bool(_) => WordPrintable(v, style);
    case Int(n) =>
    case Float(t) =>
    case Str(t) => QuotedPrintable(t);
    case Arr(items) => DumpsItemsPrintable(items, style);
    case Obj(ms) => DumpsMembersPrintable(ms, style);
  }

  lemma {:induction false} DumpsItemsPrintable(items: seq<Value>, style: Style)
    requires forall x :: x in items ==> Plain(x)
    ensures Printable(DumpsItems(items, style))
    decreases items, 1
  {
    hide Dumps, Plain, Printable;
    if items == [] {
      EmptyPrintable();
    } else {
      DumpsPrintable(items[0], style);
      DumpsItemsPrintable(items[1..], style);
      SepPrintable(COMMA, style);
      Joined(Sep(COMMA, style), DumpsItems(items[1..], style));
      Joined(Dumps(items[0], style), Sep(COMMA, style) + DumpsItems(items[1..], style));
    }
  }

  lemma EmptyPrintable()
    ensures Printable([])
  {
  }

  lemma SepPrintable(c: Byte, style: Style)
    requires c == COMMA || c == COLON
    ensures Printable(Sep(c, style))
  {
  }

  lemma {:induction false} DumpsMembersPrintable(ms: seq<Keyed<Value>>, style: Style)
    requires forall m :: m in ms ==> Plain(m.value)
    ensures Printable(DumpsMembers(ms, style))
    decreases ms, 1
  {
    hide Dumps, Quoted, Plain, Printable;
    if ms == [] {
      EmptyPrintable();
    } else {
      var v := Dumps(ms[0].value, style);
      QuotedPrintable(ms[0].key);
      DumpsPrintable(ms[0].value, style);
      SepPrintable(COLON, style);
      Joined(Sep(COLON, style), v);
      Joined(Quoted(ms[0].key), Sep(COLON, style) + v);
      DumpsMembersPrintable(ms[1..], style);
      SepPrintable(COMMA, style);
      Joined(Sep(COMMA, style), DumpsMembers(ms[1..], style));
      Joined(DumpsMember(ms[0], style), Sep(COMMA, style) + DumpsMembers(ms[1..], style));
    }
  }

  /** `loads(dumps(v))` in either style gives the merged value. */
  lemma LoadsDumps(v: Value, style: Style)
    requires Plain(v)
    ensures Loads(Dumps(v, style)) == Some(MergeValue(v))
  {
    FirstByte(v, style);
    ValueRoundTrip(v, style, []);
    assert Dumps(v, style) + [] == Dumps(v, style);
  }

  /** `loads` undoes `dumps` exactly on the values without an adjacent surrogate pair in any string. */
  lemma RoundTripExactly(v: Value, style: Style)
    requires Plain(v)
    ensures Loads(Dumps(v, style)) == Some(v) <==> Clean(v)
  {
    LoadsDumps(v, style);
    MergeValueFixed(v);
  }

  /** What cannot be told apart: a surrogate pair and the one character it spells print alike. */
  lemma SurrogatePairPrintsAsOneCharacter(hi: Code, lo: Code)
    requires High(hi) && Low(lo)
    ensures EscapeAll([hi, lo]) == EscapeAll([Combine(hi, lo)])
  {
    hide UnitEscape;
    var pair: Text := [hi, lo];
    var one: Text := [Combine(hi, lo)];
    assert pair[1..] == [lo] && one[1..] == [];
    assert EscapeAll([lo]) == Escape(lo) + EscapeAll([]);
    SurrogateEscape(hi);
    SurrogateEscape(lo);
    assert HighOf(one[0]) == hi && LowOf(one[0]) == lo;
  }

  // ---- what a reader can return ----

  predicate NoSurrogates(s: Text) { forall i :: 0 <= i < |s| ==> !High(s[i]) && !Low(s[i]) }

  /** The next character is a low surrogate only when its escape stands there. */
  lemma LowOnlyByEscape(s: Text)
    requires NoSurrogates(s) && NextChar(s).Ok?
    ensures Low(NextChar(s).value) ==> StartsLow(s)
    ensures NoSurrogates(NextChar(s).rest)
    ensures High(NextChar(s).value) ==> !StartsLow(NextChar(s).rest)
  {
  }

  /** Strings read from surrogate-free text, which is what UTF-8 decoding yields, hold no adjacent pair. */
  lemma {:induction false} ReadStringsUnpaired(s: Text)
    requires NoSurrogates(s) && ParseChars(s).Ok?
    ensures Unpaired(ParseChars(s).value) && NoSurrogates(ParseChars(s).rest)
    decreases |s|
  {
    hide NextChar, StartsLow;
    if s[0] != QUOTE {
      LowOnlyByEscape(s);
      var c, rest := NextChar(s).value, NextChar(s).rest;
      ReadStringsUnpaired(rest);
      var t := ParseChars(rest).value;
      if t != [] { LowOnlyByEscape(rest); }
      var all: Text := [c] + t;
      forall i | 0 <= i < |all| - 1 ensures !(High(all[i]) && Low(all[i + 1])) {
        if i > 0 { assert all[i] == t[i - 1] && all[i + 1] == t[i]; }
      }
    }
  }

  lemma {:induction false} SkipKeeps(s: Text)
    requires NoSurrogates(s)
    ensures NoSurrogates(SkipWs(s))
  {
    if s != [] && IsWs(s[0]) { SkipKeeps(s[1..]); }
  }

  lemma TailKeeps(s: Text, n: nat)
    requires NoSurrogates(s) && n <= |s|
    ensures NoSurrogates(s[n..])
  {
  }

  /** Words and numbers leave a tail of the text and hold no strings. */
  lemma AtomClean(s: Text)
    requires NoSurrogates(s)
    ensures ParseWord(s).Ok? ==> Clean(ParseWord(s).value) && NoSurrogates(ParseWord(s).rest)
    ensures ParseNumber(s).Ok? ==> Clean(ParseNumber(s).value) && NoSurrogates(ParseNumber(s).rest)
  {
    hide NoSurrogates, Parts, DecValue, A;
    forall n: nat | n <= |s| ensures NoSurrogates(s[n..]) { TailKeeps(s, n); }
    if s != [] {
      var t := s[1..];
      forall n: nat | n <= |t| ensures NoSurrogates(t[n..]) { TailKeeps(t, n); }
    }
  }

  lemma KeyClean(s: Text)
    requires NoSurrogates(s) && ParseKey(s).Ok?
    ensures Unpaired(ParseKey(s).value) && NoSurrogates(ParseKey(s).rest)
  {
    hide NoSurrogates, Unpaired, ParseChars, SkipWs;
    TailKeeps(s, 1);
    ReadStringsUnpaired(s[1..]);
    var rest := ParseChars(s[1..]).rest;
    SkipKeeps(rest);
    var t := SkipWs(rest);
    TailKeeps(t, 1);
    SkipKeeps(t[1..]);
  }

  lemma {:induction false} ValueClean(s: Text)
    requires NoSurrogates(s) && ParseValue(s).Ok?
    ensures Clean(ParseValue(s).value) && NoSurrogates(ParseValue(s).rest)
    decreases |s|, 0
  {
    hide NoSurrogates, Unpaired, ParseChars, SkipWs, ParseItems, ParseMembers, ParseWord, ParseNumber;
    TailKeeps(s, 1);
    SkipKeeps(s[1..]);
    var b := SkipWs(s[1..]);
    if s[0] == QUOTE {
      ReadStringsUnpaired(s[1..]);
    } else if s[0] == LBRACE {
      if b != [] && b[0] == RBRACE { TailKeeps(b, 1); } else { MembersClean(b); }
    } else if s[0] == LBRACK {
      if b != [] && b[0] == RBRACK { TailKeeps(b, 1); } else { ItemsClean(b); }
    } else {
      AtomClean(s);
    }
  }

  lemma {:induction false} ItemsClean(s: Text)
    requires NoSurrogates(s) && ParseItems(s).Ok?
    ensures Clean(Arr(ParseItems(s).value)) && NoSurrogates(ParseItems(s).rest)
    decreases |s|, 1
  {
    hide NoSurrogates, SkipWs, ParseValue;
    ValueClean(s);
    var rest := ParseValue(s).rest;
    SkipKeeps(rest);
    var t := SkipWs(rest);
    TailKeeps(t, 1);
    if t[0] != RBRACK {
      SkipKeeps(t[1..]);
      ItemsClean(SkipWs(t[1..]));
    }
  }

  lemma {:induction false} MembersClean(s: Text)
    requires NoSurrogates(s) && ParseMembers(s).Ok?
    ensures Clean(Obj(ParseMembers(s).value)) && NoSurrogates(ParseMembers(s).rest)
    decreases |s|, 1
  {
    hide NoSurrogates, Unpaired, SkipWs, ParseValue, ParseKey;
    KeyClean(s);
    var afterKey := ParseKey(s).rest;
    ValueClean(afterKey);
    var rest := ParseValue(afterKey).rest;
    SkipKeeps(rest);
    var t := SkipWs(rest);
    TailKeeps(t, 1);
    if t[0] != RBRACE {
      SkipKeeps(t[1..]);
      MembersClean(SkipWs(t[1..]));
    }
  }

  /** A request decoded from UTF-8 and read as JSON holds no adjacent surrogate pair in any key or string, so printing
      and reading any part of it again loses nothing. */
  lemma ReceivedIsClean(b: Bytes)
    requires Utf8.Decode(b).Some? && Loads(Utf8.Decode(b).value).Some?
    ensures Clean(Loads(Utf8.Decode(b).value).value)
  {
    hide Utf8.Decode, Clean, ParseValue, SkipWs;
    var t := Utf8.Decode(b).value;
    Utf8.DecodedIsScalar(b);
    assert NoSurrogates(t);
    SkipKeeps(t);
    ValueClean(SkipWs(t));
  }
}
