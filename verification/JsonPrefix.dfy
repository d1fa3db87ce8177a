/** A complete JSON object cannot be continued into another document, except by whitespace. */
module JsonPrefix {
  import opened Basics
  import opened Json
  import JsonRoundTrip

  // Each reader that stopped inside its input stops at the same place when more text follows.

  lemma {:induction false} SkipWsExtends(s: Text, x: Text)
    ensures SkipWs(s) != [] ==> SkipWs(s + x) == SkipWs(s) + x
    ensures SkipWs(s) == [] ==> SkipWs(s + x) == SkipWs(x)
  {
    if s == [] {
      assert s + x == x;
    } else {
      assert (s + x)[0] == s[0];
      if IsWs(s[0]) {
        assert (s + x)[1..] == s[1..] + x;
        SkipWsExtends(s[1..], x);
      }
    }
  }

  lemma ReadHex4Extends(s: Text, x: Text)
    ensures |s| >= 4 ==> ReadHex4(s + x) == ReadHex4(s)
  {
    if |s| >= 4 {
      assert (s + x)[0] == s[0] && (s + x)[1] == s[1] && (s + x)[2] == s[2] && (s + x)[3] == s[3];
    }
  }

  /** If the string goes on to its end, the look-ahead for a low surrogate saw all it needed. */
  lemma StartsLowExtends(s: Text, x: Text)
    requires ParseChars(s).Ok?
    ensures StartsLow(s + x) == StartsLow(s)
  {
    hide ReadHex4;
    assert (s + x)[0] == s[0];
    if s[0] == BACKSLASH {
      assert (s + x)[1] == s[1];
      if s[1] == 0x75 {
        ShortHex(s[2..]);
        assert (s + x)[2..] == s[2..] + x;
        ReadHex4Extends(s[2..], x);
      }
    }
  }

  lemma ShortHex(s: Text)
    ensures ReadHex4(s).Some? ==> |s| >= 4
  {
  }

  lemma NextCharExtends(s: Text, x: Text)
    requires NextChar(s).Ok? && ParseChars(NextChar(s).rest).Ok?
    ensures NextChar(s + x) == Ok(NextChar(s).value, NextChar(s).rest + x)
  {
    hide ParseChars, ReadHex4, StartsLow;
    var y := s + x;
    assert y[0] == s[0];
    if s[0] != BACKSLASH {
      assert y[1..] == s[1..] + x;
    } else {
      assert y[1] == s[1];
      assert y[2..] == s[2..] + x;
      if s[1] == 0x75 {
        ShortHex(s[2..]);
        ReadHex4Extends(s[2..], x);
        LowLength(s[6..]);
        assert y[6..] == s[6..] + x;
        if High(ReadHex4(s[2..]).value) {
          if StartsLow(s[6..]) {
            LowExtends(s[6..], x);
            assert y[8..] == (s[6..] + x)[2..];
            assert s[8..] == s[6..][2..];
            assert y[12..] == s[12..] + x;
          } else {
            StartsLowExtends(s[6..], x);
          }
        }
      }
    }
  }

  lemma LowLength(s: Text)
    ensures StartsLow(s) ==> |s| >= 6 && ReadHex4(s[2..]).Some?
  {
  }

  lemma LowExtends(s: Text, x: Text)
    requires StartsLow(s)
    ensures StartsLow(s + x) && ReadHex4((s + x)[2..]) == ReadHex4(s[2..])
  {
    assert (s + x)[2..] == s[2..] + x;
    ReadHex4Extends(s[2..], x);
  }

  lemma {:induction false} CharsExtend(s: Text, x: Text)
    requires ParseChars(s).Ok?
    ensures ParseChars(s + x) == Ok(ParseChars(s).value, ParseChars(s).rest + x)
    decreases |s|
  {
    hide NextChar;
    assert (s + x)[0] == s[0];
    if s[0] == QUOTE {
      assert (s + x)[1..] == s[1..] + x;
    } else {
      NextCharExtends(s, x);
      CharsExtend(NextChar(s).rest, x);
    }
  }

  lemma {:induction false} DigitsExtend(s: Text, x: Text)
    requires Digits(s) < |s|
    ensures Digits(s + x) == Digits(s)
  {
    assert (s + x)[0] == s[0];
    if IsDigit(s[0]) {
      assert (s + x)[1..] == s[1..] + x;
      DigitsExtend(s[1..], x);
    }
  }

  predicate Closer(c: Code) { c == COMMA || c == RBRACK || c == RBRACE || IsWs(c) }

  lemma IntLenExtends(s: Text, x: Text)
    requires IntLen(s) < |s|
    ensures IntLen(s + x) == IntLen(s)
  {
    assert (s + x)[0] == s[0];
    if s[0] != 0x30 { DigitsExtend(s, x); }
  }

  lemma FracLenExtends(s: Text, x: Text)
    requires FracLen(s) < |s| && s[FracLen(s)] != 0x2E
    ensures FracLen(s + x) == FracLen(s)
  {
    assert (s + x)[0] == s[0];
    if s[0] == 0x2E {
      assert |s| >= 2 && (s + x)[1] == s[1];
      if IsDigit(s[1]) {
        assert (s + x)[1..] == s[1..] + x;
        DigitsExtend(s[1..], x);
      }
    }
  }

  lemma ExpLenExtends(s: Text, x: Text)
    requires ExpLen(s) < |s| && s[ExpLen(s)] != 0x65 && s[ExpLen(s)] != 0x45
    ensures ExpLen(s + x) == ExpLen(s)
  {
    assert (s + x)[0] == s[0];
    if s[0] == 0x65 || s[0] == 0x45 {
      assert |s| >= 2 && (s + x)[1] == s[1];
      var k := if s[1] == 0x2B || s[1] == MINUS then 2 else 1;
      assert (s + x)[k..] == s[k..] + x;
      DigitsExtend(s[k..], x);
    }
  }

  /** The parts of a number that stops at a closer. */
  lemma PartsExtend(p: Text, x: Text)
    requires p != [] && IsDigit(p[0])
    requires var n := Parts(p); n.whole + n.tail < |p| && Closer(p[n.whole + n.tail])
    ensures Parts(p + x) == Parts(p)
  {
    hide IntLen, Digits, FracLen, ExpLen, Closer;
    var k := IntLen(p);
    var f := FracLen(p[k..]);
    var e := ExpLen(p[k + f..]);
    IntLenExtends(p, x);
    assert (p + x)[k..] == p[k..] + x;
    assert p[k..][f] == p[k + f];
    assert (p + x)[k + f..] == p[k + f..] + x;
    assert p[k + f..][e] == p[k + f + e];
    ExpLenStart(p[k + f..]);
    FracLenExtends(p[k..], x);
    CloserIsNoExponent(p[k + f + e]);
    ExpLenExtends(p[k + f..], x);
  }

  lemma CloserIsNoExponent(c: Code)
    requires Closer(c)
    ensures c != 0x65 && c != 0x45
  {
  }

  lemma ExpLenStart(s: Text)
    requires ExpLen(s) < |s| && Closer(s[ExpLen(s)])
    ensures s[0] != 0x2E
  {
  }

  lemma UnsignedExtends(p: Text, negative: bool, x: Text)
    requires var r := ParseUnsigned(p, negative); r.Ok? && r.rest != [] && Closer(r.rest[0])
    ensures var r := ParseUnsigned(p, negative); ParseUnsigned(p + x, negative) == Ok(r.value, r.rest + x)
  {
    hide Parts, DecValue, Closer;
    assert (p + x)[0] == p[0];
    var n := Parts(p);
    var end := n.whole + n.tail;
    assert p[end..][0] == p[end];
    PartsExtend(p, x);
    assert (p + x)[..end] == p[..end];
    assert (p + x)[end..] == p[end..] + x;
  }

  lemma NumberExtends(s: Text, x: Text)
    requires ParseNumber(s).Ok? && ParseNumber(s).rest != [] && Closer(ParseNumber(s).rest[0])
    ensures ParseNumber(s + x) == Ok(ParseNumber(s).value, ParseNumber(s).rest + x)
  {
    hide ParseUnsigned;
    assert (s + x)[0] == s[0];
    if s[0] == MINUS {
      assert (s + x)[1..] == s[1..] + x;
      UnsignedExtends(s[1..], true, x);
    } else {
      UnsignedExtends(s, false, x);
    }
  }

  lemma WordExtends(s: Text, x: Text)
    requires ParseWord(s).Ok?
    ensures ParseWord(s + x) == Ok(ParseWord(s).value, ParseWord(s).rest + x)
  {
    hide A;
    WordsApart(s, x);
    assert |s| >= 4 ==> (s + x)[4..] == s[4..] + x;
    assert |s| >= 9 ==> (s + x)[9..] == s[9..] + x;
    assert |s| >= 8 ==> (s + x)[8..] == s[8..] + x;
    assert |s| >= 5 ==> (s + x)[5..] == s[5..] + x;
    assert (s + x)[3..] == s[3..] + x;
  }

  lemma WordsApart(s: Text, x: Text)
    requires ParseWord(s).Ok?
    ensures A("null") <= s + x <==> A("null") <= s
    ensures A("true") <= s + x <==> A("true") <= s
    ensures A("false") <= s + x <==> A("false") <= s
    ensures A("NaN") <= s + x <==> A("NaN") <= s
    ensures A("Infinity") <= s + x <==> A("Infinity") <= s
    ensures A("-Infinity") <= s + x <==> A("-Infinity") <= s
  {
    assert (s + x)[0] == s[0];
    assert A("null")[0] == 0x6E && A("true")[0] == 0x74 && A("false")[0] == 0x66;
    assert A("NaN")[0] == 0x4E && A("Infinity")[0] == 0x49 && A("-Infinity")[0] == 0x2D;
    assert s <= s + x;
    assert (s + x)[..|s|] == s;
  }

  /** A value that ends before a closer, or is a string, array or object, reads the same when text follows. */
  lemma {:induction false} ValueExtends(s: Text, x: Text)
    requires ParseValue(s).Ok?
    requires
      || (ParseValue(s).rest != [] && Closer(ParseValue(s).rest[0]))
      || s[0] == QUOTE || s[0] == LBRACE || s[0] == LBRACK
    ensures ParseValue(s + x) == Ok(ParseValue(s).value, ParseValue(s).rest + x)
    decreases |s|, 0
  {
    hide ParseChars, ParseNumber, ParseWord, SkipWs, ParseItems, ParseMembers;
    assert (s + x)[0] == s[0];
    assert (s + x)[1..] == s[1..] + x;
    if s[0] == QUOTE {
      CharsExtend(s[1..], x);
    } else if s[0] == LBRACE || s[0] == LBRACK {
      var b := SkipWs(s[1..]);
      SkipWsExtends(s[1..], x);
      EmptyFails();
      assert b != [] && (b + x)[0] == b[0];
      assert (b + x)[1..] == b[1..] + x;
      if s[0] == LBRACE {
        if b[0] != RBRACE { MembersExtend(b, x); }
      } else {
        if b[0] != RBRACK { ItemsExtend(b, x); }
      }
    } else if ParseWord(s).Ok? {
      WordExtends(s, x);
    } else {
      JsonRoundTrip.NumberStart(s);
      assert |s| > 1 ==> (s + x)[1] == s[1];
      JsonRoundTrip.NotWord(s + x);
      NumberExtends(s, x);
    }
  }

  lemma EmptyFails()
    ensures ParseItems([]).Fail? && ParseMembers([]).Fail?
  {
  }

  /** What stands right after a value that is followed, past whitespace, by a comma or a bracket. */
  lemma SkipToCloser(rest: Text)
    requires SkipWs(rest) != [] && Closer(SkipWs(rest)[0])
    ensures rest != [] && Closer(rest[0])
  {
  }

  lemma {:induction false} ItemsExtend(s: Text, x: Text)
    requires ParseItems(s).Ok?
    ensures ParseItems(s + x) == Ok(ParseItems(s).value, ParseItems(s).rest + x)
    decreases |s|, 1
  {
    hide ParseValue, SkipWs;
    var rest := ParseValue(s).rest;
    var t := SkipWs(rest);
    SkipToCloser(rest);
    ValueExtends(s, x);
    SkipWsExtends(rest, x);
    assert (t + x)[0] == t[0];
    assert (t + x)[1..] == t[1..] + x;
    if t[0] == COMMA {
      SkipWsExtends(t[1..], x);
      EmptyFails();
      ItemsExtend(SkipWs(t[1..]), x);
    }
  }

  lemma KeyExtends(s: Text, x: Text)
    requires ParseKey(s).Ok? && ParseKey(s).rest != []
    ensures ParseKey(s + x) == Ok(ParseKey(s).value, ParseKey(s).rest + x)
  {
    hide ParseChars, SkipWs;
    assert (s + x)[0] == s[0];
    assert (s + x)[1..] == s[1..] + x;
    CharsExtend(s[1..], x);
    var rest := ParseChars(s[1..]).rest;
    var t := SkipWs(rest);
    SkipWsExtends(rest, x);
    assert (t + x)[0] == t[0];
    assert (t + x)[1..] == t[1..] + x;
    SkipWsExtends(t[1..], x);
  }

  lemma {:induction false} MembersExtend(s: Text, x: Text)
    requires ParseMembers(s).Ok?
    ensures ParseMembers(s + x) == Ok(ParseMembers(s).value, ParseMembers(s).rest + x)
    decreases |s|, 1
  {
    hide ParseValue, ParseKey, SkipWs;
    var afterKey := ParseKey(s).rest;
    EmptyValue();
    KeyExtends(s, x);
    var rest := ParseValue(afterKey).rest;
    var t := SkipWs(rest);
    SkipToCloser(rest);
    ValueExtends(afterKey, x);
    SkipWsExtends(rest, x);
    assert (t + x)[0] == t[0];
    assert (t + x)[1..] == t[1..] + x;
    if t[0] == COMMA {
      SkipWsExtends(t[1..], x);
      EmptyFails();
      MembersExtend(SkipWs(t[1..]), x);
    }
  }

  // Conversely, a reader that left all of `x` unread reads the same without it.

  lemma {:induction false} DigitsShrink(s: Text, x: Text)
    requires Digits(s + x) <= |s|
    ensures Digits(s) == Digits(s + x)
  {
    if s != [] && IsDigit(s[0]) {
      assert (s + x)[1..] == s[1..] + x;
      DigitsShrink(s[1..], x);
    }
  }

  lemma FracLenShrink(s: Text, x: Text)
    requires FracLen(s + x) <= |s|
    ensures FracLen(s) == FracLen(s + x)
  {
    var y := s + x;
    if |s| >= 2 {
      assert y[0] == s[0] && y[1] == s[1] && y[1..] == s[1..] + x;
      if s[0] == 0x2E && IsDigit(s[1]) { DigitsShrink(s[1..], x); }
    }
  }

  lemma ExpLenShrink(s: Text, x: Text)
    requires ExpLen(s + x) <= |s|
    ensures ExpLen(s) == ExpLen(s + x)
  {
    var y := s + x;
    if s != [] && (s[0] == 0x65 || s[0] == 0x45) {
      assert y[0] == s[0] && y[1..] == s[1..] + x;
      assert |s| >= 2 ==> y[1] == s[1] && y[2..] == s[2..] + x;
      var k := if |y| >= 2 && (y[1] == 0x2B || y[1] == MINUS) then 2 else 1;
      if k <= |s| && ExpLen(y) > 0 {
        DigitsShrink(s[k..], x);
      } else if k <= |s| {
        NoDigits(s[k..], x);
      }
    }
  }

  lemma NoDigits(s: Text, x: Text)
    requires Digits(s + x) == 0
    ensures Digits(s) == 0
  {
    DigitsShrink(s, x);
  }

  lemma PartsShrink(p: Text, x: Text)
    requires p != [] && Parts(p + x).whole + Parts(p + x).tail <= |p|
    ensures Parts(p) == Parts(p + x)
  {
    hide Digits, FracLen, ExpLen;
    var y := p + x;
    var k := IntLen(y);
    assert y[0] == p[0];
    if p[0] != 0x30 { DigitsShrink(p, x); }
    assert IntLen(p) == k;
    var f := FracLen(y[k..]);
    assert y[k..] == p[k..] + x && y[k + f..] == p[k + f..] + x;
    FracLenShrink(p[k..], x);
    ExpLenShrink(p[k + f..], x);
  }

  lemma NumberShrink(s: Text, x: Text)
    requires ParseNumber(s + x).Ok? && |ParseNumber(s + x).rest| >= |x|
    ensures var r := ParseNumber(s);
      r.Ok? && r.value == ParseNumber(s + x).value && r.rest + x == ParseNumber(s + x).rest
  {
    hide ParseUnsigned;
    assert s != [] && (s + x)[0] == s[0];
    if s[0] == MINUS {
      assert (s + x)[1..] == s[1..] + x;
      UnsignedShrink(s[1..], true, x);
    } else {
      UnsignedShrink(s, false, x);
    }
  }

  lemma UnsignedShrink(p: Text, negative: bool, x: Text)
    requires ParseUnsigned(p + x, negative).Ok? && |ParseUnsigned(p + x, negative).rest| >= |x|
    ensures var r := ParseUnsigned(p, negative);
      && r.Ok? && r.value == ParseUnsigned(p + x, negative).value
      && r.rest + x == ParseUnsigned(p + x, negative).rest
  {
    hide Parts, DecValue, IsDigit;
    var y := p + x;
    var n := Parts(y);
    var end := n.whole + n.tail;
    assert ParseUnsigned(y, negative).rest == y[end..];
    assert p != [] && y[0] == p[0];
    PartsShrink(p, x);
    assert y[..end] == p[..end];
    assert y[end..] == p[end..] + x;
    assert ParseUnsigned(p, negative).rest == p[end..];
  }

  lemma PrefixShrink(w: Text, s: Text, x: Text)
    ensures w <= s ==> w <= s + x
    ensures w <= s + x && |w| <= |s| ==> w <= s
  {
    if w <= s + x && |w| <= |s| { assert (s + x)[..|w|] == s[..|w|]; }
    if w <= s { assert (s + x)[..|w|] == s[..|w|]; }
  }

  lemma WordShrink(s: Text, x: Text)
    ensures ParseWord(s + x).Fail? ==> ParseWord(s).Fail?
    ensures ParseWord(s + x).Ok? && |ParseWord(s + x).rest| >= |x| ==>
      && ParseWord(s).Ok? && ParseWord(s).value == ParseWord(s + x).value
      && ParseWord(s).rest + x == ParseWord(s + x).rest
  {
    hide A;
    PrefixShrink(A("null"), s, x);
    PrefixShrink(A("true"), s, x);
    PrefixShrink(A("false"), s, x);
    PrefixShrink(A("NaN"), s, x);
    PrefixShrink(A("Infinity"), s, x);
    PrefixShrink(A("-Infinity"), s, x);
    forall k: nat | k <= |s| ensures (s + x)[k..] == s[k..] + x {}
  }

  lemma NextCharShrink(s: Text, x: Text)
    requires NextChar(s + x).Ok? && |NextChar(s + x).rest| > |x|
    ensures var r := NextChar(s);
      r.Ok? && r.value == NextChar(s + x).value && r.rest + x == NextChar(s + x).rest
  {
    hide ReadHex4, StartsLow;
    var y := s + x;
    assert s != [] && y[0] == s[0] && y[1..] == s[1..] + x;
    if s[0] == BACKSLASH {
      ShortHex(y[2..]);
      if |y| >= 6 { LowLength(y[6..]); }
      assert |s| > 2 && y[1] == s[1] && y[2..] == s[2..] + x;
      if s[1] == 0x75 {
        assert |s| > 6 && y[6..] == s[6..] + x;
        ReadHex4Extends(s[2..], x);
        if StartsLow(s[6..]) { LowExtends(s[6..], x); }
        if High(ReadHex4(y[2..]).value) && StartsLow(y[6..]) { LowShrink(s, x); }
      }
    }
  }

  lemma LowShrink(s: Text, x: Text)
    requires |s| >= 12 && StartsLow((s + x)[6..])
    ensures StartsLow(s[6..]) && ReadHex4((s + x)[8..]) == ReadHex4(s[8..]) && (s + x)[12..] == s[12..] + x
  {
    var y := s + x;
    assert y[6] == s[6] && y[7] == s[7];
    assert y[8..] == s[8..] + x && y[6..][2..] == y[8..] && s[6..][2..] == s[8..];
    ReadHex4Extends(s[8..], x);
  }

  lemma {:induction false} CharsShrink(s: Text, x: Text)
    requires ParseChars(s + x).Ok? && |ParseChars(s + x).rest| >= |x|
    ensures var r := ParseChars(s);
      r.Ok? && r.value == ParseChars(s + x).value && r.rest + x == ParseChars(s + x).rest
    decreases |s|
  {
    hide NextChar;
    var y := s + x;
    assert s != [] && y[0] == s[0];
    if s[0] == QUOTE {
      assert y[1..] == s[1..] + x;
    } else {
      NextCharShrink(s, x);
      CharsShrink(NextChar(s).rest, x);
    }
  }

  lemma {:induction false} ValueShrink(s: Text, x: Text)
    requires ParseValue(s + x).Ok? && |ParseValue(s + x).rest| >= |x|
    ensures var r := ParseValue(s);
      r.Ok? && r.value == ParseValue(s + x).value && r.rest + x == ParseValue(s + x).rest
    decreases |s|, 0
  {
    hide ParseChars, ParseNumber, ParseWord, SkipWs, ParseItems, ParseMembers;
    var y := s + x;
    assert s != [] && y[0] == s[0] && y[1..] == s[1..] + x;
    if s[0] == QUOTE {
      CharsShrink(s[1..], x);
    } else if s[0] == LBRACE || s[0] == LBRACK {
      var b := SkipWs(s[1..]);
      SkipShrink(s[1..], x);
      EmptyFails();
      assert (b + x)[0] == b[0] && (b + x)[1..] == b[1..] + x;
      if s[0] == LBRACE {
        if b[0] != RBRACE { MembersShrink(b, x); }
      } else {
        if b[0] != RBRACK { ItemsShrink(b, x); }
      }
    } else {
      WordShrink(s, x);
      if ParseWord(y).Fail? { NumberShrink(s, x); }
    }
  }

  lemma SkipShrink(s: Text, x: Text)
    requires |SkipWs(s + x)| >= |x|
    ensures SkipWs(s + x) == SkipWs(s) + x
    ensures |SkipWs(s + x)| > |x| ==> SkipWs(s) != []
  {
    SkipWsExtends(s, x);
    SkipIsTail(x);
  }

  lemma {:induction false} ItemsShrink(s: Text, x: Text)
    requires ParseItems(s + x).Ok? && |ParseItems(s + x).rest| >= |x|
    ensures var r := ParseItems(s);
      r.Ok? && r.value == ParseItems(s + x).value && r.rest + x == ParseItems(s + x).rest
    decreases |s|, 1
  {
    hide ParseValue, SkipWs;
    ValueShrink(s, x);
    var rest := ParseValue(s).rest;
    SkipShrink(rest, x);
    var t := SkipWs(rest);
    assert (t + x)[0] == t[0] && (t + x)[1..] == t[1..] + x;
    if t[0] == COMMA {
      SkipShrink(t[1..], x);
      ItemsShrink(SkipWs(t[1..]), x);
    }
  }

  lemma KeyShrink(s: Text, x: Text)
    requires ParseKey(s + x).Ok? && |ParseKey(s + x).rest| >= |x|
    ensures var r := ParseKey(s);
      r.Ok? && r.value == ParseKey(s + x).value && r.rest + x == ParseKey(s + x).rest
  {
    hide ParseChars, SkipWs;
    assert s != [] && (s + x)[0] == s[0] && (s + x)[1..] == s[1..] + x;
    CharsShrink(s[1..], x);
    var rest := ParseChars(s[1..]).rest;
    SkipShrink(rest, x);
    var t := SkipWs(rest);
    assert (t + x)[0] == t[0] && (t + x)[1..] == t[1..] + x;
    SkipShrink(t[1..], x);
  }

  lemma {:induction false} MembersShrink(s: Text, x: Text)
    requires ParseMembers(s + x).Ok? && |ParseMembers(s + x).rest| >= |x|
    ensures var r := ParseMembers(s);
      r.Ok? && r.value == ParseMembers(s + x).value && r.rest + x == ParseMembers(s + x).rest
    decreases |s|, 1
  {
    hide ParseValue, ParseKey, SkipWs;
    KeyShrink(s, x);
    var afterKey := ParseKey(s).rest;
    ValueShrink(afterKey, x);
    var rest := ParseValue(afterKey).rest;
    SkipShrink(rest, x);
    var t := SkipWs(rest);
    assert (t + x)[0] == t[0] && (t + x)[1..] == t[1..] + x;
    if t[0] == COMMA {
      SkipShrink(t[1..], x);
      MembersShrink(SkipWs(t[1..]), x);
    }
  }

  // ---- where an object ends ----

  predicate Tail(s: Text, r: Text) { |r| <= |s| && r == s[|s| - |r|..] }

  lemma TailOfTail(s: Text, r: Text, q: Text)
    requires Tail(s, r) && Tail(r, q)
    ensures Tail(s, q) && |q| <= |r| <= |s| && (|q| < |r| ==> r[|r| - |q| - 1] == s[|s| - |q| - 1])
  {
  }

  lemma Rest(t: Text)
    requires t != []
    ensures Tail(t, t[1..])
  {
  }

  lemma {:induction false} SkipIsTail(s: Text)
    ensures Tail(s, SkipWs(s))
  {
    if s != [] && IsWs(s[0]) {
      SkipIsTail(s[1..]);
      Rest(s);
      TailOfTail(s, s[1..], SkipWs(s));
    }
  }

  /** What a reader leaves is the end of its input. */
  lemma ValueLeavesTail(s: Text)
    requires ParseValue(s).Ok?
    ensures Tail(s, ParseValue(s).rest)
  {
    hide ParseValue;
    var k := |s| - |ParseValue(s).rest|;
    assert s == s[..k] + s[k..];
    ValueShrink(s[..k], s[k..]);
  }

  lemma KeyLeavesTail(s: Text)
    requires ParseKey(s).Ok?
    ensures Tail(s, ParseKey(s).rest)
  {
    hide ParseKey;
    var k := |s| - |ParseKey(s).rest|;
    assert s == s[..k] + s[k..];
    KeyShrink(s[..k], s[k..]);
  }

  lemma {:induction false} MembersEndInBrace(s: Text)
    requires ParseMembers(s).Ok?
    ensures Tail(s, ParseMembers(s).rest) && s[|s| - |ParseMembers(s).rest| - 1] == RBRACE
    decreases |s|
  {
    hide ParseValue, ParseKey, SkipWs, Tail;
    var afterKey := ParseKey(s).rest;
    var rest := ParseValue(afterKey).rest;
    var t := SkipWs(rest);
    KeyLeavesTail(s);
    ValueLeavesTail(afterKey);
    SkipIsTail(rest);
    Rest(t);
    TailOfTail(s, afterKey, rest);
    TailOfTail(s, rest, t);
    TailOfTail(s, t, t[1..]);
    if t[0] == COMMA {
      var u := SkipWs(t[1..]);
      SkipIsTail(t[1..]);
      TailOfTail(s, t[1..], u);
      MembersEndInBrace(u);
      TailOfTail(s, u, ParseMembers(u).rest);
    }
  }

  /** An object document is an object that ends in its brace, followed by whitespace only; the object alone reads the
      same. */
  lemma ObjectThenWhitespace(p: Text)
    requires p != [] && p[0] == LBRACE && Loads(p).Some?
    ensures ParseValue(p).Ok? && |ParseValue(p).rest| < |p|
    ensures var n := |p| - |ParseValue(p).rest|;
      && p[n - 1] == RBRACE && Loads(p[..n]) == Loads(p)
      && forall i :: n <= i < |p| ==> IsWs(p[i])
  {
    hide ParseValue, SkipWs;
    JsonRoundTrip.NoSkip(p);
    var rest := ParseValue(p).rest;
    var n := |p| - |rest|;
    AllWs(rest);
    ObjectEndsInBrace(p);
    forall i | n <= i < |p| ensures IsWs(p[i]) { assert p[i] == rest[i - n]; }
    ObjectAlone(p, n);
  }

  /** Where the reading of an object goes after its opening brace. */
  lemma ObjectBody(p: Text)
    requires p != [] && p[0] == LBRACE && ParseValue(p).Ok?
    ensures var b := SkipWs(p[1..]);
      b != [] && if b[0] == RBRACE then ParseValue(p).rest == b[1..]
                 else ParseMembers(b).Ok? && ParseValue(p).rest == ParseMembers(b).rest
  {
    hide ParseMembers, ParseItems, ParseChars, ParseWord, ParseNumber, SkipWs;
    EmptyFails();
  }

  lemma BodyEndsInBrace(b: Text, rest: Text)
    requires b != []
    requires if b[0] == RBRACE then rest == b[1..] else ParseMembers(b).Ok? && rest == ParseMembers(b).rest
    ensures Tail(b, rest) && |rest| < |b| && b[|b| - |rest| - 1] == RBRACE
  {
    hide ParseMembers;
    if b[0] != RBRACE { MembersEndInBrace(b); }
  }

  lemma ObjectEndsInBrace(p: Text)
    requires p != [] && p[0] == LBRACE && ParseValue(p).Ok?
    ensures Tail(p, ParseValue(p).rest) && p[|p| - |ParseValue(p).rest| - 1] == RBRACE
  {
    hide ParseValue, ParseMembers, SkipWs, Tail;
    var b, rest := SkipWs(p[1..]), ParseValue(p).rest;
    ObjectBody(p);
    BodyEndsInBrace(b, rest);
    SkipIsTail(p[1..]);
    Rest(p);
    TailOfTail(p, p[1..], b);
    TailOfTail(p, b, rest);
  }

  lemma ObjectAlone(p: Text, n: nat)
    requires 0 < n <= |p| && p[0] == LBRACE && Loads(p).Some?
    requires ParseValue(p).Ok? && |ParseValue(p).rest| == |p| - n
    ensures Loads(p[..n]) == Loads(p)
  {
    hide ParseValue;
    assert p == p[..n] + p[n..];
    ValueShrink(p[..n], p[n..]);
    JsonRoundTrip.NoSkip(p);
    JsonRoundTrip.NoSkip(p[..n]);
  }

  lemma EmptyValue()
    ensures ParseValue([]).Fail?
  {
  }

  lemma {:induction false} AllWs(s: Text)
    requires SkipWs(s) == []
    ensures forall i :: 0 <= i < |s| ==> IsWs(s[i])
  {
    if s != [] { AllWs(s[1..]); }
  }

  /** Two documents of which one continues the other, the shorter an object: only whitespace was added. */
  lemma ObjectIsPrefixFree(p: Text, x: Text)
    requires p != [] && p[0] == LBRACE
    requires Loads(p).Some? && Loads(p + x).Some?
    ensures Loads(p + x) == Loads(p)
    ensures forall i :: 0 <= i < |x| ==> IsWs(x[i])
  {
    hide ParseValue;
    assert (p + x)[0] == p[0];
    JsonRoundTrip.NoSkip(p);
    JsonRoundTrip.NoSkip(p + x);
    ValueExtends(p, x);
    SkipWsExtends(ParseValue(p).rest, x);
    AllWs(x);
  }

  lemma {:induction false} SkipAll(w: Text)
    requires forall i :: 0 <= i < |w| ==> IsWs(w[i])
    ensures SkipWs(w) == []
  {
    if w != [] { SkipAll(w[1..]); }
  }

  /** Whitespace after an object document changes nothing. */
  lemma WhitespaceAfterObject(p: Text, w: Text)
    requires p != [] && p[0] == LBRACE && Loads(p).Some? && forall i :: 0 <= i < |w| ==> IsWs(w[i])
    ensures Loads(p + w) == Loads(p)
  {
    hide ParseValue;
    assert (p + w)[0] == p[0];
    JsonRoundTrip.NoSkip(p);
    JsonRoundTrip.NoSkip(p + w);
    ValueExtends(p, w);
    SkipWsExtends(ParseValue(p).rest, w);
    SkipAll(w);
  }
}
