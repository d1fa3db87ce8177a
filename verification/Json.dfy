/** The JSON text Python's `json` module writes and reads (RFC 8259 plus NaN and the infinities). */
module Json {
  import opened Basics
  import Hex

  /** A number with a fraction or exponent keeps its token; an integer keeps its value. */
  datatype Value =
    | Null | Bool(b: bool) | Int(n: int) | Float(token: Text) | Str(t: Text)
    | Arr(items: seq<Value>) | Obj(members: seq<Keyed<Value>>)

  const BACKSLASH: Byte := 0x5C
  const COMMA: Byte := 0x2C
  const COLON: Byte := 0x3A
  const LBRACE: Byte := 0x7B
  const RBRACE: Byte := 0x7D
  const LBRACK: Byte := 0x5B
  const RBRACK: Byte := 0x5D
  const MINUS: Byte := 0x2D

  predicate High(c: Code) { 0xD800 <= c <= 0xDBFF }
  predicate Low(c: Code) { 0xDC00 <= c <= 0xDFFF }

  // ---- strings ----

  function Hex4(n: nat): (b: Bytes)
    requires n < 0x1_0000
    ensures |b| == 4
  {
    [Hex.Digit(n / 4096), Hex.Digit(n / 256 % 16), Hex.Digit(n / 16 % 16), Hex.Digit(n % 16)]
  }

  function ReadHex4(s: Text): Option<Code> {
    if |s| < 4 || Hex.Value(s[0]).None? || Hex.Value(s[1]).None? || Hex.Value(s[2]).None? || Hex.Value(s[3]).None?
    then None
    else
      Some(Hex.Value(s[0]).value * 4096 + Hex.Value(s[1]).value * 256
           + Hex.Value(s[2]).value * 16 + Hex.Value(s[3]).value)
  }

  /** One character under `ensure_ascii`; above U+FFFF two escapes. */
  function Escape(c: Code): (b: Bytes)
    ensures |b| > 0 && b[0] != QUOTE
  {
    if c == QUOTE || c == BACKSLASH then [BACKSLASH, c]
    else if c == 8 then [BACKSLASH, 0x62]
    else if c == 9 then [BACKSLASH, 0x74]
    else if c == 10 then [BACKSLASH, 0x6E]
    else if c == 12 then [BACKSLASH, 0x66]
    else if c == 13 then [BACKSLASH, 0x72]
    else if 0x20 <= c < 0x7F then [c]
    else if c < 0x1_0000 then UnitEscape(c)
    else UnitEscape(HighOf(c)) + UnitEscape(LowOf(c))
  }

  function UnitEscape(n: nat): (b: Bytes)
    requires n < 0x1_0000
    ensures |b| == 6 && b[0] == BACKSLASH && b[1] == 0x75
  {
    [BACKSLASH, 0x75] + Hex4(n)
  }

  function HighOf(c: Code): (h: Code)
    requires c >= 0x1_0000
    ensures High(h)
  {
    0xD800 + (c - 0x1_0000) / 1024
  }

  function LowOf(c: Code): (l: Code)
    requires c >= 0x1_0000
    ensures Low(l) && Combine(HighOf(c), l) == c
  {
    0xDC00 + (c - 0x1_0000) % 1024
  }

  function EscapeAll(t: Text): Bytes {
    if t == [] then [] else Escape(t[0]) + EscapeAll(t[1..])
  }

  function Quoted(t: Text): (b: Bytes)
    ensures |b| > 0 && b[0] == QUOTE
  {
    [QUOTE] + (EscapeAll(t) + [QUOTE])
  }

  /** The text opens with the escape of a low surrogate. */
  predicate StartsLow(s: Text) {
    |s| >= 6 && s[0] == BACKSLASH && s[1] == 0x75 && ReadHex4(s[2..]).Some? && Low(ReadHex4(s[2..]).value)
  }

  function Combine(hi: Code, lo: Code): Code
    requires High(hi) && Low(lo)
  {
    0x1_0000 + (hi - 0xD800) * 1024 + (lo - 0xDC00)
  }

  /** The next character of a string body. */
  function NextChar(s: Text): (r: Parsed<Code>)
    ensures r.Ok? ==> |r.rest| < |s|
  {
    if s == [] || s[0] < 0x20 then Fail
    else if s[0] != BACKSLASH then Ok(s[0], s[1..])
    else if |s| < 2 then Fail
    else if s[1] == QUOTE || s[1] == BACKSLASH || s[1] == SLASH then Ok(s[1], s[2..])
    else if s[1] == 0x62 then Ok(8, s[2..])
    else if s[1] == 0x74 then Ok(9, s[2..])
    else if s[1] == 0x6E then Ok(10, s[2..])
    else if s[1] == 0x66 then Ok(12, s[2..])
    else if s[1] == 0x72 then Ok(13, s[2..])
    else if s[1] != 0x75 || ReadHex4(s[2..]).None? then Fail
    else
      var c := ReadHex4(s[2..]).value;
      if High(c) && StartsLow(s[6..]) then Ok(Combine(c, ReadHex4(s[8..]).value), s[12..])
      else Ok(c, s[6..])
  }

  /** A string body up to and including its closing quote. */
  function ParseChars(s: Text): (r: Parsed<Text>)
    ensures r.Ok? ==> |r.rest| < |s|
  {
    if s == [] then Fail
    else if s[0] == QUOTE then Ok([], s[1..])
    else match NextChar(s)
      case Fail => Fail
      case Ok(c, rest) =>
        match ParseChars(rest)
        case Fail => Fail
        case Ok(t, rest') => Ok([c] + t, rest')
  }

  // ---- numbers ----

  predicate IsDigit(c: Code) { 0x30 <= c <= 0x39 }

  function Digits(s: Text): (n: nat)
    ensures n <= |s|
    ensures forall i :: 0 <= i < n ==> IsDigit(s[i])
    ensures n < |s| ==> !IsDigit(s[n])
  {
    if s == [] || !IsDigit(s[0]) then 0 else 1 + Digits(s[1..])
  }

  function DecValue(s: Text): nat
    requires forall i :: 0 <= i < |s| ==> IsDigit(s[i])
  {
    if s == [] then 0
    else
      var last := s[|s| - 1];
      assert IsDigit(last);
      10 * DecValue(s[..|s| - 1]) + (last as int - 0x30)
  }

  /** A leading zero stands alone. */
  function IntLen(s: Text): (n: nat)
    ensures n <= |s|
    ensures forall i :: 0 <= i < n ==> IsDigit(s[i])
    ensures s != [] && IsDigit(s[0]) ==> n > 0
  {
    if s != [] && s[0] == 0x30 then 1 else Digits(s)
  }

  function FracLen(s: Text): (n: nat)
    ensures n <= |s|
  {
    if |s| >= 2 && s[0] == 0x2E && IsDigit(s[1]) then 1 + Digits(s[1..]) else 0
  }

  function ExpLen(s: Text): (n: nat)
    ensures n <= |s|
  {
    if s == [] || (s[0] != 0x65 && s[0] != 0x45) then 0
    else
      var k := if |s| >= 2 && (s[1] == 0x2B || s[1] == MINUS) then 2 else 1;
      var d := Digits(s[k..]);
      if d == 0 then 0 else k + d
  }

  /** How many characters of an unsigned number are its whole part, and how many its fraction and exponent. */
  datatype NumberParts = NumberParts(whole: nat, tail: nat)

  function Parts(p: Text): (n: NumberParts)
    ensures n.whole + n.tail <= |p|
    ensures forall i :: 0 <= i < n.whole ==> IsDigit(p[i])
    ensures p != [] && IsDigit(p[0]) ==> n.whole > 0
  {
    var k := IntLen(p);
    var f := FracLen(p[k..]);
    NumberParts(k, f + ExpLen(p[k + f..]))
  }

  /** A number after its sign. */
  function ParseUnsigned(p: Text, negative: bool): (r: Parsed<Value>)
    ensures r.Ok? ==> |r.rest| < |p|
  {
    if p == [] || !IsDigit(p[0]) then Fail
    else
      var n := Parts(p);
      var end := n.whole + n.tail;
      var token := p[..end];
      if n.tail > 0 then Ok(Float(if negative then [MINUS] + token else token), p[end..])
      else
        var m: int := DecValue(token);
        Ok(Int(if negative then -m else m), p[end..])
  }

  function ParseNumber(s: Text): (r: Parsed<Value>)
    ensures r.Ok? ==> |r.rest| < |s|
  {
    if s != [] && s[0] == MINUS then ParseUnsigned(s[1..], true) else ParseUnsigned(s, false)
  }

  function PrintNat(n: nat): (b: Bytes)
    ensures |b| > 0
    ensures forall i :: 0 <= i < |b| ==> IsDigit(b[i])
    ensures b[0] == 0x30 ==> |b| == 1
    ensures n > 0 ==> b[0] != 0x30
  {
    if n < 10 then [0x30 + n] else PrintNat(n / 10) + [0x30 + n % 10]
  }

  function PrintInt(n: int): (b: Bytes)
    ensures |b| > 0 && (IsDigit(b[0]) || b[0] == MINUS)
  {
    if n < 0 then [MINUS] + PrintNat(-n) else PrintNat(n)
  }

  // ---- documents ----

  predicate IsWs(c: Code) { c == 0x20 || c == 0x09 || c == 0x0A || c == 0x0D }

  function SkipWs(s: Text): (r: Text)
    ensures |r| <= |s|
    ensures r != [] ==> !IsWs(r[0])
  {
    if s != [] && IsWs(s[0]) then SkipWs(s[1..]) else s
  }

  /** The six bare words and the value each stands for. */
  function ParseWord(s: Text): (r: Parsed<Value>)
    ensures r.Ok? ==> |r.rest| < |s|
  {
    if A("null") <= s then Ok(Null, s[4..])
    else if A("true") <= s then Ok(Bool(true), s[4..])
    else if A("false") <= s then Ok(Bool(false), s[5..])
    else if A("NaN") <= s then Ok(Float(A("NaN")), s[3..])
    else if A("Infinity") <= s then Ok(Float(A("Infinity")), s[8..])
    else if A("-Infinity") <= s then Ok(Float(A("-Infinity")), s[9..])
    else Fail
  }

  function ParseValue(s: Text): (r: Parsed<Value>)
    ensures r.Ok? ==> |r.rest| < |s|
    decreases |s|, 0
  {
    if s == [] then Fail
    else if s[0] == QUOTE then
      match ParseChars(s[1..])
      case Fail => Fail
      case Ok(t, rest) => Ok(Str(t), rest)
    else if s[0] == LBRACE then
      var b := SkipWs(s[1..]);
      if b != [] && b[0] == RBRACE then Ok(Obj([]), b[1..])
      else match ParseMembers(b)
        case Fail => Fail
        case Ok(ms, rest) => Ok(Obj(ms), rest)
    else if s[0] == LBRACK then
      var b := SkipWs(s[1..]);
      if b != [] && b[0] == RBRACK then Ok(Arr([]), b[1..])
      else match ParseItems(b)
        case Fail => Fail
        case Ok(vs, rest) => Ok(Arr(vs), rest)
    else match ParseWord(s)
      case Ok(v, rest) => Ok(v, rest)
      case Fail => ParseNumber(s)
  }

  /** `value (, value)* ]` with whitespace between tokens. */
  function ParseItems(s: Text): (r: Parsed<seq<Value>>)
    ensures r.Ok? ==> |r.rest| < |s|
    decreases |s|, 1
  {
    match ParseValue(s)
    case Fail => Fail
    case Ok(v, rest) =>
      var t := SkipWs(rest);
      if t == [] then Fail
      else if t[0] == RBRACK then Ok([v], t[1..])
      else if t[0] != COMMA then Fail
      else match ParseItems(SkipWs(t[1..]))
        case Fail => Fail
        case Ok(vs, rest') => Ok([v] + vs, rest')
  }

  /** A key with its colon, up to the value. */
  function ParseKey(s: Text): (r: Parsed<Text>)
    ensures r.Ok? ==> |r.rest| < |s|
  {
    if s == [] || s[0] != QUOTE then Fail
    else match ParseChars(s[1..])
      case Fail => Fail
      case Ok(k, rest) =>
        var t := SkipWs(rest);
        if t == [] || t[0] != COLON then Fail else Ok(k, SkipWs(t[1..]))
  }

  /** `key : value (, key : value)* }` with whitespace between tokens. */
  function ParseMembers(s: Text): (r: Parsed<seq<Keyed<Value>>>)
    ensures r.Ok? ==> |r.rest| < |s|
    decreases |s|, 1
  {
    match ParseKey(s)
    case Fail => Fail
    case Ok(k, afterKey) =>
      match ParseValue(afterKey)
      case Fail => Fail
      case Ok(v, rest) =>
        var t := SkipWs(rest);
        if t == [] then Fail
        else if t[0] == RBRACE then Ok([Keyed(k, v)], t[1..])
        else if t[0] != COMMA then Fail
        else match ParseMembers(SkipWs(t[1..]))
          case Fail => Fail
          case Ok(ms, rest') => Ok([Keyed(k, v)] + ms, rest')
  }

  /** `json.loads`; None is its JSONDecodeError. */
  function Loads(s: Text): Option<Value> {
    match ParseValue(SkipWs(s))
    case Fail => None
    case Ok(v, rest) => if SkipWs(rest) == [] then Some(v) else None
  }

  /** `json.dumps` separators: the default is spaced, `(',', ':')` is compact. */
  datatype Style = Spaced | Compact

  function Sep(c: Byte, style: Style): (b: Bytes)
    ensures |b| > 0 && b[0] == c
  {
    if style.Spaced? then [c, 0x20] else [c]
  }

  /** The text of a float: a word for a non-finite one, else a number with a fraction or an exponent. */
  predicate FloatToken(t: Text) {
    && (forall i :: 0 <= i < |t| ==> 0x20 <= t[i] < 0x7F)
    && (t == A("NaN") || t == A("Infinity") || t == A("-Infinity") || ParseNumber(t) == Ok(Float(t), []))
  }

  /** Values `dumps` is given: floats carry the text Python writes for them. */
  predicate Plain(v: Value) {
    match v
    case Float(t) => FloatToken(t)
    case Arr(items) => forall x :: x in items ==> Plain(x)
    case Obj(members) => forall m :: m in members ==> Plain(m.value)
    case _ => true
  }

  function Dumps(v: Value, style: Style): (b: Bytes)
    requires Plain(v)
    ensures |b| > 0
    decreases v, 0
  {
    match v
    case Null => A("null")
    case Bool(b) => if b then A("true") else A("false")
    case Int(n) => PrintInt(n)
    case Float(t) => t
    case Str(t) => Quoted(t)
    case Arr(items) => [LBRACK] + (DumpsItems(items, style) + [RBRACK])
    case Obj(members) => [LBRACE] + (DumpsMembers(members, style) + [RBRACE])
  }

  function DumpsItems(items: seq<Value>, style: Style): Bytes
    requires forall x :: x in items ==> Plain(x)
    decreases items, 1
  {
    if items == [] then []
    else if |items| == 1 then Dumps(items[0], style)
    else Dumps(items[0], style) + (Sep(COMMA, style) + DumpsItems(items[1..], style))
  }

  function DumpsMember(m: Keyed<Value>, style: Style): (b: Bytes)
    requires Plain(m.value)
    ensures |b| > 0 && b[0] == QUOTE
    decreases m, 1
  {
    Quoted(m.key) + (Sep(COLON, style) + Dumps(m.value, style))
  }

  function DumpsMembers(ms: seq<Keyed<Value>>, style: Style): Bytes
    requires forall m :: m in ms ==> Plain(m.value)
    decreases ms, 1
  {
    if ms == [] then []
    else if |ms| == 1 then DumpsMember(ms[0], style)
    else DumpsMember(ms[0], style) + (Sep(COMMA, style) + DumpsMembers(ms[1..], style))
  }
}
