/** Paths with '/' separators: `'/'.join` and `str.split('/')`. */
module Paths {
  import opened Basics

  function Split(s: Text): (r: seq<Text>)
    ensures |r| >= 1
  {
    if s == [] then [[]]
    else
      var r := Split(s[1..]);
      if s[0] == SLASH then [[]] + r else [[s[0]] + r[0]] + r[1..]
  }

  function Join(segs: seq<Text>): Text
    requires segs != []
  {
    if |segs| == 1 then segs[0] else segs[0] + ([SLASH] + Join(segs[1..]))
  }

  predicate SlashFree(s: Text) { forall i :: 0 <= i < |s| ==> s[i] != SLASH }

  lemma {:induction false} SplitOne(a: Text)
    requires SlashFree(a)
    ensures Split(a) == [a]
  {
    if a != [] {
      SplitOne(a[1..]);
      assert a == [a[0]] + a[1..];
    }
  }

  lemma {:induction false} SplitCons(a: Text, rest: Text)
    requires SlashFree(a)
    ensures Split(a + ([SLASH] + rest)) == [a] + Split(rest)
  {
    var s: Text := a + ([SLASH] + rest);
    if a == [] {
      assert s[1..] == rest;
    } else {
      SplitCons(a[1..], rest);
      assert s[1..] == a[1..] + ([SLASH] + rest);
      assert a == [a[0]] + a[1..];
    }
  }

  /** Splitting undoes joining. */
  lemma {:induction false} SplitJoin(segs: seq<Text>)
    requires segs != [] && forall i :: 0 <= i < |segs| ==> SlashFree(segs[i])
    ensures Split(Join(segs)) == segs
  {
    if |segs| == 1 {
      SplitOne(segs[0]);
    } else {
      SplitJoin(segs[1..]);
      SplitCons(segs[0], Join(segs[1..]));
      assert segs == [segs[0]] + segs[1..];
    }
  }

  lemma JoinEmptyFirst(segs: seq<Text>)
    requires segs != []
    ensures Join([[]] + segs) == [SLASH] + Join(segs)
  {
    assert ([[]] + segs)[1..] == segs;
  }

  lemma JoinLonger(c: Code, segs: seq<Text>)
    requires segs != []
    ensures Join([[c] + segs[0]] + segs[1..]) == [c] + Join(segs)
  {
    var t := [[c] + segs[0]] + segs[1..];
    assert t[1..] == segs[1..];
    if |segs| > 1 {
      var tail: Text := [SLASH] + Join(segs[1..]);
      assert [c] + segs[0] + tail == [c] + (segs[0] + tail);
    }
  }

  lemma {:induction false} SplitSlashFree(s: Text)
    ensures forall i :: 0 <= i < |Split(s)| ==> SlashFree(Split(s)[i])
  {
    if s != [] {
      SplitSlashFree(s[1..]);
      var r := Split(s[1..]);
      forall i | 0 <= i < |Split(s)| ensures SlashFree(Split(s)[i]) {
        if s[0] == SLASH {
          if i > 0 { assert Split(s)[i] == r[i - 1]; }
        } else {
          if i > 0 { assert Split(s)[i] == r[i]; }
        }
      }
    }
  }

  /** Joining undoes splitting. */
  lemma {:induction false} JoinSplit(s: Text)
    ensures Join(Split(s)) == s
    ensures forall i :: 0 <= i < |Split(s)| ==> SlashFree(Split(s)[i])
  {
    SplitSlashFree(s);
    JoinSplitAgain(s);
  }

  lemma {:induction false} JoinSplitAgain(s: Text)
    ensures Join(Split(s)) == s
  {
    if s == [] {
      assert Split(s) == [[]];
    } else {
      JoinSplitAgain(s[1..]);
      var r := Split(s[1..]);
      SplitStep(s);
      hide Join, Split;
      if s[0] == SLASH { JoinEmptyFirst(r); } else { JoinLonger(s[0], r); }
      assert s == [s[0]] + s[1..];
    }
  }

  lemma SplitStep(s: Text)
    requires s != []
    ensures var r := Split(s[1..]);
      Split(s) == if s[0] == SLASH then [[]] + r else [[s[0]] + r[0]] + r[1..]
  {
  }

  /** Joining one more segment is `f'{path}/{name}'`. */
  lemma {:induction false} JoinSnoc(segs: seq<Text>, name: Text)
    requires segs != []
    ensures Join(segs + [name]) == Join(segs) + ([SLASH] + name)
  {
    if |segs| > 1 {
      JoinSnoc(segs[1..], name);
      assert (segs + [name])[1..] == segs[1..] + [name];
      assert Join(segs + [name]) == segs[0] + ([SLASH] + (Join(segs[1..]) + ([SLASH] + name)));
    } else {
      assert (segs + [name])[1..] == [name];
    }
  }
}

/** Regular expressions and the texts they match in full. */
module Regexes {
  import opened Basics

  /** A character class is a list of inclusive ranges. */
  datatype Regex =
    | Class(ranges: seq<(Code, Code)>)
    | Cat(first: Regex, second: Regex)
    | Rep(body: Regex, lo: nat, hi: nat)

  predicate InClass(ranges: seq<(Code, Code)>, c: Code) {
    exists i :: 0 <= i < |ranges| && ranges[i].0 <= c <= ranges[i].1
  }

  /** `re.fullmatch`. */
  ghost predicate Matches(r: Regex, s: Text)
    decreases r, 0
  {
    match r
    case Class(ranges) => |s| == 1 && InClass(ranges, s[0])
    case Cat(a, b) => exists k :: 0 <= k <= |s| && Matches(a, s[..k]) && Matches(b, s[k..])
    case Rep(a, lo, hi) => MatchesRep(a, lo, hi, s)
  }

  ghost predicate MatchesRep(a: Regex, lo: nat, hi: nat, s: Text)
    decreases a, 1, hi
  {
    || (lo == 0 && s == [])
    || (hi > 0 && exists k :: 0 <= k <= |s| && Matches(a, s[..k])
                           && MatchesRep(a, if lo == 0 then 0 else lo - 1, hi - 1, s[k..]))
  }

  /** Up to `hi` characters of one class. */
  lemma {:induction false} RepClass(ranges: seq<(Code, Code)>, hi: nat, s: Text)
    ensures MatchesRep(Class(ranges), 0, hi, s) <==> |s| <= hi && forall i :: 0 <= i < |s| ==> InClass(ranges, s[i])
  {
    if s != [] && hi > 0 {
      RepClass(ranges, hi - 1, s[1..]);
      assert s == [s[0]] + s[1..];
      assert s[..1] == [s[0]];
      assert forall i :: 1 <= i < |s| ==> s[i] == s[1..][i - 1];
      if MatchesRep(Class(ranges), 0, hi, s) {
        var k :| 0 <= k <= |s| && Matches(Class(ranges), s[..k]) && MatchesRep(Class(ranges), 0, hi - 1, s[k..]);
        assert k == 1;
      } else {
        assert !(Matches(Class(ranges), s[..1]) && MatchesRep(Class(ranges), 0, hi - 1, s[1..]));
      }
    }
  }
}

/** The rule for output file names and the type table (implementations/output_files.py:16-54). */
module Names {
  import opened Basics
  import opened Paths
  import opened Regexes

  const ALNUM: seq<(Code, Code)> := [(0x41, 0x5A), (0x61, 0x7A), (0x30, 0x39)]
  const NAME_CHARS: seq<(Code, Code)> :=
    [(0x41, 0x5A), (0x61, 0x7A), (0x30, 0x39), (0x2E, 0x2E), (0x5F, 0x5F), (0x2D, 0x2D)]

  const SEGMENT_RE := Cat(Class(ALNUM), Rep(Class(NAME_CHARS), 0, 99))
  const SLASH_SEGMENT_RE := Cat(Class([(0x2F, 0x2F)]), SEGMENT_RE)
  const OUTPUT_FILE_NAME_RE := Cat(SEGMENT_RE, Rep(SLASH_SEGMENT_RE, 0, 4))
  const MAX_OUTPUT_FILE_NAME_LEN := 255

  predicate AlNum(c: Code) { 0x41 <= c <= 0x5A || 0x61 <= c <= 0x7A || 0x30 <= c <= 0x39 }
  predicate NameChar(c: Code) { AlNum(c) || c == 0x2E || c == 0x5F || c == 0x2D }

  predicate ValidSegment(s: Text) {
    1 <= |s| <= 100 && AlNum(s[0]) && forall i :: 1 <= i < |s| ==> NameChar(s[i])
  }

  predicate ValidSegments(segs: seq<Text>) {
    1 <= |segs| <= 5 && forall i :: 0 <= i < |segs| ==> ValidSegment(segs[i])
  }

  /** The name rule, decided by splitting; `RuleIsRegex` ties it to the pattern the source compiles. */
  predicate IsValidOutputFileName(name: Text) {
    |name| <= MAX_OUTPUT_FILE_NAME_LEN && ValidSegments(Split(name))
  }

  lemma Classes(c: Code)
    ensures InClass(ALNUM, c) <==> AlNum(c)
    ensures InClass(NAME_CHARS, c) <==> NameChar(c)
    ensures InClass([(0x2F, 0x2F)], c) <==> c == SLASH
  {
    assert ALNUM[0] == (0x41, 0x5A) && ALNUM[1] == (0x61, 0x7A) && ALNUM[2] == (0x30, 0x39);
    var n := NAME_CHARS;
    assert n[0] == (0x41, 0x5A) && n[1] == (0x61, 0x7A) && n[2] == (0x30, 0x39);
    assert n[3] == (0x2E, 0x2E) && n[4] == (0x5F, 0x5F) && n[5] == (0x2D, 0x2D);
    var slash: seq<(Code, Code)> := [(0x2F, 0x2F)];
    assert slash[0] == (0x2F, 0x2F);
  }

  lemma SegmentMatches(s: Text)
    ensures Matches(SEGMENT_RE, s) <==> ValidSegment(s)
  {
    if s == [] {
    } else {
      Classes(s[0]);
      assert s[..1] == [s[0]];
      RepClass(NAME_CHARS, 99, s[1..]);
      forall i | 1 <= i < |s| ensures InClass(NAME_CHARS, s[i]) <==> NameChar(s[i]) { Classes(s[i]); }
      assert forall i :: 1 <= i < |s| ==> s[1..][i - 1] == s[i];
      assert Matches(Class(ALNUM), s[..1]) <==> AlNum(s[0]);
      assert Matches(Rep(Class(NAME_CHARS), 0, 99), s[1..])
          <==> |s| <= 100 && forall i :: 1 <= i < |s| ==> NameChar(s[i]);
      if Matches(SEGMENT_RE, s) {
        var k :| 0 <= k <= |s| && Matches(Class(ALNUM), s[..k]) && Matches(Rep(Class(NAME_CHARS), 0, 99), s[k..]);
        assert k == 1;
      }
    }
  }

  lemma SlashSegmentMatches(s: Text)
    ensures Matches(SLASH_SEGMENT_RE, s) <==> s != [] && s[0] == SLASH && ValidSegment(s[1..])
  {
    hide ValidSegment;
    if s != [] {
      Classes(s[0]);
      assert s[..1] == [s[0]];
      SegmentMatches(s[1..]);
      assert Matches(Class([(0x2F, 0x2F)]), s[..1]) <==> s[0] == SLASH;
      if Matches(SLASH_SEGMENT_RE, s) {
        var k :| 0 <= k <= |s| && Matches(Class([(0x2F, 0x2F)]), s[..k]) && Matches(SEGMENT_RE, s[k..]);
        assert k == 1;
      }
    }
  }

  lemma SegmentSlashFree(s: Text)
    requires ValidSegment(s)
    ensures SlashFree(s)
  {
  }

  lemma RepStep(hi: nat, t: Text) returns (k: nat)
    requires MatchesRep(SLASH_SEGMENT_RE, 0, hi, t) && t != []
    ensures hi > 0 && k <= |t| && Matches(SLASH_SEGMENT_RE, t[..k]) && MatchesRep(SLASH_SEGMENT_RE, 0, hi - 1, t[k..])
  {
    hide Matches;
    k :| 0 <= k <= |t| && Matches(SLASH_SEGMENT_RE, t[..k]) && MatchesRep(SLASH_SEGMENT_RE, 0, hi - 1, t[k..]);
  }

  lemma RepAdd(hi: nat, t: Text, k: nat)
    requires hi > 0 && k <= |t| && Matches(SLASH_SEGMENT_RE, t[..k]) && MatchesRep(SLASH_SEGMENT_RE, 0, hi - 1, t[k..])
    ensures MatchesRep(SLASH_SEGMENT_RE, 0, hi, t)
  {
    hide Matches;
  }

  /** What the pattern matches splits into segments that obey the rule. */
  lemma {:induction false} MatchSplits(a: Text, t: Text, hi: nat)
    requires ValidSegment(a) && MatchesRep(SLASH_SEGMENT_RE, 0, hi, t)
    ensures |Split(a + t)| <= hi + 1
    ensures forall i :: 0 <= i < |Split(a + t)| ==> ValidSegment(Split(a + t)[i])
    decreases hi
  {
    hide ValidSegment, Matches, MatchesRep, Split;
    SegmentSlashFree(a);
    if t == [] {
      SplitOne(a);
      assert a + t == a;
    } else {
      var k := RepStep(hi, t);
      SlashSegmentMatches(t[..k]);
      var b := t[..k][1..];
      MatchSplits(b, t[k..], hi - 1);
      assert a + t == a + ([SLASH] + (b + t[k..]));
      SplitCons(a, b + t[k..]);
    }
  }

  /** Segments that obey the rule join into a text the pattern matches. */
  lemma {:induction false} SegmentsMatch(segs: seq<Text>, hi: nat)
    requires 1 <= |segs| <= hi + 1 && forall i :: 0 <= i < |segs| ==> ValidSegment(segs[i])
    ensures |segs[0]| <= |Join(segs)| && Join(segs)[..|segs[0]|] == segs[0]
    ensures MatchesRep(SLASH_SEGMENT_RE, 0, hi, Join(segs)[|segs[0]|..])
  {
    hide ValidSegment, Matches, MatchesRep;
    var s := Join(segs);
    if |segs| == 1 {
      assert s[|s|..] == [];
      RepNone(hi);
    } else {
      SegmentsMatch(segs[1..], hi - 1);
      var t := s[|segs[0]|..];
      var rest := Join(segs[1..]);
      assert t == [SLASH] + rest;
      var k := 1 + |segs[1]|;
      assert t[..k][1..] == rest[..|segs[1]|] == segs[1];
      SlashSegmentMatches(t[..k]);
      assert t[k..] == rest[|segs[1]|..];
      RepAdd(hi, t, k);
    }
  }

  lemma RepNone(hi: nat)
    ensures MatchesRep(SLASH_SEGMENT_RE, 0, hi, [])
  {
  }

  lemma ValidMatches(name: Text)
    requires ValidSegments(Split(name))
    ensures Matches(OUTPUT_FILE_NAME_RE, name)
  {
    hide ValidSegment, Matches, MatchesRep, Split, Join;
    NameMatches(name);
    var segs := Split(name);
    JoinSplit(name);
    SegmentsMatch(segs, 4);
    SegmentMatches(segs[0]);
    assert name[..|segs[0]|] == segs[0];
  }

  lemma MatchIsValid(name: Text, k: nat)
    requires k <= |name| && Matches(SEGMENT_RE, name[..k]) && MatchesRep(SLASH_SEGMENT_RE, 0, 4, name[k..])
    ensures ValidSegments(Split(name))
  {
    hide Matches, MatchesRep, Split;
    SegmentMatches(name[..k]);
    MatchSplits(name[..k], name[k..], 4);
    assert name[..k] + name[k..] == name;
  }

  /** The compiled pattern matches exactly the names of 1 to 5 segments that obey the segment rule. */
  lemma RuleIsRegex(name: Text)
    ensures Matches(OUTPUT_FILE_NAME_RE, name) <==> ValidSegments(Split(name))
  {
    hide ValidSegments, Matches, MatchesRep, Split;
    if ValidSegments(Split(name)) { ValidMatches(name); }
    if Matches(OUTPUT_FILE_NAME_RE, name) {
      NameMatches(name);
      var k :| 0 <= k <= |name| && Matches(SEGMENT_RE, name[..k]) && MatchesRep(SLASH_SEGMENT_RE, 0, 4, name[k..]);
      MatchIsValid(name, k);
    }
  }

  lemma NameMatches(name: Text)
    ensures Matches(OUTPUT_FILE_NAME_RE, name) <==>
      exists k :: 0 <= k <= |name| && Matches(SEGMENT_RE, name[..k]) && MatchesRep(SLASH_SEGMENT_RE, 0, 4, name[k..])
  {
    forall k | 0 <= k <= |name|
      ensures Matches(Rep(SLASH_SEGMENT_RE, 0, 4), name[k..]) <==> MatchesRep(SLASH_SEGMENT_RE, 0, 4, name[k..]) {}
  }

  /** Rule-abiding names are ASCII. */
  lemma ValidNameAscii(name: Text)
    requires IsValidOutputFileName(name)
    ensures forall i :: 0 <= i < |name| ==> name[i] < 0x80
  {
    JoinSplit(name);
    JoinAscii(Split(name));
  }

  lemma {:induction false} JoinAscii(segs: seq<Text>)
    requires segs != [] && forall i :: 0 <= i < |segs| ==> ValidSegment(segs[i])
    ensures forall i :: 0 <= i < |Join(segs)| ==> Join(segs)[i] < 0x80
  {
    assert forall i :: 0 <= i < |segs[0]| ==> segs[0][i] < 0x80;
    if |segs| > 1 { JoinAscii(segs[1..]); }
  }

  // ---- content types ----

  const DOT: Byte := 0x2E
  const DEFAULT_OUTPUT_TYPE := A("application/octet-stream")

  function LowerChar(c: Code): Code { if 0x41 <= c <= 0x5A then c + 32 else c }
  function Lower(s: Text): Text { seq(|s|, i requires 0 <= i < |s| => LowerChar(s[i])) }

  function TypeOfExtension(ext: Text): Bytes {
    if ext == A("csv") then A("text/csv")
    else if ext == A("png") then A("image/png")
    else if ext == A("jpg") || ext == A("jpeg") then A("image/jpeg")
    else if ext == A("json") then A("application/json")
    else if ext == A("txt") then A("text/plain")
    else if ext == A("pdf") then A("application/pdf")
    else DEFAULT_OUTPUT_TYPE
  }

  /** Text after the last `c`; None if there is none. */
  function AfterLast(s: Text, c: Code): Option<Text> {
    if s == [] then None
    else match AfterLast(s[1..], c)
      case Some(t) => Some(t)
      case None => if s[0] == c then Some(s[1..]) else None
  }

  function OutputFileType(name: Text): Bytes {
    var base := match AfterLast(name, SLASH) case Some(t) => t case None => name;
    match AfterLast(base, DOT)
    case Some(ext) => TypeOfExtension(Lower(ext))
    case None => TypeOfExtension([])
  }

  lemma {:induction false} AfterLastFinds(p: Text, c: Code, t: Text)
    requires forall i :: 0 <= i < |t| ==> t[i] != c
    ensures AfterLast(t, c) == None
    ensures AfterLast(p + ([c] + t), c) == Some(t)
  {
    AfterLastNone(t, c);
    var s: Text := p + ([c] + t);
    if p == [] {
      assert s[1..] == t;
    } else {
      AfterLastFinds(p[1..], c, t);
      assert s[1..] == p[1..] + ([c] + t);
    }
  }

  lemma {:induction false} AfterLastNone(t: Text, c: Code)
    requires forall i :: 0 <= i < |t| ==> t[i] != c
    ensures AfterLast(t, c) == None
  {
    if t != [] { AfterLastNone(t[1..], c); }
  }

  /** The type is read off the last segment alone, after its last dot; dots in directories do not count. */
  lemma TypeFromLastSegment(dir: Text, stem: Text, ext: Text)
    requires SlashFree(stem) && SlashFree(ext) && forall i :: 0 <= i < |ext| ==> ext[i] != DOT
    ensures OutputFileType(dir + ([SLASH] + (stem + ([DOT] + ext)))) == TypeOfExtension(Lower(ext))
    ensures OutputFileType(stem + ([DOT] + ext)) == TypeOfExtension(Lower(ext))
    ensures OutputFileType(dir + ([SLASH] + ext)) == DEFAULT_OUTPUT_TYPE
    ensures OutputFileType(ext) == DEFAULT_OUTPUT_TYPE
  {
    AfterLastNone(ext, SLASH);
    AfterLastNone(ext, DOT);
    AfterLastFinds(dir, SLASH, stem + ([DOT] + ext));
    AfterLastFinds(stem, DOT, ext);
    AfterLastFinds(dir, SLASH, ext);
  }

  /** `t` is `w` up to the case of its letters. */
  predicate SameButCase(t: Text, w: Bytes) {
    |t| == |w| && forall i :: 0 <= i < |w| ==> t[i] == w[i] || (0x61 <= w[i] <= 0x7A && t[i] == w[i] - 32)
  }

  lemma LowerIs(t: Text, word: string)
    requires forall i :: 0 <= i < |word| ==> 'a' <= word[i] <= 'z'
    ensures SameButCase(t, A(word)) <==> Lower(t) == A(word)
  {
    if Lower(t) == A(word) {
      forall i | 0 <= i < |word| ensures t[i] == A(word)[i] || t[i] == A(word)[i] - 32 {
        assert Lower(t)[i] == A(word)[i];
      }
    }
  }

  lemma ExtensionsApart()
    ensures |A("csv")| == 3 && |A("png")| == 3 && |A("jpg")| == 3 && |A("txt")| == 3 && |A("pdf")| == 3
    ensures |A("jpeg")| == 4 && |A("json")| == 4 && A("jpeg")[1] == 0x70 && A("json")[1] == 0x73
    ensures A("csv")[0] == 0x63 && A("png")[0] == 0x70 && A("png")[1] == 0x6E && A("jpg")[0] == 0x6A
    ensures A("txt")[0] == 0x74 && A("pdf")[0] == 0x70 && A("pdf")[1] == 0x64
  {
  }

  /** The type table, in any case. */
  lemma TypeTable(ext: Text)
    ensures SameButCase(ext, A("csv")) ==> TypeOfExtension(Lower(ext)) == A("text/csv")
    ensures SameButCase(ext, A("png")) ==> TypeOfExtension(Lower(ext)) == A("image/png")
    ensures SameButCase(ext, A("jpg")) ==> TypeOfExtension(Lower(ext)) == A("image/jpeg")
    ensures SameButCase(ext, A("jpeg")) ==> TypeOfExtension(Lower(ext)) == A("image/jpeg")
    ensures SameButCase(ext, A("json")) ==> TypeOfExtension(Lower(ext)) == A("application/json")
    ensures SameButCase(ext, A("txt")) ==> TypeOfExtension(Lower(ext)) == A("text/plain")
    ensures SameButCase(ext, A("pdf")) ==> TypeOfExtension(Lower(ext)) == A("application/pdf")
    ensures
      || SameButCase(ext, A("csv")) || SameButCase(ext, A("png")) || SameButCase(ext, A("jpg"))
      || SameButCase(ext, A("jpeg")) || SameButCase(ext, A("json")) || SameButCase(ext, A("txt"))
      || SameButCase(ext, A("pdf"))
      || TypeOfExtension(Lower(ext)) == A("application/octet-stream")
  {
    ExtensionsApart();
    hide A, SameButCase, Lower;
    LowerIs(ext, "csv");
    LowerIs(ext, "png");
    LowerIs(ext, "jpg");
    LowerIs(ext, "jpeg");
    LowerIs(ext, "json");
    LowerIs(ext, "txt");
    LowerIs(ext, "pdf");
  }

  /** The rule in numbers: at most 255 characters, 1 to 5 segments of 1 to 100 characters, a letter or digit first, then
      letters, digits, '.', '_' and '-'. */
  lemma RuleInNumbers(name: Text)
    ensures IsValidOutputFileName(name) <==>
      && |name| <= 255 && 1 <= |Split(name)| <= 5
      && forall i :: 0 <= i < |Split(name)| ==>
           var s := Split(name)[i];
           && 1 <= |s| <= 100
           && (0x41 <= s[0] <= 0x5A || 0x61 <= s[0] <= 0x7A || 0x30 <= s[0] <= 0x39)
           && forall j :: 1 <= j < |s| ==>
                0x41 <= s[j] <= 0x5A || 0x61 <= s[j] <= 0x7A || 0x30 <= s[j] <= 0x39
                || s[j] == 0x2E || s[j] == 0x5F || s[j] == 0x2D
  {
  }
}
