/** Checking a ZIP bundle before it is extracted (implementations/execute_service_impl.py:440-467). */
module ZipBundle {
  import opened Basics
  import opened Paths

  // ---- paths in a directory tree without links ----

  predicate Plain(c: Text) { c != [] && SlashFree(c) && c != A(".") && c != A("..") }
  predicate AllPlain(cs: seq<Text>) { forall i :: 0 <= i < |cs| ==> Plain(cs[i]) }

  /** One name of a path: '' and '.' stay, '..' goes up and stays at the top. */
  function Enter(dir: seq<Text>, name: Text): seq<Text> {
    if name == [] || name == A(".") then dir
    else if name == A("..") then (if dir == [] then [] else dir[..|dir| - 1])
    else dir + [name]
  }

  function Follow(dir: seq<Text>, names: seq<Text>): seq<Text>
    decreases names
  {
    if names == [] then dir else Follow(Enter(dir, names[0]), names[1..])
  }

  /** `p` as seen from directory `dir`. */
  function From(dir: seq<Text>, p: Text): seq<Text> {
    Follow(if p != [] && p[0] == SLASH then [] else dir, Split(p))
  }

  /** A component list as `os.path.realpath` writes it. */
  function Show(cs: seq<Text>): Text { [SLASH] + if cs == [] then [] else Join(cs) }

  /** `os.path.realpath` where no component is a link. */
  function Realpath(cwd: seq<Text>, p: Text): Text { Show(From(cwd, p)) }

  /** `os.path.join` */
  function PathJoin(a: Text, b: Text): Text {
    if b != [] && b[0] == SLASH then b
    else if a == [] || a[|a| - 1] == SLASH then a + b
    else a + ([SLASH] + b)
  }

  predicate StartsWith(s: Text, prefix: Text) { |prefix| <= |s| && s[..|prefix|] == prefix }

  /** The test in the source, on strings. */
  predicate StringTest(root: Text, target: Text) { StartsWith(target, root + [SLASH]) || target == root }

  // ---- the string test means containment ----

  lemma {:induction false} FollowPlain(dir: seq<Text>, names: seq<Text>)
    requires AllPlain(dir) && forall i :: 0 <= i < |names| ==> SlashFree(names[i])
    ensures AllPlain(Follow(dir, names))
    decreases names
  {
    hide A;
    if names != [] { FollowPlain(Enter(dir, names[0]), names[1..]); }
  }

  /** A real path has only proper components. */
  lemma FromPlain(dir: seq<Text>, p: Text)
    requires AllPlain(dir)
    ensures AllPlain(From(dir, p))
  {
    hide Split, Follow, Plain;
    JoinSplit(p);
    FollowPlain(if p != [] && p[0] == SLASH then [] else dir, Split(p));
  }

  lemma {:induction false} JoinConcat(a: seq<Text>, b: seq<Text>)
    requires a != [] && b != []
    ensures Join(a + b) == Join(a) + ([SLASH] + Join(b))
  {
    if |a| == 1 {
      assert (a + b)[1..] == b;
    } else {
      JoinConcat(a[1..], b);
      assert (a + b)[1..] == a[1..] + b;
      assert a[0] + ([SLASH] + (Join(a[1..]) + ([SLASH] + Join(b)))) ==
          a[0] + ([SLASH] + Join(a[1..])) + ([SLASH] + Join(b));
    }
  }

  lemma SplitAt(a: Text, b: Text)
    ensures Split(a + ([SLASH] + b)) == Split(a) + Split(b)
  {
    hide Split, Join;
    JoinSplit(a);
    JoinSplit(b);
    JoinConcat(Split(a), Split(b));
    SplitJoin(Split(a) + Split(b));
  }

  lemma ShowSplits(cs: seq<Text>)
    requires AllPlain(cs) && cs != []
    ensures Split(Show(cs)) == [[]] + cs
  {
    hide Split, Join, A;
    SplitCons([], Join(cs));
    assert [] + ([SLASH] + Join(cs)) == Show(cs);
    SplitJoin(cs);
  }

  lemma ShowInjective(a: seq<Text>, b: seq<Text>)
    requires AllPlain(a) && AllPlain(b) && Show(a) == Show(b)
    ensures a == b
  {
    hide Split, Plain;
    TopShows(a);
    TopShows(b);
    if a != [] && b != [] {
      ShowSplits(a);
      ShowSplits(b);
      assert ([[]] + a)[1..] == a && ([[]] + b)[1..] == b;
    }
  }

  lemma TopShows(cs: seq<Text>)
    requires AllPlain(cs)
    ensures |Show(cs)| >= 1 && (|Show(cs)| == 1 <==> cs == [])
  {
    if cs != [] { assert Plain(cs[0]); }
  }

  /** The string test holds exactly when the root's components are a prefix of the target's, except that a root of '/'
      admits nothing below it. */
  lemma ContainmentTest(root: seq<Text>, target: seq<Text>)
    requires AllPlain(root) && AllPlain(target)
    ensures StringTest(Show(root), Show(target)) <==> root <= target && (root == [] ==> target == [])
  {
    hide Split, Join, Plain;
    if StringTest(Show(root), Show(target)) {
      if Show(target) == Show(root) {
        ShowInjective(target, root);
      } else {
        PrefixedInside(root, target);
      }
    }
    if root <= target && root != [] && root != target { InsidePrefixed(root, target); }
  }

  lemma PrefixedInside(root: seq<Text>, target: seq<Text>)
    requires AllPlain(root) && AllPlain(target) && StartsWith(Show(target), Show(root) + [SLASH])
    ensures root != [] && root <= target
  {
    hide Split, Plain, StartsWith, Show;
    Rejoined(Show(target), Show(root));
    var rest := Show(target)[|Show(root)| + 1..];
    NothingBelowTop(target);
    TopShows(target);
    TopShows(root);
    SplitAt(Show(root), rest);
    ShowSplits(target);
    ShowSplits(root);
    assert [[]] + target == [[]] + root + Split(rest);
    assert ([[]] + target)[1..] == target && ([[]] + root + Split(rest))[1..] == root + Split(rest);
  }

  /** No real path starts with two slashes. */
  lemma NothingBelowTop(target: seq<Text>)
    requires AllPlain(target)
    ensures !StartsWith(Show(target), Show([]) + [SLASH])
  {
    var two := Show([]) + [SLASH];
    assert |two| == 2 && two[1] == SLASH;
    assert |Show(target)| >= 2 ==> Show(target)[..2][1] == Show(target)[1];
    if target != [] { assert Plain(target[0]) && Join(target)[0] == target[0][0]; }
  }

  lemma Rejoined(s: Text, a: Text)
    requires StartsWith(s, a + [SLASH])
    ensures |s| > |a| && s == a + ([SLASH] + s[|a| + 1..])
  {
    assert s == s[..|a| + 1] + s[|a| + 1..];
  }

  lemma InsidePrefixed(root: seq<Text>, target: seq<Text>)
    requires root != [] && root <= target && root != target
    ensures StartsWith(Show(target), Show(root) + [SLASH])
  {
    hide Join;
    var more := target[|root|..];
    assert target == root + more;
    JoinConcat(root, more);
    assert Show(target) == Show(root) + [SLASH] + Join(more);
  }

  // ---- where a name leads ----

  lemma {:induction false} FollowConcat(dir: seq<Text>, a: seq<Text>, b: seq<Text>)
    ensures Follow(dir, a + b) == Follow(Follow(dir, a), b)
    decreases a
  {
    hide Enter;
    if a == [] {
      assert a + b == b;
    } else {
      FollowConcat(Enter(dir, a[0]), a[1..], b);
      assert (a + b)[1..] == a[1..] + b;
    }
  }

  /** Joining and resolving is resolving the name from the resolved directory. */
  lemma JoinResolves(cwd: seq<Text>, dest: Text, name: Text)
    ensures From(cwd, PathJoin(dest, name)) == From(From(cwd, dest), name)
  {
    hide Split, Follow, Enter;
    var start := if dest != [] && dest[0] == SLASH then [] else cwd;
    if name != [] && name[0] == SLASH {
    } else if dest == [] {
      assert dest + name == name;
      EmptySegment(cwd);
    } else if dest[|dest| - 1] == SLASH {
      var d := dest[..|dest| - 1];
      assert dest == d + [SLASH] && dest + name == d + ([SLASH] + name) && dest == d + ([SLASH] + []);
      SplitAt(d, name);
      SplitAt(d, []);
      FollowConcat(start, Split(d), Split(name));
      FollowConcat(start, Split(d), Split([]));
      EmptySegment(Follow(start, Split(d)));
    } else {
      SplitAt(dest, name);
      FollowConcat(start, Split(dest), Split(name));
    }
  }

  lemma EmptySegment(dir: seq<Text>)
    ensures Split([]) == [[]] && Follow(dir, [[]]) == dir
  {
    var one: seq<Text> := [[]];
    assert one[1..] == [];
  }

  /** A relative name that never goes up leads below the directory. */
  lemma {:induction false} FollowDown(dir: seq<Text>, names: seq<Text>)
    requires forall i :: 0 <= i < |names| ==> names[i] != A("..")
    ensures dir <= Follow(dir, names)
    decreases names
  {
    hide A;
    if names != [] { FollowDown(Enter(dir, names[0]), names[1..]); }
  }

  /** Segments joined by '/'. */
  lemma FromJoined(dir: seq<Text>, segs: seq<Text>)
    requires segs != [] && (forall i :: 0 <= i < |segs| ==> SlashFree(segs[i])) && segs[0] != []
    ensures From(dir, Join(segs)) == Follow(dir, segs)
  {
    hide Join, Split, Follow;
    SplitJoin(segs);
    JoinStart(segs);
  }

  lemma JoinStart(segs: seq<Text>)
    requires segs != [] && segs[0] != []
    ensures Join(segs) != [] && Join(segs)[0] == segs[0][0]
  {
  }

  lemma {:induction false} FollowDownAll(dir: seq<Text>, names: seq<Text>)
    requires AllPlain(names)
    ensures Follow(dir, names) == dir + names
    decreases names
  {
    if names == [] {
      assert dir + names == dir;
    } else {
      assert Plain(names[0]);
      FollowDownAll(dir + [names[0]], names[1..]);
      assert dir + [names[0]] + names[1..] == dir + names;
    }
  }

  lemma DotsPlain()
    ensures SlashFree(A("..")) && A("..") != [] && SlashFree(A(".")) && A(".") != [] && A("..") != A(".")
  {
  }

  /** What each kind of segment does to a resolved directory, seen from outside: a plain name goes down, '..' goes up
      and stays at the top, '.' and the empty segment stay; and a real path resolves to itself. */
  lemma Segments(cwd: seq<Text>, dir: seq<Text>, x: Text)
    requires AllPlain(dir) && Plain(x)
    ensures From(cwd, Show(dir)) == dir
    ensures From(dir, x) == dir + [x]
    ensures From(dir + [x], A("..")) == dir && From([], A("..")) == []
    ensures From(dir, A(".")) == dir && From(dir, []) == dir
    ensures From(cwd, Show(dir + [x]) + ([SLASH] + A(".."))) == dir
    ensures From(cwd, Show(dir + [x]) + ([SLASH] + A("."))) == dir + [x]
  {
    DotsPlain();
    hide Split, Join, A;
    ShownResolves(cwd, dir);
    ShownResolves(cwd, dir + [x]);
    OneSegment(dir, x);
    OneSegment(dir + [x], A(".."));
    OneSegment([], A(".."));
    OneSegment(dir, A("."));
    OneSegment(dir + [x], A("."));
    EmptySegment(dir);
    assert (dir + [x])[..|dir|] == dir;
    SplitAt(Show(dir + [x]), A(".."));
    SplitAt(Show(dir + [x]), A("."));
    FollowMore(cwd, Show(dir + [x]), A(".."));
    FollowMore(cwd, Show(dir + [x]), A("."));
  }

  lemma ShownResolves(cwd: seq<Text>, dir: seq<Text>)
    requires AllPlain(dir)
    ensures From(cwd, Show(dir)) == dir
  {
    hide Split, Join, A;
    EmptySegment([]);
    assert Show(dir)[0] == SLASH;
    if dir == [] {
      SplitAt([], []);
      assert [] + ([SLASH] + []) == Show(dir);
      FollowConcat([], [[]], [[]]);
    } else {
      ShowSplits(dir);
      FollowConcat([], [[]], dir);
      FollowDownAll([], dir);
      assert [] + dir == dir;
    }
  }

  lemma OneSegment(dir: seq<Text>, x: Text)
    requires SlashFree(x) && x != []
    ensures From(dir, x) == Enter(dir, x)
  {
    hide Split, Enter;
    SplitOne(x);
    var one := [x];
    assert x[0] != SLASH && one[1..] == [] && Follow(Enter(dir, x), []) == Enter(dir, x);
  }

  lemma FollowMore(cwd: seq<Text>, p: Text, x: Text)
    requires p != [] && p[0] == SLASH && SlashFree(x) && x != []
    ensures From(cwd, p + ([SLASH] + x)) == From(From(cwd, p), x)
  {
    hide Split, Follow;
    SplitAt(p, x);
    SplitOne(x);
    FollowConcat([], Split(p), Split(x));
  }

  /** `k` times '..' and then down. */
  function Climb(k: nat, down: seq<Text>): seq<Text> { if k == 0 then down else [A("..")] + Climb(k - 1, down) }

  lemma {:induction false} ClimbSlashFree(k: nat, down: seq<Text>)
    requires AllPlain(down)
    ensures forall i :: 0 <= i < |Climb(k, down)| ==> SlashFree(Climb(k, down)[i])
  {
    DotsPlain();
    if k == 0 {
      assert forall i :: 0 <= i < |down| ==> Plain(down[i]);
    } else {
      ClimbSlashFree(k - 1, down);
    }
  }

  lemma {:induction false} ClimbUp(base: seq<Text>, up: seq<Text>, down: seq<Text>)
    requires AllPlain(down)
    ensures Follow(base + up, Climb(|up|, down)) == base + down
    decreases |up|
  {
    if up == [] {
      assert base + up == base;
      FollowDownAll(base, down);
    } else {
      var k := |up| - 1;
      DotsPlain();
      assert (base + up)[..|base + up| - 1] == base + up[..k];
      assert Climb(|up|, down)[1..] == Climb(k, down);
      ClimbUp(base, up[..k], down);
    }
  }

  /** An entry that climbs out of the destination by the segments `up` and comes down by `down` lands at `down` from
      there; it passes only if that leads back through the same segments. So `../evil` never passes. */
  lemma ClimbingEntry(cwd: seq<Text>, dest: Text, base: seq<Text>, up: seq<Text>, down: seq<Text>, size: nat)
    requires From(cwd, dest) == base + up && up != [] && AllPlain(down)
    ensures var e := Entry(Join(Climb(|up|, down)), size);
      && From(cwd, PathJoin(dest, e.filename)) == base + down
      && (Contained(cwd, dest, e) <==> up <= down)
  {
    DotsPlain();
    hide Join, Split, A, PathJoin;
    ClimbSlashFree(|up|, down);
    JoinResolves(cwd, dest, Join(Climb(|up|, down)));
    FromJoined(base + up, Climb(|up|, down));
    ClimbUp(base, up, down);
    if base + up <= base + down {
      forall i | 0 <= i < |up| ensures up[i] == down[i] {
        assert (base + up)[|base| + i] == (base + down)[|base| + i];
      }
    }
  }

  /** An absolute name is judged by where it leads, whatever the destination. */
  lemma AbsoluteEntry(cwd: seq<Text>, dest: Text, target: seq<Text>, size: nat)
    requires AllPlain(target)
    ensures var root := From(cwd, dest);
      Contained(cwd, dest, Entry(Show(target), size)) <==> root <= target && (root == [] ==> target == [])
  {
    hide Show;
    ShownResolves(From(cwd, dest), target);
  }

  // ---- extraction ----

  datatype Entry = Entry(filename: Text, fileSize: nat)
  datatype ZipError = InvalidZip | TooManyEntries | TooLarge | PathTraversal(filename: Text)

  function Total(entries: seq<Entry>): nat { if entries == [] then 0 else entries[0].fileSize + Total(entries[1..]) }

  /** Where an entry leads lies at or below the destination, in terms of components. */
  predicate Contained(cwd: seq<Text>, dest: Text, e: Entry) {
    var root, target := From(cwd, dest), From(From(cwd, dest), e.filename);
    root <= target && (root == [] ==> target == [])
  }

  predicate FirstOutside(cwd: seq<Text>, dest: Text, entries: seq<Entry>, i: nat) {
    i < |entries| && !Contained(cwd, dest, entries[i]) && forall j :: 0 <= j < i ==> Contained(cwd, dest, entries[j])
  }

  /** `_safe_extract_zip`: `bundle` is the directory of the archive, None if it cannot be read; `handed` is what
      `extractall` is given. */
  method SafeExtractZip(bundle: Option<seq<Entry>>, cwd: seq<Text>, dest: Text, maxEntries: int, maxTotal: int)
    returns (error: Option<ZipError>, handed: seq<Entry>)
    requires AllPlain(cwd)
    ensures error.None? <==>
      && bundle.Some? && |bundle.value| <= maxEntries && Total(bundle.value) <= maxTotal
      && forall i :: 0 <= i < |bundle.value| ==> Contained(cwd, dest, bundle.value[i])
    ensures handed == if error.None? then bundle.value else []
    ensures error == Some(InvalidZip) <==> bundle.None?
    ensures error == Some(TooManyEntries) <==> bundle.Some? && |bundle.value| > maxEntries
    ensures error == Some(TooLarge) <==> bundle.Some? && |bundle.value| <= maxEntries && Total(bundle.value) > maxTotal
    ensures (error.Some? && error.value.PathTraversal?) <==>
      && bundle.Some? && |bundle.value| <= maxEntries && Total(bundle.value) <= maxTotal
      && exists i :: 0 <= i < |bundle.value| && !Contained(cwd, dest, bundle.value[i])
    ensures error.Some? && error.value.PathTraversal? ==>
      exists i ::
        && 0 <= i < |bundle.value| && bundle.value[i].filename == error.value.filename
        && FirstOutside(cwd, dest, bundle.value, i)
  {
    hide From, Show, StringTest, PathJoin, AllPlain;
    handed := [];
    if bundle.None? { return Some(InvalidZip), []; }
    var entries := bundle.value;
    if |entries| > maxEntries { return Some(TooManyEntries), []; }
    var total, k := 0, 0;
    assert entries[0..] == entries;
    while k < |entries|
      invariant 0 <= k <= |entries| && total + Total(entries[k..]) == Total(entries)
    {
      assert entries[k..][1..] == entries[k + 1..];
      total := total + entries[k].fileSize;
      k := k + 1;
    }
    if total > maxTotal { return Some(TooLarge), []; }
    var i := 0;
    while i < |entries|
      invariant 0 <= i <= |entries|
      invariant forall j :: 0 <= j < i ==> Contained(cwd, dest, entries[j])
    {
      var target := Realpath(cwd, PathJoin(dest, entries[i].filename));
      EntryTest(cwd, dest, entries[i]);
      if !StringTest(Realpath(cwd, dest), target) {
        assert FirstOutside(cwd, dest, entries, i);
        return Some(PathTraversal(entries[i].filename)), [];
      }
      i := i + 1;
    }
    return None, entries;
  }

  /** The source's test of an entry, in terms of components. */
  lemma EntryTest(cwd: seq<Text>, dest: Text, e: Entry)
    requires AllPlain(cwd)
    ensures StringTest(Realpath(cwd, dest), Realpath(cwd, PathJoin(dest, e.filename))) <==> Contained(cwd, dest, e)
  {
    hide From, Show, StringTest, PathJoin, AllPlain;
    FromPlain(cwd, dest);
    FromPlain(From(cwd, dest), e.filename);
    JoinResolves(cwd, dest, e.filename);
    ContainmentTest(From(cwd, dest), From(From(cwd, dest), e.filename));
  }

  /** Honest bundles pass: a relative name without '..' is contained in any destination but '/'. */
  lemma HonestNamesPass(cwd: seq<Text>, dest: Text, e: Entry)
    requires From(cwd, dest) != [] && (e.filename == [] || e.filename[0] != SLASH)
    requires forall i :: 0 <= i < |Split(e.filename)| ==> Split(e.filename)[i] != A("..")
    ensures Contained(cwd, dest, e)
  {
    hide A, Split, Follow;
    FollowDown(From(cwd, dest), Split(e.filename));
  }
}
