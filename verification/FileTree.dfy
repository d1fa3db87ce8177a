/** A directory tree as the operating system presents it, and the regular files below a directory. */
module FileTree {
  import opened Basics
  import opened Ordering
  import opened Paths
  import opened Names

  /** A directory lists its entries in an arbitrary order. */
  datatype Node = Dir(entries: seq<Keyed<Node>>) | File(content: Bytes) | Link | Other

  predicate EntryName(s: Text) { s != [] && SlashFree(s) }

  /** What every file system guarantees: entry names are non-empty, hold no '/', and do not repeat. */
  ghost predicate WellFormed(n: Node) {
    n.Dir? ==>
      && DistinctKeys(n.entries)
      && forall e :: e in n.entries ==> EntryName(e.key) && WellFormed(e.value)
  }

  /** The node a list of segments leads to, following no links. */
  function Resolve(n: Node, segs: seq<Text>): Option<Node>
    decreases |segs|
  {
    if segs == [] then Some(n)
    else if !n.Dir? then None
    else match Get(n.entries, segs[0])
      case None => None
      case Some(child) => Resolve(child, segs[1..])
  }

  /** Every regular file at or below a node: its name from the segments `path`, and its content. */
  function FilesOf(n: Node, path: seq<Text>): seq<Keyed<Bytes>>
    requires path != []
    decreases n, 0
  {
    match n
    case Dir(es) => FilesIn(es, path)
    case File(c) => [Keyed(Join(path), c)]
    case _ => []
  }

  function FilesIn(es: seq<Keyed<Node>>, path: seq<Text>): seq<Keyed<Bytes>>
    decreases es, 1
  {
    if es == [] then [] else FilesOf(es[0].value, path + [es[0].key]) + FilesIn(es[1..], path)
  }

  /** Every non-directory at or below a node is a regular file whose name obeys the rule. */
  predicate Admissible(n: Node, path: seq<Text>)
    requires path != []
    decreases n, 0
  {
    match n
    case Dir(es) => AdmissibleIn(es, path)
    case File(_) => IsValidOutputFileName(Join(path))
    case _ => false
  }

  predicate AdmissibleIn(es: seq<Keyed<Node>>, path: seq<Text>)
    decreases es, 1
  {
    es == [] || (Admissible(es[0].value, path + [es[0].key]) && AdmissibleIn(es[1..], path))
  }

  /** A measure for walks: how many nodes there are. */
  function Size(n: Node): (k: nat)
    ensures k >= 1
    decreases n, 0
  {
    match n case Dir(es) => 1 + SizeIn(es) case _ => 1
  }

  function SizeIn(es: seq<Keyed<Node>>): nat
    decreases es, 1
  {
    if es == [] then 0 else Size(es[0].value) + SizeIn(es[1..])
  }

  lemma {:induction false} ResolveConcat(n: Node, a: seq<Text>, b: seq<Text>)
    requires Resolve(n, a).Some?
    ensures Resolve(n, a + b) == Resolve(Resolve(n, a).value, b)
    decreases |a|
  {
    if a == [] {
      assert a + b == b;
    } else {
      var child := Get(n.entries, a[0]).value;
      ResolveConcat(child, a[1..], b);
      assert (a + b)[1..] == a[1..] + b;
    }
  }

  ghost predicate EntriesOk(es: seq<Keyed<Node>>) {
    DistinctKeys(es) && forall e :: e in es ==> EntryName(e.key) && WellFormed(e.value)
  }

  lemma EntriesOkTail(es: seq<Keyed<Node>>)
    requires EntriesOk(es) && es != []
    ensures EntriesOk(es[1..])
    ensures forall y :: y in es[1..] ==> y.key != es[0].key
  {
    TailKeys(es);
    assert forall i :: 0 <= i < |es[1..]| ==> es[1..][i] == es[i + 1];
  }

  /** A listed file sits where its name says. */
  lemma {:induction false} FileLocated(es: seq<Keyed<Node>>, path: seq<Text>, x: Keyed<Bytes>) returns (rest: seq<Text>)
    requires EntriesOk(es) && x in FilesIn(es, path)
    ensures rest != [] && x.key == Join(path + rest)
    ensures forall i :: 0 <= i < |rest| ==> EntryName(rest[i])
    ensures Get(es, rest[0]).Some? && Resolve(Dir(es), rest) == Some(File(x.value))
    decreases es, 1
  {
    hide FilesOf, EntryName;
    var e := es[0];
    EntriesOkTail(es);
    if x in FilesOf(e.value, path + [e.key]) {
      assert e in es;
      var tail := FileLocatedAt(e.value, path + [e.key], x);
      rest := [e.key] + tail;
      assert rest[1..] == tail;
      assert path + rest == path + [e.key] + tail;
    } else {
      rest := FileLocated(es[1..], path, x);
      GetInTail(es, rest[0]);
    }
  }

  lemma {:induction false} FileLocatedAt(n: Node, path: seq<Text>, x: Keyed<Bytes>) returns (tail: seq<Text>)
    requires path != [] && WellFormed(n) && x in FilesOf(n, path)
    ensures x.key == Join(path + tail) && Resolve(n, tail) == Some(File(x.value))
    ensures forall i :: 0 <= i < |tail| ==> EntryName(tail[i])
    decreases n, 0
  {
    hide EntryName;
    if n.Dir? {
      tail := FileLocated(n.entries, path, x);
    } else {
      tail := [];
      assert path + tail == path;
    }
  }

  /** A name found among the later entries is not the first one's. */
  lemma GetInTail(es: seq<Keyed<Node>>, k: Text)
    requires EntriesOk(es) && es != [] && Get(es[1..], k).Some?
    ensures k != es[0].key && Get(es, k) == Get(es[1..], k)
  {
    EntriesOkTail(es);
    GetIsMembership(es[1..], k, Get(es[1..], k).value);
  }

  /** A resolvable file is listed. */
  lemma {:induction false} FileListed(es: seq<Keyed<Node>>, path: seq<Text>, rest: seq<Text>, c: Bytes)
    requires rest != [] && Resolve(Dir(es), rest) == Some(File(c))
    ensures Keyed(Join(path + rest), c) in FilesIn(es, path)
    decreases es, 1
  {
    var e := es[0];
    if e.key == rest[0] {
      assert path + rest == path + [e.key] + rest[1..];
      assert rest[1..] == [] ==> path + rest == path + [e.key];
      if rest[1..] != [] { FileListed(e.value.entries, path + [e.key], rest[1..], c); }
    } else {
      assert Resolve(Dir(es[1..]), rest) == Some(File(c));
      FileListed(es[1..], path, rest, c);
    }
  }

  /** The listed files are exactly the regular files that path lookup can reach, by content. */
  lemma FilesAreTheReachableFiles(root: Node, name: Text, c: Bytes)
    requires root.Dir? && WellFormed(root)
    ensures Keyed(name, c) in FilesIn(root.entries, []) <==> Resolve(root, Split(name)) == Some(File(c))
  {
    if Keyed(name, c) in FilesIn(root.entries, []) {
      var rest := FileLocated(root.entries, [], Keyed(name, c));
      assert [] + rest == rest;
      SplitJoin(rest);
    }
    if Resolve(root, Split(name)) == Some(File(c)) {
      FileListed(root.entries, [], Split(name), c);
      assert [] + Split(name) == Split(name);
      JoinSplit(name);
    }
  }

  /** No two listed files share a name. */
  lemma {:induction false} FilesDistinct(es: seq<Keyed<Node>>, path: seq<Text>)
    requires EntriesOk(es) && forall i :: 0 <= i < |path| ==> SlashFree(path[i])
    ensures DistinctKeys(FilesIn(es, path))
    decreases es, 1
  {
    if es != [] {
      var e := es[0];
      EntriesOkTail(es);
      var a := FilesOf(e.value, path + [e.key]);
      var b := FilesIn(es[1..], path);
      if e.value.Dir? { FilesDistinct(e.value.entries, path + [e.key]); }
      FilesDistinct(es[1..], path);
      forall i, j | 0 <= i < |a| && 0 <= j < |b| ensures a[i].key != b[j].key { FilesApart(es, path, a[i], b[j]); }
    }
  }

  lemma FilesApart(es: seq<Keyed<Node>>, path: seq<Text>, x: Keyed<Bytes>, y: Keyed<Bytes>)
    requires EntriesOk(es) && es != [] && forall i :: 0 <= i < |path| ==> SlashFree(path[i])
    requires x in FilesOf(es[0].value, path + [es[0].key]) && y in FilesIn(es[1..], path)
    ensures x.key != y.key
  {
    hide FilesOf, FilesIn, Resolve, Get, Split, Join, WellFormed;
    var e := es[0];
    EntriesOkTail(es);
    assert e in es;
    var tail := FileLocatedAt(e.value, path + [e.key], x);
    var rest := FileLocated(es[1..], path, y);
    GetInTail(es, rest[0]);
    var p, q := path + [e.key] + tail, path + rest;
    SplitJoin(p);
    SplitJoin(q);
    assert p[|path|] == e.key && q[|path|] == rest[0];
  }

  // ---- what admissible means ----

  /** A non-directory at `segs` below `n` is a regular file with a valid name. */
  predicate GoodAt(n: Node, path: seq<Text>, segs: seq<Text>)
    requires path + segs != []
  {
    match Resolve(n, segs)
    case Some(File(_)) => IsValidOutputFileName(Join(path + segs))
    case Some(Dir(_)) => true
    case None => true
    case Some(_) => false
  }

  lemma {:induction false} AdmissibleIsGood(es: seq<Keyed<Node>>, path: seq<Text>, segs: seq<Text>)
    requires AdmissibleIn(es, path) && segs != []
    ensures GoodAt(Dir(es), path, segs)
    decreases es, 1
  {
    hide IsValidOutputFileName;
    if es != [] {
      var e := es[0];
      if e.key == segs[0] {
        assert path + segs == path + [e.key] + segs[1..];
        assert Admissible(e.value, path + [e.key]);
        if e.value.Dir? && segs[1..] != [] {
          AdmissibleIsGood(e.value.entries, path + [e.key], segs[1..]);
        } else if segs[1..] == [] {
          assert path + segs == path + [e.key];
          assert Resolve(Dir(es), segs) == Some(e.value);
        } else {
          assert Resolve(e.value, segs[1..]) == None;
        }
      } else {
        assert Resolve(Dir(es[1..]), segs) == Resolve(Dir(es), segs);
        AdmissibleIsGood(es[1..], path, segs);
      }
    }
  }

  /** If a listing is not admissible, some node in it is to blame. */
  lemma {:induction false} Culprit(es: seq<Keyed<Node>>, path: seq<Text>) returns (segs: seq<Text>)
    requires EntriesOk(es) && !AdmissibleIn(es, path)
    ensures segs != [] && !GoodAt(Dir(es), path, segs)
    ensures forall i :: 0 <= i < |segs| ==> EntryName(segs[i])
    decreases es, 1
  {
    hide IsValidOutputFileName, Join, EntryName;
    var e := es[0];
    EntriesOkTail(es);
    assert e in es;
    if !Admissible(e.value, path + [e.key]) {
      var tail: seq<Text> := [];
      if e.value.Dir? { tail := Culprit(e.value.entries, path + [e.key]); }
      segs := [e.key] + tail;
      assert segs[1..] == tail;
      assert path + segs == path + [e.key] + tail;
      assert tail == [] ==> path + segs == path + [e.key];
      assert Resolve(Dir(es), segs) == Resolve(e.value, tail);
    } else {
      segs := Culprit(es[1..], path);
      GetInTail(es, segs[0]);
      assert Resolve(Dir(es), segs) == Resolve(Dir(es[1..]), segs);
    }
  }

  // ---- listing order ----

  /** What a lookup shows of a node: its kind, and the content of a file, but no listing. */
  function Shown(n: Option<Node>): Option<Node> {
    if n.Some? && n.value.Dir? then Some(Dir([])) else n
  }

  /** The same tree up to the order of every listing: all lookups agree. */
  ghost predicate SameTree(a: Node, b: Node) {
    forall segs :: Shown(Resolve(a, segs)) == Shown(Resolve(b, segs))
  }

  /** Listing the entries of a directory in another order gives the same tree. */
  lemma ReorderedListing(ea: seq<Keyed<Node>>, eb: seq<Keyed<Node>>)
    requires DistinctKeys(ea) && DistinctKeys(eb) && multiset(ea) == multiset(eb)
    ensures SameTree(Dir(ea), Dir(eb))
  {
    SamePermutation(ea, eb);
    forall segs ensures Shown(Resolve(Dir(ea), segs)) == Shown(Resolve(Dir(eb), segs)) {
      if segs != [] {
        var k := segs[0];
        if Get(ea, k).Some? {
          GetIsMembership(ea, k, Get(ea, k).value);
          GetIsMembership(eb, k, Get(ea, k).value);
        } else if Get(eb, k).Some? {
          GetIsMembership(ea, k, Get(eb, k).value);
          GetIsMembership(eb, k, Get(eb, k).value);
        }
      }
    }
  }

  /** So does reordering inside a subdirectory. */
  lemma ReorderedBelow(es: seq<Keyed<Node>>, i: nat, n: Node)
    requires i < |es| && SameTree(es[i].value, n)
    ensures SameTree(Dir(es), Dir(es[i := Keyed(es[i].key, n)]))
  {
    var eb := es[i := Keyed(es[i].key, n)];
    forall segs ensures Shown(Resolve(Dir(es), segs)) == Shown(Resolve(Dir(eb), segs)) {
      if segs != [] { GetReplaced(es, i, n, segs[0]); }
    }
  }

  lemma {:induction false} GetReplaced(es: seq<Keyed<Node>>, i: nat, n: Node, k: Text)
    requires i < |es|
    ensures var eb := es[i := Keyed(es[i].key, n)];
      Get(eb, k) == Get(es, k) || (Get(es, k) == Some(es[i].value) && Get(eb, k) == Some(n))
  {
    var eb := es[i := Keyed(es[i].key, n)];
    if i > 0 {
      GetReplaced(es[1..], i - 1, n, k);
      assert eb[1..] == es[1..][i - 1 := Keyed(es[i].key, n)];
    } else {
      assert eb[1..] == es[1..];
    }
  }

  /** `b` is `a` with the entries of every directory, at every depth, listed in some other order. */
  ghost predicate Reordered(a: Node, b: Node) {
    if a.Dir? && b.Dir? then
      exists mid: seq<Keyed<Node>> ::
        && multiset(mid) == multiset(b.entries) && |mid| == |a.entries|
        && forall i :: 0 <= i < |mid| ==> mid[i].key == a.entries[i].key && Reordered(a.entries[i].value, mid[i].value)
    else a == b
  }

  lemma SameTreeTransitive(a: Node, b: Node, c: Node)
    requires SameTree(a, b) && SameTree(b, c)
    ensures SameTree(a, c)
  {
    forall segs ensures Shown(Resolve(a, segs)) == Shown(Resolve(c, segs)) {
      assert Shown(Resolve(a, segs)) == Shown(Resolve(b, segs));
    }
  }

  /** Replacing children one by one by equal trees. */
  lemma {:induction false} ReplacedBelow(es: seq<Keyed<Node>>, mid: seq<Keyed<Node>>, j: nat)
    requires |mid| == |es| && j <= |es|
    requires forall i :: 0 <= i < |es| ==> mid[i].key == es[i].key && SameTree(es[i].value, mid[i].value)
    ensures SameTree(Dir(es), Dir(mid[..j] + es[j..]))
  {
    hide SameTree;
    if j == 0 {
      assert mid[..0] + es[0..] == es;
      SameTreeReflexive(Dir(es));
    } else {
      ReplacedBelow(es, mid, j - 1);
      var before := mid[..j - 1] + es[j - 1..];
      assert before[j - 1] == es[j - 1];
      ReorderedBelow(before, j - 1, mid[j - 1].value);
      assert before[j - 1 := Keyed(es[j - 1].key, mid[j - 1].value)] == mid[..j] + es[j..];
      SameTreeTransitive(Dir(es), Dir(before), Dir(mid[..j] + es[j..]));
    }
  }

  lemma SameTreeReflexive(a: Node)
    ensures SameTree(a, a)
  {
  }

  /** Children replaced by equal trees, then listed in another order. */
  lemma PermutedBelow(ea: seq<Keyed<Node>>, mid: seq<Keyed<Node>>, eb: seq<Keyed<Node>>)
    requires DistinctKeys(ea) && |mid| == |ea| && multiset(mid) == multiset(eb)
    requires forall i :: 0 <= i < |ea| ==> mid[i].key == ea[i].key && SameTree(ea[i].value, mid[i].value)
    ensures DistinctKeys(eb) && SameTree(Dir(ea), Dir(eb))
  {
    hide SameTree;
    DistinctPermuted(eb, mid);
    ReplacedBelow(ea, mid, |ea|);
    assert mid[..|ea|] + ea[|ea|..] == mid;
    ReorderedListing(mid, eb);
    SameTreeTransitive(Dir(ea), Dir(mid), Dir(eb));
  }

  lemma ChildrenOk(ea: seq<Keyed<Node>>, mid: seq<Keyed<Node>>, eb: seq<Keyed<Node>>)
    requires |mid| == |ea| && multiset(mid) == multiset(eb)
    requires forall i :: 0 <= i < |ea| ==> EntryName(mid[i].key) && WellFormed(mid[i].value)
    ensures forall e :: e in eb ==> EntryName(e.key) && WellFormed(e.value)
  {
    hide EntryName, WellFormed;
    SamePermutation(mid, eb);
  }

  lemma ReorderedListings(a: Node, b: Node) returns (mid: seq<Keyed<Node>>)
    requires a.Dir? && b.Dir? && Reordered(a, b)
    ensures multiset(mid) == multiset(b.entries) && |mid| == |a.entries|
    ensures forall i :: 0 <= i < |mid| ==> mid[i].key == a.entries[i].key && Reordered(a.entries[i].value, mid[i].value)
  {
    mid :| multiset(mid) == multiset(b.entries) && |mid| == |a.entries|
      && forall i :: 0 <= i < |mid| ==> mid[i].key == a.entries[i].key && Reordered(a.entries[i].value, mid[i].value);
  }

  /** However the listings of a tree are permuted, it is a well-formed tree in which every lookup finds the same. */
  lemma {:induction false} ReorderedSame(a: Node, b: Node)
    requires WellFormed(a) && Reordered(a, b)
    ensures WellFormed(b) && SameTree(a, b) && (a.Dir? <==> b.Dir?)
    decreases a
  {
    hide SameTree, EntryName;
    SameTreeReflexive(a);
    if a.Dir? && b.Dir? {
      hide Reordered;
      var ea, eb := a.entries, b.entries;
      var mid := ReorderedListings(a, b);
      forall i | 0 <= i < |mid|
        ensures EntryName(mid[i].key) && WellFormed(mid[i].value) && SameTree(ea[i].value, mid[i].value)
      {
        assert ea[i] in ea;
        ReorderedSame(ea[i].value, mid[i].value);
      }
      PermutedBelow(ea, mid, eb);
      ChildrenOk(ea, mid, eb);
    }
  }

  lemma AdmissibleSame(a: Node, b: Node)
    requires a.Dir? && b.Dir? && WellFormed(b) && SameTree(a, b) && AdmissibleIn(a.entries, [])
    ensures AdmissibleIn(b.entries, [])
  {
    if !AdmissibleIn(b.entries, []) {
      var segs := Culprit(b.entries, []);
      AdmissibleIsGood(a.entries, [], segs);
      GoodSame(a, b, segs);
    }
  }

  lemma GoodSame(a: Node, b: Node, segs: seq<Text>)
    requires SameTree(a, b) && segs != []
    ensures GoodAt(a, [], segs) <==> GoodAt(b, [], segs)
  {
    assert Shown(Resolve(a, segs)) == Shown(Resolve(b, segs));
  }

  lemma FileSame(a: Node, b: Node, x: Keyed<Bytes>)
    requires a.Dir? && b.Dir? && WellFormed(a) && WellFormed(b) && SameTree(a, b)
    ensures x in FilesIn(a.entries, []) <==> x in FilesIn(b.entries, [])
  {
    FilesAreTheReachableFiles(a, x.key, x.value);
    FilesAreTheReachableFiles(b, x.key, x.value);
    assert Shown(Resolve(a, Split(x.key))) == Shown(Resolve(b, Split(x.key)));
  }

  /** However the directories are listed, the same files come out in the same sorted order. */
  lemma ListingOrderIndependent(a: Node, b: Node)
    requires a.Dir? && b.Dir? && WellFormed(a) && WellFormed(b) && SameTree(a, b)
    ensures Sort(FilesIn(a.entries, [])) == Sort(FilesIn(b.entries, []))
    ensures |FilesIn(a.entries, [])| == |FilesIn(b.entries, [])|
    ensures AdmissibleIn(a.entries, []) <==> AdmissibleIn(b.entries, [])
  {
    hide FilesIn, Sort, AdmissibleIn;
    var fa, fb := FilesIn(a.entries, []), FilesIn(b.entries, []);
    FilesDistinct(a.entries, []);
    FilesDistinct(b.entries, []);
    SortStrict(fa);
    SortStrict(fb);
    SortMembers(fa);
    SortMembers(fb);
    forall x ensures x in Sort(fa) <==> x in Sort(fb) {
      SortMember(fa, x);
      SortMember(fb, x);
      FileSame(a, b, x);
    }
    StrictSortedUnique(Sort(fa), Sort(fb));
    if AdmissibleIn(a.entries, []) { AdmissibleSame(a, b); }
    if AdmissibleIn(b.entries, []) { AdmissibleSame(b, a); }
  }
}
