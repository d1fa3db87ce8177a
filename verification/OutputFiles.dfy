/** Collecting the files a script leaves behind (implementations/output_files.py). */
module OutputFiles {
  import opened Basics
  import opened Ordering
  import opened Paths
  import opened Names
  import opened FileTree
  import Hex

  /** OutputFilesError, by the rule that was broken. */
  datatype Error =
    | SymlinkNotAllowed(name: Text) | NotARegularFile(name: Text) | InvalidFileName(name: Text)
    | TooManyFiles | TotalSizeTooLarge | OutputsNotADirectory | CannotRead(name: Text)

  datatype Result<+T> = Success(value: T) | Failure(error: Error)

  // ---- the walk ----

  function AllFiles(root: Node): seq<Keyed<Bytes>>
    requires root.Dir?
  {
    FilesIn(root.entries, [])
  }

  /** Names with sizes, as the walk reports them. */
  function Sizes(files: seq<Keyed<Bytes>>): (r: seq<Keyed<nat>>)
    ensures |r| == |files|
    ensures forall i :: 0 <= i < |r| ==> r[i] == Keyed(files[i].key, |files[i].value|)
  {
    seq(|files|, i requires 0 <= i < |files| => Keyed(files[i].key, |files[i].value|))
  }

  /** When the walk accepts a tree: the count is only looked at when a file is found. */
  predicate WalkAccepts(root: Node, maxFiles: int)
    requires root.Dir?
  {
    AdmissibleIn(root.entries, []) && (AllFiles(root) == [] || |AllFiles(root)| <= maxFiles)
  }

  /** The stack holds relative paths as text, '' for the top. */
  function PathText(path: seq<Text>): Text { if path == [] then [] else Join(path) }

  /** `f'{rel_dir}/{entry.name}' if rel_dir else entry.name` */
  function Child(relDir: Text, name: Text): Text { if relDir != [] then relDir + ([SLASH] + name) else name }

  /** `os.scandir` of a relative path: the node is found by splitting the text. */
  function Lookup(root: Node, rel: Text): Option<Node> { if rel == [] then Some(root) else Resolve(root, Split(rel)) }

  /** A directory on the stack, with the segments its text stands for. */
  datatype Pending = Pending(path: seq<Text>, entries: seq<Keyed<Node>>)

  ghost predicate OnStack(root: Node, rel: Text, p: Pending) {
    && rel == PathText(p.path) && (forall i :: 0 <= i < |p.path| ==> EntryName(p.path[i]))
    && Lookup(root, rel) == Some(Dir(p.entries)) && Resolve(root, p.path) == Some(Dir(p.entries))
    && EntriesOk(p.entries)
  }

  ghost function PendingFiles(ps: seq<Pending>): multiset<Keyed<nat>> {
    if ps == [] then multiset{}
    else PendingFiles(ps[..|ps| - 1]) + multiset(Sizes(FilesIn(ps[|ps| - 1].entries, ps[|ps| - 1].path)))
  }

  ghost predicate PendingAdmissible(ps: seq<Pending>) {
    ps == [] || (PendingAdmissible(ps[..|ps| - 1]) && AdmissibleIn(ps[|ps| - 1].entries, ps[|ps| - 1].path))
  }

  ghost function PendingSize(ps: seq<Pending>): nat {
    if ps == [] then 0 else PendingSize(ps[..|ps| - 1]) + 1 + SizeIn(ps[|ps| - 1].entries)
  }

  lemma PushPending(ps: seq<Pending>, p: Pending)
    ensures PendingFiles(ps + [p]) == PendingFiles(ps) + multiset(Sizes(FilesIn(p.entries, p.path)))
    ensures PendingAdmissible(ps + [p]) <==> PendingAdmissible(ps) && AdmissibleIn(p.entries, p.path)
    ensures PendingSize(ps + [p]) == PendingSize(ps) + 1 + SizeIn(p.entries)
  {
    assert (ps + [p])[..|ps|] == ps;
  }

  lemma SizesConcat(a: seq<Keyed<Bytes>>, b: seq<Keyed<Bytes>>)
    ensures multiset(Sizes(a + b)) == multiset(Sizes(a)) + multiset(Sizes(b))
  {
    assert Sizes(a + b) == Sizes(a) + Sizes(b);
  }

  /** Reading the first entry of a listing splits its files and its verdict. */
  lemma FirstEntry(es: seq<Keyed<Node>>, path: seq<Text>)
    requires es != []
    ensures multiset(Sizes(FilesIn(es, path)))
      == multiset(Sizes(FilesOf(es[0].value, path + [es[0].key]))) + multiset(Sizes(FilesIn(es[1..], path)))
    ensures AdmissibleIn(es, path) <==> Admissible(es[0].value, path + [es[0].key]) && AdmissibleIn(es[1..], path)
    ensures SizeIn(es) == Size(es[0].value) + SizeIn(es[1..])
  {
    SizesConcat(FilesOf(es[0].value, path + [es[0].key]), FilesIn(es[1..], path));
  }

  /** An entry's textual name leads back to the entry. */
  lemma ChildFound(root: Node, rel: Text, p: Pending, e: Keyed<Node>)
    requires OnStack(root, rel, p) && e in p.entries
    ensures Child(rel, e.key) == Join(p.path + [e.key])
    ensures Resolve(root, p.path + [e.key]) == Some(e.value)
    ensures Split(Child(rel, e.key)) == p.path + [e.key]
    ensures Lookup(root, Child(rel, e.key)) == Some(e.value)
  {
    var segs := p.path + [e.key];
    GetIsMembership(p.entries, e.key, e.value);
    ResolveConcat(root, p.path, [e.key]);
    assert [e.key][1..] == [];
    if p.path == [] {
      assert segs == [e.key];
    } else {
      JoinSnoc(p.path, e.key);
      JoinNonEmpty(p.path);
    }
    SplitJoin(segs);
    JoinNonEmpty(segs);
  }

  lemma {:induction false} JoinNonEmpty(segs: seq<Text>)
    requires segs != [] && segs[0] != []
    ensures Join(segs) != []
  {
  }

  /** An error names a real violation. */
  ghost predicate Explains(root: Node, maxFiles: int, e: Error)
    requires root.Dir?
  {
    match e
    case SymlinkNotAllowed(name) => Resolve(root, Split(name)) == Some(Link)
    case NotARegularFile(name) => Resolve(root, Split(name)) == Some(Other)
    case InvalidFileName(name) =>
      !IsValidOutputFileName(name) && Resolve(root, Split(name)).Some? && Resolve(root, Split(name)).value.File?
    case TooManyFiles => |AllFiles(root)| > maxFiles
    case _ => false
  }

  lemma EmptyListing(path: seq<Text>)
    ensures Sizes(FilesIn([], path)) == [] && AdmissibleIn([], path) && SizeIn([]) == 0
  {
  }

  /** What each kind of entry adds to the files, the verdict and the measure. */
  lemma EntryKinds(n: Node, path: seq<Text>)
    requires path != []
    ensures n.Dir? ==> FilesOf(n, path) == FilesIn(n.entries, path)
    ensures n.Dir? ==> (Admissible(n, path) <==> AdmissibleIn(n.entries, path)) && Size(n) == 1 + SizeIn(n.entries)
    ensures n.File? ==> Sizes(FilesOf(n, path)) == [Keyed(Join(path), |n.content|)]
    ensures n.File? ==> (Admissible(n, path) <==> IsValidOutputFileName(Join(path)))
    ensures n.Link? || n.Other? ==> !Admissible(n, path)
  {
  }

  /** Where a walk stands: what is found, what is stacked, and the rest of the listing being read. */
  ghost predicate WalkState(root: Node, found: seq<Keyed<nat>>, stack: seq<Text>, ps: seq<Pending>, path: seq<Text>,
                            rest: seq<Keyed<Node>>)
    requires root.Dir?
  {
    && |ps| == |stack| && (forall i :: 0 <= i < |ps| ==> OnStack(root, stack[i], ps[i]))
    && multiset(found) + PendingFiles(ps) + multiset(Sizes(FilesIn(rest, path))) == multiset(Sizes(AllFiles(root)))
    && (AdmissibleIn(root.entries, []) <==> PendingAdmissible(ps) && AdmissibleIn(rest, path))
  }

  ghost function Measure(ps: seq<Pending>, rest: seq<Keyed<Node>>): nat { PendingSize(ps) + SizeIn(rest) }

  lemma WalkStart(root: Node)
    requires root.Dir? && WellFormed(root)
    ensures WalkState(root, [], [[]], [Pending([], root.entries)], [], [])
  {
    PushPending([], Pending([], root.entries));
    assert [] + [Pending([], root.entries)] == [Pending([], root.entries)];
  }

  /** Popping a directory: its listing is what is read next. */
  lemma WalkPop(root: Node, found: seq<Keyed<nat>>, stack: seq<Text>, ps: seq<Pending>)
    requires root.Dir? && stack != [] && WalkState(root, found, stack, ps, [], [])
    ensures |ps| == |stack|
    ensures var n := |stack| - 1;
      && OnStack(root, stack[n], ps[n])
      && WalkState(root, found, stack[..n], ps[..n], ps[n].path, ps[n].entries)
      && Measure(ps[..n], ps[n].entries) < Measure(ps, [])
  {
    hide OnStack, AllFiles, Sizes, PendingFiles, PendingAdmissible, PendingSize, SizeIn, FilesIn, AdmissibleIn;
    EmptyListing([]);
    var n := |stack| - 1;
    assert ps == ps[..n] + [ps[n]];
    PushPending(ps[..n], ps[n]);
  }

  lemma WalkTakeDir(root: Node, found: seq<Keyed<nat>>, stack: seq<Text>, ps: seq<Pending>, rel: Text, p: Pending,
                    rest: seq<Keyed<Node>>)
    requires root.Dir? && WalkState(root, found, stack, ps, p.path, rest) && OnStack(root, rel, p)
    requires rest != [] && rest[0] in p.entries && rest[0].value.Dir?
    ensures var q := Pending(p.path + [rest[0].key], rest[0].value.entries);
      && WalkState(root, found, stack + [Child(rel, rest[0].key)], ps + [q], p.path, rest[1..])
      && Measure(ps + [q], rest[1..]) <= Measure(ps, rest)
  {
    hide OnStack, AllFiles, Sizes, PendingFiles, PendingAdmissible, PendingSize, SizeIn, FilesIn, AdmissibleIn, FilesOf,
      Admissible, Size, Child;
    var q := Pending(p.path + [rest[0].key], rest[0].value.entries);
    DirPushed(root, rel, p, rest[0]);
    EntryKinds(rest[0].value, q.path);
    FirstEntry(rest, p.path);
    PushPending(ps, q);
  }

  lemma WalkTakeFile(root: Node, found: seq<Keyed<nat>>, stack: seq<Text>, ps: seq<Pending>, rel: Text, p: Pending,
                     rest: seq<Keyed<Node>>)
    requires root.Dir? && WalkState(root, found, stack, ps, p.path, rest) && OnStack(root, rel, p)
    requires rest != [] && rest[0] in p.entries && rest[0].value.File?
    requires IsValidOutputFileName(Child(rel, rest[0].key))
    ensures var found' := found + [Keyed(Child(rel, rest[0].key), |rest[0].value.content|)];
      && WalkState(root, found', stack, ps, p.path, rest[1..])
      && |found'| <= |AllFiles(root)|
    ensures Measure(ps, rest[1..]) <= Measure(ps, rest)
  {
    hide OnStack, AllFiles, Sizes, PendingFiles, PendingAdmissible, PendingSize, SizeIn, FilesIn, AdmissibleIn, FilesOf,
      Admissible, Size, Child, IsValidOutputFileName, Join, Resolve, Split;
    ChildFound(root, rel, p, rest[0]);
    EntryKinds(rest[0].value, p.path + [rest[0].key]);
    FirstEntry(rest, p.path);
    var x := Keyed(Child(rel, rest[0].key), |rest[0].value.content|);
    assert Sizes(FilesOf(rest[0].value, p.path + [rest[0].key])) == [x];
    CountBound(found + [x], PendingFiles(ps) + multiset(Sizes(FilesIn(rest[1..], p.path))), AllFiles(root));
  }

  /** An entry that is neither a directory nor an admissible file settles the verdict. */
  lemma WalkReject(root: Node, found: seq<Keyed<nat>>, stack: seq<Text>, ps: seq<Pending>, rel: Text, p: Pending,
                   rest: seq<Keyed<Node>>)
    requires root.Dir? && WalkState(root, found, stack, ps, p.path, rest) && OnStack(root, rel, p)
    requires rest != [] && rest[0] in p.entries && !rest[0].value.Dir?
    requires rest[0].value.File? ==> !IsValidOutputFileName(Child(rel, rest[0].key))
    ensures !AdmissibleIn(root.entries, []) && Resolve(root, Split(Child(rel, rest[0].key))) == Some(rest[0].value)
  {
    ChildFound(root, rel, p, rest[0]);
    hide OnStack, IsValidOutputFileName, Join;
    FirstEntry(rest, p.path);
  }

  /** A listing read to its end leaves nothing of itself behind. */
  lemma WalkListingDone(root: Node, found: seq<Keyed<nat>>, stack: seq<Text>, ps: seq<Pending>, path: seq<Text>)
    requires root.Dir? && WalkState(root, found, stack, ps, path, [])
    ensures WalkState(root, found, stack, ps, [], [])
  {
  }

  lemma WalkDone(root: Node, found: seq<Keyed<nat>>, ps: seq<Pending>)
    requires root.Dir? && WalkState(root, found, [], ps, [], [])
    ensures AdmissibleIn(root.entries, []) && multiset(found) == multiset(Sizes(AllFiles(root)))
    ensures |found| == |AllFiles(root)|
  {
    assert multiset(found) == multiset(Sizes(AllFiles(root)));
    SamePermutation(found, Sizes(AllFiles(root)));
  }

  /** `_walk`: an explicit stack of directories still to read. It accepts exactly the trees `WalkAccepts` describes and
      then finds every regular file once. */
  method Walk(root: Node, maxFiles: int) returns (r: Result<seq<Keyed<nat>>>)
    requires root.Dir? && WellFormed(root)
    ensures r.Success? <==> WalkAccepts(root, maxFiles)
    ensures r.Success? ==> multiset(r.value) == multiset(Sizes(AllFiles(root)))
    ensures r.Failure? ==> Explains(root, maxFiles, r.error)
  {
    hide IsValidOutputFileName, Resolve, Split, Join, AllFiles, AdmissibleIn, WellFormed, Sizes, OnStack, Lookup, Child,
      WalkState, Measure;
    var found: seq<Keyed<nat>> := [];
    var stack: seq<Text> := [[]];
    ghost var ps := [Pending([], root.entries)];
    WalkStart(root);
    while stack != []
      invariant WalkState(root, found, stack, ps, [], []) && (found == [] || |found| <= maxFiles)
      decreases Measure(ps, [])
    {
      WalkPop(root, found, stack, ps);
      ghost var before := Measure(ps, []);
      var relDir := stack[|stack| - 1];
      ghost var p := ps[|stack| - 1];
      ListingFound(root, relDir, p);
      ps := ps[..|stack| - 1];
      stack := stack[..|stack| - 1];
      var listing := Lookup(root, relDir).value.entries;
      var j := 0;
      while j < |listing|
        invariant 0 <= j <= |listing| && WalkState(root, found, stack, ps, p.path, listing[j..])
        invariant found == [] || |found| <= maxFiles
        invariant Measure(ps, listing[j..]) < before
      {
        var entry := listing[j];
        var name := Child(relDir, entry.key);
        assert entry == listing[j..][0] && listing[j..][1..] == listing[j + 1..];
        match entry.value {
          case Link =>
            WalkReject(root, found, stack, ps, relDir, p, listing[j..]);
            return Failure(SymlinkNotAllowed(name));
          case Dir(es) =>
            WalkTakeDir(root, found, stack, ps, relDir, p, listing[j..]);
            stack := stack + [name];
            ps := ps + [Pending(p.path + [entry.key], es)];
          case Other =>
            WalkReject(root, found, stack, ps, relDir, p, listing[j..]);
            return Failure(NotARegularFile(name));
          case File(content) =>
            if !IsValidOutputFileName(name) {
              WalkReject(root, found, stack, ps, relDir, p, listing[j..]);
              return Failure(InvalidFileName(name));
            }
            WalkTakeFile(root, found, stack, ps, relDir, p, listing[j..]);
            found := found + [Keyed(name, |content|)];
            if |found| > maxFiles { return Failure(TooManyFiles); }
        }
        j := j + 1;
      }
      assert listing[j..] == [];
      WalkListingDone(root, found, stack, ps, p.path);
    }
    WalkDone(root, found, ps);
    r := Success(found);
  }

  lemma ListingFound(root: Node, rel: Text, p: Pending)
    requires OnStack(root, rel, p)
    ensures Lookup(root, rel) == Some(Dir(p.entries))
  {
  }

  lemma DirPushed(root: Node, rel: Text, p: Pending, e: Keyed<Node>)
    requires OnStack(root, rel, p) && e in p.entries && e.value.Dir?
    ensures OnStack(root, Child(rel, e.key), Pending(p.path + [e.key], e.value.entries))
  {
    ChildFound(root, rel, p, e);
  }

  lemma CountBound(found: seq<Keyed<nat>>, rest: multiset<Keyed<nat>>, all: seq<Keyed<Bytes>>)
    requires multiset(found) + rest == multiset(Sizes(all))
    ensures |found| <= |all|
  {
    assert |multiset(found) + rest| == |found| + |rest|;
    assert |multiset(Sizes(all))| == |all|;
  }

  // ---- opening and reading ----

  /** What opening a name without following links gives: the content of the regular file there, or an error. */
  function Opened(root: Node, name: Text): Result<Bytes> {
    match Resolve(root, Split(name))
    case Some(File(c)) => Success(c)
    case Some(Dir(_)) => Failure(NotARegularFile(name))
    case Some(Other) => Failure(NotARegularFile(name))
    case Some(Link) => Failure(CannotRead(name))
    case None => Failure(CannotRead(name))
  }

  /** `_open_nofollow`: one directory descriptor at a time, refusing a link at every segment. */
  method OpenNofollow(root: Node, name: Text) returns (r: Result<Bytes>)
    ensures r == Opened(root, name)
  {
    var segs := Split(name);
    var dir := root;
    if !dir.Dir? { return Failure(CannotRead(name)); }
    var i := 0;
    while i < |segs| - 1
      invariant 0 <= i <= |segs| - 1 && dir.Dir? && Resolve(root, segs) == Resolve(dir, segs[i..])
    {
      var next := Get(dir.entries, segs[i]);
      assert segs[i..][1..] == segs[i + 1..];
      if next.None? || !next.value.Dir? { return Failure(CannotRead(name)); }
      dir := next.value;
      i := i + 1;
    }
    var last := Get(dir.entries, segs[i]);
    assert segs[i..] == [segs[i]];
    if last.None? || last.value.Link? { return Failure(CannotRead(name)); }
    if !last.value.File? { return Failure(NotARegularFile(name)); }
    r := Success(last.value.content);
  }

  /** In an unchanged tree each collected name opens the very file the walk saw. */
  lemma WalkedNamesOpen(root: Node, x: Keyed<Bytes>)
    requires root.Dir? && WellFormed(root) && x in AllFiles(root)
    ensures Opened(root, x.key) == Success(x.value)
  {
    FilesAreTheReachableFiles(root, x.key, x.value);
  }

  /** `f.read(n)` of a regular file; a request for nothing or less would read everything in Python. */
  function ReadAtMost(content: Bytes, n: int): Bytes
    requires n >= 1
  {
    content[..Min(n, |content|)]
  }

  // ---- collecting ----

  /** A collected file, as the dictionary `collect_output_files` builds. */
  datatype OutFile = OutFile(name: Text, size: nat, sha256: Bytes, fileType: Bytes, content: Bytes)

  function Describe(h: Hash, name: Text, content: Bytes): OutFile {
    OutFile(name, |content|, Hex.Encode(h(content)), OutputFileType(name), content)
  }

  function SumSizes(s: seq<Keyed<nat>>): nat { if s == [] then 0 else s[0].value + SumSizes(s[1..]) }

  lemma {:induction false} SumInsert(x: Keyed<nat>, s: seq<Keyed<nat>>)
    ensures SumSizes(Insert(x, s)) == x.value + SumSizes(s)
  {
    if s == [] || !Less(s[0].key, x.key) {
      assert ([x] + s)[1..] == s;
    } else {
      SumInsert(x, s[1..]);
      assert Insert(x, s)[1..] == Insert(x, s[1..]);
    }
  }

  lemma {:induction false} SumSort(s: seq<Keyed<nat>>)
    ensures SumSizes(Sort(s)) == SumSizes(s)
  {
    if s != [] {
      SumSort(s[1..]);
      SumInsert(s[0], Sort(s[1..]));
    }
  }

  /** What the walk found, once sorted, is the sorted list of all files with their sizes. */
  lemma SortedWalk(root: Node, found: seq<Keyed<nat>>)
    requires root.Dir? && WellFormed(root) && multiset(found) == multiset(Sizes(AllFiles(root)))
    ensures Sort(found) == Sizes(Sort(AllFiles(root)))
    ensures SumSizes(found) == SumSizes(Sizes(Sort(AllFiles(root))))
  {
    hide Sort, FilesIn;
    var all := AllFiles(root);
    FilesDistinct(root.entries, []);
    SortStrict(all);
    SamePermutation(found, Sizes(all));
    DistinctPermuted(found, Sizes(all));
    SortStrict(found);
    forall x ensures x in Sort(found) <==> x in Sizes(Sort(all)) {
      SortMember(found, x);
      SizesMember(all, x);
      SizesMember(Sort(all), x);
      SortMembers(all);
    }
    StrictSortedUnique(Sort(found), Sizes(Sort(all)));
    SumSort(found);
  }

  lemma SizesMember(files: seq<Keyed<Bytes>>, x: Keyed<nat>)
    ensures x in Sizes(files) <==> exists f :: f in files && x == Keyed(f.key, |f.value|)
  {
    forall f | f in files && x == Keyed(f.key, |f.value|) ensures x in Sizes(files) {
      var i :| 0 <= i < |files| && files[i] == f;
      assert Sizes(files)[i] == x;
    }
    if x in Sizes(files) {
      var i :| 0 <= i < |files| && Sizes(files)[i] == x;
      assert files[i] in files;
    }
  }

  function SortedNames(root: Node): (names: seq<Text>)
    requires root.Dir?
    ensures |names| == |Sort(AllFiles(root))|
  {
    var s := Sort(AllFiles(root));
    seq(|s|, i requires 0 <= i < |s| => s[i].key)
  }

  /** The first `n` names can all be opened when their turn comes; `at(k)` is the tree at the k-th opening. */
  ghost predicate Readable(at: nat -> Node, names: seq<Text>, n: nat)
    requires n <= |names|
  {
    forall k :: 0 <= k < n ==> Opened(at(k), names[k]).Success?
  }

  ghost function ReadTotal(at: nat -> Node, names: seq<Text>, n: nat): nat
    requires n <= |names| && Readable(at, names, n)
  {
    if n == 0 then 0 else ReadTotal(at, names, n - 1) + |Opened(at(n - 1), names[n - 1]).value|
  }

  lemma {:induction false} ReadTotalGrows(at: nat -> Node, names: seq<Text>, m: nat, n: nat)
    requires m <= n <= |names| && Readable(at, names, n)
    ensures ReadTotal(at, names, m) <= ReadTotal(at, names, n)
  {
    if m < n { ReadTotalGrows(at, names, m, n - 1); }
  }

  lemma ReadNone(at: nat -> Node, names: seq<Text>)
    ensures Readable(at, names, 0) && ReadTotal(at, names, 0) == 0
  {
  }

  lemma ReadStep(at: nat -> Node, names: seq<Text>, n: nat)
    requires n < |names| && Readable(at, names, n) && Opened(at(n), names[n]).Success?
    ensures Readable(at, names, n + 1)
    ensures ReadTotal(at, names, n + 1) == ReadTotal(at, names, n) + |Opened(at(n), names[n]).value|
  {
  }

  lemma Unreadable(at: nat -> Node, names: seq<Text>, n: nat)
    requires n < |names| && Opened(at(n), names[n]).Failure?
    ensures !Readable(at, names, |names|)
  {
  }

  /** When collecting succeeds, whatever happens to the tree between the walk and the reads. */
  ghost predicate Collectable(root: Node, at: nat -> Node, maxFiles: int, maxTotal: int)
    requires root.Dir?
  {
    && WalkAccepts(root, maxFiles)
    && SumSizes(Sizes(Sort(AllFiles(root)))) <= maxTotal
    && Readable(at, SortedNames(root), |SortedNames(root)|)
    && ReadTotal(at, SortedNames(root), |SortedNames(root)|) <= maxTotal
  }

  /** The reading half of `collect_output_files`: open and read each name within what is left of the budget. */
  method ReadFiles(h: Hash, at: nat -> Node, names: seq<Text>, maxTotal: int) returns (r: Result<seq<OutFile>>)
    requires maxTotal >= 0
    ensures r.Success? <==> Readable(at, names, |names|) && ReadTotal(at, names, |names|) <= maxTotal
    ensures r.Success? ==> |r.value| == |names|
    ensures r.Success? ==> forall k :: 0 <= k < |names| ==>
      Opened(at(k), names[k]).Success? && r.value[k] == Describe(h, names[k], Opened(at(k), names[k]).value)
  {
    hide Opened, Describe, ReadTotal, Readable;
    ReadNone(at, names);
    var files: seq<OutFile> := [];
    var total := 0;
    var i := 0;
    while i < |names|
      invariant 0 <= i <= |names| && |files| == i
      invariant Readable(at, names, i) && total == ReadTotal(at, names, i) <= maxTotal
      invariant forall k :: 0 <= k < i ==>
        Opened(at(k), names[k]).Success? && files[k] == Describe(h, names[k], Opened(at(k), names[k]).value)
    {
      var fd := OpenNofollow(at(i), names[i]);
      if fd.Failure? {
        Unreadable(at, names, i);
        return Failure(fd.error);
      }
      var content := ReadAtMost(fd.value, maxTotal - total + 1);
      ReadStep(at, names, i);
      total := total + |content|;
      if total > maxTotal {
        if Readable(at, names, |names|) { ReadTotalGrows(at, names, i + 1, |names|); }
        return Failure(TotalSizeTooLarge);
      }
      assert content == fd.value;
      files := files + [Describe(h, names[i], content)];
      i := i + 1;
    }
    r := Success(files);
  }

  /** `collect_output_files`: on success every file holds its complete contents as they were when it was opened, their
      sum is within the budget, and sizes and hashes describe those very bytes. */
  method CollectOutputFiles(h: Hash, outputs: Option<Node>, at: nat -> Node, maxFiles: int, maxTotal: int)
    returns (r: Result<seq<OutFile>>)
    requires outputs.Some? ==> WellFormed(outputs.value)
    ensures outputs.None? ==> r == Success([])
    ensures outputs.Some? && !outputs.value.Dir? ==> r == Failure(OutputsNotADirectory)
    ensures outputs.Some? && outputs.value.Dir? ==> (r.Success? <==> Collectable(outputs.value, at, maxFiles, maxTotal))
    ensures outputs.Some? && r.Success? ==>
      var names := SortedNames(outputs.value);
      && |r.value| == |names|
      && (forall k :: 0 <= k < |names| ==> r.value[k] == Describe(h, names[k], Opened(at(k), names[k]).value))
      && forall k :: 0 <= k < |names| ==>
           var content := Opened(at(k), names[k]).value;
           r.value[k] == OutFile(names[k], |content|, Hex.Encode(h(content)), OutputFileType(names[k]), content)
  {
    hide Sort, AllFiles, Opened, AdmissibleIn, WellFormed, SumSizes, ReadTotal, OutputFileType, Hex.Encode;
    if outputs.None? { return Success([]); }
    var root := outputs.value;
    if !root.Dir? { return Failure(OutputsNotADirectory); }
    var walked := Walk(root, maxFiles);
    if walked.Failure? { return Failure(walked.error); }
    SortedWalk(root, walked.value);
    if SumSizes(walked.value) > maxTotal { return Failure(TotalSizeTooLarge); }
    var entries := Sort(walked.value);
    var names := seq(|entries|, i requires 0 <= i < |entries| => entries[i].key);
    assert names == SortedNames(root);
    r := ReadFiles(h, at, names, maxTotal);
  }

  /** The names an accepted tree is collected under are strictly sorted and obey the name rule. */
  lemma CollectedNames(root: Node, maxFiles: int)
    requires root.Dir? && WellFormed(root) && WalkAccepts(root, maxFiles)
    ensures forall i :: 0 <= i < |SortedNames(root)| ==> IsValidOutputFileName(SortedNames(root)[i])
    ensures forall i, j :: 0 <= i < j < |SortedNames(root)| ==> SortedNames(root)[i] != SortedNames(root)[j]
  {
    hide Sort, FilesIn, AdmissibleIn, IsValidOutputFileName, Split, Join;
    var all := AllFiles(root);
    FilesDistinct(root.entries, []);
    SortStrict(all);
    StrictIsDistinct(Sort(all));
    forall i | 0 <= i < |Sort(all)| ensures IsValidOutputFileName(Sort(all)[i].key) {
      var x := Sort(all)[i];
      assert x in Sort(all);
      SortMember(all, x);
      FilesAreTheReachableFiles(root, x.key, x.value);
      AdmissibleIsGood(root.entries, [], Split(x.key));
      assert [] + Split(x.key) == Split(x.key);
      JoinSplit(x.key);
    }
  }

  // ---- collecting from a tree that holds still ----

  /** The same tree at every opening. */
  function Still(root: Node): nat -> Node { (k: nat) => root }

  /** The files of an unchanged tree, described in name order. */
  function Collected(h: Hash, root: Node): (files: seq<OutFile>)
    requires root.Dir?
    ensures |files| == |Sort(AllFiles(root))|
  {
    var s := Sort(AllFiles(root));
    seq(|s|, i requires 0 <= i < |s| => Describe(h, s[i].key, s[i].value))
  }

  lemma {:induction false} StillTotal(root: Node, n: nat)
    requires root.Dir? && WellFormed(root) && n <= |SortedNames(root)|
    ensures forall k :: 0 <= k < n ==> Opened(root, SortedNames(root)[k]) == Success(Sort(AllFiles(root))[k].value)
    ensures Readable(Still(root), SortedNames(root), n)
    ensures ReadTotal(Still(root), SortedNames(root), n) + SumSizes(Sizes(Sort(AllFiles(root)))[n..])
         == SumSizes(Sizes(Sort(AllFiles(root))))
  {
    hide Sort, FilesIn, Opened, WellFormed;
    var s := Sort(AllFiles(root));
    var z := Sizes(s);
    if n == 0 {
      assert z[0..] == z;
    } else {
      StillTotal(root, n - 1);
      assert s[n - 1] in s;
      SortMember(AllFiles(root), s[n - 1]);
      WalkedNamesOpen(root, s[n - 1]);
      assert z[n - 1..][1..] == z[n..];
    }
  }

  /** With no interference, collecting succeeds exactly when the walk accepts and the files fit the budget, and then
      returns every regular file of the tree, complete, in name order. */
  lemma StillTree(h: Hash, root: Node, maxFiles: int, maxTotal: int)
    requires root.Dir? && WellFormed(root)
    ensures Collectable(root, Still(root), maxFiles, maxTotal) <==>
            WalkAccepts(root, maxFiles) && SumSizes(Sizes(Sort(AllFiles(root)))) <= maxTotal
    ensures forall k :: 0 <= k < |SortedNames(root)| ==>
      && Opened(root, SortedNames(root)[k]).Success?
      && Describe(h, SortedNames(root)[k], Opened(root, SortedNames(root)[k]).value) == Collected(h, root)[k]
  {
    hide Sort, FilesIn, Opened, AdmissibleIn, WellFormed, OutputFileType;
    var names := SortedNames(root);
    StillTotal(root, |names|);
    assert Sizes(Sort(AllFiles(root)))[|names|..] == [];
  }

  /** Any two listing orders of the same tree are accepted alike and give the same files. */
  lemma CollectionIgnoresListingOrder(h: Hash, a: Node, b: Node, maxFiles: int, maxTotal: int)
    requires a.Dir? && b.Dir? && WellFormed(a) && WellFormed(b) && SameTree(a, b)
    ensures Collectable(a, Still(a), maxFiles, maxTotal) <==> Collectable(b, Still(b), maxFiles, maxTotal)
    ensures Collected(h, a) == Collected(h, b)
  {
    hide Sort, FilesIn, AdmissibleIn, WellFormed, SameTree, Collectable;
    ListingOrderIndependent(a, b);
    StillTree(h, a, maxFiles, maxTotal);
    StillTree(h, b, maxFiles, maxTotal);
  }

  /** Listing every directory of a tree anew, at every depth and in any order, changes nothing. */
  lemma AnyListingOrder(h: Hash, a: Node, b: Node, maxFiles: int, maxTotal: int)
    requires a.Dir? && WellFormed(a) && Reordered(a, b)
    ensures b.Dir? && WellFormed(b)
    ensures WalkAccepts(a, maxFiles) <==> WalkAccepts(b, maxFiles)
    ensures Collectable(a, Still(a), maxFiles, maxTotal) <==> Collectable(b, Still(b), maxFiles, maxTotal)
    ensures Collected(h, a) == Collected(h, b)
  {
    hide Sort, FilesIn, AdmissibleIn, SameTree, Collectable, Collected;
    ReorderedSame(a, b);
    ListingOrderIndependent(a, b);
    CollectionIgnoresListingOrder(h, a, b, maxFiles, maxTotal);
  }
}
