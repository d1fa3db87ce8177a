/** Python's order on `str` and `sorted` on keyed items. */
module Ordering {
  import opened Basics

  /** Code-point lexicographic `<`. */
  predicate Less(a: Text, b: Text) {
    b != [] && (a == [] || a[0] < b[0] || (a[0] == b[0] && Less(a[1..], b[1..])))
  }

  /** Python's order of strings: at the first difference the smaller code point comes first, and a proper front part
      comes before the whole. */
  lemma {:induction false} LessIs(a: Text, b: Text, k: nat)
    requires k <= |a| && k <= |b| && a[..k] == b[..k]
    ensures k < |a| && k < |b| && a[k] < b[k] ==> Less(a, b) && !Less(b, a)
    ensures k == |a| < |b| ==> Less(a, b) && !Less(b, a)
    decreases k
  {
    if k > 0 {
      assert a[0] == a[..k][0] && b[0] == b[..k][0];
      assert a[1..][..k - 1] == a[..k][1..] && b[1..][..k - 1] == b[..k][1..];
      LessIs(a[1..], b[1..], k - 1);
    }
  }

  lemma {:induction false} LessIrreflexive(a: Text)
    ensures !Less(a, a)
  {
    if a != [] { LessIrreflexive(a[1..]); }
  }

  lemma {:induction false} LessTransitive(a: Text, b: Text, c: Text)
    requires Less(a, b) && Less(b, c)
    ensures Less(a, c)
  {
    if a != [] && a[0] == b[0] == c[0] { LessTransitive(a[1..], b[1..], c[1..]); }
  }

  lemma {:induction false} LessTotal(a: Text, b: Text)
    ensures Less(a, b) || a == b || Less(b, a)
  {
    if a != [] && b != [] && a[0] == b[0] {
      LessTotal(a[1..], b[1..]);
      assert a == [a[0]] + a[1..] && b == [b[0]] + b[1..];
    }
  }

  /** Stable insertion: an item goes before the ones with an equal key. */
  function Insert<T>(x: Keyed<T>, s: seq<Keyed<T>>): seq<Keyed<T>> {
    if s == [] || !Less(s[0].key, x.key) then [x] + s else [s[0]] + Insert(x, s[1..])
  }

  /** `sorted(items, key=...)`. */
  function Sort<T>(s: seq<Keyed<T>>): seq<Keyed<T>> {
    if s == [] then [] else Insert(s[0], Sort(s[1..]))
  }

  ghost predicate DistinctKeys<T>(s: seq<Keyed<T>>) {
    forall i, j :: 0 <= i < j < |s| ==> s[i].key != s[j].key
  }

  ghost predicate StrictSorted<T>(s: seq<Keyed<T>>) {
    forall i, j :: 0 <= i < j < |s| ==> Less(s[i].key, s[j].key)
  }

  lemma {:induction false} InsertMembers<T>(x: Keyed<T>, s: seq<Keyed<T>>)
    ensures multiset(Insert(x, s)) == multiset{x} + multiset(s)
  {
    if !(s == [] || !Less(s[0].key, x.key)) {
      InsertMembers(x, s[1..]);
      assert s == [s[0]] + s[1..];
    }
  }

  /** Sorting rearranges and nothing else. */
  lemma {:induction false} SortPermutes<T>(s: seq<Keyed<T>>)
    ensures multiset(Sort(s)) == multiset(s)
  {
    if s != [] {
      SortPermutes(s[1..]);
      InsertMembers(s[0], Sort(s[1..]));
      assert s == [s[0]] + s[1..];
    }
  }

  lemma SortMembers<T>(s: seq<Keyed<T>>)
    ensures |Sort(s)| == |s|
    ensures forall x :: x in Sort(s) <==> x in s
  {
    SortPermutes(s);
    SamePermutation(Sort(s), s);
  }

  lemma SortMember<T>(s: seq<Keyed<T>>, x: Keyed<T>)
    ensures x in Sort(s) <==> x in s
  {
    SortMembers(s);
  }

  lemma SamePermutation<T>(a: seq<T>, b: seq<T>)
    requires multiset(a) == multiset(b)
    ensures |a| == |b|
    ensures forall x :: x in a <==> x in b
  {
    assert |multiset(a)| == |a| && |multiset(b)| == |b|;
    forall x ensures x in a <==> x in b {
      assert x in a <==> x in multiset(a);
      assert x in b <==> x in multiset(b);
    }
  }

  lemma {:induction false} InsertStrict<T>(x: Keyed<T>, s: seq<Keyed<T>>)
    requires StrictSorted(s)
    requires forall y :: y in s ==> y.key != x.key
    ensures StrictSorted(Insert(x, s))
  {
    if s == [] {
    } else if !Less(s[0].key, x.key) {
      LessTotal(x.key, s[0].key);
      assert s[0] in s;
      forall i | 0 < i < |s| ensures Less(x.key, s[i].key) { LessTransitive(x.key, s[0].key, s[i].key); }
    } else {
      InsertStrict(x, s[1..]);
      InsertMembers(x, s[1..]);
      var r := Insert(x, s[1..]);
      forall i | 0 <= i < |r| ensures Less(s[0].key, r[i].key) {
        assert r[i] in multiset(r);
        assert r[i] == x || r[i] in s[1..];
      }
    }
  }

  lemma TailKeys<T>(s: seq<Keyed<T>>)
    requires s != [] && DistinctKeys(s)
    ensures forall y :: y in s[1..] ==> y.key != s[0].key
  {
    assert forall i :: 0 <= i < |s[1..]| ==> s[1..][i] == s[i + 1];
  }

  /** Items with distinct keys come out in strictly increasing order. */
  lemma {:induction false} SortStrict<T>(s: seq<Keyed<T>>)
    requires DistinctKeys(s)
    ensures StrictSorted(Sort(s))
  {
    if s != [] {
      SortStrict(s[1..]);
      SortPermutes(s[1..]);
      TailKeys(s);
      var r := Sort(s[1..]);
      assert forall y :: y in r ==> y in multiset(s[1..]);
      InsertStrict(s[0], r);
    }
  }

  /** A strictly increasing list is determined by its members. */
  lemma {:induction false} StrictSortedUnique<T>(a: seq<Keyed<T>>, b: seq<Keyed<T>>)
    requires StrictSorted(a) && StrictSorted(b)
    requires forall x :: x in a <==> x in b
    ensures a == b
  {
    assert a == [] || a[0] in b;
    assert b == [] || b[0] in a;
    if a != [] {
      var i :| 0 <= i < |b| && b[i] == a[0];
      var j :| 0 <= j < |a| && a[j] == b[0];
      if i != 0 {
        LessIrreflexive(a[0].key);
        if j != 0 { LessTransitive(a[0].key, b[0].key, a[0].key); }
      }
      assert a[0] == b[0];
      forall x ensures x in a[1..] <==> x in b[1..] {
        LessIrreflexive(a[0].key);
        if x in a[1..] { assert x in a; assert x in b && x != b[0]; }
        if x in b[1..] { assert x in b; assert x in a && x != a[0]; }
      }
      StrictSortedUnique(a[1..], b[1..]);
      assert a == [a[0]] + a[1..] && b == [b[0]] + b[1..];
    }
  }

  lemma TwiceIn<T>(s: seq<Keyed<T>>, i: nat, j: nat)
    requires i < j < |s| && s[i] == s[j]
    ensures multiset(s)[s[i]] >= 2
  {
    assert s == s[..j] + [s[j]] + s[j + 1..];
    assert s[i] in s[..j];
  }

  lemma {:induction false} OnceIn<T>(s: seq<Keyed<T>>, x: Keyed<T>)
    requires DistinctKeys(s)
    ensures multiset(s)[x] <= 1
  {
    if s != [] {
      OnceIn(s[1..], x);
      TailKeys(s);
      assert s == [s[0]] + s[1..];
    }
  }

  /** Distinct keys stay distinct in any order. */
  lemma DistinctPermuted<T>(a: seq<Keyed<T>>, b: seq<Keyed<T>>)
    requires DistinctKeys(b) && multiset(a) == multiset(b)
    ensures DistinctKeys(a)
  {
    SamePermutation(a, b);
    forall i, j | 0 <= i < j < |a| ensures a[i].key != a[j].key {
      if a[i].key == a[j].key {
        assert a[i] in b && a[j] in b;
        assert a[i] == a[j];
        TwiceIn(a, i, j);
        OnceIn(b, a[i]);
      }
    }
  }

  /** The value of the first item with key `k`, as a dictionary lookup. */
  function Get<T>(s: seq<Keyed<T>>, k: Text): Option<T> {
    if s == [] then None else if s[0].key == k then Some(s[0].value) else Get(s[1..], k)
  }

  /** With distinct keys, lookup is membership. */
  lemma {:induction false} GetIsMembership<T>(s: seq<Keyed<T>>, k: Text, v: T)
    requires DistinctKeys(s)
    ensures Get(s, k) == Some(v) <==> Keyed(k, v) in s
  {
    if s != [] {
      GetIsMembership(s[1..], k, v);
      assert s == [s[0]] + s[1..];
      assert forall i :: 0 <= i < |s[1..]| ==> s[1..][i] == s[i + 1];
    }
  }

  lemma StrictIsDistinct<T>(s: seq<Keyed<T>>)
    requires StrictSorted(s)
    ensures DistinctKeys(s)
  {
    forall i, j | 0 <= i < j < |s| ensures s[i].key != s[j].key { LessIrreflexive(s[i].key); }
  }

  /** Printing a dictionary with sorted keys does not change what its keys mean. */
  lemma GetSorted<T>(s: seq<Keyed<T>>, k: Text)
    requires DistinctKeys(s)
    ensures Get(Sort(s), k) == Get(s, k)
  {
    hide Sort, Get, DistinctKeys, StrictSorted;
    SortPermutes(s);
    SortStrict(s);
    StrictIsDistinct(Sort(s));
    if Get(Sort(s), k).Some? {
      var v := Get(Sort(s), k).value;
      GetIsMembership(Sort(s), k, v);
      assert Keyed(k, v) in multiset(s);
      GetIsMembership(s, k, v);
    } else if Get(s, k).Some? {
      var v := Get(s, k).value;
      GetIsMembership(s, k, v);
      assert Keyed(k, v) in multiset(Sort(s));
      GetIsMembership(Sort(s), k, v);
    }
  }
}
