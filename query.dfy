/** The derived list views every page builds from its state: `Array.filter`,
    the distinct values behind the filter dropdowns (`Array.from(new Set(...))`),
    and `Array.sort` with a numeric comparator. */
module Query {

  // ---------------------------------------------------------------------------
  // Filter

  /** `s.filter(p)`. */
  function Filter<T>(s: seq<T>, p: T -> bool): (r: seq<T>)
    ensures |r| <= |s|
    ensures forall k :: 0 <= k < |r| ==> p(r[k])
  {
    if s == [] then [] else (if p(s[0]) then [s[0]] else []) + Filter(s[1..], p)
  }

  /** One step of the filter: the head, if it satisfies p, then the filtered tail. */
  lemma FilterCons<T>(x: T, s: seq<T>, p: T -> bool)
    ensures Filter([x] + s, p) == (if p(x) then [x] else []) + Filter(s, p)
  {
    assert ([x] + s)[0] == x;
    assert ([x] + s)[1..] == s;
  }

  /** Filtering distributes over concatenation: the kept elements stay in their
      original relative order. */
  lemma {:induction false} FilterAppend<T>(a: seq<T>, b: seq<T>, p: T -> bool)
    ensures Filter(a + b, p) == Filter(a, p) + Filter(b, p)
  {
    if a == [] {
      assert a + b == b;
    } else {
      FilterAppend(a[1..], b, p);
      assert a == [a[0]] + a[1..];
      assert a + b == [a[0]] + (a[1..] + b);
      FilterCons(a[0], a[1..], p);
      FilterCons(a[0], a[1..] + b, p);
    }
  }

  /** An element is kept exactly when it is in the input and satisfies the predicate. */
  lemma {:induction false} FilterMembership<T>(s: seq<T>, p: T -> bool, x: T)
    ensures x in Filter(s, p) <==> x in s && p(x)
  {
    if s != [] {
      FilterMembership(s[1..], p, x);
      assert s == [s[0]] + s[1..];
    }
  }

  /** As a multiset, the result is the input restricted to the elements satisfying p. */
  lemma {:induction false} FilterMultiplicity<T>(s: seq<T>, p: T -> bool, x: T)
    ensures multiset(Filter(s, p))[x] == if p(x) then multiset(s)[x] else 0
  {
    if s != [] {
      FilterMultiplicity(s[1..], p, x);
      assert s == [s[0]] + s[1..];
    }
  }

  /** When every element satisfies p, filtering keeps the whole list. */
  lemma {:induction false} FilterKeepsAll<T>(s: seq<T>, p: T -> bool)
    requires forall k :: 0 <= k < |s| ==> p(s[k])
    ensures Filter(s, p) == s
  {
    if s != [] {
      FilterKeepsAll(s[1..], p);
    }
  }

  /** When no element satisfies p, filtering yields nothing. */
  lemma {:induction false} FilterKeepsNone<T>(s: seq<T>, p: T -> bool)
    requires forall k :: 0 <= k < |s| ==> !p(s[k])
    ensures Filter(s, p) == []
  {
    if s != [] {
      FilterKeepsNone(s[1..], p);
    }
  }

  /** Filtering twice with the same predicate is filtering once. */
  lemma FilterIdempotent<T>(s: seq<T>, p: T -> bool)
    ensures Filter(Filter(s, p), p) == Filter(s, p)
  {
    FilterKeepsAll(Filter(s, p), p);
  }

  /** Two filters in sequence keep what their conjunction keeps. */
  lemma {:induction false} FilterFilter<T>(s: seq<T>, p: T -> bool, q: T -> bool, pq: T -> bool)
    requires forall x :: pq(x) == (p(x) && q(x))
    ensures Filter(Filter(s, p), q) == Filter(s, pq)
  {
    if s != [] {
      FilterFilter(s[1..], p, q, pq);
      FilterAppend(if p(s[0]) then [s[0]] else [], Filter(s[1..], p), q);
    }
  }

  /** Counts through filters: predicates that never hold together and between
      them cover every element of s split its length. */
  lemma {:induction false} FilterPartition3<T>(s: seq<T>, p: T -> bool, q: T -> bool, r: T -> bool)
    requires forall k :: 0 <= k < |s| ==>
      (if p(s[k]) then 1 else 0) + (if q(s[k]) then 1 else 0) + (if r(s[k]) then 1 else 0) == 1
    ensures |Filter(s, p)| + |Filter(s, q)| + |Filter(s, r)| == |s|
  {
    if s != [] {
      FilterPartition3(s[1..], p, q, r);
    }
  }

  /** Two-way version of the partition: an element either satisfies p or q, never both. */
  lemma {:induction false} FilterPartition2<T>(s: seq<T>, p: T -> bool, q: T -> bool)
    requires forall k :: 0 <= k < |s| ==> p(s[k]) != q(s[k])
    ensures |Filter(s, p)| + |Filter(s, q)| == |s|
  {
    if s != [] {
      FilterPartition2(s[1..], p, q);
    }
  }

  /** A weaker predicate keeps at least as many elements. */
  lemma {:induction false} FilterMonotone<T>(s: seq<T>, p: T -> bool, q: T -> bool)
    requires forall k :: 0 <= k < |s| ==> p(s[k]) ==> q(s[k])
    ensures |Filter(s, p)| <= |Filter(s, q)|
  {
    if s != [] {
      FilterMonotone(s[1..], p, q);
    }
  }

  // ---------------------------------------------------------------------------
  // Distinct values, in order of first appearance

  predicate NoDuplicates<T(==)>(s: seq<T>) {
    forall i, j :: 0 <= i < j < |s| ==> s[i] != s[j]
  }

  /** Position of the first occurrence of x in s. */
  function FirstIndex<T(==)>(s: seq<T>, x: T): (i: nat)
    requires x in s
    ensures i < |s| && s[i] == x && x !in s[..i]
  {
    if s[0] == x then 0 else 1 + FirstIndex(s[1..], x)
  }

  /** `Array.from(new Set(s))`: a Set remembers insertion order, so each value
      appears once, where it first appeared. */
  function Distinct<T(==)>(s: seq<T>): (r: seq<T>)
    ensures NoDuplicates(r)
    ensures forall k :: 0 <= k < |r| ==> r[k] in s
    ensures forall k :: 0 <= k < |s| ==> s[k] in r
  {
    if s == [] then []
    else
      var d := Distinct(s[..|s| - 1]);
      assert forall k :: 0 <= k < |s| - 1 ==> s[k] == s[..|s| - 1][k];
      if s[|s| - 1] in d then d else d + [s[|s| - 1]]
  }

  lemma FirstIndexPrefix<T>(s: seq<T>, n: nat, x: T)
    requires n <= |s| && x in s[..n]
    ensures x in s && FirstIndex(s[..n], x) == FirstIndex(s, x)
  {
    var i := FirstIndex(s[..n], x);
    assert s[..n][..i] == s[..i];
    FirstIndexUnique(s, x, i);
  }

  lemma {:induction false} FirstIndexUnique<T>(s: seq<T>, x: T, i: nat)
    requires i < |s| && s[i] == x && x !in s[..i]
    ensures FirstIndex(s, x) == i
  {
    if i > 0 {
      assert s[0] != x by { assert s[0] == s[..i][0]; }
      assert s[1..][..i - 1] == s[..i][1..];
      FirstIndexUnique(s[1..], x, i - 1);
    }
  }

  /** The distinct values are listed in the order in which they first occur. */
  lemma {:induction false} DistinctFirstAppearance<T>(s: seq<T>, i: nat, j: nat)
    requires i < j < |Distinct(s)|
    ensures Distinct(s)[i] in s && Distinct(s)[j] in s
    ensures FirstIndex(s, Distinct(s)[i]) < FirstIndex(s, Distinct(s)[j])
  {
    var n := |s| - 1;
    var init := s[..n];
    var d := Distinct(init);
    var r := Distinct(s);
    if s[n] in d {
      assert r == d;
      DistinctFirstAppearance(init, i, j);
      FirstIndexPrefix(s, n, r[i]);
      FirstIndexPrefix(s, n, r[j]);
    } else {
      assert r == d + [s[n]];
      if j < |d| {
        DistinctFirstAppearance(init, i, j);
        FirstIndexPrefix(s, n, r[i]);
        FirstIndexPrefix(s, n, r[j]);
      } else {
        assert r[j] == s[n] && r[i] == d[i] && d[i] in init;
        FirstIndexPrefix(s, n, r[i]);
        assert s[n] !in init;
        FirstIndexUnique(s, s[n], n);
      }
    }
  }

  /** `xs.map(f)`. */
  function Column<T, U>(s: seq<T>, f: T -> U): (cs: seq<U>)
    ensures |cs| == |s| && forall i :: 0 <= i < |s| ==> cs[i] == f(s[i])
  {
    seq(|s|, i requires 0 <= i < |s| => f(s[i]))
  }

  /** `Array.from(new Set(xs.map(f)))`: every value of the column appears
      once, nothing else appears, and the order is that of first appearance. */
  lemma DistinctColumnSpec<T, U>(s: seq<T>, f: T -> U, i: nat, j: nat)
    ensures NoDuplicates(Distinct(Column(s, f)))
    ensures forall k :: 0 <= k < |s| ==> f(s[k]) in Distinct(Column(s, f))
    ensures forall k :: 0 <= k < |Distinct(Column(s, f))| ==>
              exists m :: 0 <= m < |s| && f(s[m]) == Distinct(Column(s, f))[k]
    ensures i < j < |Distinct(Column(s, f))| ==>
              FirstIndex(Column(s, f), Distinct(Column(s, f))[i]) < FirstIndex(Column(s, f), Distinct(Column(s, f))[j])
  {
    var cs := Column(s, f);
    var d := Distinct(cs);
    forall k | 0 <= k < |s| ensures f(s[k]) in d {
      assert cs[k] == f(s[k]);
    }
    forall k | 0 <= k < |d| ensures exists m :: 0 <= m < |s| && f(s[m]) == d[k] {
      var m := FirstIndex(cs, d[k]);
      assert f(s[m]) == d[k];
    }
    if i < j < |d| {
      DistinctFirstAppearance(cs, i, j);
    }
  }

  // ---------------------------------------------------------------------------
  // Sort with a comparator

  /** What the insertion sort below needs to put a list in order: any two
      elements are comparable and "not after" is transitive. */
  ghost predicate IsTotalPreorder<T(!new)>(cmp: (T, T) -> int) {
    && (forall a, b :: cmp(a, b) <= 0 || cmp(b, a) <= 0)
    && (forall a, b, c :: cmp(a, b) <= 0 && cmp(b, c) <= 0 ==> cmp(a, c) <= 0)
  }

  /** Swapping the arguments flips the sign of the answer. */
  ghost predicate SignAntisymmetric<T(!new)>(cmp: (T, T) -> int) {
    forall a, b :: cmp(a, b) < 0 <==> cmp(b, a) > 0
  }

  /** A consistent comparator in the sense of the `Array.prototype.sort`
      section of ECMA-262: a total preorder whose sign flips with its
      arguments. Only for such a comparator does the language fix the order a
      sort produces; a comparator that answers -1 whatever it is given is a
      total preorder but not consistent. */
  ghost predicate IsConsistent<T(!new)>(cmp: (T, T) -> int) {
    IsTotalPreorder(cmp) && SignAntisymmetric(cmp)
  }

  /** The sign of a comparison result. */
  function Sign(n: int): (r: int)
    ensures r == -1 <==> n < 0
    ensures r == 0 <==> n == 0
    ensures r == 1 <==> n > 0
  {
    if n < 0 then -1 else if n == 0 then 0 else 1
  }

  predicate SortedBy<T>(s: seq<T>, cmp: (T, T) -> int) {
    forall i, j :: 0 <= i < j < |s| ==> cmp(s[i], s[j]) <= 0
  }

  /** Puts x in front of the first element it does not come after. */
  function Insert<T>(x: T, s: seq<T>, cmp: (T, T) -> int): (r: seq<T>)
    ensures |r| == |s| + 1
  {
    if s == [] then [x]
    else if cmp(x, s[0]) <= 0 then [x] + s
    else [s[0]] + Insert(x, s[1..], cmp)
  }

  /** `[...s].sort(cmp)`. The language's sort is stable, and for a
      consistent comparator every stable sort produces this order, so a
      stable insertion sort stands for it. */
  function SortBy<T>(s: seq<T>, cmp: (T, T) -> int): (r: seq<T>)
    ensures |r| == |s|
  {
    if s == [] then [] else Insert(s[0], SortBy(s[1..], cmp), cmp)
  }

  lemma {:induction false} InsertMultiset<T>(x: T, s: seq<T>, cmp: (T, T) -> int)
    ensures multiset(Insert(x, s, cmp)) == multiset(s) + multiset{x}
  {
    if s != [] && cmp(x, s[0]) > 0 {
      InsertMultiset(x, s[1..], cmp);
      assert s == [s[0]] + s[1..];
    }
  }

  /** Sorting only reorders: the result is a permutation of the input. */
  lemma {:induction false} SortByPermutation<T>(s: seq<T>, cmp: (T, T) -> int)
    ensures multiset(SortBy(s, cmp)) == multiset(s)
  {
    if s != [] {
      SortByPermutation(s[1..], cmp);
      InsertMultiset(s[0], SortBy(s[1..], cmp), cmp);
      assert s == [s[0]] + s[1..];
    }
  }

  /** Every element of the result is x or comes from s. */
  lemma {:induction false} InsertElements<T>(x: T, s: seq<T>, cmp: (T, T) -> int, k: nat)
    requires k < |Insert(x, s, cmp)|
    ensures Insert(x, s, cmp)[k] == x || Insert(x, s, cmp)[k] in s
  {
    if s != [] && cmp(x, s[0]) > 0 && k > 0 {
      InsertElements(x, s[1..], cmp, k - 1);
    }
  }

  /** A list in order stays in order with an element in front that comes
      before all of it. */
  lemma ConsSorted<T>(y: T, t: seq<T>, cmp: (T, T) -> int)
    requires SortedBy(t, cmp)
    requires forall k :: 0 <= k < |t| ==> cmp(y, t[k]) <= 0
    ensures SortedBy([y] + t, cmp)
  {
    var r := [y] + t;
    forall i, j | 0 <= i < j < |r| ensures cmp(r[i], r[j]) <= 0 {
      assert r[j] == t[j - 1];
      if i > 0 {
        assert r[i] == t[i - 1];
      }
    }
  }

  /** What comes before x and before every element of s comes before every
      element of the insertion. */
  lemma InsertBound<T>(y: T, x: T, s: seq<T>, cmp: (T, T) -> int)
    requires cmp(y, x) <= 0
    requires forall k :: 0 <= k < |s| ==> cmp(y, s[k]) <= 0
    ensures forall k :: 0 <= k < |Insert(x, s, cmp)| ==> cmp(y, Insert(x, s, cmp)[k]) <= 0
  {
    var t := Insert(x, s, cmp);
    forall k | 0 <= k < |t| ensures cmp(y, t[k]) <= 0 {
      InsertElements(x, s, cmp, k);
    }
  }

  lemma {:induction false} InsertSorted<T(!new)>(x: T, s: seq<T>, cmp: (T, T) -> int)
    requires IsTotalPreorder(cmp)
    requires SortedBy(s, cmp)
    ensures SortedBy(Insert(x, s, cmp), cmp)
  {
    if s == [] {
    } else if cmp(x, s[0]) <= 0 {
      forall k | 0 <= k < |s| ensures cmp(x, s[k]) <= 0 {
        if k > 0 {
          assert cmp(s[0], s[k]) <= 0;
        }
      }
      ConsSorted(x, s, cmp);
    } else {
      SortedTail(s, cmp);
      InsertSorted(x, s[1..], cmp);
      assert cmp(s[0], x) <= 0;
      forall k | 0 <= k < |s[1..]| ensures cmp(s[0], s[1..][k]) <= 0 {
        assert s[1..][k] == s[k + 1];
      }
      InsertBound(s[0], x, s[1..], cmp);
      ConsSorted(s[0], Insert(x, s[1..], cmp), cmp);
    }
  }

  /** With a total preorder the result is in order. */
  lemma {:induction false} SortBySorted<T(!new)>(s: seq<T>, cmp: (T, T) -> int)
    requires IsTotalPreorder(cmp)
    ensures SortedBy(SortBy(s, cmp), cmp)
  {
    if s != [] {
      SortBySorted(s[1..], cmp);
      InsertSorted(s[0], SortBy(s[1..], cmp), cmp);
    }
  }

  /** A list that is already in order is left exactly as it is; in particular a
      comparator that always answers 0 (the `default: return 0` branches) keeps
      the original order. This needs no assumption on the comparator. */
  lemma {:induction false} SortByKeepsSorted<T>(s: seq<T>, cmp: (T, T) -> int)
    requires SortedBy(s, cmp)
    ensures SortBy(s, cmp) == s
  {
    if s != [] {
      assert SortedBy(s[1..], cmp);
      SortByKeepsSorted(s[1..], cmp);
      if |s| > 1 {
        assert cmp(s[0], s[1]) <= 0;
      }
    }
  }

  function Reverse<T>(s: seq<T>): (r: seq<T>)
    ensures |r| == |s|
    ensures forall i :: 0 <= i < |s| ==> r[i] == s[|s| - 1 - i]
  {
    if s == [] then [] else Reverse(s[1..]) + [s[0]]
  }

  lemma {:induction false} ReverseMultiset<T>(s: seq<T>)
    ensures multiset(Reverse(s)) == multiset(s)
  {
    if s != [] {
      ReverseMultiset(s[1..]);
      assert s == [s[0]] + s[1..];
    }
  }

  lemma SortedTail<T>(s: seq<T>, cmp: (T, T) -> int)
    requires s != [] && SortedBy(s, cmp)
    ensures SortedBy(s[1..], cmp)
  {
    forall i, j | 0 <= i < j < |s[1..]| ensures cmp(s[1..][i], s[1..][j]) <= 0 {
      assert s[1..][i] == s[i + 1] && s[1..][j] == s[j + 1];
    }
  }

  /** The first element of a sorted list comes before every element of it. */
  lemma SortedHead<T>(s: seq<T>, cmp: (T, T) -> int, x: T)
    requires SortedBy(s, cmp) && x in s && x != s[0]
    ensures cmp(s[0], x) <= 0
  {
    var k :| 0 <= k < |s| && s[k] == x;
  }

  /** No two different elements of s tie. */
  ghost predicate NoTies<T>(s: seq<T>, cmp: (T, T) -> int) {
    forall x, y :: x in s && y in s && x != y ==> cmp(x, y) != 0
  }

  /** Two sorted permutations start alike when no two of their elements tie. */
  lemma SortedHeadsAgree<T(!new)>(a: seq<T>, b: seq<T>, cmp: (T, T) -> int)
    requires SignAntisymmetric(cmp)
    requires a != [] && multiset(a) == multiset(b)
    requires SortedBy(a, cmp) && SortedBy(b, cmp)
    requires NoTies(a, cmp)
    ensures b != [] && a[0] == b[0]
  {
    assert a[0] in multiset(b);
    assert b[0] in multiset(a);
    if a[0] != b[0] {
      SortedHead(b, cmp, a[0]);
      SortedHead(a, cmp, b[0]);
      assert false;
    }
  }

  lemma MultisetTail<T>(a: seq<T>, b: seq<T>)
    requires a != [] && b != [] && a[0] == b[0] && multiset(a) == multiset(b)
    ensures multiset(a[1..]) == multiset(b[1..])
  {
    assert a == [a[0]] + a[1..] && b == [b[0]] + b[1..];
    calc {
      multiset(a[1..]);
      multiset(a) - multiset{a[0]};
      multiset(b) - multiset{b[0]};
      multiset(b[1..]);
    }
  }

  lemma NoTiesTail<T>(s: seq<T>, cmp: (T, T) -> int)
    requires s != [] && NoTies(s, cmp)
    ensures NoTies(s[1..], cmp)
  {
    forall x, y | x in s[1..] && y in s[1..] && x != y ensures cmp(x, y) != 0 {
      assert x in s && y in s;
    }
  }

  /** A comparator that never ties two elements of a list leaves that list
      only one order: two sorted permutations of it are equal. */
  lemma {:induction false} SortedUnique<T(!new)>(a: seq<T>, b: seq<T>, cmp: (T, T) -> int)
    requires SignAntisymmetric(cmp)
    requires multiset(a) == multiset(b)
    requires SortedBy(a, cmp) && SortedBy(b, cmp)
    requires NoTies(a, cmp)
    ensures a == b
  {
    if a != [] {
      SortedHeadsAgree(a, b, cmp);
      MultisetTail(a, b);
      SortedTail(a, cmp);
      SortedTail(b, cmp);
      NoTiesTail(a, cmp);
      SortedUnique(a[1..], b[1..], cmp);
      assert a == [a[0]] + a[1..] && b == [b[0]] + b[1..];
    } else {
      assert |b| == |multiset(b)| == 0;
    }
  }

  lemma SwappedIsConsistent<T(!new)>(cmp: (T, T) -> int, swapped: (T, T) -> int)
    requires IsConsistent(cmp)
    requires forall x, y :: swapped(x, y) == cmp(y, x)
    ensures IsConsistent(swapped)
  {
    forall a, b, c | swapped(a, b) <= 0 && swapped(b, c) <= 0 ensures swapped(a, c) <= 0 {
      assert cmp(c, b) <= 0 && cmp(b, a) <= 0;
    }
  }

  lemma ReverseSorted<T>(t: seq<T>, cmp: (T, T) -> int, swapped: (T, T) -> int)
    requires SortedBy(t, cmp)
    requires forall x, y :: swapped(x, y) == cmp(y, x)
    ensures SortedBy(Reverse(t), swapped)
  {
    var r := Reverse(t);
    forall i, j | 0 <= i < j < |r| ensures swapped(r[i], r[j]) <= 0 {
      assert r[i] == t[|t| - 1 - i] && r[j] == t[|t| - 1 - j];
      assert cmp(t[|t| - 1 - j], t[|t| - 1 - i]) <= 0;
    }
  }

  lemma NoTiesTransfer<T(!new)>(s: seq<T>, r: seq<T>, cmp: (T, T) -> int, swapped: (T, T) -> int)
    requires NoTies(s, cmp) && multiset(r) == multiset(s)
    requires forall x, y :: swapped(x, y) == cmp(y, x)
    ensures NoTies(r, swapped) && NoTies(r, cmp)
  {
    forall x, y | x in r && y in r && x != y ensures swapped(x, y) != 0 && cmp(x, y) != 0 {
      assert x in multiset(s) && y in multiset(s);
    }
  }

  /** With its arguments swapped, a consistent comparator that ties no two
      different elements of s sorts s into exactly the reverse order. */
  lemma SortByReversed<T(!new)>(s: seq<T>, cmp: (T, T) -> int, swapped: (T, T) -> int)
    requires IsConsistent(cmp)
    requires forall x, y :: swapped(x, y) == cmp(y, x)
    requires NoTies(s, cmp)
    ensures SortBy(s, swapped) == Reverse(SortBy(s, cmp))
  {
    var t := SortBy(s, cmp);
    var r := Reverse(t);
    SwappedIsConsistent(cmp, swapped);
    SortByPermutation(s, cmp);
    SortByPermutation(s, swapped);
    ReverseMultiset(t);
    SortBySorted(s, cmp);
    SortBySorted(s, swapped);
    ReverseSorted(t, cmp, swapped);
    NoTiesTransfer(s, r, cmp, swapped);
    SortedUnique(r, SortBy(s, swapped), swapped);
  }

  /** Sorting twice is sorting once. */
  lemma SortByIdempotent<T(!new)>(s: seq<T>, cmp: (T, T) -> int)
    requires IsTotalPreorder(cmp)
    ensures SortBy(SortBy(s, cmp), cmp) == SortBy(s, cmp)
  {
    SortBySorted(s, cmp);
    SortByKeepsSorted(SortBy(s, cmp), cmp);
  }
}
