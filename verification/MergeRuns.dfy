/**
  The value-level account of the bottom-up merge sort that uthash runs over its
  application-order list: merging two runs, one pass over runs of a given size,
  and passes of doubling size.  The pointer code in `HashList` is proved to compute
  `SortFrom`; this module proves that `SortFrom` is the stable sort.
 */
module MergeRuns {
  import opened Sequences

  /** A comparator; as in the source, only whether the result is <= 0 matters. */
  type Comparator<!T> = (T, T) -> int

  ghost predicate TotalPreorderOn<T>(cmp: Comparator<T>, s: set<T>) {
    && (forall a, b | a in s && b in s :: cmp(a, b) <= 0 || cmp(b, a) <= 0)
    && (forall a, b, c | a in s && b in s && c in s && cmp(a, b) <= 0 && cmp(b, c) <= 0 :: cmp(a, c) <= 0)
  }

  /** One merge: the element of `p` wins unless it compares strictly greater. */
  ghost function Merge<T>(cmp: Comparator<T>, p: seq<T>, q: seq<T>): seq<T> {
    if p == [] then q
    else if q == [] then p
    else if cmp(p[0], q[0]) <= 0 then [p[0]] + Merge(cmp, p[1..], q)
    else [q[0]] + Merge(cmp, p, q[1..])
  }

  /** One pass: adjacent runs of size `k` are merged pairwise. */
  ghost function Pass<T>(cmp: Comparator<T>, s: seq<T>, k: nat): seq<T>
    requires k > 0
  {
    if s == [] then []
    else Merge(cmp, s[..Min(k, |s|)], s[Min(k, |s|)..Min(2 * k, |s|)]) + Pass(cmp, s[Min(2 * k, |s|)..], k)
  }

  /** Passes with run sizes k, 2k, 4k, ... until a pass needs at most one merge. */
  ghost function SortFrom<T>(cmp: Comparator<T>, s: seq<T>, k: nat): seq<T>
    requires k > 0
    decreases |s| - k
  {
    PassLength(cmp, s, k);
    if |s| <= 2 * k then Pass(cmp, s, k) else SortFrom(cmp, Pass(cmp, s, k), 2 * k)
  }

  // ----- Every stage permutes its input -----

  lemma {:induction false} MergePermutes<T>(cmp: Comparator<T>, p: seq<T>, q: seq<T>)
    ensures multiset(Merge(cmp, p, q)) == multiset(p) + multiset(q)
    ensures |Merge(cmp, p, q)| == |p| + |q|
    decreases |p| + |q|
  {
    if p != [] && q != [] {
      if cmp(p[0], q[0]) <= 0 {
        MergePermutes(cmp, p[1..], q);
        ConsMultiset(p[0], Merge(cmp, p[1..], q));
        UnconsMultiset(p);
      } else {
        MergePermutes(cmp, p, q[1..]);
        ConsMultiset(q[0], Merge(cmp, p, q[1..]));
        UnconsMultiset(q);
      }
    }
  }

  lemma UnconsMultiset<T>(s: seq<T>)
    requires s != []
    ensures multiset(s) == multiset{s[0]} + multiset(s[1..])
  {
    assert s == [s[0]] + s[1..];
  }

  lemma ConsMultiset<T>(x: T, s: seq<T>)
    ensures multiset([x] + s) == multiset{x} + multiset(s)
  {
  }

  lemma ConcatMultiset<T>(s: seq<T>, t: seq<T>)
    ensures multiset(s + t) == multiset(s) + multiset(t)
  {
  }

  lemma SplitMultiset<T>(s: seq<T>, a: nat, b: nat)
    requires a <= b <= |s|
    ensures multiset(s) == multiset(s[..a]) + multiset(s[a..b]) + multiset(s[b..])
  {
    assert s[..b] == s[..a] + s[a..b];
    assert s == s[..b] + s[b..];
  }

  lemma {:induction false} PassPermutes<T>(cmp: Comparator<T>, s: seq<T>, k: nat)
    requires k > 0
    ensures multiset(Pass(cmp, s, k)) == multiset(s)
    ensures |Pass(cmp, s, k)| == |s|
    decreases |s|
  {
    if s != [] {
      var a, b := Min(k, |s|), Min(2 * k, |s|);
      MergePermutes(cmp, s[..a], s[a..b]);
      PassPermutes(cmp, s[b..], k);
      SplitMultiset(s, a, b);
    }
  }

  lemma PassLength<T>(cmp: Comparator<T>, s: seq<T>, k: nat)
    requires k > 0
    ensures |Pass(cmp, s, k)| == |s|
  {
    PassPermutes(cmp, s, k);
  }

  // ----- Stability: ties are broken by the original position -----

  /** x must come before y in a stable sort, where `pos` gives original positions. */
  ghost predicate Before<T>(cmp: Comparator<T>, pos: T -> int, x: T, y: T) {
    cmp(x, y) <= 0 && (cmp(y, x) <= 0 ==> pos(x) < pos(y))
  }

  ghost predicate StablySorted<T>(cmp: Comparator<T>, pos: T -> int, s: seq<T>) {
    forall i, j | 0 <= i < j < |s| :: Before(cmp, pos, s[i], s[j])
  }

  ghost predicate PositionsIncrease<T>(pos: T -> int, s: seq<T>) {
    forall i, j | 0 <= i < j < |s| :: pos(s[i]) < pos(s[j])
  }

  lemma BeforeTransitive<T>(cmp: Comparator<T>, pos: T -> int, u: set<T>, x: T, y: T, z: T)
    requires TotalPreorderOn(cmp, u) && x in u && y in u && z in u
    requires Before(cmp, pos, x, y) && Before(cmp, pos, y, z)
    ensures Before(cmp, pos, x, z)
  {
    if cmp(z, x) <= 0 {
      assert cmp(y, x) <= 0;
      assert cmp(z, y) <= 0;
    }
  }

  lemma ConsSorted<T>(cmp: Comparator<T>, pos: T -> int, x: T, s: seq<T>)
    requires StablySorted(cmp, pos, s)
    requires forall y | y in s :: Before(cmp, pos, x, y)
    ensures StablySorted(cmp, pos, [x] + s)
  {
  }

  lemma HeadBeforeAll<T>(cmp: Comparator<T>, pos: T -> int, u: set<T>, x: T, s: seq<T>)
    requires TotalPreorderOn(cmp, u) && x in u && Elements(s) <= u
    requires StablySorted(cmp, pos, s)
    requires s != [] ==> Before(cmp, pos, x, s[0])
    ensures forall y | y in s :: Before(cmp, pos, x, y)
  {
    forall y | y in s
      ensures Before(cmp, pos, x, y)
    {
      var i :| 0 <= i < |s| && s[i] == y;
      assert s[0] in Elements(s) && s[i] in Elements(s);
      if i > 0 { BeforeTransitive(cmp, pos, u, x, s[0], s[i]); }
    }
  }

  /** Merging two stably sorted runs, the first wholly earlier, is stable. */
  lemma {:induction false} MergeSorted<T>(cmp: Comparator<T>, pos: T -> int, u: set<T>, p: seq<T>, q: seq<T>)
    requires TotalPreorderOn(cmp, u) && Elements(p) <= u && Elements(q) <= u
    requires StablySorted(cmp, pos, p) && StablySorted(cmp, pos, q)
    requires forall x, y | x in p && y in q :: pos(x) < pos(y)
    ensures StablySorted(cmp, pos, Merge(cmp, p, q))
    decreases |p| + |q|, 0
  {
    if p != [] && q != [] {
      assert p[0] in Elements(p) && q[0] in Elements(q);
      if cmp(p[0], q[0]) <= 0 {
        var p' := p[1..];
        MergeStep(cmp, pos, u, p[0], p', q);
        assert [p[0]] + p' == p;
      } else {
        var q' := q[1..];
        MergeStep(cmp, pos, u, q[0], p, q');
        assert [q[0]] + q' == q;
      }
    }
  }

  lemma {:induction false} MergeStep<T>(cmp: Comparator<T>, pos: T -> int, u: set<T>, x: T, p: seq<T>, q: seq<T>)
    requires TotalPreorderOn(cmp, u) && x in u && Elements(p) <= u && Elements(q) <= u
    requires StablySorted(cmp, pos, p) && StablySorted(cmp, pos, q)
    requires forall a, b | a in p && b in q :: pos(a) < pos(b)
    requires p != [] ==> Before(cmp, pos, x, p[0])
    requires q != [] ==> Before(cmp, pos, x, q[0])
    ensures StablySorted(cmp, pos, [x] + Merge(cmp, p, q))
    decreases |p| + |q|, 1
  {
    MergeSorted(cmp, pos, u, p, q);
    HeadBeforeAll(cmp, pos, u, x, p);
    HeadBeforeAll(cmp, pos, u, x, q);
    MergePermutes(cmp, p, q);
    var m := Merge(cmp, p, q);
    forall y | y in m
      ensures Before(cmp, pos, x, y)
    {
      assert y in multiset(m);
      assert y in p || y in q;
    }
    ConsSorted(cmp, pos, x, m);
  }

  // ----- Runs of length k, and how a pass doubles them -----

  /** All positions in `s` are smaller than all positions in `t`. */
  ghost predicate AllEarlier<T>(pos: T -> int, s: seq<T>, t: seq<T>) {
    forall x, y | x in s && y in t :: pos(x) < pos(y)
  }

  /** `s` is a sequence of stably sorted runs of length k; each run is wholly earlier than the next. */
  ghost predicate RunsSorted<T>(cmp: Comparator<T>, pos: T -> int, s: seq<T>, k: nat)
    requires k > 0
    decreases |s|
  {
    var a := Min(k, |s|);
    s == [] || (StablySorted(cmp, pos, s[..a]) && AllEarlier(pos, s[..a], s[a..]) && RunsSorted(cmp, pos, s[a..], k))
  }

  lemma SamePermutation<T>(s: seq<T>, t: seq<T>)
    requires multiset(s) == multiset(t)
    ensures Elements(s) == Elements(t)
    ensures forall x :: x in s <==> x in t
  {
    forall x
      ensures x in s <==> x in t
    {
      assert x in multiset(s) <==> x in multiset(t);
    }
  }

  lemma SliceTail<T>(s: seq<T>, a: nat, k: nat)
    requires a <= |s|
    ensures s[a..][..Min(k, |s| - a)] == s[a..Min(a + k, |s|)] && s[a..][Min(k, |s| - a)..] == s[Min(a + k, |s|)..]
  {
  }

  lemma EarlierJoin<T>(pos: T -> int, s: seq<T>, a: nat, b: nat)
    requires a <= b <= |s| && AllEarlier(pos, s[..a], s[a..]) && AllEarlier(pos, s[a..b], s[b..])
    ensures AllEarlier(pos, s[..a], s[a..b]) && AllEarlier(pos, s[..b], s[b..])
  {
    assert s[..b] == s[..a] + s[a..b] && s[a..] == s[a..b] + s[b..];
  }

  /** The first two runs of `s`, taken apart. */
  lemma FirstTwoRuns<T>(cmp: Comparator<T>, pos: T -> int, s: seq<T>, k: nat, a: nat, b: nat)
    requires k > 0 && s != [] && RunsSorted(cmp, pos, s, k)
    requires a == Min(k, |s|) && b == Min(2 * k, |s|)
    ensures StablySorted(cmp, pos, s[..a]) && StablySorted(cmp, pos, s[a..b])
    ensures AllEarlier(pos, s[..a], s[a..b]) && AllEarlier(pos, s[..b], s[b..])
    ensures RunsSorted(cmp, pos, s[b..], k)
  {
    SliceTail(s, a, k);
    if a == |s| {
      assert s[a..b] == [] && s[b..] == [] && s[a..] == [];
    } else {
      assert b == Min(a + k, |s|);
    }
    EarlierJoin(pos, s, a, b);
  }

  lemma MergeFirstTwoRuns<T>(cmp: Comparator<T>, pos: T -> int, u: set<T>, s: seq<T>, a: nat, b: nat)
    requires TotalPreorderOn(cmp, u) && Elements(s) <= u && a <= b <= |s|
    requires StablySorted(cmp, pos, s[..a]) && StablySorted(cmp, pos, s[a..b]) && AllEarlier(pos, s[..a], s[a..b])
    ensures var m := Merge(cmp, s[..a], s[a..b]);
      |m| == b && StablySorted(cmp, pos, m) && forall x :: x in m <==> x in s[..b]
  {
    var p, q := s[..a], s[a..b];
    MergeSorted(cmp, pos, u, p, q);
    MergePermutes(cmp, p, q);
    ConcatMultiset(p, q);
    assert s[..b] == p + q;
    SamePermutation(Merge(cmp, p, q), s[..b]);
  }

  lemma ReplaceEarlier<T>(pos: T -> int, s: seq<T>, t: seq<T>, s': seq<T>, t': seq<T>)
    requires AllEarlier(pos, s, t)
    requires (forall x :: x in s' <==> x in s) && (forall x :: x in t' <==> x in t)
    ensures AllEarlier(pos, s', t')
  {
  }

  lemma {:induction false} PassDoublesRuns<T>(cmp: Comparator<T>, pos: T -> int, u: set<T>, s: seq<T>, k: nat)
    requires k > 0 && TotalPreorderOn(cmp, u) && Elements(s) <= u
    requires RunsSorted(cmp, pos, s, k)
    ensures RunsSorted(cmp, pos, Pass(cmp, s, k), 2 * k)
    decreases |s|
  {
    if s != [] {
      var a, b := Min(k, |s|), Min(2 * k, |s|);
      FirstTwoRuns(cmp, pos, s, k, a, b);
      MergeFirstTwoRuns(cmp, pos, u, s, a, b);
      var t := s[b..];
      assert Elements(t) <= Elements(s);
      PassDoublesRuns(cmp, pos, u, t, k);
      PassPermutes(cmp, t, k);
      SamePermutation(Pass(cmp, t, k), t);
      ReplaceEarlier(pos, s[..b], t, Merge(cmp, s[..a], s[a..b]), Pass(cmp, t, k));
      JoinRun(cmp, pos, Merge(cmp, s[..a], s[a..b]), Pass(cmp, t, k), 2 * k);
    }
  }

  lemma JoinRun<T>(cmp: Comparator<T>, pos: T -> int, m: seq<T>, rest: seq<T>, k: nat)
    requires k > 0 && m != [] && (|m| == k || (|m| <= k && rest == []))
    requires StablySorted(cmp, pos, m) && AllEarlier(pos, m, rest) && RunsSorted(cmp, pos, rest, k)
    ensures RunsSorted(cmp, pos, m + rest, k)
  {
    var s := m + rest;
    assert Min(k, |s|) == |m|;
    assert s[..|m|] == m && s[|m|..] == rest;
  }

  lemma {:induction false} SingletonRuns<T>(cmp: Comparator<T>, pos: T -> int, s: seq<T>)
    requires PositionsIncrease(pos, s)
    ensures RunsSorted(cmp, pos, s, 1)
    decreases |s|
  {
    if s != [] {
      SingletonRuns(cmp, pos, s[1..]);
    }
  }

  lemma {:induction false} SortFromCorrect<T>(cmp: Comparator<T>, pos: T -> int, u: set<T>, s: seq<T>, k: nat)
    requires k > 0 && TotalPreorderOn(cmp, u) && Elements(s) <= u
    requires RunsSorted(cmp, pos, s, k)
    ensures StablySorted(cmp, pos, SortFrom(cmp, s, k))
    ensures multiset(SortFrom(cmp, s, k)) == multiset(s)
    decreases |s| - k
  {
    var t := Pass(cmp, s, k);
    PassPermutes(cmp, s, k);
    PassDoublesRuns(cmp, pos, u, s, k);
    SamePermutation(s, t);
    if |s| <= 2 * k {
      if s != [] {
        assert t[..Min(2 * k, |t|)] == t;
      }
    } else {
      SortFromCorrect(cmp, pos, u, t, 2 * k);
    }
  }

  // ----- The main result -----

  /** The index at which `x` occurs in `s` (its only one, when `s` has no duplicates). */
  ghost function IndexOf<T>(s: seq<T>, x: T): (i: int)
    ensures x in s ==> 0 <= i < |s| && s[i] == x
  {
    if x in s then (var i :| 0 <= i < |s| && s[i] == x; i) else -1
  }

  /**
    `r` is the stable sort of `s`: the same elements, ordered by `cmp`, and ties
    in the order in which they stand in `s`.
   */
  ghost predicate IsStableSortOf<T>(cmp: Comparator<T>, s: seq<T>, r: seq<T>) {
    && multiset(r) == multiset(s)
    && forall i, j | 0 <= i < j < |r| ::
        cmp(r[i], r[j]) <= 0 && (cmp(r[j], r[i]) <= 0 ==> IndexOf(s, r[i]) < IndexOf(s, r[j]))
  }

  lemma SortIsStable<T>(cmp: Comparator<T>, s: seq<T>)
    requires TotalPreorderOn(cmp, Elements(s)) && NoDup(s)
    ensures IsStableSortOf(cmp, s, SortFrom(cmp, s, 1))
  {
    var pos := x => IndexOf(s, x);
    forall i, j | 0 <= i < j < |s|
      ensures pos(s[i]) < pos(s[j])
    {
      assert s[pos(s[i])] == s[i] && s[pos(s[j])] == s[j];
    }
    SingletonRuns(cmp, pos, s);
    SortFromCorrect(cmp, pos, Elements(s), s, 1);
  }

  /** There is only one stable sort, so the property above fixes the result. */
  lemma {:induction false} StableSortUnique<T>(cmp: Comparator<T>, s: seq<T>, r: seq<T>, t: seq<T>)
    requires NoDup(s) && IsStableSortOf(cmp, s, r) && IsStableSortOf(cmp, s, t)
    ensures r == t
  {
    assert |multiset(r)| == |r| && |multiset(t)| == |t|;
    UniqueFrom(cmp, x => IndexOf(s, x), r, t);
  }

  lemma SameHead<T>(cmp: Comparator<T>, pos: T -> int, r: seq<T>, t: seq<T>)
    requires r != [] && t != [] && forall x :: x in r <==> x in t
    requires StablySorted(cmp, pos, r) && StablySorted(cmp, pos, t)
    ensures r[0] == t[0]
  {
    assert r[0] in t && t[0] in r;
    var i :| 0 <= i < |t| && t[i] == r[0];
    var j :| 0 <= j < |r| && r[j] == t[0];
    assert i > 0 ==> Before(cmp, pos, t[0], t[i]);
    assert j > 0 ==> Before(cmp, pos, r[0], r[j]);
  }

  lemma TailMultiset<T>(s: seq<T>)
    requires s != []
    ensures multiset(s[1..]) == multiset(s) - multiset{s[0]}
  {
    assert s == [s[0]] + s[1..];
    ConsMultiset(s[0], s[1..]);
  }

  lemma {:induction false} UniqueFrom<T>(cmp: Comparator<T>, pos: T -> int, r: seq<T>, t: seq<T>)
    requires multiset(r) == multiset(t)
    requires StablySorted(cmp, pos, r) && StablySorted(cmp, pos, t)
    ensures r == t
    decreases |r|
  {
    assert |multiset(r)| == |r| && |multiset(t)| == |t|;
    if r != [] {
      SamePermutation(r, t);
      SameHead(cmp, pos, r, t);
      TailMultiset(r);
      TailMultiset(t);
      UniqueFrom(cmp, pos, r[1..], t[1..]);
      assert r == [r[0]] + r[1..] && t == [t[0]] + t[1..];
    }
  }
}
