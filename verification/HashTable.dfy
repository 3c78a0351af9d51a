/**
  The chained hash table: buckets of doubly linked chains over the elements of the
  application-order list, doubled when a chain grows too long.
 */
module HashTable {
  import opened Bits
  import opened MergeRuns
  import opened HashList
  import opened Sequences

  const INITIAL_NUM_BUCKETS: nat := 32
  const INITIAL_NUM_BUCKETS_LOG2: nat := 5
  const BKT_CAPACITY_THRESH: nat := 10

  datatype Bucket = Bucket(head: Elem?, count: nat, mult: nat)

  // ----- The value-level account of the chains -----

  function Slot(hash: string -> nat, e: Elem, n: nat): nat
    requires n > 0
  {
    hash(e.key) % n
  }

  /** The chains hold exactly the elements of `s`, each in the chain its hash selects, none twice. */
  ghost predicate Partition(hash: string -> nat, s: set<Elem>, chains: seq<seq<Elem>>) {
    && |chains| > 0
    && (forall b | 0 <= b < |chains| :: NoDup(chains[b]))
    && (forall b, e | 0 <= b < |chains| && e in chains[b] :: e in s && Slot(hash, e, |chains|) == b)
    && (forall e | e in s :: e in chains[Slot(hash, e, |chains|)])
  }

  /** The elements of `c` that belong into bucket b of m, last one first: what pushing them in turn leaves. */
  ghost function Spread(hash: string -> nat, c: seq<Elem>, m: nat, b: nat): seq<Elem>
    requires m > 0
  {
    if c == [] then []
    else
      var rest := Spread(hash, c[..|c| - 1], m, b);
      if Slot(hash, c[|c| - 1], m) == b then [c[|c| - 1]] + rest else rest
  }

  ghost function Excess(count: nat, ideal: nat): nat {
    if count > ideal then count - ideal else 0
  }

  /** The number of elements beyond the ideal length, over all chains. */
  ghost function TotalExcess(chains: seq<seq<Elem>>, ideal: nat): nat {
    if chains == [] then 0 else Excess(|chains[0]|, ideal) + TotalExcess(chains[1..], ideal)
  }

  ghost function Multiplier(count: nat, ideal: nat): nat
    requires ideal > 0
  {
    if count > ideal then count / ideal else 0
  }

  ghost function TotalLength(chains: seq<seq<Elem>>): nat {
    if chains == [] then 0 else |chains[0]| + TotalLength(chains[1..])
  }

  lemma {:induction false} SpreadMembers(hash: string -> nat, c: seq<Elem>, m: nat, b: nat)
    requires m > 0
    ensures forall e :: e in Spread(hash, c, m, b) <==> e in c && Slot(hash, e, m) == b
    ensures NoDup(c) ==> NoDup(Spread(hash, c, m, b))
    decreases |c|
  {
    if c != [] {
      var init, last := c[..|c| - 1], c[|c| - 1];
      SpreadMembers(hash, init, m, b);
      assert c == init + [last];
      if NoDup(c) { assert last !in init; }
    }
  }

  lemma SpreadSnoc(hash: string -> nat, c: seq<Elem>, e: Elem, m: nat, b: nat)
    requires m > 0
    ensures Spread(hash, c + [e], m, b)
      == if Slot(hash, e, m) == b then [e] + Spread(hash, c, m, b) else Spread(hash, c, m, b)
  {
    assert (c + [e])[..|c|] == c;
  }

  lemma SlotDoubles(hash: string -> nat, e: Elem, n: nat)
    requires n > 0
    ensures Slot(hash, e, 2 * n) % n == Slot(hash, e, n)
    ensures Slot(hash, e, 2 * n) == Slot(hash, e, n) || Slot(hash, e, 2 * n) == Slot(hash, e, n) + n
  {
    ModDoubles(hash(e.key), n, 2 * n);
  }

  /** Doubling: chain b of the new 2n chains comes from old chain b mod n. */
  ghost predicate Doubled(hash: string -> nat, old_: seq<seq<Elem>>, new_: seq<seq<Elem>>) {
    && |old_| > 0 && |new_| == 2 * |old_|
    && forall b | 0 <= b < |new_| :: new_[b] == Spread(hash, old_[b % |old_|], |new_|, b)
  }

  lemma DoubledPartition(hash: string -> nat, s: set<Elem>, old_: seq<seq<Elem>>, new_: seq<seq<Elem>>)
    requires Partition(hash, s, old_) && Doubled(hash, old_, new_)
    ensures Partition(hash, s, new_)
  {
    var n, m := |old_|, |new_|;
    forall b | 0 <= b < m
      ensures NoDup(new_[b])
      ensures forall e | e in new_[b] :: e in s && Slot(hash, e, m) == b
    {
      assert 0 <= b % n < n;
      SpreadMembers(hash, old_[b % n], m, b);
    }
    forall e | e in s
      ensures e in new_[Slot(hash, e, m)]
    {
      var b := Slot(hash, e, m);
      SlotDoubles(hash, e, n);
      SpreadMembers(hash, old_[b % n], m, b);
    }
  }

  /**
    What expansion does to one old chain: every element goes to bucket i or to
    bucket i + n, none is lost and none is copied.
   */
  lemma ChainSplitsInTwo(hash: string -> nat, s: set<Elem>, old_: seq<seq<Elem>>, new_: seq<seq<Elem>>, i: nat)
    requires Partition(hash, s, old_) && Doubled(hash, old_, new_) && i < |old_|
    ensures multiset(new_[i]) + multiset(new_[i + |old_|]) == multiset(old_[i])
  {
    var n, m := |old_|, |new_|;
    DivModUnique(i, n, 0, i);
    DivModUnique(i + n, n, 1, i);
    SplitsInTwo(hash, old_[i], n, i);
  }

  lemma {:induction false} SplitsInTwo(hash: string -> nat, c: seq<Elem>, n: nat, i: nat)
    requires n > 0 && i < n && forall e | e in c :: Slot(hash, e, n) == i
    ensures multiset(Spread(hash, c, 2 * n, i)) + multiset(Spread(hash, c, 2 * n, i + n)) == multiset(c)
    decreases |c|
  {
    if c != [] {
      var init, last := c[..|c| - 1], c[|c| - 1];
      assert c == init + [last];
      SplitsInTwo(hash, init, n, i);
      SlotDoubles(hash, last, n);
    }
  }

  // ----- Counting, for the FSCK totals -----

  lemma {:induction false} TotalLengthPrefix(chains: seq<seq<Elem>>, k: nat)
    requires k < |chains|
    ensures TotalLength(chains[..k + 1]) == TotalLength(chains[..k]) + |chains[k]|
    decreases k
  {
    if k > 0 {
      TotalLengthPrefix(chains[1..], k - 1);
      assert chains[..k + 1][1..] == chains[1..][..k] && chains[..k][1..] == chains[1..][..k - 1];
    } else {
      assert chains[..1] == [chains[0]] && chains[..1][1..] == [];
    }
  }

  lemma NoDupCardinality(s: seq<Elem>)
    requires NoDup(s)
    ensures |Elements(s)| == |s|
    decreases |s|
  {
    if s == [] {
      assert Elements(s) == {};
    } else {
      var init, last := s[..|s| - 1], s[|s| - 1];
      NoDupCardinality(init);
      assert s == init + [last];
      assert Elements(s) == Elements(init) + {last} && last !in Elements(init);
    }
  }

  ghost function UnionOf(chains: seq<seq<Elem>>): set<Elem> {
    if chains == [] then {} else Elements(chains[0]) + UnionOf(chains[1..])
  }

  lemma {:induction false} UnionMembers(chains: seq<seq<Elem>>, e: Elem)
    ensures e in UnionOf(chains) <==> exists b :: 0 <= b < |chains| && e in chains[b]
    decreases |chains|
  {
    if chains != [] {
      UnionMembers(chains[1..], e);
      if b :| 0 <= b < |chains| && e in chains[b] {
        assert b > 0 ==> e in chains[1..][b - 1];
      }
      if b :| 0 <= b < |chains[1..]| && e in chains[1..][b] {
        assert e in chains[b + 1];
      }
    }
  }

  lemma {:induction false} DisjointLengths(chains: seq<seq<Elem>>)
    requires forall b | 0 <= b < |chains| :: NoDup(chains[b])
    requires forall a, b, e | 0 <= a < b < |chains| && e in chains[a] :: e !in chains[b]
    ensures |UnionOf(chains)| == TotalLength(chains)
    decreases |chains|
  {
    if chains != [] {
      var rest := chains[1..];
      DisjointLengths(rest);
      NoDupCardinality(chains[0]);
      forall e | e in Elements(chains[0])
        ensures e !in UnionOf(rest)
      {
        UnionMembers(rest, e);
      }
      assert Elements(chains[0]) !! UnionOf(rest);
    }
  }

  lemma PartitionDisjoint(hash: string -> nat, s: set<Elem>, chains: seq<seq<Elem>>, a: nat, b: nat, e: Elem)
    requires Partition(hash, s, chains) && a < b < |chains| && e in chains[a]
    ensures e !in chains[b]
  {
    assert Slot(hash, e, |chains|) == a;
  }

  lemma PartitionUnion(hash: string -> nat, s: set<Elem>, chains: seq<seq<Elem>>)
    requires Partition(hash, s, chains)
    ensures UnionOf(chains) == s
  {
    forall e | e in UnionOf(chains)
      ensures e in s
    {
      UnionMembers(chains, e);
      var b :| 0 <= b < |chains| && e in chains[b];
    }
    forall e | e in s
      ensures e in UnionOf(chains)
    {
      UnionMembers(chains, e);
      var b := Slot(hash, e, |chains|);
      assert e in chains[b];
    }
  }

  /** The chain lengths of a partition of a duplicate-free list add up to its length. */
  lemma PartitionTotal(hash: string -> nat, order: seq<Elem>, chains: seq<seq<Elem>>)
    requires Partition(hash, Elements(order), chains) && NoDup(order)
    ensures TotalLength(chains) == |order|
  {
    forall a, b, e | 0 <= a < b < |chains| && e in chains[a]
      ensures e !in chains[b]
    {
      PartitionDisjoint(hash, Elements(order), chains, a, b, e);
    }
    DisjointLengths(chains);
    PartitionUnion(hash, Elements(order), chains);
    NoDupCardinality(order);
  }

  lemma {:induction false} PushExcess(chains: seq<seq<Elem>>, b: nat, e: Elem, ideal: nat)
    requires b < |chains|
    ensures TotalExcess(chains[b := [e] + chains[b]], ideal)
      == TotalExcess(chains, ideal) + if |chains[b]| + 1 > ideal then 1 else 0
    decreases |chains|
  {
    var pushed := chains[b := [e] + chains[b]];
    if b > 0 {
      PushExcess(chains[1..], b - 1, e, ideal);
      assert pushed[1..] == chains[1..][b - 1 := [e] + chains[b]];
    } else {
      assert pushed[1..] == chains[1..];
    }
  }

  lemma {:induction false} EmptyExcess(chains: seq<seq<Elem>>, ideal: nat)
    requires forall b | 0 <= b < |chains| :: chains[b] == []
    ensures TotalExcess(chains, ideal) == 0
    decreases |chains|
  {
    if chains != [] { EmptyExcess(chains[1..], ideal); }
  }

  // ----- The chains as linked elements -----

  ghost predicate Chain(c: seq<Elem>)
    reads c`hhNext, c`hhPrev
  {
    forall i {:trigger c[i].hhNext} {:trigger c[i].hhPrev} | 0 <= i < |c| ::
      c[i].hhNext == At(c, i + 1) && c[i].hhPrev == At(c, i - 1)
  }

  /** A chain that is being taken apart from the front: only its forward links matter. */
  ghost predicate ForwardChain(c: seq<Elem>)
    reads c`hhNext
  {
    forall i {:trigger c[i].hhNext} | 0 <= i < |c| :: c[i].hhNext == At(c, i + 1)
  }

  /** Put `e` in front of the chain `c` whose head is `h`. */
  method LinkFront(e: Elem, h: Elem?, ghost c: seq<Elem>)
    requires Chain(c) && NoDup(c) && e !in c && h == At(c, 0)
    modifies {e}`hhNext, {e}`hhPrev, Elements(c)`hhPrev
    ensures Chain([e] + c)
  {
    e.hhNext := h;
    e.hhPrev := null;
    if h != null {
      h.hhPrev := e;
    }
    ghost var d := [e] + c;
    assert forall i | 0 < i < |d| :: d[i] == c[i - 1];
  }

  /** New chains under construction: their members come from `moved` and are in the right place. */
  ghost predicate Placed(hash: string -> nat, moved: set<Elem>, chains: seq<seq<Elem>>) {
    && |chains| > 0
    && forall b | 0 <= b < |chains| :: NoDup(chains[b]) && InBucket(hash, moved, chains[b], |chains|, b)
  }

  ghost predicate InBucket(hash: string -> nat, moved: set<Elem>, c: seq<Elem>, m: nat, b: nat)
    requires m > 0
  {
    forall e | e in c :: e in moved && Slot(hash, e, m) == b
  }

  ghost predicate BucketsMatch(buckets: seq<Bucket>, chains: seq<seq<Elem>>, ideal: nat)
    requires ideal > 0
  {
    && |buckets| == |chains|
    && forall b | 0 <= b < |chains| ::
        buckets[b] == Bucket(At(chains[b], 0), |chains[b]|, Multiplier(|chains[b]|, ideal))
  }

  ghost function Members(chains: seq<seq<Elem>>): (s: set<Elem>)
    ensures forall c, e | c in chains && e in c :: e in s
  {
    set c, e | c in chains && e in c :: e
  }

  ghost predicate AllChains(chains: seq<seq<Elem>>)
    reads Members(chains)`hhNext, Members(chains)`hhPrev
  {
    forall c | c in chains :: Chain(c)
  }

  ghost function Pushed(chains: seq<seq<Elem>>, b: nat, e: Elem): seq<seq<Elem>>
    requires b < |chains|
  {
    chains[b := [e] + chains[b]]
  }

  lemma PushPlaced(hash: string -> nat, moved: set<Elem>, chains: seq<seq<Elem>>, e: Elem)
    requires Placed(hash, moved, chains) && e !in moved
    ensures Placed(hash, moved + {e}, Pushed(chains, Slot(hash, e, |chains|), e))
    ensures forall b | 0 <= b < |chains| :: e !in chains[b]
  {
    forall b | 0 <= b < |chains|
      ensures e !in chains[b]
    {
      assert InBucket(hash, moved, chains[b], |chains|, b);
    }
  }

  /** Linking `e` in front of chain b turns a family of chains into the pushed family. */
  method PushLink(hash: string -> nat, e: Elem, h: Elem?, b: nat, ghost moved: set<Elem>, ghost chains: seq<seq<Elem>>)
    requires Placed(hash, moved, chains) && e !in moved && AllChains(chains)
    requires b < |chains| && h == At(chains[b], 0)
    modifies {e}`hhNext, {e}`hhPrev, moved`hhPrev
    ensures AllChains(Pushed(chains, b, e))
  {
    ghost var c := chains[b];
    assert InBucket(hash, moved, c, |chains|, b) && NoDup(c);
    assert c in chains;
    LinkFront(e, h, c);
    hide Chain;
    forall a | 0 <= a < |chains| && a != b
      ensures Chain(chains[a])
    {
      assert InBucket(hash, moved, chains[a], |chains|, a);
      assert chains[a] in chains;
      assert forall x | x in chains[a] :: x !in c && x != e;
    }
    PushedMembers(chains, b, e);
  }

  lemma PushedMembers(chains: seq<seq<Elem>>, b: nat, e: Elem)
    requires b < |chains|
    ensures forall c | c in Pushed(chains, b, e) ::
      c == [e] + chains[b] || exists a :: 0 <= a < |chains| && a != b && c == chains[a]
  {
    forall c | c in Pushed(chains, b, e)
      ensures c == [e] + chains[b] || exists a :: 0 <= a < |chains| && a != b && c == chains[a]
    {
      var a :| 0 <= a < |chains| && Pushed(chains, b, e)[a] == c;
      if a != b { assert c == chains[a]; }
    }
  }

  /** The body of the expansion loop for one element: count it, keep the statistics, relink it. */
  method MoveOne(hash: string -> nat, e: Elem, log2m: nat, nb: array<Bucket>, ideal: nat, nonideal: nat,
                 ghost moved: set<Elem>, ghost chains: seq<seq<Elem>>)
    returns (nonideal': nat, ghost chains': seq<seq<Elem>>)
    requires ideal > 0 && nb.Length == Pow2(log2m) == |chains| && e.hashv == hash(e.key)
    requires Placed(hash, moved, chains) && e !in moved && AllChains(chains)
    requires BucketsMatch(nb[..], chains, ideal) && nonideal == TotalExcess(chains, ideal)
    modifies nb, {e}`hhNext, {e}`hhPrev, moved`hhPrev
    ensures chains' == Pushed(chains, Slot(hash, e, |chains|), e)
    ensures Placed(hash, moved + {e}, chains') && AllChains(chains')
    ensures BucketsMatch(nb[..], chains', ideal) && nonideal' == TotalExcess(chains', ideal)
  {
    nonideal' := nonideal;
    var b := BitAnd(e.hashv, nb.Length - 1);
    MaskIsMod(e.hashv, log2m);
    PushPlaced(hash, moved, chains, e);
    PushExcess(chains, b, e, ideal);
    chains' := Pushed(chains, b, e);
    hide Placed, AllChains, TotalExcess, Pow2, BitAnd;
    var count, mult := nb[b].count + 1, nb[b].mult;
    if count > ideal {
      nonideal' := nonideal + 1;
      mult := count / ideal;
    }
    var h := nb[b].head;
    nb[b] := Bucket(e, count, mult);
    PushLink(hash, e, h, b, moved, chains);
  }

  /** Pushing the elements of `c` in turn onto `from` has given `to`. */
  ghost predicate SpreadOver(hash: string -> nat, c: seq<Elem>, from: seq<seq<Elem>>, to: seq<seq<Elem>>) {
    && |from| == |to| > 0
    && forall b | 0 <= b < |to| :: to[b] == Spread(hash, c, |to|, b) + from[b]
  }

  lemma SpreadOverStep(hash: string -> nat, c: seq<Elem>, k: nat, from: seq<seq<Elem>>, to: seq<seq<Elem>>)
    requires k < |c| && SpreadOver(hash, c[..k], from, to)
    ensures SpreadOver(hash, c[..k + 1], from, Pushed(to, Slot(hash, c[k], |to|), c[k]))
  {
    var m, next := |to|, Pushed(to, Slot(hash, c[k], |to|), c[k]);
    assert c[..k + 1] == c[..k] + [c[k]];
    forall b | 0 <= b < m
      ensures next[b] == Spread(hash, c[..k + 1], m, b) + from[b]
    {
      SpreadSnoc(hash, c[..k], c[k], m, b);
    }
  }

  ghost predicate HashesStored(hash: string -> nat, c: seq<Elem>)
    reads c`hashv
  {
    forall i | 0 <= i < |c| :: c[i].hashv == hash(c[i].key)
  }

  /** Everything that holds of the new buckets between two moves. */
  ghost predicate Building(hash: string -> nat, nb: array<Bucket>, ideal: nat, nonideal: nat, moved: set<Elem>,
                           chains: seq<seq<Elem>>)
    requires ideal > 0
    reads nb, Members(chains)`hhNext, Members(chains)`hhPrev
  {
    && nb.Length == |chains|
    && Placed(hash, moved, chains) && AllChains(chains)
    && BucketsMatch(nb[..], chains, ideal) && nonideal == TotalExcess(chains, ideal)
  }

  /** The forward links of `c` from position k on. */
  ghost predicate ForwardRest(c: seq<Elem>, k: nat)
    reads c`hhNext
  {
    forall i {:trigger c[i].hhNext} | k <= i < |c| :: c[i].hhNext == At(c, i + 1)
  }

  /** One round of the inner loop: remember the next element, then move this one. */
  method MoveNext(hash: string -> nat, thh: Elem, log2m: nat, nb: array<Bucket>, ideal: nat, nonideal: nat,
                  ghost k: nat,
                  ghost c: seq<Elem>, ghost moved: set<Elem>,
                  ghost chains0: seq<seq<Elem>>, ghost chains: seq<seq<Elem>>)
    returns (next: Elem?, nonideal': nat, ghost chains': seq<seq<Elem>>)
    requires ideal > 0 && nb.Length == Pow2(log2m) && k < |c| && thh == c[k] && thh !in moved
    requires thh.hashv == hash(thh.key)
    requires NoDup(c) && ForwardRest(c, k)
    requires Building(hash, nb, ideal, nonideal, moved, chains) && SpreadOver(hash, c[..k], chains0, chains)
    modifies nb, {thh}`hhNext, {thh}`hhPrev, moved`hhPrev
    ensures Building(hash, nb, ideal, nonideal', moved + {thh}, chains')
    ensures SpreadOver(hash, c[..k + 1], chains0, chains')
    ensures ForwardRest(c, k + 1) && next == At(c, k + 1)
  {
    SpreadOverStep(hash, c, k, chains0, chains);
    hide Placed, AllChains, BucketsMatch, TotalExcess, SpreadOver, Pow2;
    next := thh.hhNext;
    nonideal', chains' := MoveOne(hash, thh, log2m, nb, ideal, nonideal, moved, chains);
  }

  /** The inner loop of the expansion: move one old chain, front to back. */
  method RehashChain(hash: string -> nat, first: Elem?, log2m: nat, nb: array<Bucket>, ideal: nat, nonideal0: nat,
                     ghost c: seq<Elem>, ghost moved0: set<Elem>, ghost chains0: seq<seq<Elem>>)
    returns (nonideal: nat, ghost chains: seq<seq<Elem>>)
    requires ideal > 0 && nb.Length == Pow2(log2m)
    requires Building(hash, nb, ideal, nonideal0, moved0, chains0)
    requires first == At(c, 0) && ForwardChain(c) && NoDup(c) && HashesStored(hash, c)
    requires forall e | e in c :: e !in moved0
    modifies nb, (moved0 + Elements(c))`hhNext, (moved0 + Elements(c))`hhPrev
    ensures Building(hash, nb, ideal, nonideal, moved0 + Elements(c), chains)
    ensures SpreadOver(hash, c, chains0, chains)
  {
    var thh := first;
    nonideal := nonideal0;
    chains := chains0;
    ghost var k, moved := 0, moved0;
    NothingSpread(hash, chains0);
    assert ForwardRest(c, 0);
    hide Building, SpreadOver, Pow2, Elements, NoDup, ForwardChain, ForwardRest;
    assert c[..0] == [];
    NoElements();
    while thh != null
      invariant k <= |c| && thh == At(c, k)
      invariant moved == moved0 + Elements(c[..k]) <= moved0 + Elements(c)
      invariant Building(hash, nb, ideal, nonideal, moved, chains)
      invariant SpreadOver(hash, c[..k], chains0, chains)
      invariant ForwardRest(c, k)
      decreases |c| - k
    {
      PrefixElements(c, k);
      ghost var e := thh;
      thh, nonideal, chains := MoveNext(hash, thh, log2m, nb, ideal, nonideal, k, c, moved, chains0, chains);
      moved := moved + {e};
      k := k + 1;
    }
    assert c[..k] == c;
  }

  lemma NoElements()
    ensures Elements<Elem>([]) == {}
  {
  }

  lemma PrefixElements(c: seq<Elem>, k: nat)
    requires NoDup(c) && k < |c|
    ensures Elements(c[..k + 1]) == Elements(c[..k]) + {c[k]}
    ensures c[k] in c && c[k] in Elements(c) && c[k] !in Elements(c[..k])
  {
    assert c[..k + 1] == c[..k] + [c[k]];
  }

  lemma NothingSpread(hash: string -> nat, chains: seq<seq<Elem>>)
    requires |chains| > 0
    ensures SpreadOver(hash, [], chains, chains)
  {
  }

  /** The chains before and during an expansion: old chains from i on are still to be moved. */
  ghost predicate Expanding(hash: string -> nat, s: set<Elem>, old_: seq<seq<Elem>>, i: nat, moved: set<Elem>,
                            chains: seq<seq<Elem>>) {
    && Partition(hash, s, old_) && i <= |old_| && |chains| == 2 * |old_|
    && (forall e | e in moved :: e in s && Slot(hash, e, |old_|) < i)
    && forall b | 0 <= b < |chains| ::
        chains[b] == if b % |old_| < i then Spread(hash, old_[b % |old_|], |chains|, b) else []
  }

  lemma {:induction false} SpreadElsewhere(hash: string -> nat, c: seq<Elem>, n: nat, i: nat, b: nat)
    requires n > 0 && b % n != i && forall e | e in c :: Slot(hash, e, n) == i
    ensures Spread(hash, c, 2 * n, b) == []
    decreases |c|
  {
    if c != [] {
      SpreadElsewhere(hash, c[..|c| - 1], n, i, b);
      SlotDoubles(hash, c[|c| - 1], n);
    }
  }

  lemma ExpandingStep(hash: string -> nat, s: set<Elem>, old_: seq<seq<Elem>>, i: nat, moved: set<Elem>,
                      chains: seq<seq<Elem>>, next: seq<seq<Elem>>)
    requires Expanding(hash, s, old_, i, moved, chains) && i < |old_|
    requires SpreadOver(hash, old_[i], chains, next)
    ensures Expanding(hash, s, old_, i + 1, moved + Elements(old_[i]), next)
  {
    var n, m := |old_|, |next|;
    forall b | 0 <= b < m
      ensures next[b] == if b % n < i + 1 then Spread(hash, old_[b % n], m, b) else []
    {
      if b % n != i {
        SpreadElsewhere(hash, old_[i], n, i, b);
      }
    }
  }

  /** Elements of chains still to be moved are untouched so far. */
  lemma NotYetMoved(hash: string -> nat, s: set<Elem>, old_: seq<seq<Elem>>, i: nat, moved: set<Elem>,
                    chains: seq<seq<Elem>>, j: nat)
    requires Expanding(hash, s, old_, i, moved, chains) && i <= j < |old_|
    ensures forall e | e in old_[j] :: e !in moved && (j > i ==> e !in old_[i])
  {
    forall e | e in old_[j]
      ensures e !in moved && (j > i ==> e !in old_[i])
    {
      assert Slot(hash, e, |old_|) == j;
    }
  }

  lemma NoneYetMoved(hash: string -> nat, s: set<Elem>, old_: seq<seq<Elem>>, i: nat, moved: set<Elem>,
                     chains: seq<seq<Elem>>)
    requires Expanding(hash, s, old_, i, moved, chains) && i < |old_|
    ensures forall j | i < j < |old_| :: forall e | e in old_[j] :: e !in moved && e !in old_[i]
  {
    forall j | i < j < |old_|
      ensures forall e | e in old_[j] :: e !in moved && e !in old_[i]
    {
      NotYetMoved(hash, s, old_, i, moved, chains, j);
    }
  }

  lemma StartExpanding(hash: string -> nat, s: set<Elem>, old_: seq<seq<Elem>>, chains: seq<seq<Elem>>)
    requires Partition(hash, s, old_)
    requires |chains| == 2 * |old_| && forall b | 0 <= b < |chains| :: chains[b] == []
    ensures Expanding(hash, s, old_, 0, {}, chains)
    ensures Placed(hash, {}, chains)
  {
  }

  lemma FinishExpanding(hash: string -> nat, s: set<Elem>, old_: seq<seq<Elem>>, moved: set<Elem>,
                        chains: seq<seq<Elem>>)
    requires Expanding(hash, s, old_, |old_|, moved, chains)
    ensures Doubled(hash, old_, chains) && Partition(hash, s, chains)
  {
    DoubledPartition(hash, s, old_, chains);
  }

  /** What `RehashChain` needs to know about the next old chain. */
  lemma NextOldChain(hash: string -> nat, s: set<Elem>, old_: seq<seq<Elem>>, i: nat, moved: set<Elem>,
                     chains: seq<seq<Elem>>)
    requires Expanding(hash, s, old_, i, moved, chains) && i < |old_|
    requires forall e | e in s :: e.hashv == hash(e.key)
    ensures NoDup(old_[i]) && HashesStored(hash, old_[i]) && Elements(old_[i]) <= s
    ensures forall e | e in old_[i] :: e !in moved
  {
    NotYetMoved(hash, s, old_, i, moved, chains, i);
  }

  ghost predicate ForwardFrom(chains: seq<seq<Elem>>, i: nat)
    reads Members(chains)`hhNext
  {
    forall j | i <= j < |chains| :: chains[j] in chains && ForwardChain(chains[j])
  }

  /** One round of the outer loop: move old chain i. */
  method RehashNext(hash: string -> nat, head: Elem?, log2: nat, nb: array<Bucket>, ideal: nat, nonideal: nat,
                    ghost i: nat,
                    ghost s: set<Elem>, ghost old_: seq<seq<Elem>>,
                    ghost moved: set<Elem>, ghost chains: seq<seq<Elem>>)
    returns (nonideal': nat, ghost moved': set<Elem>, ghost chains': seq<seq<Elem>>)
    requires ideal > 0 && nb.Length == Pow2(log2 + 1) && i < |old_| && head == At(old_[i], 0)
    requires Building(hash, nb, ideal, nonideal, moved, chains)
    requires Expanding(hash, s, old_, i, moved, chains) && moved <= s
    requires ForwardFrom(old_, i) && forall e | e in s :: e.hashv == hash(e.key)
    modifies nb, s`hhNext, s`hhPrev
    ensures Building(hash, nb, ideal, nonideal', moved', chains')
    ensures Expanding(hash, s, old_, i + 1, moved', chains') && moved' <= s
    ensures ForwardFrom(old_, i + 1)
  {
    ghost var c := old_[i];
    NextOldChain(hash, s, old_, i, moved, chains);
    NoneYetMoved(hash, s, old_, i, moved, chains);
    assert ForwardChain(c);
    hide Expanding, Building, SpreadOver, ForwardChain, NoDup, HashesStored, Pow2;
    nonideal', chains' := RehashChain(hash, head, log2 + 1, nb, ideal, nonideal, c, moved, chains);
    ExpandingStep(hash, s, old_, i, moved, chains, chains');
    moved' := moved + Elements(c);
    forall j | i < j < |old_|
      ensures ForwardChain(old_[j])
    {
      assert old_[j] in old_;
    }
  }

  method FreshBuckets(hash: string -> nat, m: nat, ideal: nat) returns (nb: array<Bucket>, ghost chains: seq<seq<Elem>>)
    requires ideal > 0 && m > 0
    ensures fresh(nb) && nb.Length == m
    ensures chains == seq(m, _ => [])
    ensures Building(hash, nb, ideal, 0, {}, chains)
  {
    nb := new Bucket[m](_ => Bucket(null, 0, 0));
    chains := seq(m, _ => []);
    EmptyExcess(chains, ideal);
  }

  /** Head and count of every bucket describe its chain. */
  ghost predicate CountsMatch(buckets: seq<Bucket>, chains: seq<seq<Elem>>) {
    && |buckets| == |chains|
    && forall b | 0 <= b < |chains| :: buckets[b].head == At(chains[b], 0) && buckets[b].count == |chains[b]|
  }

  /** The expansion: allocate twice as many buckets and move every chain. */
  method Redistribute(hash: string -> nat, buckets: array<Bucket>, log2: nat, ideal: nat,
                      ghost s: set<Elem>, ghost old_: seq<seq<Elem>>)
    returns (nb: array<Bucket>, nonideal: nat, ghost chains: seq<seq<Elem>>)
    requires ideal > 0 && buckets.Length == Pow2(log2)
    requires Partition(hash, s, old_) && CountsMatch(buckets[..], old_) && AllChains(old_)
    requires forall e | e in s :: e.hashv == hash(e.key)
    modifies s`hhNext, s`hhPrev
    ensures fresh(nb) && nb.Length == Pow2(log2 + 1)
    ensures Doubled(hash, old_, chains) && Partition(hash, s, chains)
    ensures AllChains(chains) && BucketsMatch(nb[..], chains, ideal)
    ensures nonideal == TotalExcess(chains, ideal)
  {
    nb, chains := FreshBuckets(hash, 2 * buckets.Length, ideal);
    nonideal := 0;
    ghost var moved: set<Elem> := {};
    StartExpanding(hash, s, old_, chains);
    StartForward(old_);
    hide Expanding, Building, Partition, Placed, AllChains, BucketsMatch, TotalExcess, ForwardFrom, Doubled;
    var i := 0;
    while i < buckets.Length
      invariant i <= buckets.Length && nb.Length == 2 * buckets.Length
      invariant Building(hash, nb, ideal, nonideal, moved, chains)
      invariant Expanding(hash, s, old_, i, moved, chains) && moved <= s
      invariant ForwardFrom(old_, i)
      invariant buckets[..] == old(buckets[..])
    {
      nonideal, moved, chains :=
        RehashNext(hash, buckets[i].head, log2, nb, ideal, nonideal, i, s, old_, moved, chains);
      i := i + 1;
    }
    FinishExpanding(hash, s, old_, moved, chains);
    BuildingParts(hash, nb, ideal, nonideal, moved, chains);
  }

  lemma StartForward(chains: seq<seq<Elem>>)
    requires AllChains(chains)
    ensures ForwardFrom(chains, 0)
  {
    forall j | 0 <= j < |chains|
      ensures chains[j] in chains && ForwardChain(chains[j])
    {
      assert chains[j] in chains;
    }
  }

  lemma BuildingParts(hash: string -> nat, nb: array<Bucket>, ideal: nat, nonideal: nat, moved: set<Elem>,
                      chains: seq<seq<Elem>>)
    requires ideal > 0 && Building(hash, nb, ideal, nonideal, moved, chains)
    ensures AllChains(chains) && BucketsMatch(nb[..], chains, ideal) && nonideal == TotalExcess(chains, ideal)
  {
  }

  // ----- Removing one element from a list or a chain -----

  lemma WithoutMembers<T>(s: seq<T>, k: nat)
    requires k < |s| && NoDup(s)
    ensures NoDup(Without(s, k)) && s[k] !in Without(s, k)
    ensures forall x :: x in Without(s, k) <==> x in s && x != s[k]
    ensures Elements(Without(s, k)) == Elements(s) - {s[k]}
  {
    var t := Without(s, k);
    forall x | x in s && x != s[k]
      ensures x in t
    {
      var i :| 0 <= i < |s| && s[i] == x;
      assert i < k ==> t[i] == x;
      assert i > k ==> t[i - 1] == x;
    }
  }

  /** The neighbours of position k are where removing s[k] needs a write, and nowhere else. */
  lemma OnlyNeighbours<T>(s: seq<T>, k: nat, i: nat)
    requires NoDup(s) && k < |s| && i < |Without(s, k)|
    ensures Without(s, k)[i] == s[if i < k then i else i + 1]
    ensures k > 0 ==> (Without(s, k)[i] == s[k - 1] <==> i == k - 1)
    ensures k + 1 < |s| ==> (Without(s, k)[i] == s[k + 1] <==> i == k)
  {
  }

  lemma NeighboursOf<T>(s: seq<T>, k: nat)
    requires NoDup(s) && k < |s|
    ensures forall i | 0 <= i < |Without(s, k)| ::
      && Without(s, k)[i] == s[if i < k then i else i + 1]
      && (k > 0 ==> (Without(s, k)[i] == s[k - 1] <==> i == k - 1))
      && (k + 1 < |s| ==> (Without(s, k)[i] == s[k + 1] <==> i == k))
  {
    forall i | 0 <= i < |Without(s, k)|
      ensures Without(s, k)[i] == s[if i < k then i else i + 1]
      ensures k > 0 ==> (Without(s, k)[i] == s[k - 1] <==> i == k - 1)
      ensures k + 1 < |s| ==> (Without(s, k)[i] == s[k + 1] <==> i == k)
    {
      OnlyNeighbours(s, k, i);
    }
  }

  /** A complete application-order list: both links of every element, null at both ends. */
  ghost predicate Threaded(s: seq<Elem>)
    reads s`next, s`prev
  {
    forall i {:trigger s[i].next} {:trigger s[i].prev} | 0 <= i < |s| ::
      s[i].next == At(s, i + 1) && s[i].prev == At(s, i - 1)
  }

  lemma ThreadedIffDoubly(s: seq<Elem>)
    ensures Threaded(s) <==> Doubly(s) && Terminated(s)
  {
  }

  method SortThreaded(cmp: (Elem, Elem) -> int, first: Elem, ghost s: seq<Elem>)
    returns (head: Elem?, tail: Elem?, ghost sorted: seq<Elem>)
    requires s != [] && first == s[0] && NoDup(s) && Threaded(s)
    modifies Elements(s)`next, Elements(s)`prev
    ensures NoDup(sorted) && Threaded(sorted) && sorted == SortFrom(cmp, s, 1)
    ensures head == At(sorted, 0) && (sorted != [] ==> tail == sorted[|sorted| - 1])
  {
    ThreadedIffDoubly(s);
    hide NoDup, Threaded, Doubly, Terminated, SortFrom;
    head, tail, sorted := SortList(cmp, first, s);
    ThreadedIffDoubly(sorted);
  }

  /** Unlink `e == s[k]` from the application-order list. */
  method UnlinkFromList(e: Elem, ghost s: seq<Elem>, ghost k: nat)
    requires k < |s| && e == s[k] && NoDup(s) && Threaded(s)
    modifies Elements(s)`next, Elements(s)`prev
    ensures Threaded(Without(s, k))
  {
    NeighboursOf(s, k);
    hide NoDup;
    if e.prev != null {
      e.prev.next := e.next;
    }
    if e.next != null {
      e.next.prev := e.prev;
    }
  }

  /** HASH_DEL_IN_BKT on the links: unlink `e == c[k]` from its chain. */
  method UnlinkFromChain(e: Elem, ghost c: seq<Elem>, ghost k: nat)
    requires k < |c| && e == c[k] && NoDup(c) && Chain(c)
    modifies Elements(c)`hhNext, Elements(c)`hhPrev
    ensures Chain(Without(c, k))
  {
    NeighboursOf(c, k);
    hide NoDup;
    if e.hhPrev != null {
      e.hhPrev.hhNext := e.hhNext;
    }
    if e.hhNext != null {
      e.hhNext.hhPrev := e.hhPrev;
    }
  }

  // ----- The table -----

  /** ceil(items / (2 * buckets)), computed with a shift and a mask. */
  function IdealLength(numItems: nat, numBuckets: nat, log2: nat): (c: nat)
    requires numItems > 0 && numBuckets == Pow2(log2)
    ensures c > 0 && IsCeiling(c, numItems, 2 * numBuckets)
  {
    ShiftMaskCeiling(numItems, log2 + 1);
    var carry := if BitAnd(numItems, numBuckets * 2 - 1) != 0 then 1 else 0;
    CeilingPositive(ShiftRight(numItems, log2 + 1) + carry, numItems, 2 * numBuckets);
    ShiftRight(numItems, log2 + 1) + if BitAnd(numItems, numBuckets * 2 - 1) != 0 then 1 else 0
  }

  lemma PushPartition(hash: string -> nat, s: set<Elem>, chains: seq<seq<Elem>>, e: Elem)
    requires Partition(hash, s, chains) && e !in s
    ensures Partition(hash, s + {e}, Pushed(chains, Slot(hash, e, |chains|), e))
  {
    var b := Slot(hash, e, |chains|);
    var c := [e] + chains[b];
    assert e !in chains[b];
    assert NoDup(c);
    assert forall x | x in chains[b] :: x in c;
  }

  lemma RemovePartition(hash: string -> nat, s: set<Elem>, chains: seq<seq<Elem>>, b: nat, k: nat)
    requires Partition(hash, s, chains) && b < |chains| && k < |chains[b]|
    ensures Partition(hash, s - {chains[b][k]}, chains[b := Without(chains[b], k)])
  {
    var e, after := chains[b][k], chains[b := Without(chains[b], k)];
    WithoutMembers(chains[b], k);
    assert Slot(hash, e, |chains|) == b;
    forall a, x | 0 <= a < |after| && x in after[a]
      ensures x in s - {e} && Slot(hash, x, |after|) == a
    {
      assert x in chains[a];
    }
    forall x | x in s - {e}
      ensures x in after[Slot(hash, x, |after|)]
    {
      assert x in chains[Slot(hash, x, |chains|)];
    }
  }

  lemma MembersWithin(hash: string -> nat, s: set<Elem>, chains: seq<seq<Elem>>)
    requires Partition(hash, s, chains)
    ensures Members(chains) <= s
  {
    forall c, e | c in chains && e in c
      ensures e in s
    {
      var b :| 0 <= b < |chains| && chains[b] == c;
    }
  }

  lemma PartitionPlaced(hash: string -> nat, s: set<Elem>, chains: seq<seq<Elem>>)
    requires Partition(hash, s, chains)
    ensures Placed(hash, s, chains)
  {
  }

  // ----- Sequences of operations -----

  datatype Operation =
    | Insert(e: Elem)                       // HASH_FIND, and HASH_ADD if the key is not there
    | Remove(key: string)                   // HASH_FIND, and HASH_DELETE if the key is there
    | Look(key: string)                     // HASH_FIND
    | Reorder(cmp: (Elem, Elem) -> int)     // HASH_SORT

  ghost predicate OperationOn(op: Operation, all: set<Elem>) {
    (op.Insert? ==> op.e in all) && (op.Reorder? ==> TotalPreorderOn(op.cmp, all))
  }

  ghost predicate OperationsOn(ops: seq<Operation>, all: set<Elem>) {
    forall i | 0 <= i < |ops| :: OperationOn(ops[i], all)
  }

  /** What an operation makes of a finite map. */
  ghost function MapWith(m: map<string, Elem>, op: Operation): map<string, Elem> {
    match op
    case Insert(e) => if e.key in m then m else m[e.key := e]
    case Remove(key) => m - {key}
    case _ => m
  }

  /** What an operation makes of the application order. */
  ghost function OrderWith(s: seq<Elem>, op: Operation): seq<Elem> {
    match op
    case Insert(e) => if e.key in KeyMap(s) then s else s + [e]
    case Remove(key) => if key in KeyMap(s) then Without(s, IndexOf(s, KeyMap(s)[key])) else s
    case Look(_) => s
    case Reorder(cmp) => SortFrom(cmp, s, 1)
  }

  ghost function IndexOf(s: seq<Elem>, e: Elem): (k: nat)
    requires e in s
    ensures k < |s| && s[k] == e
  {
    var k :| 0 <= k < |s| && s[k] == e;
    k
  }

  ghost function AnswerTo(m: map<string, Elem>, op: Operation): seq<Elem?> {
    if op.Look? then [if op.key in m then m[op.key] else null] else []
  }

  ghost function MapAfter(m: map<string, Elem>, ops: seq<Operation>): map<string, Elem>
    decreases |ops|
  {
    if ops == [] then m else MapWith(MapAfter(m, ops[..|ops| - 1]), ops[|ops| - 1])
  }

  ghost function OrderAfter(s: seq<Elem>, ops: seq<Operation>): seq<Elem>
    decreases |ops|
  {
    if ops == [] then s else OrderWith(OrderAfter(s, ops[..|ops| - 1]), ops[|ops| - 1])
  }

  /** What the lookups return, each from the map at that moment. */
  ghost function Answers(m: map<string, Elem>, ops: seq<Operation>): seq<Elem?>
    decreases |ops|
  {
    if ops == [] then []
    else Answers(m, ops[..|ops| - 1]) + AnswerTo(MapAfter(m, ops[..|ops| - 1]), ops[|ops| - 1])
  }

  ghost predicate Done(m: map<string, Elem>, s: seq<Elem>, ops: seq<Operation>,
                       now: map<string, Elem>, order: seq<Elem>, found: seq<Elem?>)
  {
    now == MapAfter(m, ops) && order == OrderAfter(s, ops) && found == Answers(m, ops)
  }

  lemma NothingDone(m: map<string, Elem>, s: seq<Elem>, ops: seq<Operation>, found: seq<Elem?>)
    requires found == []
    ensures Done(m, s, ops[..0], m, s, found)
  {
  }

  lemma OneMoreDone(m: map<string, Elem>, s: seq<Elem>, ops: seq<Operation>, i: nat,
                    now: map<string, Elem>, order: seq<Elem>, found: seq<Elem?>,
                    now': map<string, Elem>, order': seq<Elem>, answer: seq<Elem?>)
    requires i < |ops| && Done(m, s, ops[..i], now, order, found)
    requires now' == MapWith(now, ops[i]) && order' == OrderWith(order, ops[i]) && answer == AnswerTo(now, ops[i])
    ensures Done(m, s, ops[..i + 1], now', order', found + answer)
  {
    var next := ops[..i + 1];
    assert next[..i] == ops[..i] && next[i] == ops[i];
    hide MapWith, OrderWith, AnswerTo;
  }

  lemma AllDone(m: map<string, Elem>, s: seq<Elem>, ops: seq<Operation>,
                now: map<string, Elem>, order: seq<Elem>, found: seq<Elem?>)
    requires Done(m, s, ops[..|ops|], now, order, found)
    ensures now == MapAfter(m, ops) && order == OrderAfter(s, ops) && found == Answers(m, ops)
  {
    assert ops[..|ops|] == ops;
  }

  lemma OnlyIndex(s: seq<Elem>, e: Elem)
    requires NoDup(s) && e in s
    ensures forall k | 0 <= k < |s| && s[k] == e :: k == IndexOf(s, e)
  {
  }

  lemma PreorderWithin(cmp: (Elem, Elem) -> int, s: set<Elem>, all: set<Elem>)
    requires TotalPreorderOn(cmp, all) && s <= all
    ensures TotalPreorderOn(cmp, s)
  {
  }

  lemma Grown(s: seq<Elem>, e: Elem, all: set<Elem>)
    requires Elements(s) <= all && e in all
    ensures Elements(s + [e]) <= all
  {
  }

  lemma Shrunk(s: seq<Elem>, k: nat, all: set<Elem>)
    requires Elements(s) <= all && k < |s|
    ensures Elements(Without(s, k)) <= all
  {
    assert forall x | x in Without(s, k) :: x in Elements(s);
  }

  class Table {
    const hash: string -> nat
    var head: Elem?
    var tail: Elem?
    var buckets: array<Bucket>
    var numBuckets: nat
    var log2NumBuckets: nat
    var numItems: nat
    var idealChainMaxlen: nat
    var nonidealItems: nat
    var ineffExpands: nat
    var noexpand: bool
    ghost var order: seq<Elem>
    ghost var chains: seq<seq<Elem>>

    /** The bucket side of the table holds exactly the elements of `s`. */
    ghost predicate ChainsOk(s: set<Elem>)
      reads this`buckets, this`numBuckets, this`log2NumBuckets, this`chains, buckets, s`hashv, s`hhNext, s`hhPrev
    {
      && buckets.Length == numBuckets == Pow2(log2NumBuckets) == |chains|
      && Partition(hash, s, chains) && CountsMatch(buckets[..], chains)
      && Members(chains) <= s && AllChains(chains)
      && forall e | e in s :: e.hashv == hash(e.key)
    }

    /** The application-order side. */
    ghost predicate ListOk()
      reads this`head, this`tail, this`order, order`next, order`prev
    {
      && NoDup(order) && Threaded(order)
      && head == At(order, 0) && (order != [] ==> tail == order[|order| - 1])
    }

    ghost predicate Valid()
      reads this, buckets, order
    {
      && ListOk() && DistinctKeys(order)
      && (order != [] ==> numItems == |order| && ChainsOk(Elements(order)))
    }

    /** An empty table is the null head pointer: nothing is allocated for it. */
    constructor (hash: string -> nat)
      ensures Valid() && order == [] && this.hash == hash && fresh(buckets)
    {
      this.hash := hash;
      head, tail := null, null;
      buckets := new Bucket[0];
      numBuckets, log2NumBuckets, numItems := 0, 0, 0;
      idealChainMaxlen, nonidealItems, ineffExpands, noexpand := 0, 0, 0, false;
      order, chains := [], [];
    }

    /** HASH_MAKE_TABLE: fresh empty buckets and zeroed statistics. */
    method MakeTable()
      modifies this`buckets, this`numBuckets, this`log2NumBuckets, this`numItems, this`idealChainMaxlen,
        this`nonidealItems, this`ineffExpands, this`noexpand, this`chains
      ensures fresh(buckets) && ChainsOk({})
      ensures numBuckets == INITIAL_NUM_BUCKETS && numItems == 0 && ineffExpands == 0 && !noexpand
      ensures nonidealItems == idealChainMaxlen == 0
      ensures forall b | 0 <= b < |chains| :: chains[b] == []
      ensures forall b | 0 <= b < buckets.Length :: buckets[b].mult == 0
    {
      buckets := new Bucket[INITIAL_NUM_BUCKETS](_ => Bucket(null, 0, 0));
      numBuckets := INITIAL_NUM_BUCKETS;
      log2NumBuckets := INITIAL_NUM_BUCKETS_LOG2;
      numItems, idealChainMaxlen, nonidealItems, ineffExpands, noexpand := 0, 0, 0, 0, false;
      chains := seq(INITIAL_NUM_BUCKETS, _ => []);
      assert Pow2(5) == 2 * Pow2(4) && Pow2(4) == 2 * Pow2(3) && Pow2(3) == 2 * Pow2(2) && Pow2(2) == 2 * Pow2(1);
    }

    /** HASH_EXPAND_BUCKETS. */
    method ExpandBuckets(ghost s: set<Elem>)
      requires ChainsOk(s) && numItems > 0
      modifies this`buckets, this`numBuckets, this`log2NumBuckets, this`idealChainMaxlen,
        this`nonidealItems, this`ineffExpands, this`noexpand, this`chains, s`hhNext, s`hhPrev
      ensures ChainsOk(s) && fresh(buckets)
      ensures Doubled(hash, old(chains), chains)
      ensures idealChainMaxlen > 0 && IsCeiling(idealChainMaxlen, numItems, numBuckets)
      ensures BucketsMatch(buckets[..], chains, idealChainMaxlen)
      ensures nonidealItems == TotalExcess(chains, idealChainMaxlen)
      ensures ineffExpands == (if nonidealItems > numItems / 2 then old(ineffExpands) + 1 else 0)
      ensures noexpand == (old(noexpand) || ineffExpands > 1)
    {
      hide IdealLength, ShiftRight, AllChains, Doubled, TotalExcess, IsCeiling, Partition, BucketsMatch, CountsMatch,
        Members;
      var ideal := IdealLength(numItems, numBuckets, log2NumBuckets);
      ShiftIsDiv(numItems, 1);
      var nb, nonideal;
      ghost var after;
      nb, nonideal, after := Redistribute(hash, buckets, log2NumBuckets, ideal, s, chains);
      MembersWithin(hash, s, after);
      MatchingCounts(nb[..], after, ideal);
      hide *;
      Install(nb, ideal, nonideal, s, after);
      ineffExpands := if nonidealItems > ShiftRight(numItems, 1) then ineffExpands + 1 else 0;
      if ineffExpands > 1 {
        noexpand := true;
      }
    }

    method Install(nb: array<Bucket>, ideal: nat, nonideal: nat, ghost s: set<Elem>, ghost after: seq<seq<Elem>>)
      requires nb.Length == 2 * numBuckets == Pow2(log2NumBuckets + 1) == |after|
      requires Partition(hash, s, after) && CountsMatch(nb[..], after) && Members(after) <= s && AllChains(after)
      requires forall e | e in s :: e.hashv == hash(e.key)
      modifies this`buckets, this`numBuckets, this`log2NumBuckets, this`idealChainMaxlen, this`nonidealItems,
        this`chains
      ensures ChainsOk(s) && buckets == nb && chains == after && numBuckets == 2 * old(numBuckets)
      ensures idealChainMaxlen == ideal && nonidealItems == nonideal
    {
      hide AllChains, Partition, CountsMatch, Members, Pow2;
      idealChainMaxlen := ideal;
      nonidealItems := nonideal;
      numBuckets := numBuckets * 2;
      log2NumBuckets := log2NumBuckets + 1;
      buckets := nb;
      chains := after;
    }

    /** What an expansion leaves in the statistics. */
    ghost predicate StatisticsFresh()
      reads this, buckets
    {
      && idealChainMaxlen > 0 && numBuckets > 0 && IsCeiling(idealChainMaxlen, numItems, numBuckets)
      && BucketsMatch(buckets[..], chains, idealChainMaxlen)
      && nonidealItems == TotalExcess(chains, idealChainMaxlen)
    }

    /** The first half of HASH_ADD_TO_BKT: link the element in front and count it. */
    method LinkIntoBucket(e: Elem, b: nat, ghost s: set<Elem>)
      requires ChainsOk(s) && e !in s && e.hashv == hash(e.key) && b < numBuckets && b == Slot(hash, e, numBuckets)
      modifies this`chains, buckets, {e}`hhNext, {e}`hhPrev, s`hhPrev
      ensures ChainsOk(s + {e}) && chains == Pushed(old(chains), b, e)
      ensures forall a | 0 <= a < buckets.Length :: buckets[a].mult == old(buckets[a].mult)
    {
      hide Partition, AllChains, Placed, Pow2, Members, CountsMatch, Slot;
      ghost var pushed := Pushed(chains, b, e);
      PushedFacts(hash, s, chains, b, e);
      var h := buckets[b].head;
      ghost var bs := buckets[..];
      PushCounts(bs, chains, b, e);
      PushLink(hash, e, h, b, s, chains);
      buckets[b] := Bucket(e, buckets[b].count + 1, buckets[b].mult);
      assert buckets[..] == bs[b := Bucket(e, bs[b].count + 1, bs[b].mult)];
      chains := pushed;
    }

    /** HASH_ADD_TO_BKT: link the element, and expand when the chain has reached its limit. */
    method AddToBkt(e: Elem, b: nat, ghost s: set<Elem>)
      requires ChainsOk(s) && e !in s && e.hashv == hash(e.key) && b < numBuckets && b == Slot(hash, e, numBuckets)
      requires numItems > 0
      modifies this`buckets, this`numBuckets, this`log2NumBuckets, this`idealChainMaxlen, this`nonidealItems,
        this`ineffExpands, this`noexpand, this`chains, buckets, {e}`hhNext, {e}`hhPrev, s`hhNext, s`hhPrev
      ensures ChainsOk(s + {e}) && (buckets == old(buckets) || fresh(buckets))
      ensures var pushed := Pushed(old(chains), b, e);
        if |pushed[b]| >= (old(buckets[b].mult) + 1) * BKT_CAPACITY_THRESH && !old(noexpand)
        then Doubled(hash, pushed, chains) && StatisticsFresh()
        else chains == pushed && buckets == old(buckets)
    {
      LinkIntoBucket(e, b, s);
      hide Partition, AllChains, Pow2, Members, Doubled, BucketsMatch, TotalExcess, IsCeiling;
      if buckets[b].count >= (buckets[b].mult + 1) * BKT_CAPACITY_THRESH && !noexpand {
        ExpandBuckets(s + {e});
      }
    }

    /** The finite map the table stands for. */
    ghost function Model(): map<string, Elem>
      reads this
    {
      KeyMap(order)
    }

    /** The list half of HASH_ADD: start a list, or HASH_APPEND_LIST. */
    method ListAdd(e: Elem)
      requires ListOk() && e !in order
      modifies this`head, this`tail, this`order, order`next, {e}`next, {e}`prev
      ensures ListOk() && order == old(order) + [e]
    {
      ghost var s := order;
      NoDupSnoc(s, e);
      if head == null {
        e.next := null;
        e.prev := null;
        head := e;
        tail := e;
      } else {
        hide NoDup, Threaded;
        AppendTo(e, tail, s);
        tail := e;
      }
      order := order + [e];
    }

    /** HASH_ADD_KEYPTR_BYHASHVALUE, for a key that is not in the table yet. */
    method Add(e: Elem)
      requires Valid() && e !in order && e.key !in Model()
      modifies this, buckets, order, e
      ensures Valid() && order == old(order) + [e] && (buckets == old(buckets) || fresh(buckets))
      ensures Model() == old(Model())[e.key := e]
    {
      AddKey(order, e);
      NoDupSnoc(order, e);
      KnownElement(e);
      ghost var s, after := Elements(order), order + [e];
      ghost var model := KeyMap(after);
      assert model == Model()[e.key := e] && Elements(after) == s + {e};
      hide *;
      EnterInList(e, s);
      EnterInBucket(e, s);
      Entered(s + {e}, after);
    }

    lemma Entered(s: set<Elem>, after: seq<Elem>)
      requires order == after && ListOk() && DistinctKeys(after) && numItems == |after| && ChainsOk(s)
      requires Elements(after) == s
      ensures Valid() && Model() == KeyMap(after)
    {
      hide ListOk, ChainsOk, DistinctKeys, KeyMap, Elements;
    }

    lemma KnownElement(e: Elem)
      requires e !in order
      ensures e !in Elements(order) && forall x | x in Elements(order) :: x in order
    {
    }

    /** Everything of HASH_ADD before HASH_TO_BKT. */
    method EnterInList(e: Elem, ghost s: set<Elem>)
      requires ListOk() && (order != [] ==> numItems == |order| && ChainsOk(Elements(order)))
      requires e !in order && s == Elements(order)
      modifies this, order`next, e
      ensures ListOk() && order == old(order) + [e] && numItems == |order|
      ensures e.hashv == hash(e.key)
      ensures ChainsOk(s) && (buckets == old(buckets) || fresh(buckets))
    {
      hide ListOk, ChainsOk;
      e.hashv := hash(e.key);
      EnsureTable();
      ListAdd(e);
      numItems := numItems + 1;
    }

    /** The rest of HASH_ADD: select the bucket and add to it. */
    method EnterInBucket(e: Elem, ghost s: set<Elem>)
      requires ListOk() && numItems > 0 && ChainsOk(s) && e !in s && e.hashv == hash(e.key)
      modifies this`buckets, this`numBuckets, this`log2NumBuckets, this`idealChainMaxlen, this`nonidealItems,
        this`ineffExpands, this`noexpand, this`chains, buckets, {e}`hhNext, {e}`hhPrev, s`hhNext, s`hhPrev
      ensures ListOk() && ChainsOk(s + {e}) && (buckets == old(buckets) || fresh(buckets))
      ensures order == old(order) && numItems == old(numItems)
    {
      hide ListOk, ChainsOk, StatisticsFresh, Doubled, Pushed;
      var b := ToBkt(e.hashv, s);
      AddToBkt(e, b, s);
    }

    /** The table is created together with its first element. */
    method EnsureTable()
      requires ListOk() && (order != [] ==> numItems == |order| && ChainsOk(Elements(order)))
      modifies this`buckets, this`numBuckets, this`log2NumBuckets, this`numItems, this`idealChainMaxlen,
        this`nonidealItems, this`ineffExpands, this`noexpand, this`chains
      ensures numItems == |order| && ChainsOk(Elements(order))
      ensures old(order) == [] ==> fresh(buckets)
      ensures old(order) != [] ==> buckets == old(buckets) && noexpand == old(noexpand)
    {
      if head == null {
        MakeTable();
        assert Elements(order) == {};
      }
    }

    /** HASH_TO_BKT. */
    method ToBkt(hashv: nat, ghost s: set<Elem>) returns (b: nat)
      requires ChainsOk(s)
      ensures numBuckets > 0 && b == hashv % numBuckets
    {
      b := BitAnd(hashv, numBuckets - 1);
      MaskIsMod(hashv, log2NumBuckets);
    }

    /** The list half of HASH_DELETE, for a list with more than one element. */
    method ListDelete(e: Elem, ghost k: nat)
      requires ListOk() && k < |order| && order[k] == e && |order| > 1
      modifies this`head, this`tail, this`order, order`next, order`prev
      ensures ListOk() && order == Without(old(order), k)
    {
      ghost var s := order;
      WithoutMembers(s, k);
      EndsWithout(s, k);
      hide NoDup, Without, Threaded, At;
      if e == tail {
        tail := e.prev;
      }
      if e.prev == null {
        head := e.next;
      }
      UnlinkFromList(e, s, k);
      order := Without(s, k);
    }

    /** HASH_DEL_IN_BKT. */
    method BucketDelete(e: Elem, b: nat, ghost s: set<Elem>, ghost k: nat)
      requires ChainsOk(s) && b < numBuckets && k < |chains[b]| && chains[b][k] == e
      modifies this`chains, buckets, s`hhNext, s`hhPrev
      ensures ChainsOk(s - {e})
      ensures chains == old(chains)[b := Without(old(chains)[b], k)]
      ensures forall a | 0 <= a < buckets.Length :: buckets[a].mult == old(buckets[a].mult)
    {
      ghost var bs := buckets[..];
      ChainFacts(b, s);
      hide Partition, AllChains, Placed, Pow2, Members, CountsMatch, Slot;
      RemovedFacts(hash, s, chains, b, k);
      RemoveCounts(bs, chains, b, k);
      var h := if buckets[b].head == e then e.hhNext else buckets[b].head;
      buckets[b] := Bucket(h, buckets[b].count - 1, buckets[b].mult);
      UnlinkInFamily(hash, e, b, k, s, chains);
      assert buckets[..] == bs[b := buckets[b]];
      chains := chains[b := Without(chains[b], k)];
    }

    lemma ChainFacts(b: nat, s: set<Elem>)
      requires ChainsOk(s) && b < numBuckets
      ensures Chain(chains[b]) && NoDup(chains[b])
    {
      assert chains[b] in chains;
    }

    /** HASH_DELETE. Deleting the only element frees the table. */
    method Delete(e: Elem) returns (ghost k: nat)
      requires Valid() && e in order
      modifies this, buckets, order
      ensures Valid() && e !in order && buckets == old(buckets)
      ensures k < |old(order)| && old(order)[k] == e && order == Without(old(order), k)
      ensures Model() == old(Model()) - {e.key}
    {
      ghost var after := [];
      k, after := Located(e);
      hide *;
      if e.prev == null && e.next == null {
        Free(after);
      } else {
        RemoveOne(e, k, after);
      }
    }

    method RemoveOne(e: Elem, ghost k: nat, ghost after: seq<Elem>)
      requires ListOk() && k < |order| && order[k] == e && |order| > 1 && numItems == |order| == |after| + 1
      requires ChainsOk(Elements(order)) && after == Without(order, k)
      requires DistinctKeys(after) && Elements(after) == Elements(order) - {e}
      modifies this`head, this`tail, this`order, this`numItems, this`chains, buckets, order
      ensures Valid() && order == after && Model() == KeyMap(after) && buckets == old(buckets)
    {
      ghost var s := Elements(order);
      hide *;
      RemoveLinks(e, s, k);
      Entered(s - {e}, after);
    }

    /** Where the element is, and what is left without it. */
    lemma Located(e: Elem) returns (k: nat, after: seq<Elem>)
      requires Valid() && e in order
      ensures k < |order| && order[k] == e && after == Without(order, k) && e !in after
      ensures DistinctKeys(after) && KeyMap(after) == Model() - {e.key} && Elements(after) == Elements(order) - {e}
      ensures ListOk() && numItems == |order| == |after| + 1 && ChainsOk(Elements(order))
      ensures e.prev == null && e.next == null <==> |order| == 1
      ensures |order| == 1 ==> after == []
    {
      k :| 0 <= k < |order| && order[k] == e;
      after := Without(order, k);
      RemoveKey(order, k);
      WithoutMembers(order, k);
      WithoutAt(order, k);
      SoleElement(order, k);
      assert e.prev == At(order, k - 1) && e.next == At(order, k + 1);
    }

    /** The last element goes, and the table with it. */
    method Free(ghost after: seq<Elem>)
      requires after == []
      modifies this`head, this`order
      ensures Valid() && order == after && Model() == KeyMap(after) && buckets == old(buckets)
    {
      head := null;
      order := [];
    }

    method RemoveLinks(e: Elem, ghost s: set<Elem>, ghost k: nat)
      requires ListOk() && k < |order| && order[k] == e && |order| > 1
      requires numItems == |order| && s == Elements(order) && ChainsOk(s)
      modifies this`head, this`tail, this`order, this`numItems, this`chains, buckets, order
      ensures ListOk() && order == Without(old(order), k) && buckets == old(buckets)
      ensures numItems == |order| && ChainsOk(s - {e})
    {
      MemberAt(order, k);
      ghost var j := FindInChain(e, s);
      var b := ToBkt(e.hashv, s);
      hide ListOk, ChainsOk, Elements;
      ListDeleteKeepsChains(e, k, s);
      BucketDeleteKeepsList(e, b, s, j);
    }

    method ListDeleteKeepsChains(e: Elem, ghost k: nat, ghost s: set<Elem>)
      requires ListOk() && k < |order| && order[k] == e && |order| > 1 && ChainsOk(s) && numItems == |order|
      modifies this`head, this`tail, this`order, this`numItems, order`next, order`prev
      ensures ListOk() && order == Without(old(order), k) && ChainsOk(s) && numItems == |order|
      ensures buckets == old(buckets)
    {
      hide ListOk, ChainsOk;
      ListDelete(e, k);
      numItems := numItems - 1;
    }

    method BucketDeleteKeepsList(e: Elem, b: nat, ghost s: set<Elem>, ghost k: nat)
      requires ListOk()
      requires ChainsOk(s) && b < numBuckets && k < |chains[b]| && chains[b][k] == e
      modifies this`chains, buckets, s`hhNext, s`hhPrev
      ensures ListOk() && ChainsOk(s - {e}) && buckets == old(buckets)
    {
      hide ListOk, ChainsOk;
      BucketDelete(e, b, s, k);
    }

    lemma FindInChain(e: Elem, s: set<Elem>) returns (j: nat)
      requires ChainsOk(s) && e in s
      ensures numBuckets > 0 && e.hashv % numBuckets < |chains|
      ensures j < |chains[e.hashv % numBuckets]| && chains[e.hashv % numBuckets][j] == e
    {
      j :| 0 <= j < |chains[Slot(hash, e, |chains|)]| && chains[Slot(hash, e, |chains|)][j] == e;
    }

    /** HASH_FIND. */
    method Find(key: string) returns (out: Elem?)
      requires Valid()
      ensures out == if key in Model() then Model()[key] else null
    {
      out := null;
      if head != null {
        var hashv := hash(key);
        var b := ToBkt(hashv, Elements(order));
        out := FindInBucket(buckets[b].head, hashv, key, chains[b]);
        FoundInChain(key, out);
      }
    }

    /** A chain holds every element whose key hashes to its slot, so searching one chain is enough. */
    lemma FoundInChain(key: string, out: Elem?)
      requires Valid() && order != []
      requires out != null ==> out in order && out.key == key
      requires out == null ==> forall e | e in chains[hash(key) % numBuckets] :: e.key != key
      ensures out == if key in Model() then Model()[key] else null
    {
      if out != null {
        var i :| 0 <= i < |order| && order[i] == out;
        KeyMapAt(order, i);
      } else {
        forall i | 0 <= i < |order|
          ensures order[i].key != key
        {
          assert order[i] in Elements(order);
          var c := chains[Slot(hash, order[i], |chains|)];
          assert order[i] in c;
        }
        KeyAbsent(order, key);
      }
    }

    /** HASH_SORT. Bucket chains, counters and hash handles other than next/prev are not in its frame. */
    method Sort(cmp: (Elem, Elem) -> int)
      requires Valid() && TotalPreorderOn(cmp, Elements(order))
      modifies this`head, this`tail, this`order, order`next, order`prev
      ensures Valid() && buckets == old(buckets)
      ensures order == SortFrom(cmp, old(order), 1) && Elements(order) == Elements(old(order))
      ensures IsStableSortOf(cmp, old(order), order)
      ensures Model() == old(Model())
    {
      ghost var s := order;
      SortKeepsModel(cmp, s);
      hide IsStableSortOf, ListOk, ChainsOk, KeyMap, DistinctKeys, TotalPreorderOn, Elements;
      SortOrder(cmp);
    }

    /** The list half of HASH_SORT; the bucket side is framed out. */
    method SortOrder(cmp: (Elem, Elem) -> int)
      requires ListOk() && (order != [] ==> ChainsOk(Elements(order)))
      modifies this`head, this`tail, this`order, order`next, order`prev
      ensures ListOk() && NoDup(order) && order == SortFrom(cmp, old(order), 1)
      ensures old(order) != [] ==> ChainsOk(Elements(old(order)))
    {
      hide ChainsOk;
      if head != null {
        ghost var sorted;
        head, tail, sorted := SortThreaded(cmp, head, order);
        hide NoDup, Threaded, SortFrom;
        order := sorted;
      }
    }

    /**
      Any sequence of operations, whatever the hash function and whenever the table is
      created, expanded or freed: the table stays valid, stands for the map that the
      operations make of the old one, and each lookup has returned what the map held.
     */
    method Run(ops: seq<Operation>, ghost all: set<Elem>) returns (found: seq<Elem?>)
      requires Valid() && Elements(order) <= all && OperationsOn(ops, all)
      modifies this, buckets, all
      ensures Valid() && Elements(order) <= all && (buckets == old(buckets) || fresh(buckets))
      ensures Model() == MapAfter(old(Model()), ops) && order == OrderAfter(old(order), ops)
      ensures found == Answers(old(Model()), ops)
    {
      ghost var model, start := Model(), order;
      found := [];
      NothingDone(model, start, ops, found);
      hide *;
      for i := 0 to |ops|
        invariant Valid() && Elements(order) <= all && (buckets == old(buckets) || fresh(buckets))
        invariant Done(model, start, ops[..i], Model(), order, found)
      {
        ghost var before, was := Model(), order;
        var answer := Perform(ops[i], all);
        OneMoreDone(model, start, ops, i, before, was, found, Model(), order, answer);
        found := found + answer;
      }
      AllDone(model, start, ops, Model(), order, found);
    }

    /** One operation, as a program would use the table: a key is looked up before it is added or deleted. */
    method Perform(op: Operation, ghost all: set<Elem>) returns (answer: seq<Elem?>)
      requires Valid() && Elements(order) <= all && OperationOn(op, all)
      modifies this, buckets, all
      ensures Valid() && Elements(order) <= all && (buckets == old(buckets) || fresh(buckets))
      ensures Model() == MapWith(old(Model()), op) && order == OrderWith(old(order), op)
      ensures answer == AnswerTo(old(Model()), op)
    {
      answer := [];
      match op {
        case Insert(e) => InsertNew(e, all);
        case Remove(key) => RemoveKnown(key, all);
        case Look(key) =>
          var out := Find(key);
          answer := [out];
        case Reorder(cmp) =>
          PreorderWithin(cmp, Elements(order), all);
          Within(all);
          Sort(cmp);
      }
    }

    method InsertNew(e: Elem, ghost all: set<Elem>)
      requires Valid() && Elements(order) <= all && e in all
      modifies this, buckets, all
      ensures Valid() && Elements(order) <= all && (buckets == old(buckets) || fresh(buckets))
      ensures Model() == MapWith(old(Model()), Insert(e)) && order == OrderWith(old(order), Insert(e))
    {
      Within(all);
      KnownKeys();
      ghost var s, after := order, order + [e];
      Grown(s, e, all);
      assert Model() == KeyMap(s);
      hide Valid, Model, Elements, KeyMap;
      var there := Find(e.key);
      if there == null {
        Add(e);
      }
    }

    method RemoveKnown(key: string, ghost all: set<Elem>)
      requires Valid() && Elements(order) <= all
      modifies this, buckets, all
      ensures Valid() && Elements(order) <= all && buckets == old(buckets)
      ensures Model() == MapWith(old(Model()), Remove(key)) && order == OrderWith(old(order), Remove(key))
    {
      Within(all);
      KnownKeys();
      ghost var s := order;
      assert NoDup(s) && Model() == KeyMap(s);
      hide Valid, Model, Elements, KeyMap, NoDup, Without;
      var e := Find(key);
      if e != null {
        OnlyIndex(s, e);
        ghost var k := Delete(e);
        Shrunk(s, k, all);
      }
    }

    lemma Within(all: set<Elem>)
      requires Elements(order) <= all
      ensures forall e | e in order :: e in all
    {
      assert forall e | e in order :: e in Elements(order);
    }

    /** The table holds an element exactly if the map has it under its key. */
    lemma KnownKeys()
      requires Valid()
      ensures forall e | e in order :: e.key in Model()
      ensures forall key | key in Model() :: Model()[key] in order && Model()[key].key == key
    {
      forall e | e in order
        ensures e.key in Model()
      {
        assert e.key in Keys(order);
      }
    }

    /** What HASH_FSCK follows comes to an end, whatever else is wrong. */
    ghost predicate Walkable()
      reads this, buckets, Members(chains)`hhNext, order`next
    {
      && head == At(order, 0) && Linked(order) && Terminated(order)
      && (head != null ==> buckets.Length == numBuckets == |chains| && ForwardFrom(chains, 0)
                           && forall b | 0 <= b < |chains| :: buckets[b].head == At(chains[b], 0))
    }

    /** What HASH_FSCK checks. */
    ghost predicate Sound()
      requires Walkable() && head != null
      reads this, buckets, Members(chains)`hhNext, Members(chains)`hhPrev, order`next, order`prev
    {
      && (forall b | 0 <= b < |chains| :: BucketSound(b))
      && TotalLength(chains) == |order| == numItems && Threaded(order)
    }

    ghost predicate BucketSound(b: nat)
      requires b < |chains| <= buckets.Length
      reads this`chains, this`buckets, buckets, Members(chains)`hhNext, Members(chains)`hhPrev
    {
      chains[b] in chains && Chain(chains[b]) && buckets[b].count == |chains[b]|
    }

    /** HASH_FSCK, the source's own integrity check, which gives up at the first fault. */
    method Fsck() returns (ok: bool)
      requires Walkable()
      ensures ok <==> head == null || Sound()
    {
      if head != null {
        var count, b: nat := 0, 0;
        while b < numBuckets
          invariant b <= numBuckets && count == TotalLength(chains[..b])
          invariant forall i | 0 <= i < b :: Chain(chains[i]) && buckets[i].count == |chains[i]|
        {
          TotalLengthPrefix(chains, b);
          assert ForwardChain(chains[b]);
          var bktCount, fine := CountChain(buckets[b].head, chains[b]);
          if !fine || buckets[b].count != bktCount {
            assert !BucketSound(b);
            return false;
          }
          count := count + bktCount;
          b := b + 1;
        }
        assert chains[..b] == chains;
        assert forall i | 0 <= i < |chains| :: BucketSound(i);
        if count != numItems {
          return false;
        }
        var total, fine := CountList(head, order);
        return fine && total == numItems;
      }
      return true;
    }

    /** It never objects to a valid table. */
    lemma ValidPassesFsck()
      requires Valid()
      ensures Walkable() && (head != null ==> Sound())
    {
      ThreadedIffDoubly(order);
      DoublyIsLinked(order);
      if head != null {
        PartitionTotal(hash, order, chains);
      }
    }
  }

  /** From the beginning: the table is what the operations make of the empty map. */
  method RunFromEmpty(hash: string -> nat, ops: seq<Operation>, ghost all: set<Elem>)
    returns (t: Table, found: seq<Elem?>)
    requires OperationsOn(ops, all)
    modifies all
    ensures t.Valid() && t.Model() == MapAfter(map[], ops) && t.order == OrderAfter([], ops)
    ensures found == Answers(map[], ops)
  {
    t := new Table(hash);
    NoKeys();
    assert t.Model() == map[];
    hide *;
    found := t.Run(ops, all);
  }

  lemma NoKeys()
    ensures KeyMap([]) == map[] && Elements<Elem>([]) == {}
  {
  }

  /** HASH_FIND_IN_BKT. */
  method FindInBucket(first: Elem?, hashv: nat, key: string, ghost c: seq<Elem>) returns (out: Elem?)
    requires Chain(c) && first == At(c, 0)
    requires forall e | e in c && e.key == key :: e.hashv == hashv
    ensures out != null ==> out in c && out.key == key
    ensures out == null ==> forall e | e in c :: e.key != key
  {
    out := first;
    ghost var j := 0;
    while out != null
      invariant j <= |c| && out == At(c, j)
      invariant forall i | 0 <= i < j :: c[i].key != key
      decreases |c| - j
    {
      if out.hashv == hashv && |out.key| == |key| {
        if out.key == key {
          return;
        }
      }
      out := out.hhNext;
      j := j + 1;
    }
  }

  /** One bucket of HASH_FSCK: walk the chain, compare the back links, count. */
  method CountChain(first: Elem?, ghost c: seq<Elem>) returns (count: nat, fine: bool)
    requires ForwardChain(c) && first == At(c, 0)
    ensures fine <==> Chain(c)
    ensures fine ==> count == |c|
  {
    var thh, prev: Elem? := first, null;
    count := 0;
    while thh != null
      invariant count <= |c| && thh == At(c, count) && prev == At(c, count - 1)
      invariant forall i {:trigger c[i].hhPrev} | 0 <= i < count :: c[i].hhPrev == At(c, i - 1)
      decreases |c| - count
    {
      if prev != thh.hhPrev {
        assert thh == c[count];
        return count, false;
      }
      count := count + 1;
      prev := thh;
      thh := thh.hhNext;
    }
    return count, true;
  }

  /** The application-order half of HASH_FSCK. */
  method CountList(first: Elem, ghost s: seq<Elem>) returns (count: nat, fine: bool)
    requires Linked(s) && Terminated(s) && first == At(s, 0)
    ensures fine <==> Threaded(s)
    ensures fine ==> count == |s|
  {
    var thh: Elem?, prev: Elem? := first, null;
    count := 0;
    while thh != null
      invariant count <= |s| && thh == At(s, count) && prev == At(s, count - 1)
      invariant forall i {:trigger s[i].prev} | 0 <= i < count :: s[i].prev == At(s, i - 1)
      decreases |s| - count
    {
      if prev != thh.prev {
        assert thh == s[count];
        return count, false;
      }
      count := count + 1;
      prev := thh;
      thh := thh.next;
    }
    return count, true;
  }

  /** Reordering a list without duplicate keys does not change the map it stands for. */
  lemma PermutedKeyMap(s: seq<Elem>, t: seq<Elem>)
    requires DistinctKeys(s) && NoDup(t) && Elements(s) == Elements(t)
    ensures DistinctKeys(t) && KeyMap(s) == KeyMap(t)
  {
    forall i, j | 0 <= i < j < |t|
      ensures t[i].key != t[j].key
    {
      assert t[i] in Elements(s) && t[j] in Elements(s);
      var a :| 0 <= a < |s| && s[a] == t[i];
      var b :| 0 <= b < |s| && s[b] == t[j];
    }
    assert forall e :: e in s <==> e in t by {
      forall e
        ensures e in s <==> e in t
      {
        assert e in Elements(s) <==> e in Elements(t);
      }
    }
    assert Keys(s) == Keys(t);
    forall k | k in Keys(s)
      ensures KeyMap(s)[k] == KeyMap(t)[k]
    {
      var e := ByKey(s, k);
      var i :| 0 <= i < |t| && t[i] == e;
      KeyMapAt(t, i);
    }
  }

  lemma SortKeepsModel(cmp: (Elem, Elem) -> int, s: seq<Elem>)
    requires DistinctKeys(s) && NoDup(s) && TotalPreorderOn(cmp, Elements(s))
    ensures var t := SortFrom(cmp, s, 1);
      && |t| == |s| && Elements(t) == Elements(s) && (NoDup(t) ==> DistinctKeys(t) && KeyMap(t) == KeyMap(s))
      && IsStableSortOf(cmp, s, t)
  {
    var t := SortFrom(cmp, s, 1);
    SortIsStable(cmp, s);
    assert |multiset(t)| == |t| && |multiset(s)| == |s|;
    SamePermutation(s, t);
    if NoDup(t) {
      PermutedKeyMap(s, t);
    }
  }

  lemma MemberAt(s: seq<Elem>, k: nat)
    requires k < |s|
    ensures s[k] in Elements(s)
  {
  }

  lemma WithoutEnds(s: seq<Elem>, k: nat)
    requires NoDup(s) && k < |s| && |s| > 1
    ensures var t := Without(s, k);
      && t != []
      && t[0] == (if k == 0 then s[1] else s[0])
      && t[|t| - 1] == (if k == |s| - 1 then s[|s| - 2] else s[|s| - 1])
    ensures s[k] == s[|s| - 1] <==> k == |s| - 1
  {
  }

  lemma EndsWithout(s: seq<Elem>, k: nat)
    requires NoDup(s) && Threaded(s) && k < |s| && |s| > 1
    ensures At(Without(s, k), 0) == if s[k].prev == null then s[k].next else At(s, 0)
    ensures Without(s, k) != []
    ensures Without(s, k)[|Without(s, k)| - 1] == if s[k] == s[|s| - 1] then s[k].prev else s[|s| - 1]
  {
    WithoutEnds(s, k);
    assert s[k].prev == At(s, k - 1) && s[k].next == At(s, k + 1);
  }

  lemma SoleElement(s: seq<Elem>, k: nat)
    requires k < |s|
    ensures At(s, k - 1) == null && At(s, k + 1) == null <==> |s| == 1
    ensures |s| == 1 ==> Without(s, k) == []
  {
  }

  lemma WithoutAt<T>(s: seq<T>, k: nat)
    requires k < |s|
    ensures |Without(s, k)| == |s| - 1
    ensures forall i | 0 <= i < |s| - 1 :: Without(s, k)[i] == s[if i < k then i else i + 1]
  {
  }

  lemma RemoveKey(order: seq<Elem>, k: nat)
    requires DistinctKeys(order) && k < |order|
    ensures DistinctKeys(Without(order, k)) && KeyMap(Without(order, k)) == KeyMap(order) - {order[k].key}
  {
    WithoutAt(order, k);
    KeptKeys(order, k);
    var m, n := KeyMap(Without(order, k)), KeyMap(order) - {order[k].key};
    forall x | x in n
      ensures x in m
    {
      LeftKey(order, k, x);
    }
  }

  /** What stays after removing position k was there before, under the same key. */
  lemma KeptKeys(order: seq<Elem>, k: nat)
    requires DistinctKeys(order) && k < |order|
    ensures DistinctKeys(Without(order, k))
    ensures forall x | x in KeyMap(Without(order, k)) ::
      x in KeyMap(order) && x != order[k].key && KeyMap(order)[x] == KeyMap(Without(order, k))[x]
  {
    var after := Without(order, k);
    WithoutAt(order, k);
    assert DistinctKeys(after);
    hide KeyMap, Without, DistinctKeys;
    forall x | x in KeyMap(after)
      ensures x in KeyMap(order) && x != order[k].key && KeyMap(order)[x] == KeyMap(after)[x]
    {
      KeyMapHas(after, x);
      var i :| 0 <= i < |after| && after[i].key == x;
      KeyMapAt(after, i);
      KeyMapAt(order, if i < k then i else i + 1);
    }
  }

  lemma LeftKey(order: seq<Elem>, k: nat, x: string)
    requires DistinctKeys(order) && k < |order| && x in KeyMap(order) && x != order[k].key
    ensures x in KeyMap(Without(order, k))
  {
    KeyMapHas(order, x);
    var i :| 0 <= i < |order| && order[i].key == x;
    WithoutAt(order, k);
    hide DistinctKeys, ByKey, Without;
    var j := if i < k then i else i - 1;
    assert Without(order, k)[j] == order[i];
    assert order[i] in Without(order, k);
  }

  lemma RemovedFacts(hash: string -> nat, s: set<Elem>, chains: seq<seq<Elem>>, b: nat, k: nat)
    requires Partition(hash, s, chains) && b < |chains| && k < |chains[b]|
    ensures var after := chains[b := Without(chains[b], k)];
      Partition(hash, s - {chains[b][k]}, after) && Members(after) <= s - {chains[b][k]}
    ensures Placed(hash, s, chains)
  {
    RemovePartition(hash, s, chains, b, k);
    PartitionPlaced(hash, s, chains);
    MembersWithin(hash, s - {chains[b][k]}, chains[b := Without(chains[b], k)]);
  }

  lemma RemoveCounts(buckets: seq<Bucket>, chains: seq<seq<Elem>>, b: nat, k: nat)
    requires CountsMatch(buckets, chains) && b < |chains| && k < |chains[b]| && NoDup(chains[b])
    ensures buckets[b].head == At(chains[b], 0) && buckets[b].count > 0
    ensures var h := if buckets[b].head == chains[b][k] then At(chains[b], k + 1) else buckets[b].head;
      CountsMatch(buckets[b := Bucket(h, buckets[b].count - 1, buckets[b].mult)], chains[b := Without(chains[b], k)])
  {
    assert k > 0 ==> chains[b][0] != chains[b][k];
  }

  /** Unlinking from one chain leaves the others as they are. */
  method UnlinkInFamily(hash: string -> nat, e: Elem, b: nat, ghost k: nat, ghost s: set<Elem>,
                        ghost chains: seq<seq<Elem>>)
    requires Placed(hash, s, chains) && AllChains(chains)
    requires b < |chains| && k < |chains[b]| && e == chains[b][k]
    modifies s`hhNext, s`hhPrev
    ensures AllChains(chains[b := Without(chains[b], k)])
  {
    ghost var c := chains[b];
    assert InBucket(hash, s, c, |chains|, b) && NoDup(c);
    assert c in chains;
    UnlinkFromChain(e, c, k);
    hide Chain;
    forall a | 0 <= a < |chains| && a != b
      ensures Chain(chains[a])
    {
      assert InBucket(hash, s, chains[a], |chains|, a);
      assert chains[a] in chains;
      assert forall x | x in chains[a] :: x !in c;
    }
    ghost var after := chains[b := Without(c, k)];
    forall d | d in after
      ensures Chain(d)
    {
      var a :| 0 <= a < |after| && after[a] == d;
    }
  }

  ghost predicate DistinctKeys(order: seq<Elem>) {
    forall i, j | 0 <= i < j < |order| :: order[i].key != order[j].key
  }

  ghost function Keys(order: seq<Elem>): set<string> {
    set e | e in order :: e.key
  }

  ghost function ByKey(order: seq<Elem>, k: string): (e: Elem)
    requires k in Keys(order)
    ensures e in order && e.key == k
  {
    var e :| e in order && e.key == k;
    e
  }

  /** The finite map that a list of elements with distinct keys stands for. */
  ghost function KeyMap(order: seq<Elem>): map<string, Elem> {
    map k | k in Keys(order) :: ByKey(order, k)
  }

  lemma KeyMapAt(order: seq<Elem>, i: nat)
    requires DistinctKeys(order) && i < |order|
    ensures order[i].key in KeyMap(order) && KeyMap(order)[order[i].key] == order[i]
  {
    var k := order[i].key;
    assert order[i] in order;
    var j :| 0 <= j < |order| && order[j] == ByKey(order, k);
    assert j < i ==> order[j].key != order[i].key;
    assert i < j ==> order[i].key != order[j].key;
  }

  lemma KeyMapHas(order: seq<Elem>, k: string)
    requires k in KeyMap(order)
    ensures exists i :: 0 <= i < |order| && order[i].key == k
  {
    var e := ByKey(order, k);
    var i :| 0 <= i < |order| && order[i] == e;
  }

  lemma KeyAbsent(order: seq<Elem>, k: string)
    requires forall i | 0 <= i < |order| :: order[i].key != k
    ensures k !in KeyMap(order)
  {
  }

  lemma AddKey(order: seq<Elem>, e: Elem)
    requires DistinctKeys(order) && e.key !in KeyMap(order)
    ensures DistinctKeys(order + [e]) && KeyMap(order + [e]) == KeyMap(order)[e.key := e]
  {
    var after := order + [e];
    forall i | 0 <= i < |order|
      ensures after[i] == order[i] && order[i].key != e.key
    {
      assert order[i] in order;
      assert order[i].key in Keys(order);
    }
    assert DistinctKeys(after);
    var m, n := KeyMap(after), KeyMap(order)[e.key := e];
    forall k | k in m
      ensures k in n && n[k] == m[k]
    {
      KeyMapHas(after, k);
      var i :| 0 <= i < |after| && after[i].key == k;
      KeyMapAt(after, i);
      if i < |order| { KeyMapAt(order, i); }
    }
    forall k | k in n
      ensures k in m
    {
      if k == e.key {
        KeyMapAt(after, |order|);
      } else {
        KeyMapHas(order, k);
        var i :| 0 <= i < |order| && order[i].key == k;
        KeyMapAt(after, i);
      }
    }
  }

  lemma LastApart(s: seq<Elem>)
    requires NoDup(s) && s != []
    ensures forall i | 0 <= i < |s| - 1 :: s[i] != s[|s| - 1]
  {
  }

  lemma NoDupSnoc(s: seq<Elem>, e: Elem)
    requires NoDup(s) && e !in s
    ensures NoDup(s + [e]) && Elements(s + [e]) == Elements(s) + {e}
  {
  }

  /** HASH_APPEND_LIST on the links. */
  method AppendTo(e: Elem, tail: Elem, ghost s: seq<Elem>)
    requires Threaded(s) && NoDup(s) && s != [] && tail == s[|s| - 1] && e !in s
    modifies {tail}`next, {e}`next, {e}`prev
    ensures Threaded(s + [e])
  {
    LastApart(s);
    hide NoDup;
    assert forall i | 0 <= i < |s| :: s[i] in s;
    e.next := null;
    e.prev := tail;
    tail.next := e;
  }

  lemma PushedFacts(hash: string -> nat, s: set<Elem>, chains: seq<seq<Elem>>, b: nat, e: Elem)
    requires Partition(hash, s, chains) && e !in s && b == Slot(hash, e, |chains|)
    ensures Partition(hash, s + {e}, Pushed(chains, b, e)) && Placed(hash, s, chains)
    ensures Members(Pushed(chains, b, e)) <= s + {e}
  {
    PushPartition(hash, s, chains, e);
    PartitionPlaced(hash, s, chains);
    MembersWithin(hash, s + {e}, Pushed(chains, b, e));
  }

  lemma PushCounts(buckets: seq<Bucket>, chains: seq<seq<Elem>>, b: nat, e: Elem)
    requires CountsMatch(buckets, chains) && b < |chains|
    ensures buckets[b].head == At(chains[b], 0)
    ensures CountsMatch(buckets[b := Bucket(e, buckets[b].count + 1, buckets[b].mult)], Pushed(chains, b, e))
  {
  }

  lemma CeilingPositive(c: nat, a: nat, d: nat)
    requires d > 0 && a > 0 && IsCeiling(c, a, d)
    ensures c > 0
  {
  }

  lemma MatchingCounts(buckets: seq<Bucket>, chains: seq<seq<Elem>>, ideal: nat)
    requires ideal > 0 && BucketsMatch(buckets, chains, ideal)
    ensures CountsMatch(buckets, chains)
  {
  }
}
