/**
  The 4-ary timer heap of the event loop: elements carry a cached key, the watcher
  they stand for knows its own index, and sifting moves a hole instead of swapping.
 */
module TimerHeap {

  const DHEAP: nat := 4
  /** Index of the first heap element. */
  const HEAP0: nat := 3

  /** Division as in C: the quotient is truncated towards zero. */
  function CDiv(a: int, b: int): int
    requires b > 0
  {
    if a >= 0 then a / b else -((-a) / b)
  }

  /** HPARENT; the root is its own parent because -1 / 4 is 0 in C. */
  function Parent(k: int): (p: int)
    requires k >= HEAP0
    ensures HEAP0 <= p <= k
    ensures p == k <==> k == HEAP0
  {
    CDiv(k - HEAP0 - 1, DHEAP) + HEAP0
  }

  /** The children of k are the four slots that the sift-down loop looks at. */
  lemma ChildrenOf(k: int, c: int)
    requires k >= HEAP0 && c > HEAP0
    ensures Parent(c) == k <==> DHEAP * (k - HEAP0) + HEAP0 + 1 <= c < DHEAP * (k - HEAP0) + HEAP0 + 1 + DHEAP
  {
  }

  // ----- Heap order on the keys -----

  ghost predicate InHeap(i: int, n: nat) {
    HEAP0 < i < n + HEAP0
  }

  /** Every element but the root is not below its parent. */
  ghost predicate Ordered(ks: seq<int>, n: nat)
    requires |ks| >= n + HEAP0
  {
    forall i | InHeap(i, n) :: ks[Parent(i)] <= ks[i]
  }

  /** The children of k are not below the parent of k. */
  ghost predicate Skips(ks: seq<int>, n: nat, k: int)
    requires |ks| >= n + HEAP0 && HEAP0 <= k < n + HEAP0
  {
    k > HEAP0 ==> forall c | InHeap(c, n) && Parent(c) == k :: ks[Parent(k)] <= ks[c]
  }

  /** In order, except that the key at k may be too small for its place. */
  ghost predicate MayRise(ks: seq<int>, n: nat, k: int) {
    && |ks| >= n + HEAP0 && HEAP0 <= k < n + HEAP0
    && (forall i | InHeap(i, n) && i != k :: ks[Parent(i)] <= ks[i])
    && Skips(ks, n, k)
  }

  /** In order, except that the key at k may be too large for its place. */
  ghost predicate MaySink(ks: seq<int>, n: nat, k: int) {
    && |ks| >= n + HEAP0 && HEAP0 <= k < n + HEAP0
    && (forall i | InHeap(i, n) && Parent(i) != k :: ks[Parent(i)] <= ks[i])
    && Skips(ks, n, k)
  }

  function Swapped(ks: seq<int>, i: int, j: int): seq<int>
    requires 0 <= i < |ks| && 0 <= j < |ks|
  {
    ks[i := ks[j]][j := ks[i]]
  }

  lemma RiseStep(ks: seq<int>, n: nat, k: int)
    requires MayRise(ks, n, k) && k > HEAP0 && ks[Parent(k)] > ks[k]
    ensures MayRise(Swapped(ks, k, Parent(k)), n, Parent(k))
  {
    var p := Parent(k);
    var t := Swapped(ks, k, p);
    forall i | InHeap(i, n) && i != p
      ensures t[Parent(i)] <= t[i]
    {
    }
    if p > HEAP0 {
      forall c | InHeap(c, n) && Parent(c) == p
        ensures t[Parent(p)] <= t[c]
      {
        assert ks[Parent(p)] <= ks[p];
      }
    }
  }

  lemma RiseDone(ks: seq<int>, n: nat, k: int)
    requires MayRise(ks, n, k) && (k == HEAP0 || ks[Parent(k)] <= ks[k])
    ensures Ordered(ks, n)
  {
  }

  /** m is a child of k with the least key. */
  ghost predicate LeastChild(ks: seq<int>, n: nat, k: int, m: int)
    requires |ks| >= n + HEAP0
  {
    InHeap(m, n) && Parent(m) == k && forall c | InHeap(c, n) && Parent(c) == k :: ks[m] <= ks[c]
  }

  ghost predicate NoChild(n: nat, k: int) {
    forall c | InHeap(c, n) :: Parent(c) != k
  }

  lemma SinkStep(ks: seq<int>, n: nat, k: int, m: int)
    requires MaySink(ks, n, k) && LeastChild(ks, n, k, m) && ks[m] < ks[k]
    ensures MaySink(Swapped(ks, k, m), n, m)
  {
    var t := Swapped(ks, k, m);
    forall i | InHeap(i, n) && Parent(i) != m
      ensures t[Parent(i)] <= t[i]
    {
    }
    forall c | InHeap(c, n) && Parent(c) == m
      ensures t[Parent(m)] <= t[c]
    {
      assert ks[m] <= ks[c];
    }
  }

  lemma SinkDone(ks: seq<int>, n: nat, k: int, m: int)
    requires MaySink(ks, n, k) && (NoChild(n, k) || (LeastChild(ks, n, k, m) && ks[k] <= ks[m]))
    ensures Ordered(ks, n)
  {
  }

  /** In heap order the first slot holds a minimum. */
  lemma {:induction false} RootIsMinimum(ks: seq<int>, n: nat, i: int)
    requires |ks| >= n + HEAP0 && Ordered(ks, n) && HEAP0 <= i < n + HEAP0
    ensures ks[HEAP0] <= ks[i]
    decreases i
  {
    if i > HEAP0 {
      assert InHeap(i, n);
      RootIsMinimum(ks, n, Parent(i));
    }
  }

  // ----- The heap array and its watchers -----

  /** The part of a watcher that the event loop core uses; `at` and `repeat` are exact time stamps. */
  class Watcher {
    const priority: nat    // ABSPRI, fixed while the watcher is active or pending
    var active: nat        // heap index while active, else 0
    var pending: nat       // 1 + slot in the pending queue, else 0
    var at: int
    var repeat: int

    constructor (priority: nat, after: int, repeat: int)
      ensures this.priority == priority && at == after && this.repeat == repeat && active == 0 && pending == 0
    {
      this.priority := priority;
      at := after;
      this.repeat := repeat;
      active, pending := 0, 0;
    }
  }

  /** ANHE: a heap element with its cached key. */
  datatype Anhe = Anhe(at: int, w: Watcher)

  ghost function Keys(heap: seq<Anhe>): seq<int> {
    seq(|heap|, i requires 0 <= i < |heap| => heap[i].at)
  }

  /** The heap holds exactly the watchers of `s`, and each knows where it is. */
  ghost predicate Slots(heap: seq<Anhe>, n: nat, s: set<Watcher>)
    reads s`active
  {
    && |heap| >= n + HEAP0
    && (forall i | HEAP0 <= i < n + HEAP0 :: heap[i].w in s && heap[i].w.active == i)
    && (forall t | t in s :: HEAP0 <= t.active < n + HEAP0 && heap[t.active].w == t)
  }

  /** As `Slots`, while `he` is held aside and slot k is free. */
  ghost predicate SlotsBut(heap: seq<Anhe>, n: nat, s: set<Watcher>, k: nat, he: Anhe)
    reads s`active
  {
    && |heap| >= n + HEAP0 && HEAP0 <= k < n + HEAP0 && he.w in s
    && (forall i | HEAP0 <= i < n + HEAP0 && i != k :: heap[i].w in s && heap[i].w != he.w && heap[i].w.active == i)
    && (forall t | t in s && t != he.w ::
        HEAP0 <= t.active < n + HEAP0 && t.active != k && heap[t.active].w == t)
  }

  /** Every cached key equals the time stamp of its watcher. */
  ghost predicate Cached(heap: seq<Anhe>, n: nat)
    requires |heap| >= n + HEAP0
    reads (set i | HEAP0 <= i < n + HEAP0 :: heap[i].w)`at
  {
    forall i | HEAP0 <= i < n + HEAP0 :: heap[i].at == heap[i].w.at
  }

  /** The caches of all slots but k, and of `he`, are right. */
  ghost predicate CachedBut(heap: seq<Anhe>, n: nat, k: nat, he: Anhe)
    requires |heap| >= n + HEAP0
    reads (set i | HEAP0 <= i < n + HEAP0 :: heap[i].w)`at, he.w`at
  {
    he.at == he.w.at && forall i | HEAP0 <= i < n + HEAP0 && i != k :: heap[i].at == heap[i].w.at
  }

  /** Without `w`, the last element is either gone or free to go where `w` was. */
  lemma RemoveSlot(heap: seq<Anhe>, n: nat, s: set<Watcher>, w: Watcher)
    requires Slots(heap, n + 1, s) && Cached(heap, n + 1) && w in s
    ensures HEAP0 <= w.active <= n + HEAP0
    ensures w.active == n + HEAP0 ==> Slots(heap, n, s - {w}) && Cached(heap, n)
    ensures w.active < n + HEAP0 ==>
      var last := heap[n + HEAP0];
      && SlotsBut(heap[w.active := last], n, s - {w}, w.active, last)
      && CachedBut(heap[w.active := last], n, w.active, last)
  {
  }

  /** Move the content of slot j into the free slot k; slot j becomes free. */
  method MoveHole(heap: array<Anhe>, k: nat, j: nat, ghost n: nat, ghost s: set<Watcher>, ghost he: Anhe)
    requires SlotsBut(heap[..], n, s, k, he) && CachedBut(heap[..], n, k, he)
    requires HEAP0 <= j < n + HEAP0 && j != k
    modifies heap, s`active
    ensures SlotsBut(heap[..], n, s, j, he) && CachedBut(heap[..], n, j, he)
    ensures heap[..] == old(heap[..])[k := old(heap[j])]
  {
    heap[k] := heap[j];
    heap[k].w.active := k;
  }

  /** Put `he` into the free slot. */
  method FillHole(heap: array<Anhe>, k: nat, he: Anhe, ghost n: nat, ghost s: set<Watcher>)
    requires SlotsBut(heap[..], n, s, k, he) && CachedBut(heap[..], n, k, he)
    modifies heap, s`active
    ensures Slots(heap[..], n, s) && Cached(heap[..], n)
    ensures heap[..] == old(heap[..])[k := he]
  {
    heap[k] := he;
    he.w.active := k;
  }

  /** The keys as if `he` stood in the free slot. */
  ghost function KeysWith(heap: seq<Anhe>, k: nat, he: Anhe): (ks: seq<int>)
    requires k < |heap|
    ensures |ks| == |heap|
  {
    Keys(heap)[k := he.at]
  }

  lemma HoleMoved(heap: seq<Anhe>, k: nat, j: nat, he: Anhe)
    requires k < |heap| && j < |heap| && j != k
    ensures KeysWith(heap[k := heap[j]], j, he) == Swapped(KeysWith(heap, k, he), k, j)
  {
  }

  /** upheap: towards the root. */
  method UpHeap(heap: array<Anhe>, k0: nat, ghost n: nat, ghost s: set<Watcher>)
    requires k0 < heap.Length && SlotsBut(heap[..], n, s, k0, heap[k0]) && CachedBut(heap[..], n, k0, heap[k0])
    requires MayRise(Keys(heap[..]), n, k0)
    modifies heap, s`active
    ensures Slots(heap[..], n, s) && Cached(heap[..], n) && Ordered(Keys(heap[..]), n)
  {
    var k, he := k0, heap[k0];
    assert KeysWith(heap[..], k, he) == Keys(heap[..]);
    hide MayRise, Ordered, SlotsBut, CachedBut, Slots, Cached, Parent;
    while true
      invariant HEAP0 <= k < n + HEAP0 <= heap.Length
      invariant SlotsBut(heap[..], n, s, k, he) && CachedBut(heap[..], n, k, he)
      invariant MayRise(KeysWith(heap[..], k, he), n, k)
      decreases k
    {
      var p := Parent(k);
      if p == k || heap[p].at <= he.at {
        break;
      }
      RiseStep(KeysWith(heap[..], k, he), n, k);
      HoleMoved(heap[..], k, p, he);
      MoveHole(heap, k, p, n, s, he);
      k := p;
    }
    RiseDone(KeysWith(heap[..], k, he), n, k);
    ghost var before := heap[..];
    FillHole(heap, k, he, n, s);
    assert Keys(heap[..]) == KeysWith(before, k, he);
  }

  /** The unrolled search for the least of the four children that exist; the end of the heap if there is none. */
  method MinChild(heap: array<Anhe>, k: nat, n: nat) returns (minpos: nat)
    requires HEAP0 <= k < n + HEAP0 <= heap.Length
    ensures k < minpos <= n + HEAP0
    ensures if minpos == n + HEAP0 then NoChild(n, k) else LeastChild(Keys(heap[..]), n, k, minpos)
  {
    var pos := DHEAP * (k - HEAP0) + HEAP0 + 1;
    var end := n + HEAP0;
    forall c | InHeap(c, n)
      ensures Parent(c) == k <==> pos <= c < pos + DHEAP
    {
      ChildrenOf(k, c);
    }
    hide Parent;
    if pos + DHEAP - 1 < end {
      assert InHeap(pos, n);
      minpos := pos;
      if heap[minpos].at > heap[pos + 1].at { minpos := pos + 1; }
      if heap[minpos].at > heap[pos + 2].at { minpos := pos + 2; }
      if heap[minpos].at > heap[pos + 3].at { minpos := pos + 3; }
    } else if pos < end {
      assert InHeap(pos, n);
      minpos := pos;
      if pos + 1 < end && heap[minpos].at > heap[pos + 1].at { minpos := pos + 1; }
      if pos + 2 < end && heap[minpos].at > heap[pos + 2].at { minpos := pos + 2; }
      // the fourth comparison of the source is guarded by pos + 3 < end, which is false on this path
    } else {
      minpos := end;
    }
  }

  /** What stands in the free slot does not matter for its children. */
  lemma LeastChildWith(heap: seq<Anhe>, n: nat, k: nat, m: nat, he: Anhe)
    requires HEAP0 <= k < n + HEAP0 <= |heap| && LeastChild(Keys(heap), n, k, m)
    ensures LeastChild(KeysWith(heap, k, he), n, k, m)
    ensures m != k && KeysWith(heap, k, he)[m] == heap[m].at && KeysWith(heap, k, he)[k] == he.at
  {
  }

  /** downheap: away from the root. */
  method DownHeap(heap: array<Anhe>, n: nat, k0: nat, ghost s: set<Watcher>)
    requires k0 < heap.Length && SlotsBut(heap[..], n, s, k0, heap[k0]) && CachedBut(heap[..], n, k0, heap[k0])
    requires MaySink(Keys(heap[..]), n, k0)
    modifies heap, s`active
    ensures Slots(heap[..], n, s) && Cached(heap[..], n) && Ordered(Keys(heap[..]), n)
  {
    var k, he := k0, heap[k0];
    assert KeysWith(heap[..], k, he) == Keys(heap[..]);
    hide MaySink, Ordered, SlotsBut, CachedBut, Slots, Cached, Parent, LeastChild, NoChild;
    while true
      invariant HEAP0 <= k < n + HEAP0 <= heap.Length
      invariant SlotsBut(heap[..], n, s, k, he) && CachedBut(heap[..], n, k, he)
      invariant MaySink(KeysWith(heap[..], k, he), n, k)
      decreases n + HEAP0 - k
    {
      var m := MinChild(heap, k, n);
      if m < n + HEAP0 { LeastChildWith(heap[..], n, k, m, he); }
      if m == n + HEAP0 || he.at <= heap[m].at {
        SinkDone(KeysWith(heap[..], k, he), n, k, m);
        break;
      }
      SinkStep(KeysWith(heap[..], k, he), n, k, m);
      HoleMoved(heap[..], k, m, he);
      MoveHole(heap, k, m, n, s, he);
      k := m;
    }
    ghost var before := heap[..];
    FillHole(heap, k, he, n, s);
    assert Keys(heap[..]) == KeysWith(before, k, he);
  }

  /** In order except for one key, which may be out of place either way. */
  ghost predicate OneLoose(ks: seq<int>, n: nat, k: int) {
    && |ks| >= n + HEAP0 && HEAP0 <= k < n + HEAP0
    && (forall i | InHeap(i, n) && i != k && Parent(i) != k :: ks[Parent(i)] <= ks[i])
    && Skips(ks, n, k)
  }

  /** Changing one key of an ordered heap leaves it ordered except there. */
  lemma Loosened(ks: seq<int>, n: nat, k: nat, key: int)
    requires |ks| >= n + HEAP0 && HEAP0 <= k < n + HEAP0 && Ordered(ks, n)
    ensures OneLoose(ks[k := key], n, k)
  {
    if k > HEAP0 {
      assert InHeap(k, n);
      forall c | InHeap(c, n) && Parent(c) == k
        ensures ks[Parent(k)] <= ks[c]
      {
      }
    }
  }

  lemma LooseRises(ks: seq<int>, n: nat, k: int)
    requires OneLoose(ks, n, k) && k > HEAP0 && ks[k] <= ks[Parent(k)]
    ensures MayRise(ks, n, k)
  {
  }

  lemma LooseSinks(ks: seq<int>, n: nat, k: int)
    requires OneLoose(ks, n, k) && (k == HEAP0 || ks[Parent(k)] <= ks[k])
    ensures MaySink(ks, n, k)
  {
  }

  /** adjustheap: move an element whose key has changed to where it belongs. */
  method AdjustHeap(heap: array<Anhe>, n: nat, k: nat, ghost s: set<Watcher>)
    requires k < heap.Length && SlotsBut(heap[..], n, s, k, heap[k]) && CachedBut(heap[..], n, k, heap[k])
    requires OneLoose(Keys(heap[..]), n, k)
    modifies heap, s`active
    ensures Slots(heap[..], n, s) && Cached(heap[..], n) && Ordered(Keys(heap[..]), n)
  {
    if k > HEAP0 && heap[k].at <= heap[Parent(k)].at {
      LooseRises(Keys(heap[..]), n, k);
      UpHeap(heap, k, n, s);
    } else {
      LooseSinks(Keys(heap[..]), n, k);
      DownHeap(heap, n, k, s);
    }
  }
}
