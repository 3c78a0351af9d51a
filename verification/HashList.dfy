/**
  Hash elements, the application-order list that threads them, and the in-place
  bottom-up merge sort of that list.  Every method relinks the real `next` and
  `prev` fields; ghost sequences say which list the links stand for.
 */
module HashList {
  import opened MergeRuns
  import opened Sequences

  /** An element with its embedded hash handle. */
  class Elem {
    const key: string
    var hashv: nat
    var next: Elem?
    var prev: Elem?
    var hhNext: Elem?
    var hhPrev: Elem?

    constructor (key: string)
      ensures this.key == key
    {
      this.key := key;
      hashv := 0;
      next, prev, hhNext, hhPrev := null, null, null, null;
    }
  }

  ghost function At(s: seq<Elem>, i: int): Elem? {
    if 0 <= i < |s| then s[i] else null
  }

  /** `next` leads from each element to the following one; the last one's `next` is not constrained. */
  ghost predicate Linked(s: seq<Elem>)
    reads s`next
  {
    forall i {:trigger s[i].next} | 0 <= i < |s| - 1 :: s[i].next == s[i + 1]
  }

  /** The finished part of a list: `next` inside it, and `prev` everywhere. */
  ghost predicate Doubly(s: seq<Elem>)
    reads s`next, s`prev
  {
    && (forall i {:trigger s[i].next} | 0 <= i < |s| - 1 :: s[i].next == s[i + 1])
    && (forall i {:trigger s[i].prev} | 0 <= i < |s| :: s[i].prev == At(s, i - 1))
  }

  ghost predicate Terminated(s: seq<Elem>)
    reads s`next
  {
    s != [] ==> s[|s| - 1].next == null
  }

  ghost predicate Disjoint(s: seq<Elem>, t: seq<Elem>) {
    forall x | x in s :: x !in t
  }

  ghost predicate Apart(done: seq<Elem>, p: seq<Elem>, r: seq<Elem>) {
    && NoDup(done) && NoDup(p) && NoDup(r)
    && Disjoint(done, p) && Disjoint(done, r) && Disjoint(p, r)
  }

  /** The state inside one merge: `done` is output, `p` and `r` are still to be merged. */
  ghost predicate Merging(done: seq<Elem>, p: seq<Elem>, r: seq<Elem>)
    reads done`next, p`next, r`next, done`prev
  {
    && Apart(done, p, r)
    && Doubly(done)
    && Linked(p) && Linked(r) && Terminated(r)
  }

  ghost predicate TakesHead(e: Elem, p: seq<Elem>, r: seq<Elem>, p': seq<Elem>, r': seq<Elem>) {
    || (p != [] && e == p[0] && p' == p[1..] && r' == r)
    || (r != [] && e == r[0] && r' == r[1..] && p' == p)
  }

  lemma TakeHeadApart(e: Elem, done: seq<Elem>, p: seq<Elem>, r: seq<Elem>, p': seq<Elem>, r': seq<Elem>)
    requires Apart(done, p, r) && TakesHead(e, p, r, p', r')
    ensures Apart(done + [e], p', r')
    ensures e !in done && (forall x | x in p' :: x in p) && (forall x | x in r' :: x in r)
  {
    assert e in p || e in r;
  }

  lemma TailLinked(s: seq<Elem>)
    requires s != [] && Linked(s)
    ensures Linked(s[1..]) && (Terminated(s) ==> Terminated(s[1..]))
    ensures At(s[1..], 0) == At(s, 1)
  {
    var t := s[1..];
    assert forall i | 0 <= i < |t| :: t[i] == s[i + 1];
  }

  method Append(e: Elem, list: Elem?, tail: Elem?, ghost done: seq<Elem>, ghost p: seq<Elem>, ghost r: seq<Elem>)
    returns (list': Elem?)
    requires Doubly(done)
    requires Linked(p) && Linked(r) && Terminated(r)
    requires Apart(done + [e], p, r)
    requires list == At(done, 0) && tail == At(done, |done| - 1)
    modifies Elements(done)`next, {e}`prev
    ensures Merging(done + [e], p, r)
    ensures list' == At(done + [e], 0)
  {
    hide Linked, Terminated;
    list' := list;
    ghost var done' := done + [e];
    assert done'[|done|] == e && forall i | 0 <= i < |done| :: done'[i] == done[i];
    assert e !in p && e !in r;
    if tail != null {
      assert tail in done' && tail != e;
      tail.next := e;
    } else {
      list' := e;
    }
    e.prev := tail;
  }

  /** The heap-free part of the state of one merge: cursors and what they stand for. */
  ghost predicate Cursors(p: Elem?, psize: nat, q: Elem?, list: Elem?, tail: Elem?, done: seq<Elem>, ps: seq<Elem>,
                          r: seq<Elem>) {
    && psize == |ps| && (ps != [] ==> p == ps[0]) && q == At(r, 0)
    && list == At(done, 0) && tail == At(done, |done| - 1)
  }

  /** What the rest of one merge will add to `done`, with `qsize` elements of `r` still in the second run. */
  ghost function Outcome(cmp: (Elem, Elem) -> int, done: seq<Elem>, ps: seq<Elem>, r: seq<Elem>,
                         qsize: nat): seq<Elem> {
    done + Merge(cmp, ps, r[..Min(qsize, |r|)])
  }

  method MergeOne(cmp: (Elem, Elem) -> int, p: Elem?, psize: nat, q: Elem?, qsize: nat, list: Elem?, tail: Elem?,
                  ghost done: seq<Elem>, ghost ps: seq<Elem>, ghost r: seq<Elem>)
    returns (p': Elem?, psize': nat, q': Elem?, qsize': nat, list': Elem?, tail': Elem?,
             ghost done': seq<Elem>, ghost ps': seq<Elem>, ghost r': seq<Elem>)
    requires psize > 0 || (qsize > 0 && q != null)
    requires Merging(done, ps, r) && Cursors(p, psize, q, list, tail, done, ps, r)
    modifies Elements(done)`next, (Elements(ps) + Elements(r))`prev
    ensures Merging(done', ps', r') && Cursors(p', psize', q', list', tail', done', ps', r')
    ensures Outcome(cmp, done', ps', r', qsize') == Outcome(cmp, done, ps, r, qsize)
    ensures exists e :: TakesHead(e, ps, r, ps', r') && done' == done + [e]
    ensures qsize' == qsize - (|r| - |r'|)
  {
    var e;
    e, p', psize', q', qsize', ps', r' := TakeNext(cmp, p, psize, q, qsize, ps, r);
    TakeHeadApart(e, done, ps, r, ps', r');
    hide Linked, Terminated, Merge, Apart, Doubly;
    list' := Append(e, list, tail, done, ps', r');
    tail' := e;
    done' := done + [e];
    AppendAssociative(done, e, Merge(cmp, ps', r'[..Min(qsize', |r'|)]));
  }

  method MergeTwoRuns(cmp: (Elem, Elem) -> int, p0: Elem?, q0: Elem?, psize0: nat, insize: nat, list0: Elem?,
                      tail0: Elem?,
                      ghost done0: seq<Elem>, ghost run: seq<Elem>, ghost rest: seq<Elem>, ghost all: set<Elem>)
    returns (q: Elem?, list: Elem?, tail: Elem?, ghost done: seq<Elem>)
    requires Merging(done0, run, rest) && insize > 0
    requires Cursors(p0, psize0, q0, list0, tail0, done0, run, rest)
    requires Elements(done0) <= all && Elements(run) <= all && Elements(rest) <= all
    modifies all`next, all`prev
    ensures done == done0 + Merge(cmp, run, rest[..Min(insize, |rest|)])
    ensures Merging(done, [], rest[Min(insize, |rest|)..])
    ensures q == At(rest, Min(insize, |rest|))
    ensures list == At(done, 0) && tail == At(done, |done| - 1)
    ensures Elements(done) <= all
  {
    hide Merging, Merge;
    var p, psize: nat, qsize: nat := p0, psize0, insize;
    q, list, tail := q0, list0, tail0;
    done := done0;
    ghost var ps, r := run, rest;
    while psize > 0 || (qsize > 0 && q != null)
      invariant Merging(done, ps, r) && Cursors(p, psize, q, list, tail, done, ps, r)
      invariant 0 <= qsize <= insize && |r| <= |rest| && r == rest[|rest| - |r|..] && qsize == insize - (|rest| - |r|)
      invariant Outcome(cmp, done, ps, r, qsize) == Outcome(cmp, done0, run, rest, insize)
      invariant Elements(done) <= all && Elements(ps) <= all && Elements(r) <= all
      decreases psize + qsize
    {
      p, psize, q, qsize, list, tail, done, ps, r := MergeOne(cmp, p, psize, q, qsize, list, tail, done, ps, r);
    }
    assert qsize == 0 || r == [];
    OutcomeDone(cmp, done, ps, r, qsize);
  }

  lemma OutcomeDone(cmp: (Elem, Elem) -> int, done: seq<Elem>, ps: seq<Elem>, r: seq<Elem>, qsize: nat)
    requires ps == [] && (qsize == 0 || r == [])
    ensures Outcome(cmp, done, ps, r, qsize) == done
  {
  }

  lemma AppendAssociative(s: seq<Elem>, e: Elem, t: seq<Elem>)
    ensures s + [e] + t == s + ([e] + t)
  {
  }

  method TakeNext(cmp: (Elem, Elem) -> int, p: Elem?, psize: nat, q: Elem?, qsize: nat, ghost ps: seq<Elem>,
                  ghost r: seq<Elem>)
    returns (e: Elem, p': Elem?, psize': nat, q': Elem?, qsize': nat, ghost ps': seq<Elem>, ghost r': seq<Elem>)
    requires psize > 0 || (qsize > 0 && q != null)
    requires psize == |ps| && (ps != [] ==> p == ps[0]) && q == At(r, 0)
    requires Linked(ps) && Linked(r) && Terminated(r)
    ensures TakesHead(e, ps, r, ps', r')
    ensures psize' == |ps'| && (ps' != [] ==> p' == ps'[0]) && q' == At(r', 0)
    ensures qsize' == qsize - (|r| - |r'|)
    ensures Linked(ps') && Linked(r') && Terminated(r')
    ensures [e] + Merge(cmp, ps', r'[..Min(qsize', |r'|)]) == Merge(cmp, ps, r[..Min(qsize, |r|)])
  {
    p', psize', q', qsize', ps', r' := p, psize, q, qsize, ps, r;
    ghost var run := r[..Min(qsize, |r|)];
    if psize == 0 {
      e := q;
      q' := q.next;
      qsize' := qsize - 1;
      r' := r[1..];
      TailLinked(r);
      assert run == [e] + r'[..Min(qsize', |r'|)];
    } else if qsize == 0 || q == null {
      e := p;
      p' := p.next;
      psize' := psize - 1;
      ps' := ps[1..];
      TailLinked(ps);
      assert ps == [e] + ps';
    } else if cmp(p, q) <= 0 {
      e := p;
      p' := p.next;
      psize' := psize - 1;
      ps' := ps[1..];
      TailLinked(ps);
    } else {
      e := q;
      q' := q.next;
      qsize' := qsize - 1;
      r' := r[1..];
      TailLinked(r);
      assert run[1..] == r'[..Min(qsize', |r'|)];
    }
  }

  lemma SplitRun(done: seq<Elem>, rest: seq<Elem>, a: nat)
    requires Merging(done, [], rest) && a <= |rest|
    ensures Merging(done, rest[..a], rest[a..])
  {
    var p, r := rest[..a], rest[a..];
    assert forall i | 0 <= i < |r| :: r[i] == rest[i + a];
    assert (forall x | x in p :: x in rest) && (forall x | x in r :: x in rest);
  }

  /** Step `insize` places along the list, or to its end, counting the steps. */
  method AdvanceRun(p: Elem, insize: nat, ghost rest: seq<Elem>) returns (q: Elem?, psize: nat)
    requires rest != [] && p == rest[0] && Linked(rest) && Terminated(rest) && insize > 0
    ensures psize == Min(insize, |rest|) && q == At(rest, psize)
  {
    q := p;
    psize := 0;
    var i := 0;
    while i < insize
      invariant psize == i <= Min(insize, |rest|) && q == At(rest, i)
      invariant i < insize ==> i < |rest|
    {
      psize := psize + 1;
      q := q.next;
      assert q == At(rest, psize);
      if q == null { break; }
      i := i + 1;
    }
  }

  method Terminate(tail: Elem?, ghost done: seq<Elem>)
    requires Merging(done, [], []) && tail == At(done, |done| - 1)
    modifies Elements(done)`next
    ensures NoDup(done) && Doubly(done) && Terminated(done)
  {
    if tail != null {
      tail.next := null;
    }
  }

  lemma StartPass(s: seq<Elem>)
    requires NoDup(s) && Linked(s) && Terminated(s)
    ensures Merging([], [], s)
  {
  }

  method SortPass(cmp: (Elem, Elem) -> int, list0: Elem, insize: nat, ghost s: seq<Elem>, ghost all: set<Elem>)
    returns (list: Elem?, tail: Elem?, nmerges: nat, ghost done: seq<Elem>)
    requires s != [] && list0 == s[0] && NoDup(s) && Linked(s) && Terminated(s) && insize > 0
    requires Elements(s) <= all
    modifies all`next, all`prev
    ensures done == Pass(cmp, s, insize)
    ensures NoDup(done) && Doubly(done) && Terminated(done)
    ensures list == At(done, 0) && tail == At(done, |done| - 1)
    ensures nmerges <= 1 <==> |s| <= 2 * insize
  {
    StartPass(s);
    NothingIn(all);
    AtStart(s, list0);
    var p: Elem? := list0;
    list, tail, nmerges := null, null, 0;
    done := [];
    ghost var rest := s;
    ghost var first, whole := Min(2 * insize, |s|), Pass(cmp, s, insize);
    assert done + Pass(cmp, rest, insize) == whole;
    assert 0 < first <= |s| && (first == |s| <==> |s| <= 2 * insize);
    hide *;
    while p != null
      invariant Merging(done, [], rest) && p == At(rest, 0)
      invariant list == At(done, 0) && tail == At(done, |done| - 1)
      invariant done + Pass(cmp, rest, insize) == whole
      invariant Elements(done) <= all && Elements(rest) <= all
      invariant nmerges == 0 ==> |rest| == |s|
      invariant nmerges == 1 ==> |rest| == |s| - first
      invariant nmerges > 1 ==> first < |s|
      decreases |rest|
    {
      AtFirst(rest);
      nmerges := nmerges + 1;
      p, list, tail, done, rest := MergeNextPair(cmp, p, insize, list, tail, done, rest, all);
    }
    AtFirst(rest);
    PassOfNothing(cmp, insize);
    assert done + [] == done;
    Terminate(tail, done);
  }

  lemma AtStart(s: seq<Elem>, first: Elem)
    requires s != [] && first == s[0]
    ensures At(s, 0) == first && At([], 0) == null && At([], -1) == null
  {
  }

  lemma AtFirst(s: seq<Elem>)
    ensures At(s, 0) == if s == [] then null else s[0]
  {
  }

  lemma NothingIn(all: set<Elem>)
    ensures Elements([]) <= all
  {
  }

  lemma PassOfNothing(cmp: (Elem, Elem) -> int, k: nat)
    requires k > 0
    ensures Pass(cmp, [], k) == []
  {
  }

  method MergeNextPair(cmp: (Elem, Elem) -> int, p: Elem, insize: nat, list: Elem?, tail: Elem?,
                       ghost done: seq<Elem>, ghost rest: seq<Elem>, ghost all: set<Elem>)
    returns (q: Elem?, list': Elem?, tail': Elem?, ghost done': seq<Elem>, ghost rest': seq<Elem>)
    requires Merging(done, [], rest) && rest != [] && p == rest[0] && insize > 0
    requires list == At(done, 0) && tail == At(done, |done| - 1)
    requires Elements(done) <= all && Elements(rest) <= all
    modifies all`next, all`prev
    ensures Merging(done', [], rest') && q == At(rest', 0)
    ensures list' == At(done', 0) && tail' == At(done', |done'| - 1)
    ensures |rest'| == |rest| - Min(2 * insize, |rest|)
    ensures done' + Pass(cmp, rest', insize) == done + Pass(cmp, rest, insize)
    ensures Elements(done') <= all && Elements(rest') <= all
  {
    hide *;
    ghost var run, others, c := CutRuns(cmp, p, insize, list, tail, done, rest, all);
    var psize;
    q, psize := AdvanceRun(p, insize, rest);
    q, list', tail', done' := MergeTwoRuns(cmp, p, q, psize, insize, list, tail, done, run, others, all);
    rest' := others[c..];
  }

  /** The next run, and what comes after it, of which the first c elements are merged with the run. */
  lemma CutRuns(cmp: (Elem, Elem) -> int, p: Elem, k: nat, list: Elem?, tail: Elem?, done: seq<Elem>, rest: seq<Elem>,
                all: set<Elem>)
    returns (run: seq<Elem>, others: seq<Elem>, c: nat)
    requires Merging(done, [], rest) && rest != [] && p == rest[0] && k > 0
    requires list == At(done, 0) && tail == At(done, |done| - 1) && Elements(rest) <= all
    ensures Linked(rest) && Terminated(rest) && Merging(done, run, others) && Elements(run) <= all
    ensures Elements(others) <= all
    ensures Cursors(p, Min(k, |rest|), At(rest, Min(k, |rest|)), list, tail, done, run, others)
    ensures c == Min(k, |others|) <= |others| && At(others, c) == At(others[c..], 0) && Elements(others[c..]) <= all
    ensures |others[c..]| == |rest| - Min(2 * k, |rest|)
    ensures done + Merge(cmp, run, others[..c]) + Pass(cmp, others[c..], k) == done + Pass(cmp, rest, k)
  {
    var a, d := Min(k, |rest|), Min(2 * k, |rest|);
    run, others := rest[..a], rest[a..];
    c := Min(k, |others|);
    SkipTwo(rest, k, a, others, c, d);
    PassStep(cmp, done, rest, k);
    SplitRun(done, rest, a);
    PartElements(rest, a, all);
    PartElements(others, c, all);
    AtRunStart(rest, a);
    hide Merging, Pass, Merge, Elements;
  }

  lemma PartElements(s: seq<Elem>, a: nat, all: set<Elem>)
    requires a <= |s| && Elements(s) <= all
    ensures Elements(s[..a]) <= all && Elements(s[a..]) <= all
  {
    assert forall x | x in s[..a] || x in s[a..] :: x in Elements(s);
  }

  lemma AtRunStart(s: seq<Elem>, a: nat)
    requires a <= |s|
    ensures At(s, a) == At(s[a..], 0) && |s[..a]| == a && (a > 0 ==> s[..a][0] == s[0])
  {
  }

  lemma SkipTwo(rest: seq<Elem>, k: nat, a: nat, others: seq<Elem>, c: nat, d: nat)
    requires a == Min(k, |rest|) && d == Min(2 * k, |rest|) && others == rest[a..] && c == Min(k, |others|)
    ensures others[c..] == rest[d..] && At(others, c) == At(others[c..], 0)
  {
  }

  lemma PassStep(cmp: (Elem, Elem) -> int, done: seq<Elem>, rest: seq<Elem>, k: nat)
    requires k > 0 && rest != []
    ensures var a := Min(k, |rest|);
      var run, others := rest[..a], rest[a..];
      done + Merge(cmp, run, others[..Min(k, |others|)]) + Pass(cmp, rest[Min(2 * k, |rest|)..], k)
        == done + Pass(cmp, rest, k)
  {
    var a := Min(k, |rest|);
    var others := rest[a..];
    assert others[..Min(k, |others|)] == rest[a..Min(2 * k, |rest|)];
  }

  lemma DoublyIsLinked(s: seq<Elem>)
    requires Doubly(s)
    ensures Linked(s)
  {
  }

  /** The sort: passes over the list with run sizes 1, 2, 4, ... until one merge was enough. */
  method SortList(cmp: (Elem, Elem) -> int, head0: Elem, ghost s0: seq<Elem>)
    returns (head: Elem?, tail: Elem?, ghost s: seq<Elem>)
    requires s0 != [] && head0 == s0[0] && NoDup(s0) && Doubly(s0) && Terminated(s0)
    modifies Elements(s0)`next, Elements(s0)`prev
    ensures s == SortFrom(cmp, s0, 1)
    ensures NoDup(s) && Doubly(s) && Terminated(s)
    ensures head == At(s, 0) && tail == At(s, |s| - 1)
  {
    hide NoDup, Doubly, Terminated, Linked, Pass, Merge;
    var list: Elem := head0;
    var insize := 1;
    var looping := true;
    head, tail := null, null;
    s := s0;
    while looping
      invariant insize > 0 && s != [] && |s| == |s0|
      invariant Elements(s) == Elements(s0)
      invariant NoDup(s) && Doubly(s) && Terminated(s)
      invariant looping ==> list == s[0] && SortFrom(cmp, s, insize) == SortFrom(cmp, s0, 1)
      invariant !looping ==> s == SortFrom(cmp, s0, 1) && head == At(s, 0) && tail == At(s, |s| - 1)
      decreases looping, |s| - insize
    {
      DoublyIsLinked(s);
      PassPermutes(cmp, s, insize);
      SamePermutation(s, Pass(cmp, s, insize));
      var out, last, nmerges;
      out, last, nmerges, s := SortPass(cmp, list, insize, s, Elements(s0));
      list := out;
      if nmerges <= 1 {
        looping := false;
        tail := last;
        head := out;
      }
      insize := insize * 2;
    }
  }
}
