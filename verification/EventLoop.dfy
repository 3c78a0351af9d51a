/**
  The timer and pending-queue half of the event loop: starting, stopping, restarting
  and expiring timers, and queueing events for invocation.
 */
module EventLoop {
  import opened Pending
  import opened Sequences
  import opened TimerHeap

  class Loop {
    const numpri: nat
    const pendingW: Watcher        // the dummy that cleared slots point to
    var timers: array<Anhe>
    var timercnt: nat
    var mnNow: int
    var activecnt: int
    var pendings: Queues   // pendings[pri][..pendingcnt[pri]]
    var pendingpri: nat
    var rfeeds: seq<Watcher>
    ghost var running: set<Watcher>     // the active timers
    ghost var known: set<Watcher>       // every initialised watcher

    /** verify_heap, and: the heap holds exactly the active timers. */
    ghost predicate HeapOk()
      reads this`timers, this`timercnt, this`running, timers, running`active, running`at
    {
      && timercnt + HEAP0 <= timers.Length
      && Slots(timers[..], timercnt, running)
      && Cached(timers[..], timercnt)
      && Ordered(Keys(timers[..]), timercnt)
    }

    /** verify_watcher, both ways: a pending watcher owns exactly the slot its `pending` names. */
    ghost predicate QueuesOk()
      reads this`pendings, this`known, known`pending
    {
      && |pendings| == numpri > 0
      && (forall p | 0 <= p < numpri :: QueueOk(pendings[p], p, known, pendingW))
      && (forall w | w in known :: OwnsSlot(pendings, w))
    }

    ghost predicate WatchersOk()
      reads this`running, this`known, known`active
    {
      && pendingW !in known && running <= known
      && (forall w | w in known :: w.priority < numpri && (w.active != 0 <==> w in running))
    }

    ghost predicate Valid()
      reads this, timers, known
    {
      WatchersOk() && HeapOk() && QueuesOk()
    }

    constructor (numpri: nat)
      requires numpri > 0
      ensures Valid() && running == {} && known == {} && this.numpri == numpri && fresh(timers)
      ensures rfeeds == [] && fresh(pendingW)
    {
      this.numpri := numpri;
      var dummy := new Watcher(0, 0, 0);
      pendingW := dummy;
      timers := new Anhe[HEAP0](_ => Anhe(0, dummy));
      timercnt, mnNow, activecnt, pendingpri := 0, 0, 0, 0;
      pendings := seq(numpri, _ => []);
      rfeeds := [];
      running, known := {}, {};
    }

    /** ev_timer_init: a watcher of this loop, neither active nor pending. */
    method Initialise(w: Watcher)
      requires Valid() && w !in known && w != pendingW && w.priority < numpri && w.active == 0 && w.pending == 0
      modifies this`known
      ensures Valid() && known == old(known) + {w}
    {
      hide HeapOk;
      forall p | 0 <= p < numpri
        ensures QueueOk(pendings[p], p, known + {w}, pendingW)
      {
        assert QueueOk(pendings[p], p, known, pendingW);
      }
      known := known + {w};
    }

    /** time_update, as far as timers are concerned. */
    method TimeUpdate(now: int)
      requires Valid()
      modifies this`mnNow
      ensures Valid() && mnNow == now
    {
      hide HeapOk, QueuesOk, WatchersOk;
      mnNow := now;
    }

    /** ev_timer_set, for a watcher that is not active. */
    method TimerSet(w: Watcher, after: int, repeat: int)
      requires Valid() && w in known && w.active == 0
      modifies {w}`at, {w}`repeat
      ensures Valid() && w.at == after && w.repeat == repeat
    {
      assert w !in running;
      hide HeapOk, QueuesOk, WatchersOk;
      w.at, w.repeat := after, repeat;
    }

    /** ev_feed_event. */
    method FeedEvent(w: Watcher, revents: set<Event>)
      requires WatchersOk() && QueuesOk() && w in known
      modifies this`pendings, this`pendingpri, {w}`pending
      ensures WatchersOk() && QueuesOk()
      ensures pendings == Fed(old(pendings), w.priority, old(w.pending), w, revents)
      ensures w.pending != 0 && pendingpri == numpri - 1
      ensures w.pending == if old(w.pending) != 0 then old(w.pending) else |old(pendings)[w.priority]| + 1
      ensures SlotHolds(pendings, w, revents + if old(w.pending) != 0
                                               then old(pendings)[w.priority][w.pending - 1].events else {})
      ensures OthersSame(old(pendings), pendings, w.priority, w.pending - 1)
    {
      hide QueueOk, OwnsSlot;
      SlotIsOwned(w);
      if w.pending != 0 {
        AddToSlot(w, revents);
      } else {
        AddSlot(w, revents);
      }
      pendingpri := numpri - 1;
    }

    lemma SlotIsOwned(w: Watcher)
      requires WatchersOk() && QueuesOk() && w in known
      ensures w.priority < |pendings| == numpri && OwnsSlot(pendings, w)
    {
    }

    method AddToSlot(w: Watcher, revents: set<Event>)
      requires QueuesOk() && w in known && w.pending != 0 && OwnsSlot(pendings, w)
      modifies this`pendings
      ensures QueuesOk() && pendings == Fed(old(pendings), w.priority, w.pending, w, revents)
      ensures SlotHolds(pendings, w, old(pendings)[w.priority][w.pending - 1].events + revents)
      ensures OthersSame(old(pendings), pendings, w.priority, w.pending - 1)
    {
      var p, slot := w.priority, pendings[w.priority][w.pending - 1];
      pendings := pendings[p := pendings[p][w.pending - 1 := slot.(events := slot.events + revents)]];
    }

    method AddSlot(w: Watcher, revents: set<Event>)
      requires QueuesOk() && w in known && w.pending == 0 && w != pendingW && w.priority < numpri
      modifies this`pendings, {w}`pending
      ensures QueuesOk() && pendings == Fed(old(pendings), w.priority, 0, w, revents)
      ensures w.pending == |old(pendings)[w.priority]| + 1 && SlotHolds(pendings, w, revents)
      ensures OthersSame(old(pendings), pendings, w.priority, w.pending - 1)
    {
      var p := w.priority;
      pendings := pendings[p := pendings[p] + [AnPending(w, revents)]];
      w.pending := |pendings[p]|;
    }

    /** clear_pending. */
    method ClearPending(w: Watcher)
      requires WatchersOk() && QueuesOk() && w in known
      modifies this`pendings, {w}`pending
      ensures WatchersOk() && QueuesOk() && w.pending == 0
      ensures pendings == Cleared(old(pendings), w.priority, old(w.pending), pendingW)
      ensures old(w.pending) != 0 ==>
        && pendings[w.priority][old(w.pending) - 1].w == pendingW
        && OthersSame(old(pendings), pendings, w.priority, old(w.pending) - 1)
      ensures old(w.pending) == 0 ==> pendings == old(pendings)
    {
      if w.pending != 0 {
        var slot := pendings[w.priority][w.pending - 1];
        pendings := pendings[w.priority := pendings[w.priority][w.pending - 1 := slot.(w := pendingW)]];
        w.pending := 0;
      }
    }

    // ----- ev_invoke_pending -----

    /** Every queue is empty, so no watcher is pending. */
    lemma NonePendingWhenEmpty()
      requires QueuesOk() && EmptyFrom(pendings, 0)
      ensures forall w | w in known :: w.pending == 0
    {
      forall w | w in known
        ensures w.pending == 0
      {
        assert OwnsSlot(pendings, w);
      }
    }

    /** The field `pending` of a known watcher says whether and where it is queued. */
    lemma PendingNames(w: Watcher)
      requires WatchersOk() && QueuesOk() && w in known
      ensures Names(pendings, w, w.pending)
    {
      assert OwnsSlot(pendings, w) && QueueOk(pendings[w.priority], w.priority, known, pendingW);
    }

    /** A callback feeds an event. */
    method OneFeed(w: Watcher, revents: set<Event>) returns (ghost steps: seq<Step>)
      requires WatchersOk() && QueuesOk() && w in known
      modifies this`pendings, this`pendingpri, known`pending
      ensures WatchersOk() && QueuesOk() && pendingpri == numpri - 1
      ensures Runs(old(pendings), steps, pendings) && steps == [Feed(w, old(w.pending), revents)]
    {
      PendingNames(w);
      steps := [Feed(w, w.pending, revents)];
      RunsOne(pendings, steps[0]);
      hide QueuesOk, WatchersOk, Runs;
      FeedEvent(w, revents);
    }

    /** A callback clears, or stops, a watcher. */
    method OneClear(w: Watcher) returns (ghost steps: seq<Step>)
      requires WatchersOk() && QueuesOk() && w in known
      modifies this`pendings, known`pending
      ensures WatchersOk() && QueuesOk()
      ensures Runs(old(pendings), steps, pendings) && steps == [Clear(w, old(w.pending), pendingW)]
      ensures forall p | EmptyFrom(old(pendings), p) :: EmptyFrom(pendings, p)
    {
      PendingNames(w);
      steps := [Clear(w, w.pending, pendingW)];
      RunsOne(pendings, steps[0]);
      hide QueuesOk, WatchersOk, Runs;
      ClearPending(w);
    }

    /** Take the newest slot of queue pendingpri; its watcher is no longer pending. */
    method TakeSlot() returns (slot: AnPending, ghost step: Step)
      requires WatchersOk() && QueuesOk() && pendingpri < numpri == |pendings| && pendings[pendingpri] != []
      requires EmptyFrom(pendings, pendingpri + 1)
      modifies this`pendings, known`pending, {pendingW}`pending
      ensures WatchersOk() && QueuesOk()
      ensures Legal(old(pendings), step) && pendings == After(old(pendings), step)
      ensures step == Invoke(pendingpri, slot) && (slot.w == pendingW || slot.w in known)
      ensures EmptyFrom(pendings, pendingpri + 1) && |pendings| == |old(pendings)|
      ensures Total(pendings, |pendings|) < Total(old(pendings), |old(pendings)|)
    {
      slot := pendings[pendingpri][|pendings[pendingpri]| - 1];
      step := Invoke(pendingpri, slot);
      PopShrinks(pendings, pendingpri, |pendings|);
      hide QueuesOk, WatchersOk, Total;
      Pop();
    }

    method Pop()
      requires WatchersOk() && QueuesOk() && pendingpri < numpri == |pendings| && pendings[pendingpri] != []
      modifies this`pendings, known`pending, {pendingW}`pending
      ensures WatchersOk() && QueuesOk()
      ensures var q := old(pendings[pendingpri]);
        && (q[|q| - 1].w == pendingW || q[|q| - 1].w in known)
        && pendings == old(pendings)[pendingpri := q[..|q| - 1]]
    {
      var q := pendings[pendingpri];
      var w := q[|q| - 1].w;
      ghost var before := pendings;
      assert QueueOk(q, pendingpri, known, pendingW);
      pendings := pendings[pendingpri := q[..|q| - 1]];
      assert forall p | 0 <= p < numpri :: QueueOk(before[p], p, known, pendingW);
      OneSlotLess(before, pendingpri, w);
      w.pending := 0;
    }

    /** Without its slot, nothing else points to `w`, and every other watcher keeps its slot. */
    lemma OneSlotLess(before: Queues, p: nat, w: Watcher)
      requires |before| == numpri > p && before[p] != [] && before[p][|before[p]| - 1].w == w
      requires pendings == before[p := before[p][..|before[p]| - 1]]
      requires forall p | 0 <= p < numpri :: QueueOk(before[p], p, known, pendingW)
      requires forall v | v in known :: OwnsSlot(before, v)
      ensures forall i | 0 <= i < numpri :: QueueOk(pendings[i], i, known, pendingW)
      ensures w != pendingW ==> forall i, j | 0 <= i < numpri && 0 <= j < |pendings[i]| :: pendings[i][j].w != w
      ensures forall v | v in known && v != w :: OwnsSlot(pendings, v)
    {
      forall i | 0 <= i < numpri
        ensures QueueOk(pendings[i], i, known, pendingW)
        ensures w != pendingW ==> forall j | 0 <= j < |pendings[i]| :: pendings[i][j].w != w
      {
        assert QueueOk(before[i], i, known, pendingW) && QueueOk(before[p], p, known, pendingW);
      }
    }

    /**
      ev_invoke_pending. What the callbacks do is given from outside: the next callback
      to run does what the first of `scripts` says, and so on; callbacks for which
      there is no script left do nothing. Every queue is empty afterwards, each callback
      was run for the newest slot of the highest nonempty queue at that moment, and the
      callbacks run have done what their scripts say and nothing else.
     */
    method InvokePending(scripts: seq<Script>)
      returns (rest: seq<Script>, ghost steps: seq<Step>, ghost calls: Calls)
      requires WatchersOk() && QueuesOk() && ScriptsOk(scripts, known)
      modifies this`pendings, this`pendingpri, known`pending, {pendingW}`pending
      ensures WatchersOk() && QueuesOk() && ScriptsOk(rest, known) && |rest| <= |scripts|
      ensures EmptyFrom(pendings, 0) && pendingpri == 0
      ensures forall w | w in known :: w.pending == 0
      ensures Runs(old(pendings), steps, pendings)
      ensures scripts == [] ==> Inert(steps)
      ensures Consumed(scripts, rest, steps, calls, pendingW)
      ensures forall w | w in known :: Told(Noted(old(pendings), w), steps, w)
      decreases |scripts|, 3
    {
      ghost var start := pendings;
      rest, steps, calls := scripts, [], NoCalls;
      RunsNothing(start);
      ConsumedNothing(scripts, pendingW);
      pendingpri := numpri;
      QueueCount();
      HighestIsEmpty(start);
      SlotsAreAlone();
      hide QueuesOk, WatchersOk, Runs, ScriptsOk, Inert, EmptyFrom, Consumed, Alone, Noted, Told;
      var more := true;
      while more
        invariant WatchersOk() && QueuesOk() && |pendings| == numpri && ScriptsOk(rest, known) && |rest| <= |scripts|
        invariant pendingpri <= numpri && EmptyFrom(pendings, pendingpri) && (more <==> pendingpri > 0)
        invariant Runs(start, steps, pendings) && (scripts == [] ==> Inert(steps))
        invariant Consumed(scripts, rest, steps, calls, pendingW)
        decreases |rest|, pendingpri
      {
        pendingpri := pendingpri - 1;
        ghost var now, before, turn, done := pendings, rest, [], NoCalls;
        rest, turn, done := InvokeQueue(rest);
        RunsOn(start, steps, now, turn, pendings);
        ConsumedOn(scripts, before, rest, steps, turn, calls, done, pendingW);
        if scripts == [] { InertBoth(steps, turn); }
        steps, calls := steps + turn, Joined(calls, done);
        more := pendingpri != 0;
      }
      NonePendingWhenEmpty();
      forall w | w in known
        ensures Told(Noted(start, w), steps, w)
      {
        assert Alone(start, w);
        KnownAreTold(scripts, rest, start, steps, calls, w);
      }
    }

    lemma KnownAreTold(scripts: seq<Script>, rest: seq<Script>, start: Queues, steps: seq<Step>, calls: Calls,
                       w: Watcher)
      requires WatchersOk() && w in known && Alone(start, w) && Runs(start, steps, pendings)
      requires Consumed(scripts, rest, steps, calls, pendingW)
      ensures Told(Noted(start, w), steps, w)
    {
      CallbacksAreTold(start, steps, pendings, w, pendingW);
    }

    /** A known watcher has one slot at most. */
    lemma SlotsAreAlone()
      requires WatchersOk() && QueuesOk()
      ensures forall w | w in known :: Alone(pendings, w)
    {
      forall w | w in known
        ensures Alone(pendings, w)
      {
        assert forall p | 0 <= p < numpri :: QueueOk(pendings[p], p, known, pendingW);
      }
    }

    /** The inner loop, which is over when the queue of the current priority is empty. */
    method InvokeQueue(scripts: seq<Script>) returns (rest: seq<Script>, ghost steps: seq<Step>, ghost calls: Calls)
      requires WatchersOk() && QueuesOk() && ScriptsOk(scripts, known) && |pendings| == numpri
      requires pendingpri < numpri && EmptyFrom(pendings, pendingpri + 1)
      modifies this`pendings, this`pendingpri, known`pending, {pendingW}`pending
      ensures WatchersOk() && QueuesOk() && ScriptsOk(rest, known) && |pendings| == numpri
      ensures pendingpri < numpri && EmptyFrom(pendings, pendingpri)
      ensures |rest| < |scripts| || (rest == scripts && pendingpri == old(pendingpri))
      ensures Runs(old(pendings), steps, pendings) && (scripts == [] ==> Inert(steps))
      ensures Consumed(scripts, rest, steps, calls, pendingW)
      decreases |scripts|, 2
    {
      ghost var start := pendings;
      rest, steps, calls := scripts, [], NoCalls;
      RunsNothing(start);
      ConsumedNothing(scripts, pendingW);
      hide QueuesOk, WatchersOk, Runs, ScriptsOk, Inert, Total, EmptyFrom, Consumed;
      while pendings[pendingpri] != []
        invariant WatchersOk() && QueuesOk() && |pendings| == numpri && ScriptsOk(rest, known)
        invariant pendingpri < numpri && EmptyFrom(pendings, pendingpri + 1)
        invariant |rest| < |scripts| || (rest == scripts && pendingpri == old(pendingpri))
        invariant Runs(start, steps, pendings) && (scripts == [] ==> Inert(steps))
        invariant Consumed(scripts, rest, steps, calls, pendingW)
        decreases |rest|, Total(pendings, |pendings|)
      {
        ghost var now, before, turn, done := pendings, rest, [], NoCalls;
        rest, turn, done := InvokeNext(rest);
        RunsOn(start, steps, now, turn, pendings);
        ConsumedOn(scripts, before, rest, steps, turn, calls, done, pendingW);
        if scripts == [] { InertBoth(steps, turn); }
        steps, calls := steps + turn, Joined(calls, done);
      }
      OneMoreEmpty(pendings, pendingpri);
    }

    /** One turn of the inner loop: take a slot and run its callback. */
    method InvokeNext(scripts: seq<Script>) returns (rest: seq<Script>, ghost steps: seq<Step>, ghost calls: Calls)
      requires WatchersOk() && QueuesOk() && ScriptsOk(scripts, known) && |pendings| == numpri
      requires pendingpri < numpri && pendings[pendingpri] != [] && EmptyFrom(pendings, pendingpri + 1)
      modifies this`pendings, this`pendingpri, known`pending, {pendingW}`pending
      ensures WatchersOk() && QueuesOk() && ScriptsOk(rest, known) && |pendings| == numpri
      ensures pendingpri < numpri && EmptyFrom(pendings, pendingpri + 1)
      ensures Runs(old(pendings), steps, pendings) && (scripts == [] ==> Inert(steps))
      ensures |rest| < |scripts| || (rest == scripts && pendingpri == old(pendingpri)
                                     && Total(pendings, |pendings|) < Total(old(pendings), |old(pendings)|))
      ensures Consumed(scripts, rest, steps, calls, pendingW)
      decreases |scripts|, 1
    {
      ghost var start := pendings;
      hide QueuesOk, WatchersOk, Runs, Legal, Total, Consumed;
      var slot, step := TakeSlot();
      rest, steps := scripts, [step];
      RunsNothing(start);
      RunsOneMore(start, [], start, step);
      assert [] + [step] == [step];
      QueueCount();
      // The dummy's callback does nothing.
      if slot.w != pendingW && scripts != [] {
        ghost var now, more, deeds := pendings, [], NoDeeds;
        assert ScriptsOk(scripts[1..], known);
        rest, more, deeds := RunCallback(scripts[0], scripts[1..]);
        RunsOn(start, steps, now, more, pendings);
        ConsumedCall(scripts, rest, step, more, deeds, pendingW);
        steps, calls := steps + more, Called(NoCalls, step, deeds);
      } else {
        ConsumedIdle(scripts, step, pendingW);
        calls := Called(NoCalls, step, NoDeeds);
      }
    }

    /** A callback feeds and clears watchers and may invoke what is pending itself. */
    method RunCallback(script: Script, scripts: seq<Script>)
      returns (rest: seq<Script>, ghost steps: seq<Step>, ghost deeds: Deeds)
      requires WatchersOk() && QueuesOk() && ScriptsOk(scripts, known) && ScriptOk(script, known)
      requires |pendings| == numpri
      requires pendingpri < numpri && EmptyFrom(pendings, pendingpri + 1)
      modifies this`pendings, this`pendingpri, known`pending, {pendingW}`pending
      ensures WatchersOk() && QueuesOk() && ScriptsOk(rest, known) && |pendings| == numpri && |rest| <= |scripts|
      ensures pendingpri < numpri && EmptyFrom(pendings, pendingpri + 1)
      ensures Runs(old(pendings), steps, pendings)
      ensures Performed(script, scripts, rest, steps, deeds, pendingW)
      decreases |scripts|, 5
    {
      ghost var start := pendings;
      PerformedNothing(scripts, pendingW);
      assert script[..0] == [];
      hide QueuesOk, WatchersOk, Runs, Legal, ScriptsOk, Performed, Consumed, IsDeed;
      rest, steps, deeds := scripts, [], NoDeeds;
      RunsNothing(start);
      for i := 0 to |script|
        invariant WatchersOk() && QueuesOk() && ScriptsOk(rest, known) && |pendings| == numpri && |rest| <= |scripts|
        invariant pendingpri < numpri && EmptyFrom(pendings, pendingpri + 1)
        invariant Runs(start, steps, pendings) && Performed(script[..i], scripts, rest, steps, deeds, pendingW)
      {
        ghost var more, calls;
        ghost var now, before := pendings, rest;
        assert ActionOk(script[i], known);
        rest, more, calls := DoAction(script[i], rest);
        RunsOn(start, steps, now, more, pendings);
        if script[i].Reenter? {
          PerformedCalls(script, i, scripts, before, rest, steps, deeds, more, calls, pendingW);
          steps, deeds := steps + more, Reentered(deeds, calls);
        } else {
          PerformedDeed(script, i, scripts, rest, steps, deeds, more[0], pendingW);
          assert more == [more[0]];
          steps, deeds := steps + more, Did(deeds, more[0]);
        }
      }
      assert script[..|script|] == script;
    }

    /** One action of a callback. */
    method DoAction(action: Action, scripts: seq<Script>)
      returns (rest: seq<Script>, ghost steps: seq<Step>, ghost calls: Calls)
      requires WatchersOk() && QueuesOk() && ScriptsOk(scripts, known) && ActionOk(action, known)
      requires |pendings| == numpri
      requires pendingpri < numpri && EmptyFrom(pendings, pendingpri + 1)
      modifies this`pendings, this`pendingpri, known`pending, {pendingW}`pending
      ensures WatchersOk() && QueuesOk() && ScriptsOk(rest, known) && |pendings| == numpri && |rest| <= |scripts|
      ensures pendingpri < numpri && EmptyFrom(pendings, pendingpri + 1)
      ensures Runs(old(pendings), steps, pendings)
      ensures if action.Reenter? then Consumed(scripts, rest, steps, calls, pendingW)
              else rest == scripts && |steps| == 1 && IsDeed(action, steps[0], pendingW)
      decreases |scripts|, 4
    {
      hide QueuesOk, WatchersOk, Runs, Legal, ScriptsOk, Consumed;
      rest, calls := scripts, NoCalls;
      match action {
        case DoFeed(w, revents) => steps := OneFeed(w, revents);
        case DoClear(w) => steps := OneClear(w);
        case Reenter => rest, steps, calls := InvokePending(scripts);
      }
      QueueCount();
    }

    lemma QueueCount()
      requires QueuesOk()
      ensures |pendings| == numpri > 0
    {
    }

    /** array_needsize: make room for `count` elements, keeping the old ones. */
    method NeedSize(count: nat, filler: Anhe)
      modifies this`timers
      ensures timers.Length >= count && (timers == old(timers) || fresh(timers))
      ensures timers.Length >= old(timers.Length)
      ensures timers[..old(timers.Length)] == old(timers[..])
    {
      if count > timers.Length {
        var size := timers.Length + 1;
        size := size * 2;
        while count > size
          invariant size > timers.Length
        {
          size := size * 2;
        }
        var bigger := new Anhe[size](_ => filler);
        forall i | 0 <= i < timers.Length {
          bigger[i] := timers[i];
        }
        assert bigger[..timers.Length] == timers[..];
        timers := bigger;
      }
    }

    /** Growing the array keeps the heap as it is. */
    method MakeRoom(w: Watcher)
      requires HeapOk()
      modifies this`timers
      ensures HeapOk() && timers.Length > timercnt + HEAP0 && (timers == old(timers) || fresh(timers))
    {
      ghost var before := timers[..];
      NeedSize(timercnt + HEAP0 + 1, Anhe(w.at, w));
      forall i | 0 <= i < |before|
        ensures timers[i] == before[i]
      {
        assert timers[i] == timers[..|before|][i];
      }
    }

    /** Append a timer to the heap and let it rise. */
    method HeapInsert(w: Watcher)
      requires HeapOk() && w !in running
      modifies this`timers, this`timercnt, this`running, timers, running`active, {w}`active
      ensures HeapOk() && running == old(running) + {w} && (timers == old(timers) || fresh(timers))
      ensures w.active != 0
    {
      MakeRoom(w);
      PlaceLast(w);
    }

    method PlaceLast(w: Watcher)
      requires HeapOk() && w !in running && timers.Length > timercnt + HEAP0
      modifies this`timercnt, this`running, timers, running`active, {w}`active
      ensures HeapOk() && running == old(running) + {w}
      ensures w.active != 0
    {
      var k := timercnt + HEAP0;
      ghost var before := timers[..];
      timercnt := timercnt + 1;
      w.active := k;
      timers[k] := Anhe(w.at, w);
      running := running + {w};
      AppendRises(before, timers[..], timercnt - 1);
      hide Ordered, MayRise, Keys;
      assert SlotsBut(timers[..], timercnt, running, k, timers[k]);
      assert CachedBut(timers[..], timercnt, k, timers[k]);
      hide Slots, SlotsBut, Cached, CachedBut;
      UpHeap(timers, k, timercnt, running);
    }

    /** Take a timer out of the heap: the last element moves into its slot. */
    method HeapRemove(w: Watcher)
      requires HeapOk() && w in running
      modifies this`timercnt, this`running, timers, running`active
      ensures HeapOk() && running == old(running) - {w}
      ensures w.active == old(w.active)
    {
      var k := w.active;
      ghost var ks, heap := Keys(timers[..]), timers[..];
      RemoveSlot(heap, timercnt - 1, running, w);
      OrderedPrefix(ks, timercnt);
      timercnt := timercnt - 1;
      running := running - {w};
      if k < timercnt + HEAP0 {
        Loosened(ks, timercnt, k, timers[timercnt + HEAP0].at);
        hide Ordered, OneLoose, Slots, SlotsBut, Cached, CachedBut;
        FillSlot(k);
      }
    }

    /** The last timer moves into the slot that has become free. */
    method FillSlot(k: nat)
      requires timercnt + HEAP0 < timers.Length && k < timercnt + HEAP0
      requires var last := timers[timercnt + HEAP0]; var heap := timers[..][k := last];
        && SlotsBut(heap, timercnt, running, k, last) && CachedBut(heap, timercnt, k, last)
        && OneLoose(Keys(timers[..])[k := last.at], timercnt, k)
      modifies timers, running`active
      ensures HeapOk()
    {
      ghost var ks, heap := Keys(timers[..]), timers[..];
      var last := timers[timercnt + HEAP0];
      timers[k] := last;
      assert timers[..] == heap[k := last];
      assert Keys(timers[..]) == ks[k := last.at];
      hide *;
      AdjustHeap(timers, timercnt, k, running);
      HeapIsOk();
    }

    lemma HeapIsOk()
      requires timercnt + HEAP0 <= timers.Length
      requires Slots(timers[..], timercnt, running) && Cached(timers[..], timercnt)
      requires Ordered(Keys(timers[..]), timercnt)
      ensures HeapOk()
    {
    }

    /** ANHE_at_cache after a change of `at`, and moving the timer to where it belongs. */
    method HeapRekey(w: Watcher, at: int)
      requires HeapOk() && w in running
      modifies timers, {w}`at, running`active
      ensures HeapOk() && w.at == at
    {
      var k := w.active;
      ghost var ks := Keys(timers[..]);
      Loosened(ks, timercnt, k, at);
      w.at := at;
      timers[k] := Anhe(w.at, w);
      assert Keys(timers[..]) == ks[k := at];
      hide Ordered, OneLoose;
      AdjustHeap(timers, timercnt, k, running);
    }

    /** ev_timer_start: `at` becomes absolute. */
    method TimerStart(w: Watcher)
      requires Valid() && w in known && w.repeat >= 0
      modifies this`timers, this`timercnt, this`running, this`activecnt, timers, known`active, {w}`at
      ensures Valid() && (timers == old(timers) || fresh(timers))
      ensures running == old(running) + {w} && w.active != 0
      ensures w.at == (if old(w.active) != 0 then old(w.at) else old(w.at) + mnNow)
      ensures activecnt == (if old(w.active) != 0 then old(activecnt) else old(activecnt) + 1)
    {
      if w.active != 0 {
        return;
      }
      hide QueuesOk, HeapOk;
      activecnt := activecnt + 1;
      Activate(w);
    }

    method Activate(w: Watcher)
      requires WatchersOk() && HeapOk() && w in known && w !in running
      modifies this`timers, this`timercnt, this`running, timers, running`active, {w}`active, {w}`at
      ensures WatchersOk() && HeapOk() && (timers == old(timers) || fresh(timers))
      ensures running == old(running) + {w} && w.active != 0 && w.at == old(w.at) + mnNow
    {
      w.at := w.at + mnNow;
      StillActive();
      hide HeapOk;
      HeapInsert(w);
      StillActive();
    }

    /** Heap members have a nonzero index. */
    lemma StillActive()
      requires HeapOk()
      ensures forall t | t in running :: t.active != 0
    {
    }

    /** The heap half of ev_timer_stop. */
    method Deactivate(w: Watcher)
      requires WatchersOk() && HeapOk() && w in running
      modifies this`timercnt, this`running, timers, running`active, {w}`at
      ensures WatchersOk() && HeapOk()
      ensures running == old(running) - {w} && w.active == 0 && w.at == old(w.at) - mnNow
    {
      hide HeapOk;
      HeapRemove(w);
      w.at := w.at - mnNow;
      w.active := 0;
      StillActive();
    }

    /** ev_timer_stop: `at` becomes the time that remains. */
    method TimerStop(w: Watcher)
      requires Valid() && w in known
      modifies this`timercnt, this`running, this`activecnt, this`pendings, timers, known`active, {w}`at, {w}`pending
      ensures Valid()
      ensures running == old(running) - {w} && w.active == 0 && w.pending == 0
      ensures w.at == (if old(w.active) != 0 then old(w.at) - mnNow else old(w.at))
      ensures activecnt == (if old(w.active) != 0 then old(activecnt) - 1 else old(activecnt))
      ensures pendings == Cleared(old(pendings), w.priority, old(w.pending), pendingW)
    {
      hide QueuesOk, HeapOk;
      ClearPending(w);
      if w.active == 0 {
        return;
      }
      activecnt := activecnt - 1;
      Deactivate(w);
    }

    /** ev_timer_again: restart a repeating timer relative to now, stop any other. */
    method TimerAgain(w: Watcher)
      requires Valid() && w in known && w.repeat >= 0
      modifies this`timers, this`timercnt, this`running, this`activecnt, this`pendings, timers, known`active, {w}`at,
        {w}`pending
      ensures Valid() && w.pending == 0 && (timers == old(timers) || fresh(timers))
      ensures running == (if w.repeat != 0 then old(running) + {w} else old(running) - {w})
      ensures w.at == (if w.repeat != 0 then mnNow + w.repeat
                       else if old(w.active) != 0 then old(w.at) - mnNow else old(w.at))
      ensures w.active != 0 <==> w.repeat != 0
      ensures activecnt == old(activecnt) - (if old(w.active) != 0 then 1 else 0) + (if w.active != 0 then 1 else 0)
      ensures pendings == Cleared(old(pendings), w.priority, old(w.pending), pendingW)
    {
      hide QueuesOk, HeapOk;
      ClearPending(w);
      if w.active != 0 {
        if w.repeat != 0 {
          HeapRekey(w, mnNow + w.repeat);
          StillActive();
        } else {
          TimerStop(w);
        }
      } else if w.repeat != 0 {
        w.at := w.repeat;
        TimerStart(w);
      }
    }

    /** timers_reschedule: shift all active timers by the same offset. */
    method TimersReschedule(adjust: int)
      requires Valid()
      modifies timers, running`at
      ensures Valid() && running == old(running)
      ensures forall t | t in running :: t.at == old(t.at) + adjust
    {
      ghost var before := timers[..];
      Distinguish();
      hide Ordered, Keys;
      ShiftAll(adjust);
      forall t | t in running
        ensures t.at == old(t.at) + adjust
      {
        assert timers[t.active].w == t;
      }
      ShiftedOrder(before, timers[..], timercnt, adjust);
    }

    lemma Distinguish()
      requires HeapOk()
      ensures forall j, k | HEAP0 <= j < k < timercnt + HEAP0 :: timers[j].w != timers[k].w
      ensures forall j | HEAP0 <= j < timercnt + HEAP0 :: timers[j].w in running && timers[j].at == timers[j].w.at
    {
      hide Ordered;
      forall j, k | HEAP0 <= j < k < timercnt + HEAP0
        ensures timers[j].w != timers[k].w
      {
        assert timers[j].w.active == j && timers[k].w.active == k;
      }
    }

    method ShiftAll(adjust: int)
      requires timercnt + HEAP0 <= timers.Length
      requires forall j, k | HEAP0 <= j < k < timercnt + HEAP0 :: timers[j].w != timers[k].w
      requires forall j | HEAP0 <= j < timercnt + HEAP0 :: timers[j].w in running && timers[j].at == timers[j].w.at
      modifies timers, running`at
      ensures forall j | 0 <= j < timers.Length :: timers[j].w == old(timers[..])[j].w
      ensures forall j | HEAP0 <= j < timercnt + HEAP0 ::
        timers[j].at == old(timers[..])[j].at + adjust == timers[j].w.at
    {
      ghost var before := timers[..];
      var i := 0;
      while i < timercnt
        invariant i <= timercnt
        invariant forall j | 0 <= j < timers.Length :: timers[j].w == before[j].w
        invariant forall j | HEAP0 <= j < timercnt + HEAP0 ::
          timers[j].at == before[j].at + (if j < i + HEAP0 then adjust else 0) == timers[j].w.at
      {
        var he := timers[i + HEAP0];
        he.w.at := he.w.at + adjust;
        timers[i + HEAP0] := Anhe(he.w.at, he.w);
        i := i + 1;
      }
    }

    /** The state while timers_reify runs: `at0` are the expiry times on entry, `rfeeds` the timers taken so far. */
    ghost predicate Reifying(at0: map<Watcher, int>)
      reads this`running, this`rfeeds, this`mnNow, at0.Keys`at, at0.Keys`repeat
    {
      && running <= at0.Keys && TakenInOrder(rfeeds, at0, mnNow)
      && (forall t | t in at0 && t !in rfeeds :: t in running && t.at == at0[t])
      && (forall t | t in rfeeds :: Settled(t, at0[t]))
    }

    /** What happens to a due timer: a repeating one gets a new expiry time, any other is stopped. */
    ghost predicate Settled(t: Watcher, expiry: int)
      reads this`running, this`mnNow, t`at, t`repeat
    {
      if t.repeat != 0 then t in running && t.at == (if expiry + t.repeat < mnNow then mnNow else expiry + t.repeat)
      else t !in running && t.at == expiry - mnNow
    }

    /** One round of the loop in timers_reify, for the timer in the first slot. */
    method ExpireRoot() returns (w: Watcher)
      requires Valid() && timercnt > 0 && timers[HEAP0].w.repeat >= 0
      modifies this`timercnt, this`running, this`activecnt, this`pendings, timers, known`active, running`at,
        running`pending
      ensures Valid() && w == old(timers[HEAP0].w) && Settled(w, old(w.at)) && timercnt + HEAP0 <= timers.Length
      ensures running == (if w.repeat != 0 then old(running) else old(running) - {w})
      ensures forall t | t in old(running) && t != w :: t.at == old(t.at) && t.pending == old(t.pending)
      ensures pendings
        == if w.repeat != 0 then old(pendings) else Cleared(old(pendings), w.priority, old(w.pending), pendingW)
      ensures w.pending == if w.repeat != 0 then old(w.pending) else 0
    {
      w := timers[HEAP0].w;
      hide QueuesOk;
      if w.repeat != 0 {
        var at := w.at + w.repeat;
        if at < mnNow {
          at := mnNow;
        }
        SinkRoot(w, at);
        StillActive();
      } else {
        TimerStop(w);
      }
    }

    /** ANHE_at_cache and downheap for the first element, whose key has not decreased. */
    method SinkRoot(w: Watcher, at: int)
      requires HeapOk() && timercnt > 0 && timers[HEAP0].w == w
      modifies timers, {w}`at, running`active
      ensures HeapOk() && w.at == at
    {
      ghost var ks := Keys(timers[..]);
      Loosened(ks, timercnt, HEAP0, at);
      w.at := at;
      timers[HEAP0] := Anhe(w.at, w);
      assert Keys(timers[..]) == ks[HEAP0 := at];
      hide Ordered, OneLoose;
      LooseSinks(Keys(timers[..]), timercnt, HEAP0);
      DownHeap(timers, timercnt, HEAP0, running);
    }

    /** The first slot is the earliest timer. */
    lemma RootIsEarliest()
      requires HeapOk() && timercnt > 0
      ensures timers[HEAP0].w in running && timers[HEAP0].at == timers[HEAP0].w.at
      ensures forall t | t in running :: timers[HEAP0].at <= t.at
    {
      forall t | t in running
        ensures timers[HEAP0].at <= t.at
      {
        RootIsMinimum(Keys(timers[..]), timercnt, t.active);
        assert timers[t.active].w == t;
      }
    }

    /** The due timers, earliest first: what the loop of timers_reify collects. */
    ghost predicate Expired(fed: seq<Watcher>, at0: map<Watcher, int>)
      reads this`running, this`mnNow, at0.Keys`at, at0.Keys`repeat
    {
      && running <= at0.Keys && TakenInOrder(fed, at0, mnNow)
      && (forall t | t in at0 :: t in fed <==> at0[t] < mnNow)
      && (forall t | t in fed :: Settled(t, at0[t]))
      && (forall t | t in at0 && t !in fed :: t in running && t.at == at0[t])
    }

    /** No due timer was pending already. */
    ghost predicate NonePending(at0: map<Watcher, int>)
      reads this`mnNow, at0.Keys`pending
    {
      forall t | t in at0 && at0[t] < mnNow :: t.pending == 0
    }

    /** The collecting loop of timers_reify. */
    method CollectDue(ghost at0: map<Watcher, int>)
      requires Valid() && rfeeds == [] && forall t | t in running :: t.repeat >= 0
      requires at0.Keys == running && forall t | t in running :: at0[t] == t.at
      modifies this`timercnt, this`running, this`activecnt, this`pendings, this`rfeeds, timers, known`active,
        running`at, running`pending
      ensures Valid() && Expired(rfeeds, at0)
      ensures forall t | t in old(running) && t !in rfeeds :: t.pending == old(t.pending)
      ensures old(NonePending(at0)) ==> pendings == old(pendings) && NonePending(at0)
    {
      ghost var all := running;
      assert Reifying(at0);
      hide QueuesOk, Reifying, Expired, Taken, WatchersOk, HeapOk, NonePending;
      while timercnt > 0 && timers[HEAP0].at < mnNow
        invariant Valid() && Reifying(at0) && running <= all && timercnt + HEAP0 <= timers.Length
        invariant forall t | t in all && t !in rfeeds :: t.pending == old(t.pending)
        invariant old(NonePending(at0)) ==> pendings == old(pendings) && NonePending(at0)
        decreases all - Taken(rfeeds)
      {
        ghost var taken := rfeeds;
        var w := CollectOne(at0);
        TakenGrows(taken, w);
      }
      NothingDueLeft(at0);
    }

    lemma NothingDueLeft(at0: map<Watcher, int>)
      requires HeapOk() && Reifying(at0) && (timercnt == 0 || timers[HEAP0].at >= mnNow)
      ensures Expired(rfeeds, at0)
    {
      if timercnt > 0 { RootIsEarliest(); }
    }

    method CollectOne(ghost at0: map<Watcher, int>) returns (w: Watcher)
      requires Valid() && Reifying(at0) && timercnt > 0 && timers[HEAP0].at < mnNow
      requires forall t | t in running :: t.repeat >= 0
      modifies this`timercnt, this`running, this`activecnt, this`pendings, this`rfeeds, timers, known`active,
        running`at, running`pending
      ensures Valid() && Reifying(at0) && running <= old(running) && timercnt + HEAP0 <= timers.Length
      ensures rfeeds == old(rfeeds) + [w] && w in old(running) && w !in old(rfeeds) && w in at0 && at0[w] < mnNow
      ensures forall t | t in old(running) && t != w :: t.pending == old(t.pending)
      ensures old(NonePending(at0)) ==> pendings == old(pendings) && NonePending(at0)
    {
      hide HeapOk, QueuesOk, WatchersOk, Cleared;
      w := ExpireDue(at0);
      rfeeds := rfeeds + [w];
      forall t | t in rfeeds
        ensures Settled(t, at0[t])
      {
        if t != w {
          assert t in old(rfeeds) && old(Settled(t, at0[t]));
        }
      }
      forall t | t in at0 && t !in rfeeds
        ensures t in running && t.at == at0[t]
      {
        assert t !in old(rfeeds) && t != w;
      }
    }

    method ExpireDue(ghost at0: map<Watcher, int>) returns (w: Watcher)
      requires Valid() && Reifying(at0) && timercnt > 0 && timers[HEAP0].at < mnNow
      requires forall t | t in running :: t.repeat >= 0
      modifies this`timercnt, this`running, this`activecnt, this`pendings, timers, known`active, running`at,
        running`pending
      ensures Valid() && w in at0 && w in old(running) && w !in rfeeds && at0[w] < mnNow
      ensures timercnt + HEAP0 <= timers.Length
      ensures TakenInOrder(rfeeds + [w], at0, mnNow) && Settled(w, at0[w])
      ensures running == (if w.repeat != 0 then old(running) else old(running) - {w})
      ensures forall t | t in at0 && t != w :: t.at == old(t.at)
      ensures forall t | t in at0 && t != w :: t.pending == old(t.pending)
      ensures old(w.pending) == 0 ==> pendings == old(pendings) && w.pending == 0
    {
      RootIsDue(at0);
      hide TakenInOrder, HeapOk, QueuesOk, WatchersOk, Reifying;
      w := ExpireRoot();
    }

    /** The first timer is the next one to take. */
    lemma RootIsDue(at0: map<Watcher, int>)
      requires HeapOk() && Reifying(at0) && timercnt > 0 && timers[HEAP0].at < mnNow
      ensures var w := timers[HEAP0].w;
        && w in running && w in at0 && w !in rfeeds && at0[w] == w.at < mnNow
        && TakenInOrder(rfeeds + [w], at0, mnNow)
    {
      RootIsEarliest();
      TakeNext(rfeeds, at0, mnNow, timers[HEAP0].w);
    }

    /** feed_reverse_done: feed the collected watchers, last one first. */
    method FeedReverseDone(revents: set<Event>)
      requires WatchersOk() && QueuesOk() && rfeeds != [] && (forall t | t in rfeeds :: t in known) && NoDup(rfeeds)
      modifies this`pendings, this`pendingpri, this`rfeeds, rfeeds`pending
      ensures WatchersOk() && QueuesOk() && rfeeds == [] && pendingpri == numpri - 1
      ensures AllPending(old(rfeeds))
      ensures old(AllIdle(rfeeds)) ==> FedBackwards(old(pendings), pendings, old(rfeeds), revents)
    {
      ghost var all, base := rfeeds, pendings;
      ghost var k: nat := |rfeeds|;
      assert all[k..] == [] && all[..k] == all;
      assert |pendings| == numpri;
      hide QueuesOk, WatchersOk, AllIdle, AllPending, FedBackwards, NoDup;
      NothingFed(base, revents);
      while rfeeds != []
        invariant k <= |all| && rfeeds == all[..k] && (k < |all| ==> pendingpri == numpri - 1)
        invariant WatchersOk() && QueuesOk() && |pendings| == numpri
        invariant AllPending(all[k..])
        invariant old(AllIdle(rfeeds)) ==> AllIdle(all[..k]) && FedBackwards(base, pendings, all[k..], revents)
        decreases k
      {
        k := k - 1;
        var w := rfeeds[|rfeeds| - 1];
        rfeeds := rfeeds[..|rfeeds| - 1];
        FeedOne(w, revents, all, k, base);
      }
    }

    method FeedOne(w: Watcher, revents: set<Event>, ghost all: seq<Watcher>, ghost k: nat, ghost base: Queues)
      requires WatchersOk() && QueuesOk() && |pendings| == numpri && NoDup(all) && k < |all| && all[k] == w
      requires w in known
      requires AllPending(all[k + 1..])
      modifies this`pendings, this`pendingpri, {w}`pending
      ensures WatchersOk() && QueuesOk() && |pendings| == numpri && pendingpri == numpri - 1
      ensures AllPending(all[k..])
      ensures old(AllIdle(all[..k + 1])) && old(FedBackwards(base, pendings, all[k + 1..], revents))
        ==> AllIdle(all[..k]) && FedBackwards(base, pendings, all[k..], revents)
    {
      hide QueuesOk;
      assert forall i | k < i < |all| :: all[k + 1..][i - k - 1] == all[i];
      assert all[..k + 1][k] == w;
      if w.priority < |base| == |pendings| && FedBackwards(base, pendings, all[k + 1..], revents) {
        FeedsBackwards(base, pendings, all, k, revents);
      }
      FeedEvent(w, revents);
    }

    /**
      timers_reify: afterwards no active timer is due; each timer that was due has been
      taken exactly once and is pending, no other has been touched, and (unless one of
      them was pending already) they stand in the queues in reverse order of expiry.
     */
    method TimersReify() returns (ghost fed: seq<Watcher>, ghost at0: map<Watcher, int>)
      requires Valid() && rfeeds == [] && forall t | t in running :: t.repeat >= 0
      modifies this`timercnt, this`running, this`activecnt, this`pendings, this`pendingpri, this`rfeeds, timers,
        known`active, running`at, running`pending
      ensures Valid() && rfeeds == []
      ensures at0.Keys == old(running) && forall t | t in at0 :: at0[t] == old(t.at)
      ensures Expired(fed, at0)
      ensures forall t | t in running :: t.at >= mnNow
      ensures AllPending(fed)
      ensures forall t | t in at0 && t !in fed :: t.pending == old(t.pending)
      ensures old(NonePending(at0)) ==> FedBackwards(old(pendings), pendings, fed, {TIMER})
    {
      at0 := map t | t in running :: t.at;
      fed := [];
      hide HeapOk, QueuesOk, WatchersOk, Expired, NonePending, AllPending, FedBackwards;
      CollectDue(at0);
      fed := rfeeds;
      FeedDue(at0);
      NoneLeft(fed, at0);
    }

    /** No timer that is due is pending already. */
    ghost predicate DueIdle()
      reads this`running, this`mnNow, running`at, running`pending
    {
      forall t | t in running && t.at < mnNow :: t.pending == 0
    }

    /**
      A turn of the loop in which only timers expire and no callback interferes: at
      every priority the callbacks run are those of the expired timers, each once and in
      nondecreasing order of expiry, and then those of what was pending before.
     */
    method ExpireAndInvoke() returns (ghost fed: seq<Watcher>, ghost at0: map<Watcher, int>, ghost steps: seq<Step>)
      requires Valid() && rfeeds == [] && (forall t | t in running :: t.repeat >= 0) && DueIdle()
      modifies this`timercnt, this`running, this`activecnt, this`pendings, this`pendingpri, this`rfeeds, timers,
        known`active, running`at, known`pending, {pendingW}`pending
      ensures Valid() && EmptyFrom(pendings, 0)
      ensures at0.Keys == old(running) && forall t | t in at0 :: at0[t] == old(t.at)
      ensures TakenInOrder(fed, at0, mnNow) && forall t | t in at0 :: t in fed <==> at0[t] < mnNow
      ensures InvokedInOrder(old(pendings), fed, at0, steps)
    {
      ghost var base := pendings;
      assert running <= known;
      hide HeapOk, QueuesOk, WatchersOk, FedBackwards, Runs, InvokedInOrder, TakenInOrder, DueIdle, Inert;
      fed, at0 := ExpireTimers();
      ghost var fedTo := pendings;
      steps := Drain();
      TimersRunInOrderOfExpiry(base, fedTo, fed, at0, mnNow, steps, pendings);
    }

    method ExpireTimers() returns (ghost fed: seq<Watcher>, ghost at0: map<Watcher, int>)
      requires Valid() && rfeeds == [] && (forall t | t in running :: t.repeat >= 0) && DueIdle()
      modifies this`timercnt, this`running, this`activecnt, this`pendings, this`pendingpri, this`rfeeds, timers,
        known`active, running`at, running`pending
      ensures Valid()
      ensures at0.Keys == old(running) && forall t | t in at0 :: at0[t] == old(t.at)
      ensures TakenInOrder(fed, at0, mnNow) && forall t | t in at0 :: t in fed <==> at0[t] < mnNow
      ensures FedBackwards(old(pendings), pendings, fed, {TIMER})
    {
      DueIsNonePending();
      hide HeapOk, QueuesOk, WatchersOk, NonePending, AllPending, FedBackwards, DueIdle;
      fed, at0 := TimersReify();
    }

    method Drain() returns (ghost steps: seq<Step>)
      requires Valid()
      modifies this`pendings, this`pendingpri, known`pending, {pendingW}`pending
      ensures Valid() && EmptyFrom(pendings, 0)
      ensures Runs(old(pendings), steps, pendings) && Inert(steps)
    {
      hide HeapOk, QueuesOk, WatchersOk, Runs, Inert, Consumed;
      var rest;
      ghost var calls;
      rest, steps, calls := InvokePending([]);
    }

    lemma DueIsNonePending()
      requires DueIdle()
      ensures forall at0: map<Watcher, int> | at0.Keys == running && (forall t | t in running :: at0[t] == t.at) ::
        NonePending(at0)
    {
    }

    lemma NoneLeft(fed: seq<Watcher>, at0: map<Watcher, int>)
      requires Expired(fed, at0)
      ensures forall t | t in running :: t.at >= mnNow
    {
    }

    method FeedDue(ghost at0: map<Watcher, int>)
      requires Valid() && Expired(rfeeds, at0) && at0.Keys <= known
      modifies this`pendings, this`pendingpri, this`rfeeds, rfeeds`pending
      ensures Valid() && rfeeds == [] && Expired(old(rfeeds), at0)
      ensures AllPending(old(rfeeds))
      ensures old(NonePending(at0)) ==> FedBackwards(old(pendings), pendings, old(rfeeds), {TIMER})
    {
      ghost var base := pendings;
      hide HeapOk, QueuesOk, FedBackwards;
      NothingFed(base, {TIMER});
      if rfeeds != [] {
        FeedReverseDone({TIMER});
      }
    }
  }

  ghost predicate AllIdle(s: seq<Watcher>)
    reads s`pending
  {
    forall i | 0 <= i < |s| :: s[i].pending == 0
  }

  ghost predicate AllPending(s: seq<Watcher>)
    reads s`pending
  {
    forall i | 0 <= i < |s| :: s[i].pending != 0
  }

  ghost function Taken(taken: seq<Watcher>): set<Watcher> {
    set t | t in taken
  }

  lemma TakenGrows(taken: seq<Watcher>, w: Watcher)
    ensures Taken(taken + [w]) == Taken(taken) + {w} && (w in Taken(taken) <==> w in taken)
  {
  }

  lemma TakeNext(taken: seq<Watcher>, at0: map<Watcher, int>, now: int, w: Watcher)
    requires TakenInOrder(taken, at0, now) && w in at0 && w !in taken && at0[w] < now
    requires forall t | t in at0 && t !in taken :: at0[w] <= at0[t]
    ensures TakenInOrder(taken + [w], at0, now)
  {
  }

  lemma ShiftedOrder(heap: seq<Anhe>, heap': seq<Anhe>, n: nat, adjust: int)
    requires n + HEAP0 <= |heap| == |heap'| && Ordered(Keys(heap), n)
    requires forall i | HEAP0 <= i < n + HEAP0 :: heap'[i].at == heap[i].at + adjust
    ensures Ordered(Keys(heap'), n)
  {
    var ks, ks' := Keys(heap), Keys(heap');
    forall i | InHeap(i, n)
      ensures ks'[Parent(i)] <= ks'[i]
    {
      assert ks[Parent(i)] <= ks[i];
    }
  }

  /** A new last element can only be too small for its place. */
  lemma AppendRises(before: seq<Anhe>, after: seq<Anhe>, n: nat)
    requires n + HEAP0 <= |before| <= |after| && n + HEAP0 < |after|
    requires Ordered(Keys(before), n) && after[..n + HEAP0] == before[..n + HEAP0]
    ensures MayRise(Keys(after), n + 1, n + HEAP0)
  {
    var b, a := Keys(before), Keys(after);
    forall i | InHeap(i, n + 1) && i != n + HEAP0
      ensures a[Parent(i)] <= a[i]
    {
      assert b[Parent(i)] <= b[i];
      assert after[i] == after[..n + HEAP0][i] == before[i];
      assert after[Parent(i)] == after[..n + HEAP0][Parent(i)] == before[Parent(i)];
    }
  }

  lemma OrderedPrefix(ks: seq<int>, n: nat)
    requires n > 0 && |ks| >= n + HEAP0 && Ordered(ks, n)
    ensures Ordered(ks, n - 1)
  {
    assert forall i | InHeap(i, n - 1) :: InHeap(i, n);
  }
}
