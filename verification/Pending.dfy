/**
  The pending queues of the event loop as values: what feeding, clearing and invoking
  do to them, which runs of those steps are legal, and in which order a run in which
  no callback interferes invokes what is queued.
 */
module Pending {
  import opened Sequences
  import opened TimerHeap

  datatype Event = READ | WRITE | TIMER | ASYNC | CUSTOM

  datatype AnPending = AnPending(w: Watcher, events: set<Event>)

  /** One queue per priority. */
  type Queues = seq<seq<AnPending>>

  /** Every slot that is not the dummy belongs to a watcher of this priority that points back at it. */
  ghost predicate QueueOk(q: seq<AnPending>, p: nat, known: set<Watcher>, dummy: Watcher)
    reads known`pending
  {
    forall i | 0 <= i < |q| && q[i].w != dummy :: q[i].w in known && q[i].w.pending == i + 1 && q[i].w.priority == p
  }

  ghost predicate OwnsSlot(q: Queues, w: Watcher)
    reads w`pending
  {
    w.pending != 0 ==> w.priority < |q| && w.pending <= |q[w.priority]| && q[w.priority][w.pending - 1].w == w
  }

  /** The queues after an event for `w`, whose slot is `pending - 1` if it is pending. */
  ghost function Fed(q: Queues, p: nat, pending: nat, w: Watcher, revents: set<Event>): Queues
    requires p < |q| && pending <= |q[p]|
  {
    if pending != 0 then q[p := q[p][pending - 1 := q[p][pending - 1].(events := q[p][pending - 1].events + revents)]]
    else q[p := q[p] + [AnPending(w, revents)]]
  }

  /** The slot of a pending watcher, and what it is to be told. */
  ghost predicate SlotHolds(q: Queues, w: Watcher, events: set<Event>)
    reads w`pending
  {
    w.priority < |q| && 0 < w.pending <= |q[w.priority]| && q[w.priority][w.pending - 1] == AnPending(w, events)
  }

  /** Every slot but slot i of queue p is as before, and no slot is gone; slot i may be new. */
  ghost predicate OthersSame(q: Queues, q': Queues, p: nat, i: nat) {
    && |q'| == |q|
    && (forall r | 0 <= r < |q| && r != p :: q'[r] == q[r])
    && (p < |q| ==>
          && |q'[p]| == (if i < |q[p]| then |q[p]| else |q[p]| + 1)
          && forall j | 0 <= j < |q[p]| && j != i :: q'[p][j] == q[p][j])
  }

  ghost function Cleared(q: Queues, p: nat, pending: nat, dummy: Watcher): Queues
    requires p < |q| && pending <= |q[p]|
  {
    if pending != 0 then q[p := q[p][pending - 1 := q[p][pending - 1].(w := dummy)]] else q
  }

  // ----- Runs -----

  /** What happens to the queues, one step at a time; `pending` is the field of `w` just before. */
  datatype Step =
    | Invoke(pri: nat, slot: AnPending)
    | Feed(w: Watcher, pending: nat, revents: set<Event>)
    | Clear(w: Watcher, pending: nat, dummy: Watcher)

  ghost predicate EmptyFrom(q: Queues, p: nat) {
    forall i | p <= i < |q| :: q[i] == []
  }

  lemma HighestIsEmpty(q: Queues)
    ensures EmptyFrom(q, |q|)
  {
  }

  lemma OneMoreEmpty(q: Queues, p: nat)
    requires p < |q| && EmptyFrom(q, p + 1) && q[p] == []
    ensures EmptyFrom(q, p)
  {
  }

  /** `pending` says whether and where `w` is queued. */
  ghost predicate Names(q: Queues, w: Watcher, pending: nat) {
    && w.priority < |q| && pending <= |q[w.priority]|
    && if pending != 0 then q[w.priority][pending - 1].w == w
       else forall i | 0 <= i < |q[w.priority]| :: q[w.priority][i].w != w
  }

  /** A callback is run for the newest slot of the highest queue that is not empty. */
  ghost predicate Legal(q: Queues, s: Step) {
    match s
    case Invoke(p, slot) => p < |q| && q[p] != [] && slot == q[p][|q[p]| - 1] && EmptyFrom(q, p + 1)
    case Feed(w, pending, _) => Names(q, w, pending)
    case Clear(w, pending, _) => Names(q, w, pending)
  }

  ghost function After(q: Queues, s: Step): Queues
    requires Legal(q, s)
  {
    match s
    case Invoke(p, _) => q[p := q[p][..|q[p]| - 1]]
    case Feed(w, pending, revents) => Fed(q, w.priority, pending, w, revents)
    case Clear(w, pending, dummy) => Cleared(q, w.priority, pending, dummy)
  }

  /** From q, the steps are legal one after another and lead to q'. */
  ghost predicate Runs(q: Queues, steps: seq<Step>, q': Queues)
    decreases |steps|
  {
    if steps == [] then q' == q
    else Legal(q, steps[0]) && Runs(After(q, steps[0]), steps[1..], q')
  }

  lemma {:induction false} RunsOn(q: Queues, a: seq<Step>, m: Queues, b: seq<Step>, q': Queues)
    requires Runs(q, a, m) && Runs(m, b, q')
    ensures Runs(q, a + b, q')
    decreases |a|
  {
    if a == [] {
      assert a + b == b;
    } else {
      RunsOn(After(q, a[0]), a[1..], m, b, q');
      assert (a + b)[1..] == a[1..] + b;
    }
  }

  lemma RunsOneMore(q: Queues, a: seq<Step>, m: Queues, s: Step)
    requires Runs(q, a, m) && Legal(m, s)
    ensures Runs(q, a + [s], After(m, s))
  {
    assert [s][1..] == [];
    assert Runs(After(m, s), [s][1..], After(m, s));
    assert Runs(m, [s], After(m, s));
    RunsOn(q, a, m, [s], After(m, s));
  }

  lemma RunsNothing(q: Queues)
    ensures Runs(q, [], q) && Inert([])
  {
  }

  lemma RunsOne(q: Queues, s: Step)
    requires Legal(q, s)
    ensures Runs(q, [s], After(q, s))
  {
    RunsNothing(q);
    RunsOneMore(q, [], q, s);
    assert [] + [s] == [s];
  }

  lemma InertBoth(a: seq<Step>, b: seq<Step>)
    requires Inert(a) && Inert(b)
    ensures Inert(a + b)
  {
  }

  ghost predicate Inert(steps: seq<Step>) {
    forall i | 0 <= i < |steps| :: steps[i].Invoke?
  }

  // ----- Callbacks -----

  /** What a callback may do to the queues. */
  datatype Action = DoFeed(w: Watcher, revents: set<Event>) | DoClear(w: Watcher) | Reenter

  type Script = seq<Action>

  predicate ActionOk(a: Action, known: set<Watcher>) {
    a.Reenter? || a.w in known
  }

  predicate ScriptOk(script: Script, known: set<Watcher>) {
    forall i | 0 <= i < |script| :: ActionOk(script[i], known)
  }

  predicate ScriptsOk(scripts: seq<Script>, known: set<Watcher>) {
    forall i | 0 <= i < |scripts| :: ScriptOk(scripts[i], known)
  }

  /** The callbacks that have been run one after another, and what each of them did. */
  datatype Calls = NoCalls | Called(before: Calls, step: Step, deeds: Deeds)

  /** What a callback has done, in order: fed or cleared a watcher, or run other callbacks itself. */
  datatype Deeds = NoDeeds | Did(before: Deeds, step: Step) | Reentered(before: Deeds, calls: Calls)

  ghost function StepsOf(c: Calls): seq<Step> {
    match c
    case NoCalls => []
    case Called(before, step, deeds) => StepsOf(before) + [step] + StepsDone(deeds)
  }

  ghost function StepsDone(d: Deeds): seq<Step> {
    match d
    case NoDeeds => []
    case Did(before, step) => StepsDone(before) + [step]
    case Reentered(before, calls) => StepsDone(before) + StepsOf(calls)
  }

  /** Each callback takes a script, as long as there is one; that of the dummy does not. */
  ghost predicate TakesScript(step: Step, scripts: seq<Script>, dummy: Watcher) {
    step.Invoke? && step.slot.w != dummy && scripts != []
  }

  /** The scripts that are left. */
  ghost function Left(scripts: seq<Script>, c: Calls, dummy: Watcher): seq<Script>
    decreases c
  {
    match c
    case NoCalls => scripts
    case Called(before, step, deeds) =>
      var left := Left(scripts, before, dummy);
      if TakesScript(step, left, dummy) then LeftBy(left[1..], deeds, dummy) else left
  }

  ghost function LeftBy(scripts: seq<Script>, d: Deeds, dummy: Watcher): seq<Script>
    decreases d
  {
    match d
    case NoDeeds => scripts
    case Did(before, _) => LeftBy(scripts, before, dummy)
    case Reentered(before, calls) => Left(LeftBy(scripts, before, dummy), calls, dummy)
  }

  /** Each callback has done what the script it took says, all of it, in order, and nothing else. */
  ghost predicate AsTold(scripts: seq<Script>, c: Calls, dummy: Watcher)
    decreases c
  {
    match c
    case NoCalls => true
    case Called(before, step, deeds) =>
      var left := Left(scripts, before, dummy);
      && AsTold(scripts, before, dummy) && step.Invoke?
      && if TakesScript(step, left, dummy) then DoneAsTold(left[0], left[1..], deeds, dummy) else deeds == NoDeeds
  }

  ghost predicate DoneAsTold(script: Script, scripts: seq<Script>, d: Deeds, dummy: Watcher)
    decreases d
  {
    match d
    case NoDeeds => script == []
    case Did(before, step) =>
      && script != [] && IsDeed(script[|script| - 1], step, dummy)
      && DoneAsTold(script[..|script| - 1], scripts, before, dummy)
    case Reentered(before, calls) =>
      && script != [] && script[|script| - 1].Reenter?
      && DoneAsTold(script[..|script| - 1], scripts, before, dummy)
      && AsTold(LeftBy(scripts, before, dummy), calls, dummy)
  }

  ghost predicate IsDeed(action: Action, step: Step, dummy: Watcher) {
    match action
    case DoFeed(w, revents) => step.Feed? && step.w == w && step.revents == revents
    case DoClear(w) => step.Clear? && step.w == w && step.dummy == dummy
    case Reenter => false
  }

  /** Clearing goes to this dummy only. */
  ghost predicate ClearsTo(steps: seq<Step>, dummy: Watcher) {
    forall i | 0 <= i < |steps| && steps[i].Clear? :: steps[i].dummy == dummy
  }

  lemma ClearsOf(a: seq<Step>, b: seq<Step>, dummy: Watcher)
    requires ClearsTo(a, dummy) && ClearsTo(b, dummy)
    ensures ClearsTo(a + b, dummy)
  {
  }

  /** The steps are those of the callbacks, which have done what the scripts say; `rest` is left. */
  ghost predicate Consumed(scripts: seq<Script>, rest: seq<Script>, steps: seq<Step>, c: Calls, dummy: Watcher) {
    steps == StepsOf(c) && rest == Left(scripts, c, dummy) && AsTold(scripts, c, dummy) && ClearsTo(steps, dummy)
  }

  /** The same of one callback and its script. */
  ghost predicate Performed(script: Script, scripts: seq<Script>, rest: seq<Script>, steps: seq<Step>, d: Deeds,
                            dummy: Watcher)
  {
    && steps == StepsDone(d) && rest == LeftBy(scripts, d, dummy) && DoneAsTold(script, scripts, d, dummy)
    && ClearsTo(steps, dummy)
  }

  ghost function Joined(a: Calls, b: Calls): Calls {
    match b
    case NoCalls => a
    case Called(before, step, deeds) => Called(Joined(a, before), step, deeds)
  }

  lemma {:induction false} JoinedSteps(a: Calls, b: Calls, scripts: seq<Script>, dummy: Watcher)
    ensures StepsOf(Joined(a, b)) == StepsOf(a) + StepsOf(b)
    ensures Left(scripts, Joined(a, b), dummy) == Left(Left(scripts, a, dummy), b, dummy)
    ensures AsTold(scripts, a, dummy) && AsTold(Left(scripts, a, dummy), b, dummy) ==>
      AsTold(scripts, Joined(a, b), dummy)
    decreases b
  {
    match b {
      case NoCalls => assert StepsOf(a) + [] == StepsOf(a);
      case Called(before, step, deeds) =>
        JoinedSteps(a, before, scripts, dummy);
        hide TakesScript;
        assert StepsOf(a) + StepsOf(before) + [step] + StepsDone(deeds)
            == StepsOf(a) + (StepsOf(before) + [step] + StepsDone(deeds));
    }
  }

  lemma ConsumedNothing(scripts: seq<Script>, dummy: Watcher)
    ensures Consumed(scripts, scripts, [], NoCalls, dummy)
  {
  }

  lemma ConsumedOn(scripts: seq<Script>, mid: seq<Script>, rest: seq<Script>, a: seq<Step>, b: seq<Step>,
                   c: Calls, d: Calls, dummy: Watcher)
    requires Consumed(scripts, mid, a, c, dummy) && Consumed(mid, rest, b, d, dummy)
    ensures Consumed(scripts, rest, a + b, Joined(c, d), dummy)
  {
    JoinedSteps(c, d, scripts, dummy);
    ClearsOf(a, b, dummy);
    hide StepsOf, Left, AsTold, ClearsTo, Joined;
  }

  /** A callback for which there is no script, or that of the dummy. */
  lemma ConsumedIdle(scripts: seq<Script>, step: Step, dummy: Watcher)
    requires step.Invoke? && (step.slot.w == dummy || scripts == [])
    ensures Consumed(scripts, scripts, [step], Called(NoCalls, step, NoDeeds), dummy)
  {
    assert [] + [step] + [] == [step];
  }

  /** A callback that did what the first script says. */
  lemma ConsumedCall(scripts: seq<Script>, rest: seq<Script>, step: Step, more: seq<Step>, d: Deeds, dummy: Watcher)
    requires scripts != [] && step.Invoke? && step.slot.w != dummy
    requires Performed(scripts[0], scripts[1..], rest, more, d, dummy)
    ensures Consumed(scripts, rest, [step] + more, Called(NoCalls, step, d), dummy)
  {
    assert StepsOf(NoCalls) == [] && Left(scripts, NoCalls, dummy) == scripts && AsTold(scripts, NoCalls, dummy);
    assert [] + [step] + more == [step] + more;
    hide StepsDone, LeftBy, DoneAsTold;
  }

  lemma PerformedNothing(scripts: seq<Script>, dummy: Watcher)
    ensures Performed([], scripts, scripts, [], NoDeeds, dummy)
  {
  }

  /** One action more: feeding or clearing. */
  lemma PerformedDeed(script: Script, i: nat, scripts: seq<Script>, rest: seq<Script>, steps: seq<Step>, d: Deeds,
                      step: Step, dummy: Watcher)
    requires i < |script| && Performed(script[..i], scripts, rest, steps, d, dummy) && IsDeed(script[i], step, dummy)
    ensures Performed(script[..i + 1], scripts, rest, steps + [step], Did(d, step), dummy)
  {
    assert script[..i + 1][..i] == script[..i];
    ClearsOf(steps, [step], dummy);
    hide ClearsTo;
  }

  /** One action more: running other callbacks. */
  lemma PerformedCalls(script: Script, i: nat, scripts: seq<Script>, mid: seq<Script>, rest: seq<Script>,
                       steps: seq<Step>, d: Deeds, more: seq<Step>, c: Calls, dummy: Watcher)
    requires i < |script| && Performed(script[..i], scripts, mid, steps, d, dummy) && script[i].Reenter?
    requires Consumed(mid, rest, more, c, dummy)
    ensures Performed(script[..i + 1], scripts, rest, steps + more, Reentered(d, c), dummy)
  {
    assert script[..i + 1][..i] == script[..i];
    ClearsOf(steps, more, dummy);
    hide ClearsTo, StepsOf, AsTold;
  }

  /** Number of slots in the first n queues. */
  ghost function Total(q: Queues, n: nat): nat
    requires n <= |q|
  {
    if n == 0 then 0 else Total(q, n - 1) + |q[n - 1]|
  }

  lemma {:induction false} TotalSame(q: Queues, r: Queues, n: nat)
    requires n <= |q| == |r| && forall i | 0 <= i < n :: q[i] == r[i]
    ensures Total(q, n) == Total(r, n)
  {
    if n > 0 { TotalSame(q, r, n - 1); }
  }

  lemma {:induction false} PopShrinks(q: Queues, p: nat, n: nat)
    requires p < n <= |q| && q[p] != []
    ensures Total(q[p := q[p][..|q[p]| - 1]], n) == Total(q, n) - 1
    decreases n
  {
    var r := q[p := q[p][..|q[p]| - 1]];
    if n == p + 1 { TotalSame(q, r, p); } else { PopShrinks(q, p, n - 1); }
  }

  // ----- What a callback is told -----

  /** The events in the slots of `w`. */
  ghost function Noted(q: Queues, w: Watcher): set<Event> {
    set p, i, e | 0 <= p < |q| && 0 <= i < |q[p]| && q[p][i].w == w && e in q[p][i].events :: e
  }

  /** What `w` has to be told after a step, if it had `before` to be told. */
  ghost function Collects(before: set<Event>, s: Step, w: Watcher): set<Event> {
    match s
    case Invoke(_, slot) => if slot.w == w then {} else before
    case Feed(v, _, revents) => if v == w then before + revents else before
    case Clear(v, _, _) => if v == w then {} else before
  }

  /** What has been fed to `w` since it was last called or cleared; at the start it is `first`. */
  ghost function Collected(first: set<Event>, steps: seq<Step>, w: Watcher): set<Event>
    decreases |steps|
  {
    if steps == [] then first else Collected(Collects(first, steps[0], w), steps[1..], w)
  }

  /** Each callback of `w` is told just that. */
  ghost predicate Told(first: set<Event>, steps: seq<Step>, w: Watcher) {
    forall i | 0 <= i < |steps| && steps[i].Invoke? && steps[i].slot.w == w ::
      steps[i].slot.events == Collected(first, steps[..i], w)
  }

  /** `w` has at most one slot, at its priority. */
  ghost predicate Alone(q: Queues, w: Watcher) {
    && (forall p, i | 0 <= p < |q| && 0 <= i < |q[p]| && q[p][i].w == w :: p == w.priority)
    && (forall i, j | w.priority < |q| && 0 <= i < j < |q[w.priority]| ::
          q[w.priority][i].w != w || q[w.priority][j].w != w)
  }

  lemma NotedInSlot(q: Queues, w: Watcher, i: nat)
    requires Alone(q, w) && w.priority < |q| && i < |q[w.priority]| && q[w.priority][i].w == w
    ensures Noted(q, w) == q[w.priority][i].events
  {
    forall p, j | 0 <= p < |q| && 0 <= j < |q[p]| && q[p][j].w == w
      ensures p == w.priority && j == i
    {
    }
  }

  lemma NotedNowhere(q: Queues, w: Watcher)
    requires forall p, i | 0 <= p < |q| && 0 <= i < |q[p]| :: q[p][i].w != w
    ensures Noted(q, w) == {} && Alone(q, w)
  {
  }

  /** Where one of two queues has a slot of `w`, so has the other, with the same events. */
  lemma NotedAlike(q: Queues, r: Queues, w: Watcher)
    requires Alone(q, w) && |q| == |r|
    requires forall p, i | 0 <= p < |q| && 0 <= i < |q[p]| && q[p][i].w == w :: i < |r[p]| && r[p][i] == q[p][i]
    requires forall p, i | 0 <= p < |r| && 0 <= i < |r[p]| && r[p][i].w == w :: i < |q[p]| && r[p][i] == q[p][i]
    ensures Noted(r, w) == Noted(q, w) && Alone(r, w)
  {
    forall e
      ensures e in Noted(q, w) <==> e in Noted(r, w)
    {
    }
  }

  /** What a step makes of the events that `w` has to be told. */
  lemma StepNotes(q: Queues, s: Step, w: Watcher)
    requires Legal(q, s) && Alone(q, w) && (s.Clear? ==> s.dummy != w)
    ensures Alone(After(q, s), w) && Noted(After(q, s), w) == Collects(Noted(q, w), s, w)
    ensures s.Invoke? && s.slot.w == w ==> s.slot.events == Noted(q, w)
  {
    match s {
      case Invoke(p, slot) => InvokeNotes(q, p, slot, w);
      case Feed(v, pending, revents) =>
        if v != w { NotedAlike(q, After(q, s), w); } else { FeedNotes(q, w, pending, revents); }
      case Clear(v, pending, dummy) =>
        if v != w { NotedAlike(q, After(q, s), w); } else { ClearNotes(q, w, pending, dummy); }
    }
  }

  lemma InvokeNotes(q: Queues, p: nat, slot: AnPending, w: Watcher)
    requires Legal(q, Invoke(p, slot)) && Alone(q, w)
    ensures var r := After(q, Invoke(p, slot)); Alone(r, w) && Noted(r, w) == if slot.w == w then {} else Noted(q, w)
    ensures slot.w == w ==> slot.events == Noted(q, w)
  {
    var r := After(q, Invoke(p, slot));
    if slot.w == w {
      NotedInSlot(q, w, |q[p]| - 1);
      NotedNowhere(r, w);
    } else {
      NotedAlike(q, r, w);
    }
  }

  lemma FeedNotes(q: Queues, w: Watcher, pending: nat, revents: set<Event>)
    requires Names(q, w, pending) && Alone(q, w)
    ensures var r := Fed(q, w.priority, pending, w, revents); Alone(r, w) && Noted(r, w) == Noted(q, w) + revents
  {
    var r := Fed(q, w.priority, pending, w, revents);
    if pending == 0 {
      NotedNowhere(q, w);
      NotedInSlot(r, w, |q[w.priority]|);
    } else {
      NotedInSlot(q, w, pending - 1);
      NotedInSlot(r, w, pending - 1);
    }
  }

  lemma ClearNotes(q: Queues, w: Watcher, pending: nat, dummy: Watcher)
    requires Names(q, w, pending) && Alone(q, w) && dummy != w
    ensures var r := Cleared(q, w.priority, pending, dummy); Alone(r, w) && Noted(r, w) == {}
  {
    NotedNowhere(Cleared(q, w.priority, pending, dummy), w);
  }

  /**
    In any run, whatever the callbacks feed, clear and invoke: the callback of `w` is
    told what it had to be told at the start and what has been fed to it since it was
    last called or cleared, all of it and nothing else.
   */
  lemma {:induction false} CallbacksAreTold(q: Queues, steps: seq<Step>, q': Queues, w: Watcher, dummy: Watcher)
    requires Runs(q, steps, q') && Alone(q, w) && ClearsTo(steps, dummy) && w != dummy
    ensures Told(Noted(q, w), steps, w) && Alone(q', w) && Noted(q', w) == Collected(Noted(q, w), steps, w)
    decreases |steps|
  {
    if steps != [] {
      var s, rest := steps[0], steps[1..];
      StepNotes(q, s, w);
      CallbacksAreTold(After(q, s), rest, q', w, dummy);
      hide Runs, Legal, After, Alone, Noted;
      ToldFirst(Noted(q, w), steps, w);
    }
  }

  lemma ToldFirst(first: set<Event>, steps: seq<Step>, w: Watcher)
    requires steps != [] && (steps[0].Invoke? && steps[0].slot.w == w ==> steps[0].slot.events == first)
    requires Told(Collects(first, steps[0], w), steps[1..], w)
    ensures Told(first, steps, w)
  {
    forall i | 0 <= i < |steps| && steps[i].Invoke? && steps[i].slot.w == w
      ensures steps[i].slot.events == Collected(first, steps[..i], w)
    {
      if i > 0 {
        assert steps[1..][i - 1] == steps[i];
        assert steps[..i][1..] == steps[1..][..i - 1];
      }
    }
  }

  // ----- The order of an undisturbed run -----

  ghost function Newest(q: seq<AnPending>, p: nat): seq<Step> {
    if q == [] then [] else [Invoke(p, q[|q| - 1])] + Newest(q[..|q| - 1], p)
  }

  /** Queue n - 1 newest first, then the lower ones. */
  ghost function Drained(q: Queues, n: nat): seq<Step>
    requires n <= |q|
  {
    if n == 0 then [] else Newest(q[n - 1], n - 1) + Drained(q, n - 1)
  }

  lemma {:induction false} NothingToDrain(q: Queues, n: nat)
    requires n <= |q| && EmptyFrom(q, 0)
    ensures Drained(q, n) == []
  {
    if n > 0 { NothingToDrain(q, n - 1); }
  }

  lemma {:induction false} DrainsBelow(q: Queues, r: Queues, n: nat)
    requires n <= |q| == |r| && q[..n] == r[..n]
    ensures Drained(q, n) == Drained(r, n)
  {
    if n > 0 {
      assert q[n - 1] == q[..n][n - 1] == r[..n][n - 1] == r[n - 1];
      assert q[..n - 1] == q[..n][..n - 1] == r[..n][..n - 1] == r[..n - 1];
      DrainsBelow(q, r, n - 1);
    }
  }

  lemma {:induction false} DrainsHighest(q: Queues, p: nat, n: nat)
    requires p < n <= |q| && q[p] != [] && EmptyFrom(q, p + 1)
    ensures Legal(q, Invoke(p, q[p][|q[p]| - 1]))
    ensures Drained(q, n) == [Invoke(p, q[p][|q[p]| - 1])] + Drained(After(q, Invoke(p, q[p][|q[p]| - 1])), n)
    decreases n
  {
    var s := Invoke(p, q[p][|q[p]| - 1]);
    var r := After(q, s);
    if n == p + 1 {
      DrainsBelow(q, r, p);
      assert Drained(q, n) == [s] + (Newest(r[p], p) + Drained(r, p));
    } else {
      DrainsHighest(q, p, n - 1);
      assert q[n - 1] == [] && r[n - 1] == [];
    }
  }

  /**
    If no callback feeds, clears or re-enters, invoking until every queue is empty runs
    exactly what was queued, highest priority first and newest first within a priority.
   */
  lemma {:induction false} InertRunDrains(q: Queues, steps: seq<Step>, q': Queues)
    requires Runs(q, steps, q') && Inert(steps) && EmptyFrom(q', 0)
    ensures steps == Drained(q, |q|)
    decreases |steps|
  {
    if steps == [] {
      NothingToDrain(q, |q|);
    } else {
      assert steps[0].Invoke?;
      assert Inert(steps[1..]) by {
        forall i | 0 <= i < |steps[1..]| ensures steps[1..][i].Invoke? { assert steps[1..][i] == steps[i + 1]; }
      }
      InertRunDrains(After(q, steps[0]), steps[1..], q');
      DrainsHighest(q, steps[0].pri, |q|);
    }
  }

  /** The slots invoked at priority p, in order. */
  ghost function InvokedAt(steps: seq<Step>, p: nat): seq<AnPending> {
    if steps == [] then []
    else (if steps[0].Invoke? && steps[0].pri == p then [steps[0].slot] else []) + InvokedAt(steps[1..], p)
  }

  ghost function Reversed(q: seq<AnPending>): seq<AnPending> {
    if q == [] then [] else [q[|q| - 1]] + Reversed(q[..|q| - 1])
  }

  lemma {:induction false} InvokedAtOf(a: seq<Step>, b: seq<Step>, p: nat)
    ensures InvokedAt(a + b, p) == InvokedAt(a, p) + InvokedAt(b, p)
    decreases |a|
  {
    if a == [] {
      assert a + b == b;
    } else {
      assert (a + b)[1..] == a[1..] + b;
      InvokedAtOf(a[1..], b, p);
    }
  }

  lemma {:induction false} InvokedNewest(q: seq<AnPending>, n: nat, p: nat)
    ensures InvokedAt(Newest(q, n), p) == if n == p then Reversed(q) else []
    decreases |q|
  {
    if q != [] {
      InvokedNewest(q[..|q| - 1], n, p);
      assert Newest(q, n)[1..] == Newest(q[..|q| - 1], n);
    }
  }

  lemma {:induction false} InvokedDrained(q: Queues, n: nat, p: nat)
    requires n <= |q|
    ensures InvokedAt(Drained(q, n), p) == if p < n then Reversed(q[p]) else []
    decreases n
  {
    if n > 0 {
      InvokedDrained(q, n - 1, p);
      InvokedNewest(q[n - 1], n - 1, p);
      InvokedAtOf(Newest(q[n - 1], n - 1), Drained(q, n - 1), p);
    }
  }

  // ----- The reverse feed of timers_reify -----

  /** What feeding `s` from the back appends to the queue of priority p. */
  ghost function Backwards(s: seq<Watcher>, p: nat, revents: set<Event>): seq<AnPending> {
    if s == [] then []
    else Backwards(s[1..], p, revents) + if s[0].priority == p then [AnPending(s[0], revents)] else []
  }

  /** The members of `s` with priority p, first one first. */
  ghost function Forwards(s: seq<Watcher>, p: nat, revents: set<Event>): seq<AnPending> {
    if s == [] then []
    else (if s[0].priority == p then [AnPending(s[0], revents)] else []) + Forwards(s[1..], p, revents)
  }

  ghost predicate FedBackwards(base: Queues, q: Queues, s: seq<Watcher>, revents: set<Event>) {
    |q| == |base| && forall p | 0 <= p < |q| :: q[p] == base[p] + Backwards(s, p, revents)
  }

  lemma NothingFed(base: Queues, revents: set<Event>)
    ensures FedBackwards(base, base, [], revents)
  {
  }

  lemma FeedsBackwards(base: Queues, q: Queues, all: seq<Watcher>, k: nat, revents: set<Event>)
    requires k < |all| && FedBackwards(base, q, all[k + 1..], revents) && all[k].priority < |q|
    ensures FedBackwards(base, Fed(q, all[k].priority, 0, all[k], revents), all[k..], revents)
  {
    assert all[k..][1..] == all[k + 1..];
  }

  lemma {:induction false} ReversedOf(a: seq<AnPending>, b: seq<AnPending>)
    ensures Reversed(a + b) == Reversed(b) + Reversed(a)
    decreases |b|
  {
    if b == [] {
      assert a + b == a;
    } else {
      assert (a + b)[..|a + b| - 1] == a + b[..|b| - 1];
      ReversedOf(a, b[..|b| - 1]);
    }
  }

  lemma {:induction false} BackwardsReversed(s: seq<Watcher>, p: nat, revents: set<Event>)
    ensures Reversed(Backwards(s, p, revents)) == Forwards(s, p, revents)
    decreases |s|
  {
    if s != [] {
      BackwardsReversed(s[1..], p, revents);
      var last := if s[0].priority == p then [AnPending(s[0], revents)] else [];
      ReversedOf(Backwards(s[1..], p, revents), last);
      assert Reversed(last) == last;
    }
  }

  /**
    The double reversal of timers_reify and ev_invoke_pending: watchers fed from the
    back are invoked from the front, each once, before whatever was queued earlier at
    their priority.
   */
  lemma FedBackwardsRunsForwards(base: Queues, q: Queues, s: seq<Watcher>, revents: set<Event>, steps: seq<Step>,
                                 q': Queues, p: nat)
    requires FedBackwards(base, q, s, revents) && p < |q|
    requires Runs(q, steps, q') && Inert(steps) && EmptyFrom(q', 0)
    ensures InvokedAt(steps, p) == Forwards(s, p, revents) + Reversed(base[p])
  {
    InertRunDrains(q, steps, q');
    InvokedDrained(q, |q|, p);
    ReversedOf(base[p], Backwards(s, p, revents));
    BackwardsReversed(s, p, revents);
  }

  // ----- Order of expiry -----

  /** The timers taken so far are due, distinct, in order of expiry, and before everything still to be taken. */
  ghost predicate TakenInOrder(taken: seq<Watcher>, at0: map<Watcher, int>, now: int) {
    && NoDup(taken)
    && (forall i | 0 <= i < |taken| :: taken[i] in at0 && at0[taken[i]] < now)
    && (forall i, j | 0 <= i < j < |taken| :: at0[taken[i]] <= at0[taken[j]])
    && (forall i, t | 0 <= i < |taken| && t in at0 && t !in taken :: at0[taken[i]] <= at0[t])
  }

  lemma {:induction false} ForwardsFrom(s: seq<Watcher>, p: nat, revents: set<Event>, i: nat)
    requires i < |Forwards(s, p, revents)|
    ensures Forwards(s, p, revents)[i].w in s
    decreases |s|
  {
    var here := s[0].priority == p;
    if !(here && i == 0) {
      ForwardsFrom(s[1..], p, revents, if here then i - 1 else i);
    }
  }

  lemma {:induction false} ForwardsInOrder(s: seq<Watcher>, p: nat, revents: set<Event>, at0: map<Watcher, int>, i: nat,
                                           j: nat)
    requires forall k | 0 <= k < |s| :: s[k] in at0
    requires forall k, l | 0 <= k < l < |s| :: at0[s[k]] <= at0[s[l]]
    requires i < j < |Forwards(s, p, revents)|
    ensures var f := Forwards(s, p, revents); f[i].w in at0 && f[j].w in at0 && at0[f[i].w] <= at0[f[j].w]
    decreases |s|
  {
    var here := s[0].priority == p;
    ForwardsFrom(s, p, revents, j);
    if here && i == 0 {
      assert Forwards(s, p, revents)[i].w == s[0];
    } else {
      var rest := Forwards(s[1..], p, revents);
      ForwardsInOrder(s[1..], p, revents, at0, if here then i - 1 else i, if here then j - 1 else j);
    }
  }

  /** At each priority the members of `fed` run in nondecreasing order of expiry, then what was queued before. */
  ghost predicate InvokedInOrder(base: Queues, fed: seq<Watcher>, at0: map<Watcher, int>, steps: seq<Step>) {
    forall p | 0 <= p < |base| :: InvokedAt(steps, p) == Forwards(fed, p, {TIMER}) + Reversed(base[p])
                                  && NondecreasingExpiry(Forwards(fed, p, {TIMER}), at0)
  }

  ghost predicate NondecreasingExpiry(s: seq<AnPending>, at0: map<Watcher, int>) {
    && (forall i | 0 <= i < |s| :: s[i].w in at0)
    && (forall i, j | 0 <= i < j < |s| :: at0[s[i].w] <= at0[s[j].w])
  }

  /**
    After timers_reify has fed the due timers, none of which was pending, an undisturbed
    ev_invoke_pending runs those of equal priority in nondecreasing order of expiry.
   */
  lemma TimersRunInOrderOfExpiry(base: Queues, q: Queues, fed: seq<Watcher>, at0: map<Watcher, int>, now: int,
                                 steps: seq<Step>, q': Queues)
    requires FedBackwards(base, q, fed, {TIMER}) && TakenInOrder(fed, at0, now)
    requires Runs(q, steps, q') && Inert(steps) && EmptyFrom(q', 0)
    ensures InvokedInOrder(base, fed, at0, steps)
  {
    forall p | 0 <= p < |base|
      ensures InvokedAt(steps, p) == Forwards(fed, p, {TIMER}) + Reversed(base[p])
      ensures NondecreasingExpiry(Forwards(fed, p, {TIMER}), at0)
    {
      FedBackwardsRunsForwards(base, q, fed, {TIMER}, steps, q', p);
      var f := Forwards(fed, p, {TIMER});
      forall i | 0 <= i < |f| ensures f[i].w in at0 { ForwardsFrom(fed, p, {TIMER}, i); }
      forall i, j | 0 <= i < j < |f|
        ensures at0[f[i].w] <= at0[f[j].w]
      {
        ForwardsInOrder(fed, p, {TIMER}, at0, i, j);
      }
    }
  }
}
