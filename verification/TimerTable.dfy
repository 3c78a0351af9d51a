/**
  The heap of timers as a plain table: over any sequence of timer operations, the loop's
  active timers and all expiry times are what the operations make of the table.
 */
module TimerTable {
  import opened EventLoop
  import opened Pending
  import opened Sequences
  import opened TimerHeap

  /** When it is, which timers are active, and each watcher's `at` and `repeat`. */
  datatype Table = Table(now: int, running: set<Watcher>, at: map<Watcher, int>, repeat: map<Watcher, int>) {
    ghost predicate Ok() {
      running <= at.Keys == repeat.Keys
    }
  }

  datatype Operation =
    | Set(w: Watcher, after: int, repeat: int)   // ev_timer_set, for inactive watchers
    | Start(w: Watcher)
    | Stop(w: Watcher)
    | Again(w: Watcher)
    | Expire(now: int)                           // time_update and timers_reify
    | Shift(adjust: int)                         // timers_reschedule
    | InvokeAll(scripts: seq<Script>)            // ev_invoke_pending

  ghost predicate OperationOn(op: Operation, known: set<Watcher>) {
    match op
    case Set(w, _, repeat) => w in known && repeat >= 0
    case Start(w) => w in known
    case Stop(w) => w in known
    case Again(w) => w in known
    case Expire(_) => true
    case Shift(_) => true
    case InvokeAll(scripts) => ScriptsOk(scripts, known)
  }

  ghost predicate OperationsOn(ops: seq<Operation>, known: set<Watcher>) {
    forall i | 0 <= i < |ops| :: OperationOn(ops[i], known)
  }

  ghost predicate Due(t: Table, w: Watcher, now: int)
    requires t.Ok()
  {
    w in t.running && t.at[w] < now
  }

  /** A repeating timer that is due gets its next time, but not one in the past; any other keeps what was left. */
  ghost function AtAfter(t: Table, w: Watcher, now: int): int
    requires t.Ok() && w in t.at
  {
    if !Due(t, w, now) then t.at[w]
    else if t.repeat[w] == 0 then t.at[w] - now
    else if t.at[w] + t.repeat[w] < now then now
    else t.at[w] + t.repeat[w]
  }

  ghost function Stopped(t: Table, w: Watcher): (t': Table)
    requires t.Ok() && w in t.at
    ensures t'.Ok() && t'.at.Keys == t.at.Keys
  {
    if w in t.running then t.(running := t.running - {w}, at := t.at[w := t.at[w] - t.now]) else t
  }

  /** What an operation makes of the table. */
  ghost function With(t: Table, op: Operation): (t': Table)
    requires t.Ok() && OperationOn(op, t.at.Keys)
    ensures t'.Ok() && t'.at.Keys == t.at.Keys
  {
    match op
    case Set(w, after, repeat) =>
      if w in t.running then t else t.(at := t.at[w := after], repeat := t.repeat[w := repeat])
    case Start(w) =>
      if w in t.running then t else t.(running := t.running + {w}, at := t.at[w := t.at[w] + t.now])
    case Stop(w) => Stopped(t, w)
    case Again(w) =>
      if t.repeat[w] == 0 then Stopped(t, w)
      else t.(running := t.running + {w}, at := t.at[w := t.now + t.repeat[w]])
    case Expire(now) =>
      t.(now := now,
         running := (set w | w in t.running && !(Due(t, w, now) && t.repeat[w] == 0)),
         at := map w | w in t.at :: AtAfter(t, w, now))
    case Shift(adjust) => t.(at := map w | w in t.at :: if w in t.running then t.at[w] + adjust else t.at[w])
    case InvokeAll(_) => t
  }

  /** After timers_reify no active timer is due, and only timers that were due have a new time. */
  lemma NoneDue(t: Table, now: int)
    requires t.Ok()
    ensures forall w | w in With(t, Expire(now)).running :: With(t, Expire(now)).at[w] >= now
    ensures forall w | w in t.at && !Due(t, w, now) :: With(t, Expire(now)).at[w] == t.at[w]
  {
  }

  ghost function After(t: Table, ops: seq<Operation>): (t': Table)
    requires t.Ok() && OperationsOn(ops, t.at.Keys)
    ensures t'.Ok() && t'.at.Keys == t.at.Keys
    decreases |ops|
  {
    if ops == [] then t
    else
      assert OperationOn(ops[|ops| - 1], t.at.Keys);
      With(After(t, ops[..|ops| - 1]), ops[|ops| - 1])
  }

  ghost function View(loop: Loop): Table
    reads loop, loop.known`at, loop.known`repeat
  {
    Table(loop.mnNow, loop.running, map w | w in loop.known :: w.at, map w | w in loop.known :: w.repeat)
  }

  /** Between two operations. */
  ghost predicate Ready(loop: Loop)
    reads loop, loop.timers, loop.known
  {
    loop.Valid() && loop.rfeeds == [] && forall w | w in loop.known :: w.repeat >= 0
  }

  /** The table agrees with the watchers. */
  ghost predicate Agrees(loop: Loop, t: Table)
    reads loop`known, loop.known`at, loop.known`repeat
  {
    && t.Ok() && t.at.Keys == loop.known
    && forall w | w in loop.known :: t.at[w] == w.at && t.repeat[w] == w.repeat
  }

  lemma ViewAgrees(loop: Loop)
    requires Ready(loop)
    ensures Agrees(loop, View(loop)) && View(loop).running == loop.running && View(loop).now == loop.mnNow
    ensures loop.Valid() && loop.rfeeds == [] && loop.running <= loop.known
    ensures forall w | w in loop.known :: w.repeat >= 0 && (w.active != 0 <==> w in loop.running)
  {
  }

  lemma IsReady(loop: Loop)
    requires loop.Valid() && loop.rfeeds == [] && forall w | w in loop.known :: w.repeat >= 0
    ensures Ready(loop)
  {
  }

  lemma Shows(loop: Loop, t: Table)
    requires Agrees(loop, t) && t.now == loop.mnNow && t.running == loop.running
    ensures View(loop) == t
  {
    assert t.at == map w | w in loop.known :: w.at;
    assert t.repeat == map w | w in loop.known :: w.repeat;
  }

  /** One watcher has new times. */
  ghost predicate OneSet(t: Table, t': Table, w: Watcher, at: int, repeat: int) {
    && t.Ok() && t'.Ok() && t'.at.Keys == t.at.Keys && t'.now == t.now && w in t.at
    && t'.at[w] == at && t'.repeat[w] == repeat
    && forall v | v in t.at && v != w :: t'.at[v] == t.at[v] && t'.repeat[v] == t.repeat[v]
  }

  lemma StillAgrees(loop: Loop, t: Table, t': Table, w: Watcher)
    requires OneSet(t, t', w, w.at, w.repeat) && t.at.Keys == loop.known
    requires forall v | v in loop.known && v != w :: t.at[v] == v.at && t.repeat[v] == v.repeat
    ensures Agrees(loop, t')
  {
  }

  lemma OthersAgree(loop: Loop, t: Table, w: Watcher)
    requires Agrees(loop, t)
    ensures t.at.Keys == loop.known
    ensures forall v | v in loop.known && v != w :: t.at[v] == v.at && t.repeat[v] == v.repeat
  {
  }

  lemma SetTable(t: Table, w: Watcher, after: int, repeat: int) returns (t': Table)
    requires t.Ok() && w in t.at && repeat >= 0
    ensures t' == With(t, Set(w, after, repeat)) && t'.running == t.running && t'.now == t.now
    ensures w in t.running ==> t' == t
    ensures w !in t.running ==> OneSet(t, t', w, after, repeat)
  {
    t' := With(t, Set(w, after, repeat));
  }

  lemma StartTable(t: Table, w: Watcher) returns (t': Table, at: int)
    requires t.Ok() && w in t.at
    ensures t' == With(t, Start(w)) && t'.running == t.running + {w} && t'.now == t.now
    ensures at == (if w in t.running then t.at[w] else t.at[w] + t.now) && OneSet(t, t', w, at, t.repeat[w])
  {
    t' := With(t, Start(w));
    at := t'.at[w];
  }

  lemma StopTable(t: Table, w: Watcher) returns (t': Table, at: int)
    requires t.Ok() && w in t.at
    ensures t' == With(t, Stop(w)) && t'.running == t.running - {w} && t'.now == t.now
    ensures at == (if w in t.running then t.at[w] - t.now else t.at[w]) && OneSet(t, t', w, at, t.repeat[w])
  {
    t' := With(t, Stop(w));
    at := t'.at[w];
  }

  lemma AgainTable(t: Table, w: Watcher) returns (t': Table, at: int)
    requires t.Ok() && w in t.at
    ensures t' == With(t, Again(w)) && t'.now == t.now
    ensures t'.running == if t.repeat[w] != 0 then t.running + {w} else t.running - {w}
    ensures at == if t.repeat[w] != 0 then t.now + t.repeat[w] else if w in t.running then t.at[w] - t.now else t.at[w]
    ensures OneSet(t, t', w, at, t.repeat[w])
  {
    t' := With(t, Again(w));
    at := t'.at[w];
  }

  /** Setting the times of an inactive watcher does not touch the heap. */
  method DoSet(loop: Loop, w: Watcher, after: int, repeat: int)
    requires Ready(loop) && w in loop.known && repeat >= 0
    modifies {w}`at, {w}`repeat
    ensures Ready(loop) && View(loop) == With(old(View(loop)), Set(w, after, repeat))
  {
    ViewAgrees(loop);
    ghost var t := View(loop);
    OthersAgree(loop, t, w);
    ghost var t' := SetTable(t, w, after, repeat);
    hide *;
    if w.active == 0 {
      loop.TimerSet(w, after, repeat);
      StillAgrees(loop, t, t', w);
      Shows(loop, t');
      IsReady(loop);
    }
  }

  lemma TimesOf(loop: Loop, t: Table, w: Watcher)
    requires Agrees(loop, t) && w in loop.known
    ensures t.Ok() && w in t.at && t.at[w] == w.at && t.repeat[w] == w.repeat
  {
  }

  method DoStart(loop: Loop, w: Watcher)
    requires Ready(loop) && w in loop.known
    modifies loop`timers, loop`timercnt, loop`running, loop`activecnt, loop.timers, loop.known`active, {w}`at
    ensures Ready(loop) && View(loop) == With(old(View(loop)), Start(w))
    ensures loop.timers == old(loop.timers) || fresh(loop.timers)
  {
    ViewAgrees(loop);
    ghost var t := View(loop);
    hide *;
    ghost var t' := StartTimer(loop, w, t);
    Shows(loop, t');
    IsReady(loop);
  }

  method StartTimer(loop: Loop, w: Watcher, ghost t: Table) returns (ghost t': Table)
    requires loop.Valid() && w in loop.known && w.repeat >= 0 && (w.active != 0 <==> w in loop.running)
    requires Agrees(loop, t) && t.running == loop.running && t.now == loop.mnNow
    modifies loop`timers, loop`timercnt, loop`running, loop`activecnt, loop.timers, loop.known`active, {w}`at
    ensures loop.Valid() && t.Ok() && w in t.at && t' == With(t, Start(w))
    ensures Agrees(loop, t') && t'.running == loop.running && t'.now == loop.mnNow
    ensures loop.timers == old(loop.timers) || fresh(loop.timers)
  {
    OthersAgree(loop, t, w);
    TimesOf(loop, t, w);
    ghost var at;
    t', at := StartTable(t, w);
    hide *;
    loop.TimerStart(w);
    assert w.at == at;
    StillAgrees(loop, t, t', w);
  }

  method DoStop(loop: Loop, w: Watcher)
    requires Ready(loop) && w in loop.known
    modifies loop`timercnt, loop`running, loop`activecnt, loop`pendings, loop.timers, loop.known`active, {w}`at,
      {w}`pending
    ensures Ready(loop) && View(loop) == With(old(View(loop)), Stop(w))
  {
    ViewAgrees(loop);
    ghost var t := View(loop);
    hide *;
    ghost var t' := StopTimer(loop, w, t);
    Shows(loop, t');
    IsReady(loop);
  }

  method StopTimer(loop: Loop, w: Watcher, ghost t: Table) returns (ghost t': Table)
    requires loop.Valid() && w in loop.known && w.repeat >= 0 && (w.active != 0 <==> w in loop.running)
    requires Agrees(loop, t) && t.running == loop.running && t.now == loop.mnNow
    modifies loop`timercnt, loop`running, loop`activecnt, loop`pendings, loop.timers, loop.known`active, {w}`at,
      {w}`pending
    ensures loop.Valid() && t.Ok() && w in t.at && t' == With(t, Stop(w))
    ensures Agrees(loop, t') && t'.running == loop.running && t'.now == loop.mnNow
  {
    OthersAgree(loop, t, w);
    TimesOf(loop, t, w);
    ghost var at;
    t', at := StopTable(t, w);
    hide *;
    loop.TimerStop(w);
    assert w.at == at;
    StillAgrees(loop, t, t', w);
  }

  method DoAgain(loop: Loop, w: Watcher)
    requires Ready(loop) && w in loop.known
    modifies loop`timers, loop`timercnt, loop`running, loop`activecnt, loop`pendings, loop.timers, loop.known`active,
      {w}`at, {w}`pending
    ensures Ready(loop) && View(loop) == With(old(View(loop)), Again(w))
    ensures loop.timers == old(loop.timers) || fresh(loop.timers)
  {
    ViewAgrees(loop);
    ghost var t := View(loop);
    hide *;
    ghost var t' := AgainTimer(loop, w, t);
    Shows(loop, t');
    IsReady(loop);
  }

  method AgainTimer(loop: Loop, w: Watcher, ghost t: Table) returns (ghost t': Table)
    requires loop.Valid() && w in loop.known && w.repeat >= 0 && (w.active != 0 <==> w in loop.running)
    requires Agrees(loop, t) && t.running == loop.running && t.now == loop.mnNow
    modifies loop`timers, loop`timercnt, loop`running, loop`activecnt, loop`pendings, loop.timers, loop.known`active,
      {w}`at, {w}`pending
    ensures loop.Valid() && t.Ok() && w in t.at && t' == With(t, Again(w))
    ensures Agrees(loop, t') && t'.running == loop.running && t'.now == loop.mnNow
    ensures loop.timers == old(loop.timers) || fresh(loop.timers)
  {
    OthersAgree(loop, t, w);
    TimesOf(loop, t, w);
    ghost var at;
    t', at := AgainTable(t, w);
    hide *;
    AgainAt(loop, w, at, t, t');
  }

  method AgainAt(loop: Loop, w: Watcher, ghost at: int, ghost t: Table, ghost t': Table)
    requires loop.Valid() && w in loop.known && w.repeat >= 0 && t'.now == loop.mnNow
    requires t'.running == if w.repeat != 0 then loop.running + {w} else loop.running - {w}
    requires at == if w.repeat != 0 then loop.mnNow + w.repeat else if w.active != 0 then w.at - loop.mnNow else w.at
    requires OneSet(t, t', w, at, w.repeat) && t.at.Keys == loop.known
    requires forall v | v in loop.known && v != w :: t.at[v] == v.at && t.repeat[v] == v.repeat
    modifies loop`timers, loop`timercnt, loop`running, loop`activecnt, loop`pendings, loop.timers, loop.known`active,
      {w}`at, {w}`pending
    ensures loop.Valid() && Agrees(loop, t') && t'.running == loop.running && t'.now == loop.mnNow
    ensures loop.timers == old(loop.timers) || fresh(loop.timers)
  {
    hide *;
    loop.TimerAgain(w);
    StillAgrees(loop, t, t', w);
  }

  method DoExpire(loop: Loop, now: int)
    requires Ready(loop)
    modifies loop`mnNow, loop`timercnt, loop`running, loop`activecnt, loop`pendings, loop`pendingpri, loop`rfeeds,
      loop.timers, loop.known`active, loop.known`at, loop.known`pending
    ensures Ready(loop) && View(loop) == With(old(View(loop)), Expire(now))
    ensures forall w | w in loop.running :: w.at >= now
  {
    ViewAgrees(loop);
    ghost var t := View(loop);
    hide *;
    loop.TimeUpdate(now);
    ghost var t' := ExpireAll(loop, t, now);
    Shows(loop, t');
    IsReady(loop);
  }

  method ExpireAll(loop: Loop, ghost t: Table, now: int) returns (ghost t': Table)
    requires loop.Valid() && loop.rfeeds == [] && loop.mnNow == now && loop.running <= loop.known
    requires Agrees(loop, t) && t.running == loop.running && forall w | w in loop.known :: w.repeat >= 0
    modifies loop`timercnt, loop`running, loop`activecnt, loop`pendings, loop`pendingpri, loop`rfeeds,
      loop.timers, loop.known`active, loop.known`at, loop.known`pending
    ensures loop.Valid() && loop.rfeeds == [] && t.Ok() && t' == With(t, Expire(now))
    ensures Agrees(loop, t') && t'.running == loop.running && t'.now == now
    ensures forall w | w in loop.running :: w.at >= now
  {
    AllTimes(loop, t);
    t' := With(t, Expire(now));
    hide *;
    ghost var fed, at0;
    fed, at0 := Reify(loop, t);
    Expiry(loop, t, fed, at0, now);
  }

  method Reify(loop: Loop, ghost t: Table) returns (ghost fed: seq<Watcher>, ghost at0: map<Watcher, int>)
    requires loop.Valid() && loop.rfeeds == [] && loop.running <= loop.known
    requires t.Ok() && t.at.Keys == loop.known && t.running == loop.running
    requires forall w | w in loop.known :: t.at[w] == w.at && t.repeat[w] == w.repeat >= 0
    modifies loop`timercnt, loop`running, loop`activecnt, loop`pendings, loop`pendingpri, loop`rfeeds,
      loop.timers, loop.known`active, loop.known`at, loop.known`pending
    ensures loop.Valid() && loop.rfeeds == [] && loop.Expired(fed, at0)
    ensures at0.Keys == t.running && forall w | w in at0 :: at0[w] == t.at[w]
    ensures forall w | w in loop.known :: t.repeat[w] == w.repeat && (w !in t.running ==> t.at[w] == w.at)
    ensures forall w | w in loop.running :: w.at >= loop.mnNow
  {
    hide *;
    fed, at0 := loop.TimersReify();
  }

  lemma AllTimes(loop: Loop, t: Table)
    requires Agrees(loop, t)
    ensures t.Ok() && t.at.Keys == loop.known
    ensures forall w | w in loop.known :: t.at[w] == w.at && t.repeat[w] == w.repeat
  {
  }

  /** What timers_reify has done to each timer. */
  lemma Expiry(loop: Loop, t: Table, fed: seq<Watcher>, at0: map<Watcher, int>, now: int)
    requires t.Ok() && t.at.Keys == loop.known && loop.Expired(fed, at0) && loop.mnNow == now
    requires at0.Keys == t.running && forall w | w in at0 :: at0[w] == t.at[w]
    requires forall w | w in loop.known :: t.repeat[w] == w.repeat && (w !in t.running ==> t.at[w] == w.at)
    ensures Agrees(loop, With(t, Expire(now))) && With(t, Expire(now)).running == loop.running
    ensures With(t, Expire(now)).now == now
  {
    var t' := With(t, Expire(now));
    hide TakenInOrder;
    forall w | w in loop.known
      ensures t'.at[w] == w.at && t'.repeat[w] == w.repeat && (w in t'.running <==> w in loop.running)
    {
      assert w in fed ==> loop.Settled(w, at0[w]);
    }
  }

  method DoShift(loop: Loop, adjust: int)
    requires Ready(loop)
    modifies loop.timers, loop.known`at
    ensures Ready(loop) && View(loop) == With(old(View(loop)), Shift(adjust))
  {
    ViewAgrees(loop);
    ghost var t, t' := View(loop), With(View(loop), Shift(adjust));
    AllTimes(loop, t);
    hide View, Loop.Valid, Ready;
    loop.TimersReschedule(adjust);
    Shows(loop, t');
    IsReady(loop);
  }

  method DoInvoke(loop: Loop, scripts: seq<Script>)
    requires Ready(loop) && ScriptsOk(scripts, loop.known)
    modifies loop`pendings, loop`pendingpri, loop.known`pending, {loop.pendingW}`pending
    ensures Ready(loop) && View(loop) == old(View(loop))
    ensures EmptyFrom(loop.pendings, 0) && forall w | w in loop.known :: w.pending == 0
  {
    hide Loop.HeapOk, Loop.QueuesOk, Loop.WatchersOk, ScriptsOk, Runs, Inert, Consumed;
    var rest;
    ghost var steps, calls;
    rest, steps, calls := loop.InvokePending(scripts);
  }

  /** One operation. */
  method Perform(loop: Loop, op: Operation)
    requires Ready(loop) && OperationOn(op, loop.known)
    modifies loop, loop.timers, loop.known, {loop.pendingW}`pending
    ensures Ready(loop) && loop.known == old(loop.known) && (loop.timers == old(loop.timers) || fresh(loop.timers))
    ensures OperationOn(op, old(View(loop)).at.Keys) && old(View(loop)).Ok() && View(loop) == With(old(View(loop)), op)
    ensures op.Expire? ==> forall w | w in loop.running :: w.at >= op.now
    ensures op.InvokeAll? ==> EmptyFrom(loop.pendings, 0) && forall w | w in loop.known :: w.pending == 0
  {
    ViewAgrees(loop);
    Known(loop);
    hide Ready, View, With;
    match op {
      case Set(w, after, repeat) => DoSet(loop, w, after, repeat);
      case Start(w) => DoStart(loop, w);
      case Stop(w) => DoStop(loop, w);
      case Again(w) => DoAgain(loop, w);
      case Expire(now) => DoExpire(loop, now);
      case Shift(adjust) => DoShift(loop, adjust);
      case InvokeAll(scripts) =>
        InvokeTable(View(loop), scripts);
        DoInvoke(loop, scripts);
    }
  }

  lemma Known(loop: Loop)
    requires Ready(loop)
    ensures View(loop).Ok() && View(loop).at.Keys == loop.known
  {
  }

  lemma InvokeTable(t: Table, scripts: seq<Script>)
    requires t.Ok() && ScriptsOk(scripts, t.at.Keys)
    ensures With(t, InvokeAll(scripts)) == t
  {
  }

  /**
    Any sequence of timer operations: the heap stays in order and holds exactly the
    active timers, and these, with all expiry times, are what the operations make of the
    table.
   */
  method Run(loop: Loop, ops: seq<Operation>)
    requires Ready(loop) && OperationsOn(ops, loop.known)
    modifies loop, loop.timers, loop.known, {loop.pendingW}`pending
    ensures Ready(loop) && loop.known == old(loop.known) && (loop.timers == old(loop.timers) || fresh(loop.timers))
    ensures old(View(loop)).Ok() && OperationsOn(ops, old(View(loop)).at.Keys)
    ensures View(loop) == After(old(View(loop)), ops)
  {
    Known(loop);
    ghost var t := View(loop);
    NothingDone(t, ops);
    hide Ready, View, With, After, OperationOn;
    for i := 0 to |ops|
      invariant Ready(loop) && loop.known == old(loop.known) && (loop.timers == old(loop.timers) || fresh(loop.timers))
      invariant Done(t, ops, i, View(loop))
    {
      ghost var before := View(loop);
      Perform(loop, ops[i]);
      OneMoreDone(t, ops, i, before, View(loop));
    }
    AllDone(t, ops, View(loop));
  }

  ghost predicate Done(t: Table, ops: seq<Operation>, i: nat, now: Table) {
    t.Ok() && i <= |ops| && OperationsOn(ops[..i], t.at.Keys) && now == After(t, ops[..i])
  }

  lemma NothingDone(t: Table, ops: seq<Operation>)
    requires t.Ok()
    ensures Done(t, ops, 0, t)
  {
  }

  lemma OneMoreDone(t: Table, ops: seq<Operation>, i: nat, now: Table, next: Table)
    requires i < |ops| && Done(t, ops, i, now) && OperationOn(ops[i], t.at.Keys)
    requires now.Ok() && OperationOn(ops[i], now.at.Keys) && next == With(now, ops[i])
    ensures Done(t, ops, i + 1, next)
  {
    var more := ops[..i + 1];
    assert more[..i] == ops[..i] && more[i] == ops[i];
    hide With, OperationOn;
    forall j | 0 <= j < |more|
      ensures OperationOn(more[j], t.at.Keys)
    {
      assert j < i ==> more[j] == ops[..i][j];
    }
  }

  lemma AllDone(t: Table, ops: seq<Operation>, now: Table)
    requires Done(t, ops, |ops|, now)
    ensures t.Ok() && OperationsOn(ops, t.at.Keys) && now == After(t, ops)
  {
    assert ops[..|ops|] == ops;
  }

  /** A new loop with these watchers, none of them active. */
  method NewLoop(numpri: nat, watchers: seq<Watcher>) returns (loop: Loop)
    requires numpri > 0 && NoDup(watchers)
    requires forall i | 0 <= i < |watchers| ::
      && watchers[i].priority < numpri && watchers[i].active == 0 && watchers[i].pending == 0 && watchers[i].repeat >= 0
    ensures Ready(loop) && loop.running == {} && loop.known == Elements(watchers)
    ensures fresh(loop) && fresh(loop.timers) && fresh(loop.pendingW)
  {
    loop := new Loop(numpri);
    assert watchers[..0] == [];
    hide Loop.Valid, NoDup;
    for i := 0 to |watchers|
      invariant loop.Valid() && loop.rfeeds == [] && loop.running == {} && loop.known == Elements(watchers[..i])
      invariant loop.numpri == numpri && fresh(loop.timers) && fresh(loop.pendingW)
    {
      NextElement(watchers, i);
      loop.Initialise(watchers[i]);
    }
    assert watchers[..|watchers|] == watchers;
  }

  lemma NextElement(watchers: seq<Watcher>, i: nat)
    requires NoDup(watchers) && i < |watchers|
    ensures watchers[i] !in Elements(watchers[..i])
    ensures Elements(watchers[..i + 1]) == Elements(watchers[..i]) + {watchers[i]}
  {
    assert watchers[..i + 1] == watchers[..i] + [watchers[i]];
  }

  /** From the beginning. */
  method RunFromNew(numpri: nat, watchers: seq<Watcher>, ops: seq<Operation>) returns (loop: Loop, ghost t: Table)
    requires numpri > 0 && NoDup(watchers) && OperationsOn(ops, Elements(watchers))
    requires forall i | 0 <= i < |watchers| ::
      && watchers[i].priority < numpri && watchers[i].active == 0 && watchers[i].pending == 0 && watchers[i].repeat >= 0
    modifies Elements(watchers)
    ensures Ready(loop) && t.Ok() && t.at.Keys == Elements(watchers) && t.running == {}
    ensures OperationsOn(ops, t.at.Keys) && View(loop) == After(t, ops)
  {
    hide Ready, View, After, OperationsOn, NoDup;
    loop := NewLoop(numpri, watchers);
    t := View(loop);
    ViewAgrees(loop);
    Known(loop);
    Run(loop, ops);
  }
}
