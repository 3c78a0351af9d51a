/**
  The wake-up protocol between any number of senders (signal handlers, other
  threads calling ev_async_send) and the event loop, over total-store-order memory:
  every thread has a FIFO store buffer, a full fence waits until the thread's own
  buffer is empty, and buffers drain at arbitrary moments.  A system call (write,
  read, poll) starts with the caller's buffer empty.  Acquire and release fences
  order nothing further on such a machine.
 */
module Wakeup {

  /** What a sender notifies: an async watcher, or a signal number. */
  datatype Target = Async(id: nat) | Signal(num: nat)

  datatype Kind = KAsync | KSignal

  function KindOf(w: Target): Kind {
    if w.Async? then KAsync else KSignal
  }

  /** `async_pending` / `sig_pending`, `sent` / `signals[i].pending`, and the two pipe variables. */
  datatype Loc = Flag(k: Kind) | Mark(w: Target) | Skipped | Wanted

  datatype Store = Store(loc: Loc, val: bool)

  /** Shared memory: the set of locations that hold a nonzero value. */
  type Memory = set<Loc>

  function Write(mem: Memory, st: Store): Memory {
    if st.val then mem + {st.loc} else mem - {st.loc}
  }

  /** A load sees the thread's own youngest buffered store, else memory. */
  function Load(buf: seq<Store>, mem: Memory, loc: Loc): bool {
    if buf == [] then loc in mem
    else if buf[|buf| - 1].loc == loc then buf[|buf| - 1].val
    else Load(buf[..|buf| - 1], mem, loc)
  }

  // ----- Program counters -----

  datatype SenderPc =
    | Idle           // not in a send, or returned from it
    | Called         // entered ev_async_send / ev_feed_signal
    | Marked         // w->sent = 1 issued
    | Fenced         // first fence of evpipe_write passed
    | FlagWasClear   // *flag read as 0
    | FlagSet        // *flag = 1 issued
    | SkipSet        // pipe_write_skipped = 1 issued
    | SkipFenced     // second fence passed
    | WantSeen       // pipe_write_wanted read as 1
    | SkipCleared    // pipe_write_skipped = 0 issued, write() not done yet

  datatype Sender = Sender(pc: SenderPc, w: Target, buf: seq<Store>)

  datatype LoopPc =
    | Running                        // callbacks, loop bookkeeping
    | WantStored                     // pipe_write_wanted = 1 issued
    | WantFenced                     // the fence after it passed
    | Polling(blocking: bool)        // in backend_poll
    | Polled(readable: bool)         // backend_poll returned
    | WantCleared(readable: bool)    // pipe_write_wanted = 0 issued
    | PipeFed(readable: bool)        // pipe_w is pending, pipecb not entered
    | PipeRead                       // pipecb past its read()
    | SkipZeroed                     // pipe_write_skipped = 0 issued
    | Check(k: Kind)                 // about to test the flag of kind k
    | Seen(k: Kind)                  // flag read as nonzero
    | FlagZeroed(k: Kind)            // flag = 0 issued
    | Scan(k: Kind, rem: set<Target>)  // looking through the marks

  datatype State = State(
    mem: Memory,
    pipe: nat,
    senders: seq<Sender>,
    loop: LoopPc,
    buf: seq<Store>,
    started: set<Target>,    // started async watchers, and all signal numbers
    fed: set<Target>,        // callbacks fed and not yet run
    unserved: set<Target>    // sends entered and not yet followed by a callback
  )

  // ----- Steps -----

  datatype Step =
    | Call(i: nat, w: Target) | StoreMark(i: nat) | Fence1(i: nat) | LoadFlag(i: nat)
    | StoreFlag(i: nat) | StoreSkip(i: nat) | Fence2(i: nat) | LoadWanted(i: nat)
    | ClearSkip(i: nat) | WritePipe(i: nat, full: bool) | Drain(i: nat)
    | LoopDrain | StoreWanted | FenceWanted | TestSkip(urgent: bool) | PollReturns
    | ClearWanted | TestSkipAgain | ReadPipe(left: nat) | ZeroSkip | FenceSkip
    | TestFlag | ZeroFlag | FenceFlag | ScanOne(w: Target) | EndScan
    | Callback(w: Target) | Start(w: Target) | Stop(w: Target)

  predicate SenderAt(s: State, i: nat, pc: SenderPc) {
    i < |s.senders| && s.senders[i].pc == pc
  }

  predicate Enabled(s: State, st: Step) {
    match st
    case Call(i, _) => SenderAt(s, i, Idle)
    case StoreMark(i) => SenderAt(s, i, Called)
    case Fence1(i) => SenderAt(s, i, Marked) && s.senders[i].buf == []
    case LoadFlag(i) => SenderAt(s, i, Fenced)
    case StoreFlag(i) => SenderAt(s, i, FlagWasClear)
    case StoreSkip(i) => SenderAt(s, i, FlagSet)
    case Fence2(i) => SenderAt(s, i, SkipSet) && s.senders[i].buf == []
    case LoadWanted(i) => SenderAt(s, i, SkipFenced)
    case ClearSkip(i) => SenderAt(s, i, WantSeen)
    case WritePipe(i, full) => SenderAt(s, i, SkipCleared) && s.senders[i].buf == [] && (full ==> s.pipe > 0)
    case Drain(i) => i < |s.senders| && s.senders[i].buf != []
    case LoopDrain => s.buf != []
    case StoreWanted => s.loop == Running && s.fed == {}
    case FenceWanted => s.loop == WantStored && s.buf == []
    case TestSkip(_) => s.loop == WantFenced
    case PollReturns => s.loop.Polling?
    case ClearWanted => s.loop.Polled?
    case TestSkipAgain => s.loop.WantCleared?
    case ReadPipe(left) => s.loop.PipeFed?
      && if s.loop.readable && s.pipe > 0 then s.buf == [] && left < s.pipe else left == s.pipe
    case ZeroSkip => s.loop == PipeRead
    case FenceSkip => s.loop == SkipZeroed && s.buf == []
    case TestFlag => s.loop.Check?
    case ZeroFlag => s.loop.Seen?
    case FenceFlag => s.loop.FlagZeroed? && s.buf == []
    case ScanOne(w) => s.loop.Scan? && w in s.loop.rem
    case EndScan => s.loop.Scan? && s.loop.rem == {}
    case Callback(w) => (s.loop == Running || s.loop.PipeFed?) && w in s.fed
    case Start(w) => (s.loop == Running || s.loop.PipeFed?) && w.Async? && w !in s.started
    case Stop(w) => (s.loop == Running || s.loop.PipeFed?) && w.Async? && w in s.started
  }

  function To(s: State, i: nat, pc: SenderPc): State
    requires i < |s.senders|
  {
    s.(senders := s.senders[i := s.senders[i].(pc := pc)])
  }

  function Issue(s: State, i: nat, pc: SenderPc, st: Store): State
    requires i < |s.senders|
  {
    s.(senders := s.senders[i := s.senders[i].(pc := pc, buf := s.senders[i].buf + [st])])
  }

  /** After the signal flag comes the async flag, after that pipecb is done. */
  function AfterCheck(k: Kind): LoopPc {
    if k == KSignal then Check(KAsync) else Running
  }

  function Apply(s: State, st: Step): State
    requires Enabled(s, st)
  {
    match st
    case Call(i, w) =>
      s.(senders := s.senders[i := s.senders[i].(pc := Called, w := w)], unserved := s.unserved + {w})
    case StoreMark(i) => Issue(s, i, Marked, Store(Mark(s.senders[i].w), true))
    case Fence1(i) => To(s, i, Fenced)
    case LoadFlag(i) =>
      To(s, i, if Load(s.senders[i].buf, s.mem, Flag(KindOf(s.senders[i].w))) then Idle else FlagWasClear)
    case StoreFlag(i) => Issue(s, i, FlagSet, Store(Flag(KindOf(s.senders[i].w)), true))
    case StoreSkip(i) => Issue(s, i, SkipSet, Store(Skipped, true))
    case Fence2(i) => To(s, i, SkipFenced)
    case LoadWanted(i) => To(s, i, if Load(s.senders[i].buf, s.mem, Wanted) then WantSeen else Idle)
    case ClearSkip(i) => Issue(s, i, SkipCleared, Store(Skipped, false))
    case WritePipe(i, full) => To(s, i, Idle).(pipe := if full then s.pipe else s.pipe + 1)
    case Drain(i) =>
      s.(mem := Write(s.mem, s.senders[i].buf[0]),
         senders := s.senders[i := s.senders[i].(buf := s.senders[i].buf[1..])])
    case LoopDrain => s.(mem := Write(s.mem, s.buf[0]), buf := s.buf[1..])
    case StoreWanted => s.(loop := WantStored, buf := s.buf + [Store(Wanted, true)])
    case FenceWanted => s.(loop := WantFenced)
    case TestSkip(urgent) => s.(loop := Polling(!urgent && !Load(s.buf, s.mem, Skipped)))
    case PollReturns => s.(loop := Polled(s.pipe > 0))
    case ClearWanted => s.(loop := WantCleared(s.loop.readable), buf := s.buf + [Store(Wanted, false)])
    case TestSkipAgain =>
      s.(loop := if s.loop.readable || Load(s.buf, s.mem, Skipped) then PipeFed(s.loop.readable) else Running)
    case ReadPipe(left) => s.(loop := PipeRead, pipe := left)
    case ZeroSkip => s.(loop := SkipZeroed, buf := s.buf + [Store(Skipped, false)])
    case FenceSkip => s.(loop := Check(KSignal))
    case TestFlag =>
      s.(loop := if Load(s.buf, s.mem, Flag(s.loop.k)) then Seen(s.loop.k) else AfterCheck(s.loop.k))
    case ZeroFlag => s.(loop := FlagZeroed(s.loop.k), buf := s.buf + [Store(Flag(s.loop.k), false)])
    case FenceFlag => s.(loop := Scan(s.loop.k, set w | w in s.started && KindOf(w) == s.loop.k))
    case ScanOne(w) =>
      var s' := s.(loop := Scan(s.loop.k, s.loop.rem - {w}));
      if Load(s.buf, s.mem, Mark(w)) then s'.(buf := s.buf + [Store(Mark(w), false)], fed := s.fed + {w}) else s'
    case EndScan => s.(loop := AfterCheck(s.loop.k))
    case Callback(w) => s.(fed := s.fed - {w}, unserved := s.unserved - {w})
    case Start(w) =>
      s.(started := s.started + {w}, unserved := s.unserved - {w}, buf := s.buf + [Store(Mark(w), false)])
    case Stop(w) => s.(started := s.started - {w}, fed := s.fed - {w})
  }

  ghost predicate Init(s: State) {
    && s.mem == {} && s.pipe == 0 && s.loop == Running && s.buf == []
    && s.fed == {} && s.unserved == {}
    && forall i | 0 <= i < |s.senders| :: s.senders[i].pc == Idle && s.senders[i].buf == []
  }

  /** A run: a sequence of states joined by steps. */
  ghost predicate IsRun(run: seq<State>, steps: seq<Step>) {
    && |run| == |steps| + 1 && Init(run[0])
    && forall n | 0 <= n < |steps| :: Enabled(run[n], steps[n]) && run[n + 1] == Apply(run[n], steps[n])
  }

  // ----- The invariant -----

  /** What a sender's buffer can hold at each program point. */
  ghost predicate SenderOk(x: Sender) {
    var mark, flag, skip := Store(Mark(x.w), true), Store(Flag(KindOf(x.w)), true), Store(Skipped, true);
    match x.pc
    case Marked => x.buf == [] || x.buf == [mark]
    case FlagSet => x.buf == [] || x.buf == [flag]
    case SkipSet => x.buf == [] || x.buf == [skip] || x.buf == [flag, skip]
    case SkipCleared => x.buf == [] || x.buf == [Store(Skipped, false)]
    case _ => x.buf == []
  }

  /** The loop's buffer: which stores it can hold at each program point. */
  ghost predicate LoopOk(s: State) {
    && (forall st | st in s.buf ::
        match st.loc
        case Flag(k) => !st.val && s.loop == FlagZeroed(k)
        case Mark(_) => !st.val
        case Skipped => !st.val && s.loop == SkipZeroed
        case Wanted => st.val ==> s.loop == WantStored)
    && (s.loop == WantStored ==> Load(s.buf, s.mem, Wanted))
    && (s.loop == WantFenced || s.loop.Polling? || s.loop.Polled? ==> s.buf == [] && Wanted in s.mem)
  }

  /** The sender has published its flag but not yet `pipe_write_skipped`. */
  predicate BeforeSkip(x: Sender) {
    x.pc == FlagSet || (x.pc == SkipSet && Store(Skipped, true) in x.buf)
  }

  /** The sender will write to the pipe. */
  predicate WillRing(x: Sender) {
    x.pc == WantSeen || x.pc == SkipCleared
  }

  /** The sender has published its skip and not yet decided whether to ring. */
  predicate Deciding(x: Sender) {
    x.pc == SkipSet || x.pc == SkipFenced
  }

  ghost predicate Someone(s: State, p: Sender -> bool) {
    exists i :: 0 <= i < |s.senders| && p(s.senders[i])
  }

  /** The loop will test the flag of kind k before it blocks. */
  predicate WillCheck(s: State, k: Kind) {
    match s.loop
    case PipeFed(_) => true
    case PipeRead => true
    case SkipZeroed => true
    case Check(j) => j == k || j == KSignal
    case Seen(j) => j == k || j == KSignal
    case FlagZeroed(j) => if j == k then Store(Flag(k), false) in s.buf else j == KSignal
    case Scan(j, _) => j == KSignal && k == KAsync
    case _ => false
  }

  /** Whoever set a flag has left a reason for the loop to look at it. */
  ghost predicate FlagCovered(s: State, k: Kind) {
    Flag(k) in s.mem ==>
      || Someone(s, BeforeSkip) || Someone(s, WillRing)
      || Skipped in s.mem || s.pipe > 0 || WillCheck(s, k)
  }

  /** While the loop blocks, a published skip is about to become a byte in the pipe. */
  ghost predicate SkipCovered(s: State) {
    s.loop == Polling(true) && Skipped in s.mem ==> s.pipe > 0 || Someone(s, Deciding) || Someone(s, WillRing)
  }

  /** The sender to w has published its mark and will publish, or see, the flag. */
  predicate BringsFlag(w: Target, x: Sender) {
    x.w == w && (
      || x.pc == Marked || x.pc == Fenced || x.pc == FlagWasClear
      || ((x.pc == FlagSet || x.pc == SkipSet) && Store(Flag(KindOf(w)), true) in x.buf))
  }

  ghost predicate SomeoneFor(s: State, w: Target) {
    exists i :: 0 <= i < |s.senders| && BringsFlag(w, s.senders[i])
  }

  /** The loop has seen the flag and will still look at the mark of w. */
  predicate WillScan(s: State, w: Target) {
    match s.loop
    case Seen(k) => k == KindOf(w)
    case FlagZeroed(k) => k == KindOf(w)
    case Scan(k, rem) => w in rem
    case _ => false
  }

  /** A set mark of a started target is covered by its flag, by a sender, or by the loop. */
  ghost predicate MarkCovered(s: State, w: Target) {
    Mark(w) in s.mem ==>
      SomeoneFor(s, w) || Flag(KindOf(w)) in s.mem || WillScan(s, w) || Store(Mark(w), false) in s.buf
  }

  ghost predicate Inv(s: State) {
    && (forall i | 0 <= i < |s.senders| :: SenderOk(s.senders[i]))
    && LoopOk(s)
    && (forall k :: FlagCovered(s, k))
    && SkipCovered(s)
    && (forall w | w in s.started :: MarkCovered(s, w))
  }

  lemma SomeoneAt(s: State, p: Sender -> bool, i: nat)
    requires i < |s.senders| && p(s.senders[i])
    ensures Someone(s, p)
  {
  }

  /** A witness other than sender i stays one when only sender i changes. */
  lemma SomeoneElse(s: State, s': State, p: Sender -> bool, i: nat)
    requires i < |s.senders| == |s'.senders| && s'.senders == s.senders[i := s'.senders[i]]
    requires Someone(s, p) && (p(s.senders[i]) ==> p(s'.senders[i]))
    ensures Someone(s', p)
  {
    var j :| 0 <= j < |s.senders| && p(s.senders[j]);
    assert p(s'.senders[j]);
  }

  lemma SomeoneElseFor(s: State, s': State, w: Target, i: nat)
    requires i < |s.senders| == |s'.senders| && s'.senders == s.senders[i := s'.senders[i]]
    requires SomeoneFor(s, w) && (BringsFlag(w, s.senders[i]) ==> BringsFlag(w, s'.senders[i]))
    ensures SomeoneFor(s', w)
  {
    var j :| 0 <= j < |s.senders| && BringsFlag(w, s.senders[j]);
    assert BringsFlag(w, s'.senders[j]);
  }

  /** The main safety statement about one state. */
  predicate AllReturned(s: State) {
    forall i | 0 <= i < |s.senders| :: s.senders[i].pc == Idle
  }

  lemma BlockedMeansNothingPending(s: State)
    requires Inv(s) && s.loop == Polling(true) && s.pipe == 0 && AllReturned(s)
    ensures forall k :: Flag(k) !in s.mem
    ensures forall w | w in s.started :: Mark(w) !in s.mem
    ensures Skipped !in s.mem
  {
    forall k
      ensures Flag(k) !in s.mem
    {
      assert FlagCovered(s, k);
    }
    forall w | w in s.started
      ensures Mark(w) !in s.mem
    {
      assert MarkCovered(s, w);
    }
  }

  lemma InitInv(s: State)
    requires Init(s)
    ensures Inv(s)
  {
  }

  // ----- Sender steps keep the invariant -----

  /** What a step of sender i may do to its own state without uncovering anything. */
  ghost predicate Covers(s: State, x: Sender, x': Sender) {
    && SenderOk(x')
    && (BeforeSkip(x) ==> BeforeSkip(x'))
    && (WillRing(x) ==> WillRing(x'))
    && (Deciding(x) ==> Deciding(x') || WillRing(x') || s.loop != Polling(true))
    && (forall w :: BringsFlag(w, x) ==> BringsFlag(w, x') || Flag(KindOf(w)) in s.mem)
  }

  lemma LocalStep(s: State, s': State, i: nat)
    requires Inv(s) && i < |s.senders| == |s'.senders| && Covers(s, s.senders[i], s'.senders[i])
    requires s'.senders == s.senders[i := s'.senders[i]]
    requires s'.mem == s.mem && s'.pipe == s.pipe && s'.loop == s.loop && s'.buf == s.buf && s'.started == s.started
    ensures Inv(s')
  {
    forall k
      ensures FlagCovered(s', k)
    {
      assert FlagCovered(s, k);
      if Someone(s, BeforeSkip) { SomeoneElse(s, s', BeforeSkip, i); }
      if Someone(s, WillRing) { SomeoneElse(s, s', WillRing, i); }
    }
    LocalSkip(s, s', i);
    forall w | w in s'.started
      ensures MarkCovered(s', w)
    {
      assert MarkCovered(s, w);
      if SomeoneFor(s, w) && Flag(KindOf(w)) !in s.mem { SomeoneElseFor(s, s', w, i); }
    }
  }

  lemma LocalSkip(s: State, s': State, i: nat)
    requires SkipCovered(s) && i < |s.senders| == |s'.senders| && Covers(s, s.senders[i], s'.senders[i])
    requires s'.senders == s.senders[i := s'.senders[i]]
    requires s'.mem == s.mem && s'.pipe == s.pipe && s'.loop == s.loop
    ensures SkipCovered(s')
  {
    if s.loop == Polling(true) {
      if Someone(s, WillRing) { SomeoneElse(s, s', WillRing, i); }
      if Someone(s, Deciding) {
        var j :| 0 <= j < |s.senders| && Deciding(s.senders[j]);
        assert s'.senders[j] == if j == i then s'.senders[i] else s.senders[j];
        if Deciding(s'.senders[j]) { SomeoneAt(s', Deciding, j); } else { SomeoneAt(s', WillRing, j); }
      }
    }
  }

  lemma RingStep(s: State, i: nat, full: bool)
    requires Inv(s) && Enabled(s, WritePipe(i, full))
    ensures Inv(Apply(s, WritePipe(i, full)))
  {
    var s' := Apply(s, WritePipe(i, full));
    assert s'.pipe > 0;
    forall w | w in s'.started
      ensures MarkCovered(s', w)
    {
      assert MarkCovered(s, w);
      if SomeoneFor(s, w) { SomeoneElseFor(s, s', w, i); }
    }
  }

  lemma {:induction false} LoadSame(buf: seq<Store>, mem: Memory, mem': Memory, loc: Loc)
    requires loc in mem <==> loc in mem'
    ensures Load(buf, mem, loc) == Load(buf, mem', loc)
    decreases |buf|
  {
    if buf != [] { LoadSame(buf[..|buf| - 1], mem, mem', loc); }
  }

  lemma DrainStep(s: State, i: nat)
    requires Inv(s) && Enabled(s, Drain(i))
    ensures Inv(Apply(s, Drain(i)))
  {
    var s' := Apply(s, Drain(i));
    var x, x' := s.senders[i], s'.senders[i];
    assert SenderOk(x) && SenderOk(x');
    LoadSame(s.buf, s.mem, s'.mem, Wanted);
    forall k
      ensures FlagCovered(s', k)
    {
      assert FlagCovered(s, k);
      if BeforeSkip(x') { SomeoneAt(s', BeforeSkip, i); }
      if WillRing(x') { SomeoneAt(s', WillRing, i); }
      if Someone(s, BeforeSkip) && (BeforeSkip(x) ==> BeforeSkip(x')) { SomeoneElse(s, s', BeforeSkip, i); }
      if Someone(s, WillRing) { SomeoneElse(s, s', WillRing, i); }
    }
    DrainSkip(s, i);
    forall w | w in s'.started
      ensures MarkCovered(s', w)
    {
      assert MarkCovered(s, w);
      if BringsFlag(w, x') { assert SomeoneFor(s', w); }
      if SomeoneFor(s, w) && (BringsFlag(w, x) ==> BringsFlag(w, x')) { SomeoneElseFor(s, s', w, i); }
    }
  }

  lemma DrainSkip(s: State, i: nat)
    requires Inv(s) && Enabled(s, Drain(i))
    ensures SkipCovered(Apply(s, Drain(i)))
  {
    var s' := Apply(s, Drain(i));
    var x, x' := s.senders[i], s'.senders[i];
    assert SenderOk(x);
    if Deciding(x') { SomeoneAt(s', Deciding, i); }
    if Someone(s, Deciding) { SomeoneElse(s, s', Deciding, i); }
    if Someone(s, WillRing) { SomeoneElse(s, s', WillRing, i); }
  }

  predicate IsSenderStep(st: Step) {
    st.Call? || st.StoreMark? || st.Fence1? || st.LoadFlag? || st.StoreFlag? || st.StoreSkip? || st.Fence2?
    || st.LoadWanted? || st.ClearSkip? || st.WritePipe? || st.Drain?
  }

  lemma SenderStep(s: State, st: Step)
    requires Inv(s) && Enabled(s, st) && IsSenderStep(st)
    ensures Inv(Apply(s, st))
  {
    if st.WritePipe? {
      RingStep(s, st.i, st.full);
    } else if st.Drain? {
      DrainStep(s, st.i);
    } else {
      assert SenderOk(s.senders[st.i]);
      SenderCovers(s, st);
      LocalStep(s, Apply(s, st), st.i);
    }
  }

  lemma SenderCovers(s: State, st: Step)
    requires LoopOk(s) && Enabled(s, st) && IsSenderStep(st) && !st.WritePipe? && !st.Drain?
    requires SenderOk(s.senders[st.i])
    ensures Covers(s, s.senders[st.i], Apply(s, st).senders[st.i])
  {
  }

  // ----- Loop steps keep the invariant -----

  /** Draining does not change what the owning thread loads. */
  lemma {:induction false} LoadAfterDrain(buf: seq<Store>, mem: Memory, loc: Loc)
    requires buf != []
    ensures Load(buf[1..], Write(mem, buf[0]), loc) == Load(buf, mem, loc)
    decreases |buf|
  {
    if |buf| > 1 && buf[|buf| - 1].loc != loc {
      LoadAfterDrain(buf[..|buf| - 1], mem, loc);
      assert buf[1..][..|buf| - 2] == buf[..|buf| - 1][1..];
    }
  }

  lemma {:induction false} LoadSnoc(buf: seq<Store>, mem: Memory, st: Store, loc: Loc)
    ensures Load(buf + [st], mem, loc) == if st.loc == loc then st.val else Load(buf, mem, loc)
  {
    assert (buf + [st])[..|buf|] == buf;
  }

  /** A load of a location with no buffered store reads memory. */
  lemma {:induction false} LoadFromMemory(buf: seq<Store>, mem: Memory, loc: Loc)
    requires forall st | st in buf :: st.loc != loc
    ensures Load(buf, mem, loc) == (loc in mem)
    decreases |buf|
  {
    if buf != [] { LoadFromMemory(buf[..|buf| - 1], mem, loc); }
  }

  lemma {:induction false} LoadBufferedZeros(buf: seq<Store>, mem: Memory, loc: Loc)
    requires forall st | st in buf && st.loc == loc :: !st.val
    requires loc in mem && !Load(buf, mem, loc)
    ensures Store(loc, false) in buf
    decreases |buf|
  {
    if buf != [] && buf[|buf| - 1].loc != loc { LoadBufferedZeros(buf[..|buf| - 1], mem, loc); }
  }

  /** Coverage is about memory, pipe and senders; these can stay as they are. */
  ghost predicate SameShared(s: State, s': State) {
    s'.mem == s.mem && s'.senders == s.senders && s'.pipe == s.pipe
  }

  lemma LoopDrainStep(s: State)
    requires Inv(s) && Enabled(s, LoopDrain)
    ensures Inv(Apply(s, LoopDrain))
  {
    var s' := Apply(s, LoopDrain);
    var st := s.buf[0];
    assert st in s.buf;
    LoadAfterDrain(s.buf, s.mem, Wanted);
    assert forall x | x in s'.buf :: x in s.buf;
    forall k
      ensures FlagCovered(s', k)
    {
      assert FlagCovered(s, k);
      if WillCheck(s, k) { DrainKeepsCheck(s, k); }
    }
    forall w | w in s'.started
      ensures MarkCovered(s', w)
    {
      assert MarkCovered(s, w);
      assert s.buf == [st] + s'.buf;
    }
  }

  lemma DrainKeepsCheck(s: State, k: Kind)
    requires Inv(s) && s.buf != [] && WillCheck(s, k)
    ensures WillCheck(Apply(s, LoopDrain), k) || Flag(k) !in Apply(s, LoopDrain).mem
  {
    assert s.buf == [s.buf[0]] + s.buf[1..];
  }

  predicate IsWantStep(st: Step) {
    st.StoreWanted? || st.FenceWanted? || st.TestSkip? || st.PollReturns? || st.ClearWanted? || st.TestSkipAgain?
  }

  predicate IsPipeStep(st: Step) {
    st.ReadPipe? || st.ZeroSkip? || st.FenceSkip? || st.TestFlag? || st.ZeroFlag?
  }

  predicate IsScanStep(st: Step) {
    st.FenceFlag? || st.ScanOne? || st.EndScan?
  }

  predicate IsWatcherStep(st: Step) {
    st.Callback? || st.Start? || st.Stop?
  }

  /** Senders, memory and pipe unchanged: coverage only has to be kept by the loop's own position. */
  lemma StillCovered(s: State, s': State)
    requires Inv(s) && SameShared(s, s') && LoopOk(s') && SkipCovered(s')
    requires forall k :: Flag(k) in s.mem && WillCheck(s, k) ==> WillCheck(s', k) || Skipped in s.mem || s.pipe > 0
    requires forall w | w in s'.started && Mark(w) in s.mem ::
      || Flag(KindOf(w)) in s.mem || WillScan(s', w) || Store(Mark(w), false) in s'.buf
      || (w in s.started && !WillScan(s, w) && Store(Mark(w), false) !in s.buf)
    ensures Inv(s')
  {
    forall k
      ensures FlagCovered(s', k)
    {
      assert FlagCovered(s, k);
      assert Someone(s, BeforeSkip) ==> Someone(s', BeforeSkip);
      assert Someone(s, WillRing) ==> Someone(s', WillRing);
    }
    forall w | w in s'.started
      ensures MarkCovered(s', w)
    {
      if w in s.started { assert MarkCovered(s, w); }
      assert SomeoneFor(s, w) ==> SomeoneFor(s', w);
    }
  }

  lemma WantStep(s: State, st: Step)
    requires Inv(s) && Enabled(s, st) && IsWantStep(st)
    ensures Inv(Apply(s, st))
  {
    var s' := Apply(s, st);
    if st.StoreWanted? { LoadSnoc(s.buf, s.mem, Store(Wanted, true), Wanted); }
    LoadFromMemoryIfNone(s.buf, s.mem, Skipped);
    StillCovered(s, s');
  }

  lemma LoadFromMemoryIfNone(buf: seq<Store>, mem: Memory, loc: Loc)
    ensures (forall st | st in buf :: st.loc != loc) ==> Load(buf, mem, loc) == (loc in mem)
  {
    if forall st | st in buf :: st.loc != loc { LoadFromMemory(buf, mem, loc); }
  }

  lemma PipeStep(s: State, st: Step)
    requires Inv(s) && Enabled(s, st) && IsPipeStep(st)
    ensures Inv(Apply(s, st))
  {
    var s' := Apply(s, st);
    if st.ReadPipe? {
      ReadStep(s, st);
    } else {
      if st.TestFlag? { LoadFromMemoryIfNone(s.buf, s.mem, Flag(s.loop.k)); }
      StillCovered(s, s');
    }
  }

  lemma ReadStep(s: State, st: Step)
    requires Inv(s) && Enabled(s, st) && st.ReadPipe?
    ensures Inv(Apply(s, st))
  {
    var s' := Apply(s, st);
    forall w | w in s'.started
      ensures MarkCovered(s', w)
    {
      assert MarkCovered(s, w);
      assert SomeoneFor(s, w) ==> SomeoneFor(s', w);
    }
  }

  lemma ScanStep(s: State, st: Step)
    requires Inv(s) && Enabled(s, st) && IsScanStep(st)
    ensures Inv(Apply(s, st))
  {
    var s' := Apply(s, st);
    if st.ScanOne? {
      if Mark(st.w) in s.mem && !Load(s.buf, s.mem, Mark(st.w)) {
        LoadBufferedZeros(s.buf, s.mem, Mark(st.w));
      }
    }
    StillCovered(s, s');
  }

  lemma WatcherStep(s: State, st: Step)
    requires Inv(s) && Enabled(s, st) && IsWatcherStep(st)
    ensures Inv(Apply(s, st))
  {
    StillCovered(s, Apply(s, st));
  }

  lemma StepKeepsInv(s: State, st: Step)
    requires Inv(s) && Enabled(s, st)
    ensures Inv(Apply(s, st))
  {
    if IsSenderStep(st) {
      SenderStep(s, st);
    } else if st.LoopDrain? {
      LoopDrainStep(s);
    } else if IsWantStep(st) {
      WantStep(s, st);
    } else if IsPipeStep(st) {
      PipeStep(s, st);
    } else if IsScanStep(st) {
      ScanStep(s, st);
    } else {
      WatcherStep(s, st);
    }
  }

  // ----- No lost wake-up, over whole runs -----

  lemma {:induction false} RunKeepsInv(run: seq<State>, steps: seq<Step>, n: nat)
    requires IsRun(run, steps) && n < |run|
    ensures Inv(run[n])
    decreases n
  {
    if n == 0 {
      InitInv(run[0]);
    } else {
      RunKeepsInv(run, steps, n - 1);
      StepKeepsInv(run[n - 1], steps[n - 1]);
    }
  }

  /**
    For any number of senders and any interleaving: when the loop is blocked, the
    pipe is empty and every sender has returned, no flag is set and no started
    target is marked.
   */
  lemma NoLostWakeup(run: seq<State>, steps: seq<Step>, n: nat)
    requires IsRun(run, steps) && n < |run|
    requires run[n].loop == Polling(true) && run[n].pipe == 0 && AllReturned(run[n])
    ensures forall k :: Flag(k) !in run[n].mem
    ensures forall w | w in run[n].started :: Mark(w) !in run[n].mem
  {
    RunKeepsInv(run, steps, n);
    BlockedMeansNothingPending(run[n]);
  }

  // ----- Is every send followed by a callback? -----

  /** The loop's late clear of a mark takes effect: a mark that no callback is due for is gone. */
  predicate Wipes(s: State, st: Step, w: Target) {
    && st.LoopDrain? && s.buf != [] && s.buf[0] == Store(Mark(w), false)
    && Mark(w) in s.mem && w in s.unserved && w !in s.fed
  }

  /** A later mark of w reaches memory, or the watcher is started anew. */
  predicate Renews(s: State, st: Step, w: Target) {
    || st == Start(w)
    || (st.Drain? && SenderDrains(s, st.i, Store(Mark(w), true)))
  }

  predicate SenderDrains(s: State, i: nat, st: Store) {
    i < |s.senders| && s.senders[i].buf != [] && s.senders[i].buf[0] == st
  }

  /** A mark of w has been wiped and not been renewed since. */
  ghost predicate WipedSince(run: seq<State>, steps: seq<Step>, n: nat, w: Target)
    requires n <= |steps| < |run|
  {
    exists m | 0 <= m < n :: WipedAt(run, steps, m, n, w)
  }

  ghost predicate WipedAt(run: seq<State>, steps: seq<Step>, m: nat, n: nat, w: Target)
    requires m < n <= |steps| < |run|
  {
    Wipes(run[m], steps[m], w) && forall k | m < k < n :: !Renews(run[k], steps[k], w)
  }

  predicate Announcing(w: Target, x: Sender) {
    x.w == w && (x.pc == Called || (x.pc == Marked && x.buf != []))
  }

  /** An unanswered send has left something that brings its callback, unless that was wiped out. */
  ghost predicate SendCovered(s: State, w: Target, wiped: bool) {
    w in s.unserved ==>
      || (exists i :: 0 <= i < |s.senders| && Announcing(w, s.senders[i]))
      || w in s.fed || Mark(w) in s.mem || wiped
  }

  /** Before it blocks the loop has run every callback it fed. */
  ghost predicate FedOk(s: State) {
    s.loop.WantStored? || s.loop.WantFenced? || s.loop.Polling? || s.loop.Polled? || s.loop.WantCleared? ==> s.fed == {}
  }

  lemma AnnounceElse(s: State, s': State, w: Target, i: nat)
    requires i < |s.senders| == |s'.senders| && s'.senders == s.senders[i := s'.senders[i]]
    requires Announcing(w, s.senders[i]) ==> Announcing(w, s'.senders[i])
    ensures (exists j :: 0 <= j < |s.senders| && Announcing(w, s.senders[j]))
      ==> exists j :: 0 <= j < |s'.senders| && Announcing(w, s'.senders[j])
  {
    if j :| 0 <= j < |s.senders| && Announcing(w, s.senders[j]) {
      assert Announcing(w, s'.senders[j]);
    }
  }

  lemma SenderKeepsSends(s: State, st: Step, w: Target, wiped: bool)
    requires Inv(s) && Enabled(s, st) && IsSenderStep(st) && SendCovered(s, w, wiped)
    ensures SendCovered(Apply(s, st), w, wiped && !Renews(s, st, w))
  {
    var s' := Apply(s, st);
    var i := st.i;
    var x, x' := s.senders[i], s'.senders[i];
    assert SenderOk(x);
    if Announcing(w, x') { assert Announcing(w, s'.senders[i]); }
    if Announcing(w, x) ==> Announcing(w, x') {
      AnnounceElse(s, s', w, i);
    }
  }

  lemma LoopKeepsSends(s: State, st: Step, w: Target, wiped: bool)
    requires Inv(s) && Enabled(s, st) && !IsSenderStep(st) && w in Apply(s, st).started
    requires w in s.started ==> SendCovered(s, w, wiped)
    ensures SendCovered(Apply(s, st), w, Wipes(s, st, w) || (wiped && !Renews(s, st, w)))
  {
    var s' := Apply(s, st);
    assert s'.senders == s.senders;
    if st.LoopDrain? { assert s.buf[0] in s.buf; }
  }

  lemma StepKeepsFed(s: State, st: Step)
    requires FedOk(s) && Enabled(s, st)
    ensures FedOk(Apply(s, st))
  {
  }

  lemma WipedNext(run: seq<State>, steps: seq<Step>, n: nat, w: Target)
    requires n < |steps| < |run|
    requires Wipes(run[n], steps[n], w) || (WipedSince(run, steps, n, w) && !Renews(run[n], steps[n], w))
    ensures WipedSince(run, steps, n + 1, w)
  {
    if Wipes(run[n], steps[n], w) {
      assert WipedAt(run, steps, n, n + 1, w);
    } else {
      var m :| 0 <= m < n && WipedAt(run, steps, m, n, w);
      assert WipedAt(run, steps, m, n + 1, w);
    }
  }

  lemma {:induction false} RunKeepsSends(run: seq<State>, steps: seq<Step>, n: nat, w: Target)
    requires IsRun(run, steps) && n < |run|
    ensures FedOk(run[n]) && (w in run[n].started ==> SendCovered(run[n], w, WipedSince(run, steps, n, w)))
    decreases n
  {
    if n > 0 {
      RunKeepsInv(run, steps, n - 1);
      RunKeepsSends(run, steps, n - 1, w);
      StepKeepsFed(run[n - 1], steps[n - 1]);
      hide *;
      NextKeepsSends(run, steps, n - 1, w);
    }
  }

  lemma NextKeepsSends(run: seq<State>, steps: seq<Step>, n: nat, w: Target)
    requires n < |steps| < |run| && Inv(run[n]) && Enabled(run[n], steps[n]) && run[n + 1] == Apply(run[n], steps[n])
    requires w in run[n].started ==> SendCovered(run[n], w, WipedSince(run, steps, n, w))
    ensures w in run[n + 1].started ==> SendCovered(run[n + 1], w, WipedSince(run, steps, n + 1, w))
  {
    var s, st, wiped := run[n], steps[n], WipedSince(run, steps, n, w);
    if w in run[n + 1].started {
      StartedBefore(s, st, w);
      hide Inv, SendCovered, Apply, Enabled, WipedSince, Wipes, Renews;
      if IsSenderStep(st) { SenderKeepsSends(s, st, w, wiped); } else { LoopKeepsSends(s, st, w, wiped); }
      if Wipes(s, st, w) || (wiped && !Renews(s, st, w)) { WipedNext(run, steps, n, w); }
      CoveredAnyhow(run[n + 1], w, wiped && !Renews(s, st, w), WipedSince(run, steps, n + 1, w));
      CoveredAnyhow(run[n + 1], w, Wipes(s, st, w) || (wiped && !Renews(s, st, w)), WipedSince(run, steps, n + 1, w));
    }
  }

  lemma CoveredAnyhow(s: State, w: Target, wiped: bool, wiped': bool)
    requires wiped ==> wiped'
    ensures SendCovered(s, w, wiped) ==> SendCovered(s, w, wiped')
  {
  }

  lemma StartedBefore(s: State, st: Step, w: Target)
    requires Enabled(s, st)
    ensures IsSenderStep(st) && w in Apply(s, st).started ==> w in s.started
  {
  }

  /** Nothing tells the loop of the send. */
  ghost predicate Forgotten(s: State, w: Target) {
    w in s.unserved && w !in s.fed && Mark(w) !in s.mem
  }

  lemma SenderLeavesForgotten(s: State, st: Step, w: Target)
    requires Inv(s) && Enabled(s, st) && IsSenderStep(st) && Forgotten(s, w) && !Renews(s, st, w)
    ensures Forgotten(Apply(s, st), w)
  {
    assert SenderOk(s.senders[st.i]);
  }

  lemma LoopLeavesForgotten(s: State, st: Step, w: Target)
    requires LoopOk(s) && Enabled(s, st) && !IsSenderStep(st) && Forgotten(s, w) && !Renews(s, st, w)
    ensures Forgotten(Apply(s, st), w)
  {
    if st.ScanOne? {
      LoadNoMark(s.buf, s.mem, w);
    } else if st.LoopDrain? {
      assert s.buf[0] in s.buf;
    }
  }

  lemma {:induction false} LoadNoMark(buf: seq<Store>, mem: Memory, w: Target)
    requires Mark(w) !in mem && forall st | st in buf && st.loc.Mark? :: !st.val
    ensures !Load(buf, mem, Mark(w))
    decreases |buf|
  {
    if buf != [] { LoadNoMark(buf[..|buf| - 1], mem, w); }
  }

  lemma {:induction false} WipedIsForgotten(run: seq<State>, steps: seq<Step>, m: nat, n: nat, w: Target)
    requires IsRun(run, steps) && m < n < |run| && WipedAt(run, steps, m, n, w)
    ensures Forgotten(run[n], w)
    decreases n
  {
    RunKeepsInv(run, steps, n - 1);
    if m + 1 < n {
      assert WipedAt(run, steps, m, n - 1, w) && !Renews(run[n - 1], steps[n - 1], w);
      WipedIsForgotten(run, steps, m, n - 1, w);
      hide Inv, Enabled, Apply, WipedAt, Renews, Forgotten;
      if IsSenderStep(steps[n - 1]) {
        SenderLeavesForgotten(run[n - 1], steps[n - 1], w);
      } else {
        LoopLeavesForgotten(run[n - 1], steps[n - 1], w);
      }
    }
  }

  /**
    When the loop is blocked with nobody sending, a send to a started watcher has not
    been followed by a callback if and only if a late clear has wiped out its mark, with
    no callback due at that moment, and no later mark has arrived since.
   */
  lemma SendLostIffMarkWiped(run: seq<State>, steps: seq<Step>, n: nat, w: Target)
    requires IsRun(run, steps) && n < |run|
    requires run[n].loop == Polling(true) && run[n].pipe == 0 && AllReturned(run[n]) && w in run[n].started
    ensures w in run[n].unserved <==> WipedSince(run, steps, n, w)
  {
    NoLostWakeup(run, steps, n);
    RunKeepsSends(run, steps, n, w);
    if WipedSince(run, steps, n, w) {
      var m :| 0 <= m < n && WipedAt(run, steps, m, n, w);
      WipedIsForgotten(run, steps, m, n, w);
    }
  }

  /** The loop's own clear of a mark has drained, or its callback is still due, or nothing is outstanding. */
  ghost predicate Synced(s: State) {
    forall w :: Store(Mark(w), false) in s.buf ==> w in s.fed || w !in s.unserved
  }

  /** Nothing is wiped out as long as the loop's clears drain before the next send. */
  lemma SyncedRunsServeEverySend(run: seq<State>, steps: seq<Step>, n: nat)
    requires IsRun(run, steps) && n < |run| && forall m | 0 <= m < n :: Synced(run[m])
    requires run[n].loop == Polling(true) && run[n].pipe == 0 && AllReturned(run[n])
    ensures forall w | w in run[n].started :: w !in run[n].unserved
  {
    forall w | w in run[n].started
      ensures w !in run[n].unserved
    {
      SendLostIffMarkWiped(run, steps, n, w);
    }
  }

  // ----- A run that is not synced can lose a send -----

  ghost predicate Leads(s: State, steps: seq<Step>, t: State)
    decreases |steps|
  {
    if steps == [] then s == t
    else Enabled(s, steps[0]) && Leads(Apply(s, steps[0]), steps[1..], t)
  }

  lemma {:induction false} LeadsOn(s: State, a: seq<Step>, t: State, b: seq<Step>, u: State)
    requires Leads(s, a, t) && Leads(t, b, u)
    ensures Leads(s, a + b, u)
    decreases |a|
  {
    if a == [] {
      assert a + b == b;
    } else {
      LeadsOn(Apply(s, a[0]), a[1..], t, b, u);
      assert (a + b)[1..] == a[1..] + b;
    }
  }

  lemma {:induction false} LeadsIsRun(s: State, steps: seq<Step>, t: State) returns (run: seq<State>)
    requires Leads(s, steps, t)
    ensures |run| == |steps| + 1 && run[0] == s && run[|steps|] == t
    ensures forall n | 0 <= n < |steps| :: Enabled(run[n], steps[n]) && run[n + 1] == Apply(run[n], steps[n])
    decreases |steps|
  {
    if steps == [] {
      run := [s];
    } else {
      var rest := LeadsIsRun(Apply(s, steps[0]), steps[1..], t);
      run := [s] + rest;
      forall n | 0 <= n < |steps|
        ensures Enabled(run[n], steps[n]) && run[n + 1] == Apply(run[n], steps[n])
      {
        if n > 0 { assert steps[n] == steps[1..][n - 1]; }
      }
    }
  }

  ghost predicate Reaches(s: State, t: State) {
    exists steps :: Leads(s, steps, t)
  }

  lemma ReachesOn(s: State, t: State, u: State)
    requires Reaches(s, t) && Reaches(t, u)
    ensures Reaches(s, u)
  {
    var a :| Leads(s, a, t);
    var b :| Leads(t, b, u);
    LeadsOn(s, a, t, b, u);
  }

  ghost predicate Goes(s: State, st: Step, t: State) {
    Enabled(s, st) && Apply(s, st) == t
  }

  lemma Chain2(s: State, a: Step, t: State, b: Step, u: State)
    requires Goes(s, a, t) && Goes(t, b, u)
    ensures Reaches(s, u)
  {
    assert Leads(u, [], u) && Leads(t, [b], u);
    assert [a, b][1..] == [b];
    assert Leads(s, [a, b], u);
  }

  lemma Chain3(s: State, a: Step, t: State, b: Step, u: State, c: Step, v: State)
    requires Goes(s, a, t) && Goes(t, b, u) && Goes(u, c, v)
    ensures Reaches(s, v)
  {
    assert Leads(v, [], v) && Leads(u, [c], v);
    assert [b, c][1..] == [c] && Leads(t, [b, c], v);
    assert [a, b, c][1..] == [b, c];
    assert Leads(s, [a, b, c], v);
  }

  /** One sender, one started watcher, an empty pipe. */
  function Scene(mem: Memory, loop: LoopPc, buf: seq<Store>, unserved: set<Target>, pc: SenderPc,
                 sbuf: seq<Store>): State {
    State(mem, 0, [Sender(pc, Async(0), sbuf)], loop, buf, {Async(0)}, {}, unserved)
  }

  lemma One(st: Store)
    ensures [] + [st] == [st] && [st][1..] == []
  {
  }

  const MARK: Store := Store(Mark(Async(0)), true)
  const UNMARK: Store := Store(Mark(Async(0)), false)

  /** The sender issues its mark and the mark drains. */
  lemma AnnounceScene(mem: Memory, buf: seq<Store>, u: set<Target>)
    ensures Reaches(Scene(mem, Running, buf, u, Idle, []),
                    Scene(mem + {MARK.loc}, Running, buf, u + {Async(0)}, Marked, []))
  {
    var v := u + {Async(0)};
    var s0 := Scene(mem, Running, buf, u, Idle, []);
    var s1 := Scene(mem, Running, buf, v, Called, []);
    var s2 := Scene(mem, Running, buf, v, Marked, [MARK]);
    var s3 := Scene(mem + {MARK.loc}, Running, buf, v, Marked, []);
    One(MARK);
    assert Apply(s0, Call(0, Async(0))).senders == s1.senders;
    assert Apply(s1, StoreMark(0)).senders == s2.senders;
    assert Apply(s2, Drain(0)).senders == s3.senders;
    Chain3(s0, Call(0, Async(0)), s1, StoreMark(0), s2, Drain(0), s3);
  }

  lemma FlagScene(mem: Memory, u: set<Target>)
    requires Flag(KAsync) !in mem
    ensures Reaches(Scene(mem, Running, [], u, Marked, []), Scene(mem + {Flag(KAsync)}, Running, [], u, FlagSet, []))
  {
    var s0 := Scene(mem, Running, [], u, Marked, []);
    var s1 := Scene(mem, Running, [], u, Fenced, []);
    var s2 := Scene(mem, Running, [], u, FlagWasClear, []);
    var s3 := Scene(mem, Running, [], u, FlagSet, [Store(Flag(KAsync), true)]);
    var s4 := Scene(mem + {Flag(KAsync)}, Running, [], u, FlagSet, []);
    One(Store(Flag(KAsync), true));
    assert Apply(s0, Fence1(0)).senders == s1.senders;
    assert Apply(s1, LoadFlag(0)).senders == s2.senders;
    assert Apply(s2, StoreFlag(0)).senders == s3.senders;
    assert Apply(s3, Drain(0)).senders == s4.senders;
    Chain2(s0, Fence1(0), s1, LoadFlag(0), s2);
    Chain2(s2, StoreFlag(0), s3, Drain(0), s4);
    ReachesOn(s0, s2, s4);
  }

  /** The loop does not want a wake-up: the skip is recorded and nothing is written. */
  lemma SkipScene(mem: Memory, u: set<Target>)
    requires Wanted !in mem
    ensures Reaches(Scene(mem, Running, [], u, FlagSet, []), Scene(mem + {Skipped}, Running, [], u, Idle, []))
  {
    var s0 := Scene(mem, Running, [], u, FlagSet, []);
    var s1 := Scene(mem, Running, [], u, SkipSet, [Store(Skipped, true)]);
    var s2 := Scene(mem + {Skipped}, Running, [], u, SkipSet, []);
    var s3 := Scene(mem + {Skipped}, Running, [], u, SkipFenced, []);
    var s4 := Scene(mem + {Skipped}, Running, [], u, Idle, []);
    One(Store(Skipped, true));
    assert Apply(s0, StoreSkip(0)).senders == s1.senders;
    assert Apply(s1, Drain(0)).senders == s2.senders;
    assert Apply(s2, Fence2(0)).senders == s3.senders;
    assert Apply(s3, LoadWanted(0)).senders == s4.senders;
    Chain2(s0, StoreSkip(0), s1, Drain(0), s2);
    Chain2(s2, Fence2(0), s3, LoadWanted(0), s4);
    ReachesOn(s0, s2, s4);
  }

  lemma WantScene(mem: Memory, u: set<Target>)
    ensures Reaches(Scene(mem, Running, [], u, Idle, []), Scene(mem + {Wanted}, WantFenced, [], u, Idle, []))
  {
    One(Store(Wanted, true));
    Chain3(Scene(mem, Running, [], u, Idle, []), StoreWanted,
      Scene(mem, WantStored, [Store(Wanted, true)], u, Idle, []), LoopDrain,
      Scene(mem + {Wanted}, WantStored, [], u, Idle, []), FenceWanted,
      Scene(mem + {Wanted}, WantFenced, [], u, Idle, []));
  }

  /** The loop does not sleep, because a skip is recorded. */
  lemma NoSleepScene(mem: Memory, u: set<Target>)
    requires Skipped in mem
    ensures Reaches(Scene(mem, WantFenced, [], u, Idle, []),
                    Scene(mem, WantCleared(false), [Store(Wanted, false)], u, Idle, []))
  {
    One(Store(Wanted, false));
    Chain3(Scene(mem, WantFenced, [], u, Idle, []), TestSkip(false),
      Scene(mem, Polling(false), [], u, Idle, []), PollReturns,
      Scene(mem, Polled(false), [], u, Idle, []), ClearWanted,
      Scene(mem, WantCleared(false), [Store(Wanted, false)], u, Idle, []));
  }

  /** The loop enters pipecb because of the skip ... */
  lemma PipecbScene(mem: Memory, u: set<Target>)
    requires Skipped in mem
    ensures Reaches(Scene(mem, WantCleared(false), [Store(Wanted, false)], u, Idle, []),
                    Scene(mem, SkipZeroed, [Store(Wanted, false), Store(Skipped, false)], u, Idle, []))
  {
    var b, z := Store(Wanted, false), Store(Skipped, false);
    assert [b] + [z] == [b, z] && [b][..0] == [];
    assert Load([b], mem, Skipped);
    Chain3(Scene(mem, WantCleared(false), [b], u, Idle, []), TestSkipAgain,
      Scene(mem, PipeFed(false), [b], u, Idle, []), ReadPipe(0),
      Scene(mem, PipeRead, [b], u, Idle, []), ZeroSkip,
      Scene(mem, SkipZeroed, [b, z], u, Idle, []));
  }

  /** ... and passes its fence. */
  lemma FenceSkipScene(mem: Memory, u: set<Target>)
    ensures Reaches(Scene(mem, SkipZeroed, [Store(Wanted, false), Store(Skipped, false)], u, Idle, []),
                    Scene(mem - {Wanted} - {Skipped}, Check(KSignal), [], u, Idle, []))
  {
    var b, z := Store(Wanted, false), Store(Skipped, false);
    assert [b, z][1..] == [z] && [z][1..] == [];
    Chain3(Scene(mem, SkipZeroed, [b, z], u, Idle, []), LoopDrain,
      Scene(mem - {Wanted}, SkipZeroed, [z], u, Idle, []), LoopDrain,
      Scene(mem - {Wanted} - {Skipped}, SkipZeroed, [], u, Idle, []), FenceSkip,
      Scene(mem - {Wanted} - {Skipped}, Check(KSignal), [], u, Idle, []));
  }

  /** Only the async flag is set: the loop clears it and starts looking at the watchers. */
  lemma FlagsScene(mem: Memory, u: set<Target>)
    requires Flag(KAsync) in mem && Flag(KSignal) !in mem
    ensures Reaches(Scene(mem, Check(KSignal), [], u, Idle, []),
                    Scene(mem - {Flag(KAsync)}, Scan(KAsync, {Async(0)}), [], u, Idle, []))
  {
    var s0 := Scene(mem, Check(KSignal), [], u, Idle, []);
    var s3 := Scene(mem, FlagZeroed(KAsync), [Store(Flag(KAsync), false)], u, Idle, []);
    var s4 := Scene(mem - {Flag(KAsync)}, FlagZeroed(KAsync), [], u, Idle, []);
    var s5 := Scene(mem - {Flag(KAsync)}, Scan(KAsync, {Async(0)}), [], u, Idle, []);
    One(Store(Flag(KAsync), false));
    assert (set w | w in s4.started && KindOf(w) == KAsync) == {Async(0)};
    Chain3(s0, TestFlag, s0.(loop := Check(KAsync)), TestFlag, s0.(loop := Seen(KAsync)), ZeroFlag, s3);
    Chain2(s3, LoopDrain, s4, FenceFlag, s5);
    ReachesOn(s0, s3, s5);
  }

  /** One complete wake-up through a recorded skip, up to the scan of the watchers. */
  lemma WakeScene(mem: Memory, u: set<Target>)
    requires mem <= {MARK.loc}
    ensures Reaches(Scene(mem + {Flag(KAsync)} + {Skipped}, Running, [], u, Idle, []),
                    Scene(mem, Scan(KAsync, {Async(0)}), [], u, Idle, []))
  {
    var m := mem + {Flag(KAsync)} + {Skipped};
    var m' := mem + {Flag(KAsync)};
    assert m + {Wanted} - {Wanted} - {Skipped} == m' && m' - {Flag(KAsync)} == mem;
    WantScene(m, u);
    NoSleepScene(m + {Wanted}, u);
    PipecbScene(m + {Wanted}, u);
    FenceSkipScene(m + {Wanted}, u);
    FlagsScene(m', u);
    hide Reaches, Scene;
    var s0 := Scene(m, Running, [], u, Idle, []);
    var s1 := Scene(m + {Wanted}, WantFenced, [], u, Idle, []);
    var s2 := Scene(m + {Wanted}, WantCleared(false), [Store(Wanted, false)], u, Idle, []);
    var s3 := Scene(m + {Wanted}, SkipZeroed, [Store(Wanted, false), Store(Skipped, false)], u, Idle, []);
    var s4 := Scene(m', Check(KSignal), [], u, Idle, []);
    ReachesOn(s0, s1, s2);
    ReachesOn(s0, s2, s3);
    ReachesOn(s0, s3, s4);
    ReachesOn(s0, s4, Scene(mem, Scan(KAsync, {Async(0)}), [], u, Idle, []));
  }

  /** The mark is found and the callback runs while the clearing store is still in the buffer. */
  lemma EarlyCallbackScene()
    ensures Reaches(Scene({MARK.loc}, Scan(KAsync, {Async(0)}), [], {Async(0)}, Idle, []),
                    Scene({MARK.loc}, Running, [UNMARK], {}, Idle, []))
  {
    var w := Async(0);
    One(UNMARK);
    var s0 := Scene({MARK.loc}, Scan(KAsync, {w}), [], {w}, Idle, []);
    var s1 := Scene({MARK.loc}, Scan(KAsync, {}), [UNMARK], {w}, Idle, []).(fed := {w});
    var s2 := s1.(loop := Running);
    var s3 := Scene({MARK.loc}, Running, [UNMARK], {}, Idle, []);
    assert {w} - {w} == {} && {} + {w} == {w};
    Chain3(s0, ScanOne(w), s1, EndScan, s2, Callback(w), s3);
  }

  /** The clear of the earlier round drains on top of the new mark. */
  lemma LateDrainScene()
    ensures Reaches(Scene({MARK.loc}, Running, [UNMARK], {Async(0)}, Marked, []),
                    Scene({}, Running, [], {Async(0)}, Marked, []))
  {
    var s0 := Scene({MARK.loc}, Running, [UNMARK], {Async(0)}, Marked, []);
    var s1 := Scene({}, Running, [], {Async(0)}, Marked, []);
    One(UNMARK);
    assert {MARK.loc} - {MARK.loc} == {};
    assert Leads(s1, [], s1) && Leads(s0, [LoopDrain], s1);
  }

  /** The scan finds nothing ... */
  lemma EmptyScanScene(u: set<Target>)
    ensures Reaches(Scene({}, Scan(KAsync, {Async(0)}), [], u, Idle, []), Scene({}, Running, [], u, Idle, []))
  {
    var w := Async(0);
    var s0, s1 := Scene({}, Scan(KAsync, {w}), [], u, Idle, []), Scene({}, Scan(KAsync, {}), [], u, Idle, []);
    assert {w} - {w} == {};
    Chain2(s0, ScanOne(w), s1, EndScan, Scene({}, Running, [], u, Idle, []));
  }

  lemma BlockScene(u: set<Target>)
    ensures Reaches(Scene({Wanted}, WantFenced, [], u, Idle, []), Scene({Wanted}, Polling(true), [], u, Idle, []))
  {
    var s0, s1 := Scene({Wanted}, WantFenced, [], u, Idle, []), Scene({Wanted}, Polling(true), [], u, Idle, []);
    assert Leads(s1, [], s1) && Leads(s0, [TestSkip(false)], s1);
  }

  /** ... and the loop goes to sleep. */
  lemma SleepScene(u: set<Target>)
    ensures Reaches(Scene({}, Scan(KAsync, {Async(0)}), [], u, Idle, []),
                    Scene({Wanted}, Polling(true), [], u, Idle, []))
  {
    assert {} + {Wanted} == {Wanted};
    EmptyScanScene(u);
    WantScene({}, u);
    BlockScene(u);
    hide Reaches, Scene;
    var s0, s1 := Scene({}, Scan(KAsync, {Async(0)}), [], u, Idle, []), Scene({}, Running, [], u, Idle, []);
    var s2, s3 := Scene({Wanted}, WantFenced, [], u, Idle, []), Scene({Wanted}, Polling(true), [], u, Idle, []);
    ReachesOn(s0, s1, s2);
    ReachesOn(s0, s2, s3);
  }

  lemma FirstSend()
    ensures Reaches(Scene({}, Running, [], {}, Idle, []), Scene({MARK.loc}, Running, [UNMARK], {}, Idle, []))
  {
    var w := Async(0);
    var m := {MARK.loc};
    AnnounceScene({}, [], {});
    assert {} + {MARK.loc} == m && {} + {w} == {w};
    FlagScene(m, {w});
    SkipScene(m + {Flag(KAsync)}, {w});
    WakeScene(m, {w});
    EarlyCallbackScene();
    hide Reaches, Scene;
    var s0, s1 := Scene({}, Running, [], {}, Idle, []), Scene(m, Running, [], {w}, Marked, []);
    var s2 := Scene(m + {Flag(KAsync)}, Running, [], {w}, FlagSet, []);
    var s3 := Scene(m + {Flag(KAsync)} + {Skipped}, Running, [], {w}, Idle, []);
    var s4 := Scene(m, Scan(KAsync, {w}), [], {w}, Idle, []);
    ReachesOn(s0, s1, s2);
    ReachesOn(s0, s2, s3);
    ReachesOn(s0, s3, s4);
    ReachesOn(s0, s4, Scene(m, Running, [UNMARK], {}, Idle, []));
  }

  lemma SecondSend()
    ensures Reaches(Scene({MARK.loc}, Running, [UNMARK], {}, Idle, []),
                    Scene({Wanted}, Polling(true), [], {Async(0)}, Idle, []))
  {
    var w := Async(0);
    var m: Memory := {};
    AnnounceScene({MARK.loc}, [UNMARK], {});
    assert {MARK.loc} + {MARK.loc} == {MARK.loc} && {} + {w} == {w};
    LateDrainScene();
    FlagScene(m, {w});
    SkipScene(m + {Flag(KAsync)}, {w});
    WakeScene(m, {w});
    SleepScene({w});
    hide Reaches, Scene;
    var s0 := Scene({MARK.loc}, Running, [UNMARK], {}, Idle, []);
    var s1, s2 := Scene({MARK.loc}, Running, [UNMARK], {w}, Marked, []), Scene(m, Running, [], {w}, Marked, []);
    var s3 := Scene(m + {Flag(KAsync)}, Running, [], {w}, FlagSet, []);
    var s4 := Scene(m + {Flag(KAsync)} + {Skipped}, Running, [], {w}, Idle, []);
    var s5 := Scene(m, Scan(KAsync, {w}), [], {w}, Idle, []);
    ReachesOn(s0, s1, s2);
    ReachesOn(s0, s2, s3);
    ReachesOn(s0, s3, s4);
    ReachesOn(s0, s4, s5);
    ReachesOn(s0, s5, Scene({Wanted}, Polling(true), [], {w}, Idle, []));
  }

  /**
    The release fence after `sent = 0` does not order that store before the callback.
    There is a run that ends with the loop blocked, nobody sending, nothing pending,
    and a send that no callback has followed.
   */
  lemma UnsyncedRunLosesASend() returns (run: seq<State>, steps: seq<Step>)
    ensures IsRun(run, steps)
    ensures var s := run[|steps|];
      s.loop == Polling(true) && s.pipe == 0 && AllReturned(s) && Async(0) in s.started && Async(0) in s.unserved
  {
    var s0, s1 := Scene({}, Running, [], {}, Idle, []), Scene({MARK.loc}, Running, [UNMARK], {}, Idle, []);
    var s2 := Scene({Wanted}, Polling(true), [], {Async(0)}, Idle, []);
    FirstSend();
    SecondSend();
    ReachesOn(s0, s1, s2);
    steps :| Leads(s0, steps, s2);
    run := LeadsIsRun(s0, steps, s2);
  }
}
