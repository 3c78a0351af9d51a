/**
  The PID-file lock: any number of processes open, lock, check, truncate, write, unlink
  and close one path, each call a step of its own. An inode number can be used again
  as soon as neither the path nor a descriptor refers to it.
 */
module PidFile {
  import opened Options

  type Inode = nat

  /** Where a process is in flopen(), or what it does with the file it owns. */
  datatype Pc =
    | Outside                                       // no descriptor
    | Opened(ino: Inode)                            // after open()
    | Locked(ino: Inode)                            // after flock()
    | Statted(ino: Inode, named: Inode)             // after stat() found that the path names an inode
    | Checked(ino: Inode)                           // after the comparison with fstat()
    | Owner(ino: Inode, written: bool)              // flopen() has returned
    | Emptied(ino: Inode)                           // inside pidfile_write(), after ftruncate()
    | Unlinked(ino: Inode)                          // inside pidfile_remove(), before close()

  /** The path names an inode or nothing; a file holds the number of a process or is empty. */
  datatype State = State(pcs: seq<Pc>, path: Option<Inode>, content: map<Inode, Option<nat>>)

  datatype Step =
    | Open(p: nat, unused: Inode)
    | Flock(p: nat)
    | Stat(p: nat)
    | Compare(p: nat)
    | Truncate(p: nat)
    | Empty(p: nat)
    | Write(p: nat)
    | Unlink(p: nat)
    | Close(p: nat)            // after unlink(), in pidfile_close(), after any failure, or on exit

  predicate HasOpen(pc: Pc, i: Inode) {
    !pc.Outside? && pc.ino == i
  }

  predicate HoldsLock(pc: Pc, i: Inode) {
    !pc.Outside? && !pc.Opened? && pc.ino == i
  }

  /** Past the inode check, and not yet past unlink or close. */
  predicate Owns(pc: Pc) {
    pc.Checked? || pc.Owner? || pc.Emptied?
  }

  predicate InUse(s: State, i: Inode) {
    s.path == Some(i) || exists p | 0 <= p < |s.pcs| :: HasOpen(s.pcs[p], i)
  }

  predicate LockFree(s: State, i: Inode) {
    forall p | 0 <= p < |s.pcs| :: !HoldsLock(s.pcs[p], i)
  }

  predicate Enabled(s: State, step: Step) {
    && step.p < |s.pcs|
    && var pc := s.pcs[step.p];
       match step
       case Open(_, unused) => pc.Outside? && (s.path.None? ==> !InUse(s, unused))
       case Flock(_) => pc.Opened?
       case Stat(_) => pc.Locked?
       case Compare(_) => pc.Statted?
       case Truncate(_) => pc.Checked?
       case Empty(_) => pc.Owner?
       case Write(_) => pc.Emptied?
       case Unlink(_) => pc.Owner? || pc.Emptied?
       case Close(_) => !pc.Outside?
  }

  function At(s: State, p: nat, pc: Pc): State
    requires p < |s.pcs|
  {
    s.(pcs := s.pcs[p := pc])
  }

  function Next(s: State, step: Step): State
    requires Enabled(s, step)
  {
    var p := step.p;
    var pc := s.pcs[p];
    match step
    case Open(_, unused) =>
      if s.path.Some? then At(s, p, Opened(s.path.value))
      else At(s, p, Opened(unused)).(path := Some(unused), content := s.content[unused := None])
    case Flock(_) => At(s, p, if LockFree(s, pc.ino) then Locked(pc.ino) else Outside)
    case Stat(_) => At(s, p, if s.path.Some? then Statted(pc.ino, s.path.value) else Outside)
    case Compare(_) => At(s, p, if pc.named == pc.ino then Checked(pc.ino) else Outside)
    case Truncate(_) => At(s, p, Owner(pc.ino, false)).(content := s.content[pc.ino := None])
    case Empty(_) => At(s, p, Emptied(pc.ino)).(content := s.content[pc.ino := None])
    case Write(_) => At(s, p, Owner(pc.ino, true)).(content := s.content[pc.ino := Some(p)])
    case Unlink(_) => At(s, p, Unlinked(pc.ino)).(path := None)
    case Close(_) => At(s, p, Outside)
  }

  // ----- What always holds -----

  /** A lock has one holder. */
  ghost predicate OneHolder(s: State) {
    forall p, q, i | 0 <= p < |s.pcs| && 0 <= q < |s.pcs| && HoldsLock(s.pcs[p], i) && HoldsLock(s.pcs[q], i) :: p == q
  }

  /** The path names the file of whoever owns it, or is about to find out. */
  ghost predicate PathOk(s: State) {
    forall p | 0 <= p < |s.pcs| ::
      Owns(s.pcs[p]) || (s.pcs[p].Statted? && s.pcs[p].named == s.pcs[p].ino) ==> s.path == Some(s.pcs[p].ino)
  }

  /** The file of a process that has written its number still holds it. */
  ghost predicate ContentOk(s: State) {
    forall p | 0 <= p < |s.pcs| && s.pcs[p].Owner? && s.pcs[p].written ::
      s.pcs[p].ino in s.content && s.content[s.pcs[p].ino] == Some(p)
  }

  ghost predicate Inv(s: State) {
    OneHolder(s) && PathOk(s) && ContentOk(s)
  }

  /** Holding the lock of the file the path names keeps everybody else from owning it. */
  lemma HolderIsOnlyOwner(s: State, p: nat, q: nat)
    requires Inv(s) && p < |s.pcs| && q < |s.pcs| && Owns(s.pcs[q])
    requires s.path.Some? && HoldsLock(s.pcs[p], s.path.value)
    ensures p == q
  {
    assert HoldsLock(s.pcs[q], s.path.value);
  }

  lemma StepKeepsLocks(s: State, step: Step)
    requires Inv(s) && Enabled(s, step)
    ensures OneHolder(Next(s, step))
  {
    var s' := Next(s, step);
    forall p, q, i | 0 <= p < |s'.pcs| && 0 <= q < |s'.pcs| && HoldsLock(s'.pcs[p], i) && HoldsLock(s'.pcs[q], i)
      ensures p == q
    {
      if !step.Flock? {
        assert HoldsLock(s.pcs[p], i) && HoldsLock(s.pcs[q], i);
      }
    }
  }

  lemma StepKeepsPath(s: State, step: Step)
    requires Inv(s) && Enabled(s, step)
    ensures PathOk(Next(s, step))
  {
    var s' := Next(s, step);
    var k := step.p;
    forall p | 0 <= p < |s'.pcs| && (Owns(s'.pcs[p]) || (s'.pcs[p].Statted? && s'.pcs[p].named == s'.pcs[p].ino))
      ensures s'.path == Some(s'.pcs[p].ino)
    {
      if step.Unlink? {
        assert p != k && s.pcs[p] == s'.pcs[p];
        HolderIsOnlyOwner(s, p, k);
      }
    }
  }

  lemma StepKeepsContent(s: State, step: Step)
    requires Inv(s) && Enabled(s, step)
    ensures ContentOk(Next(s, step))
  {
    var s' := Next(s, step);
    var k := step.p;
    forall p | 0 <= p < |s'.pcs| && s'.pcs[p].Owner? && s'.pcs[p].written
      ensures s'.pcs[p].ino in s'.content && s'.content[s'.pcs[p].ino] == Some(p)
    {
      if p != k {
        assert s.pcs[p] == s'.pcs[p] && s.path == Some(s.pcs[p].ino);
        if step.Truncate? || step.Empty? || step.Write? {
          HolderIsOnlyOwner(s, p, k);
        }
      }
    }
  }

  lemma StepKeepsInv(s: State, step: Step)
    requires Inv(s) && Enabled(s, step)
    ensures Inv(Next(s, step))
  {
    StepKeepsLocks(s, step);
    StepKeepsPath(s, step);
    StepKeepsContent(s, step);
  }

  // ----- Runs -----

  ghost predicate Runs(s: State, steps: seq<Step>, s': State)
    decreases |steps|
  {
    if steps == [] then s' == s
    else Enabled(s, steps[0]) && Runs(Next(s, steps[0]), steps[1..], s')
  }

  /** Any number of processes, none of which has the file open; the file may exist. */
  ghost predicate Init(s: State) {
    forall p | 0 <= p < |s.pcs| :: s.pcs[p].Outside?
  }

  lemma {:induction false} RunKeepsInv(s: State, steps: seq<Step>, s': State)
    requires Inv(s) && Runs(s, steps, s')
    ensures Inv(s')
    decreases |steps|
  {
    if steps != [] {
      StepKeepsInv(s, steps[0]);
      RunKeepsInv(Next(s, steps[0]), steps[1..], s');
    }
  }

  lemma Reachable(s0: State, steps: seq<Step>, s: State)
    requires Init(s0) && Runs(s0, steps, s)
    ensures Inv(s)
  {
    assert Inv(s0);
    RunKeepsInv(s0, steps, s);
  }

  /** At most one process owns the PID file, and the path names the file it owns. */
  lemma Exclusion(s0: State, steps: seq<Step>, s: State, p: nat, q: nat)
    requires Init(s0) && Runs(s0, steps, s)
    requires p < |s.pcs| && q < |s.pcs| && Owns(s.pcs[p]) && Owns(s.pcs[q])
    ensures p == q && s.path == Some(s.pcs[p].ino)
  {
    Reachable(s0, steps, s);
    HolderIsOnlyOwner(s, p, q);
  }

  /** An owner's unlink() takes away the name of its own file, and no other process ever takes away that name. */
  lemma UnlinkRemovesOwnFile(s0: State, steps: seq<Step>, s: State, step: Step)
    requires Init(s0) && Runs(s0, steps, s) && Enabled(s, step)
    ensures step.Unlink? ==> s.path == Some(s.pcs[step.p].ino) && Next(s, step).path == None
    ensures s.path.Some? && Next(s, step).path != s.path ==>
      step.Unlink? && forall q | 0 <= q < |s.pcs| && q != step.p :: !Owns(s.pcs[q])
  {
    Reachable(s0, steps, s);
    if step.Unlink? {
      forall q | 0 <= q < |s.pcs| && q != step.p ensures !Owns(s.pcs[q]) {
        if Owns(s.pcs[q]) { HolderIsOnlyOwner(s, step.p, q); }
      }
    }
  }

  /** What an owner's file holds is changed by nobody else: no process truncates or writes a file another one owns. */
  lemma OnlyOwnerChangesFile(s0: State, steps: seq<Step>, s: State, step: Step, q: nat)
    requires Init(s0) && Runs(s0, steps, s) && Enabled(s, step)
    requires q < |s.pcs| && Owns(s.pcs[q]) && step.p != q
    ensures
      var i := s.pcs[q].ino;
      (i in s.content <==> i in Next(s, step).content) && (i in s.content ==> Next(s, step).content[i] == s.content[i])
  {
    Reachable(s0, steps, s);
    if step.Truncate? || step.Empty? || step.Write? {
      if s.pcs[step.p].ino == s.pcs[q].ino { HolderIsOnlyOwner(s, step.p, q); }
    }
  }

  /** Whoever reads the path while its owner has written its number sees that number. */
  lemma PathTellsOwner(s0: State, steps: seq<Step>, s: State, p: nat)
    requires Init(s0) && Runs(s0, steps, s)
    requires p < |s.pcs| && s.pcs[p].Owner? && s.pcs[p].written
    ensures s.path.Some? && s.path.value in s.content && s.content[s.path.value] == Some(p)
  {
    Reachable(s0, steps, s);
  }

  // ----- Who gets the lock -----

  /** flock() succeeds if and only if no process holds the lock. */
  lemma FlockDecides(s: State, p: nat)
    requires Enabled(s, Flock(p))
    ensures var i, pc := s.pcs[p].ino, Next(s, Flock(p)).pcs[p];
      if exists q :: 0 <= q < |s.pcs| && HoldsLock(s.pcs[q], i) then pc == Outside else pc == Locked(i)
  {
  }

  /** What a process does that is not disturbed: flopen(), and pidfile_write(). */
  function Undisturbed(p: nat, unused: Inode): seq<Step> {
    [Open(p, unused), Flock(p), Stat(p), Compare(p), Truncate(p), Empty(p), Write(p)]
  }

  /**
    A process that is not disturbed becomes the owner of the file that the path names
    then, with its number in it, unless another process holds the lock of that file.
   */
  lemma UndisturbedOwns(s: State, p: nat, unused: Inode) returns (s': State)
    requires p < |s.pcs| && s.pcs[p].Outside?
    requires s.path.None? ==> forall q | 0 <= q < |s.pcs| :: !HasOpen(s.pcs[q], unused)
    requires s.path.Some? ==> forall q | 0 <= q < |s.pcs| :: !HoldsLock(s.pcs[q], s.path.value)
    ensures Runs(s, Undisturbed(p, unused), s')
    ensures var i := if s.path.Some? then s.path.value else unused;
      s'.pcs == s.pcs[p := Owner(i, true)] && s'.path == Some(i) && s'.content == s.content[i := Some(p)]
  {
    var i := if s.path.Some? then s.path.value else unused;
    var s1, s2 := Locks(s, p, unused, i);
    var s4 := Checks(s2, p, i);
    var s5, s6;
    s5, s6, s' := Writes(s4, p, i);
    hide Next, Enabled;
    RunsOne(s6, Write(p), [], s');
    RunsOne(s5, Empty(p), [Write(p)], s');
    RunsOne(s4, Truncate(p), [Empty(p), Write(p)], s');
    RunsOne(Next(s2, Stat(p)), Compare(p), [Truncate(p), Empty(p), Write(p)], s');
    RunsOne(s2, Stat(p), [Compare(p), Truncate(p), Empty(p), Write(p)], s');
    RunsOne(s1, Flock(p), [Stat(p), Compare(p), Truncate(p), Empty(p), Write(p)], s');
    RunsOne(s, Open(p, unused), [Flock(p), Stat(p), Compare(p), Truncate(p), Empty(p), Write(p)], s');
    assert s'.pcs == s.pcs[p := Owner(i, true)];
  }

  lemma Locks(s: State, p: nat, unused: Inode, i: Inode) returns (s1: State, s2: State)
    requires p < |s.pcs| && s.pcs[p].Outside?
    requires s.path.None? ==> forall q | 0 <= q < |s.pcs| :: !HasOpen(s.pcs[q], unused)
    requires s.path.Some? ==> forall q | 0 <= q < |s.pcs| :: !HoldsLock(s.pcs[q], s.path.value)
    requires i == if s.path.Some? then s.path.value else unused
    ensures Enabled(s, Open(p, unused)) && s1 == Next(s, Open(p, unused))
    ensures Enabled(s1, Flock(p)) && s2 == Next(s1, Flock(p))
    ensures s2.pcs == s.pcs[p := Locked(i)] && s2.path == Some(i)
    ensures s2.content == if s.path.Some? then s.content else s.content[i := None]
  {
    s1 := Next(s, Open(p, unused));
    assert LockFree(s1, i) by {
      forall q | 0 <= q < |s.pcs| ensures !HoldsLock(s1.pcs[q], i) { assert !HasOpen(s.pcs[q], i) || s.path.Some?; }
    }
    s2 := Next(s1, Flock(p));
    assert s2.pcs == s.pcs[p := Locked(i)];
  }

  lemma Checks(s2: State, p: nat, i: Inode) returns (s4: State)
    requires p < |s2.pcs| && s2.pcs[p] == Locked(i) && s2.path == Some(i)
    ensures Enabled(s2, Stat(p)) && Enabled(Next(s2, Stat(p)), Compare(p))
    ensures s4 == Next(Next(s2, Stat(p)), Compare(p))
    ensures s4 == s2.(pcs := s2.pcs[p := Checked(i)])
  {
    s4 := Next(Next(s2, Stat(p)), Compare(p));
    assert s4.pcs == s2.pcs[p := Checked(i)];
  }

  lemma Writes(s4: State, p: nat, i: Inode) returns (s5: State, s6: State, s': State)
    requires p < |s4.pcs| && s4.pcs[p] == Checked(i)
    ensures Enabled(s4, Truncate(p)) && s5 == Next(s4, Truncate(p))
    ensures Enabled(s5, Empty(p)) && s6 == Next(s5, Empty(p))
    ensures Enabled(s6, Write(p)) && s' == Next(s6, Write(p))
    ensures s'.pcs == s4.pcs[p := Owner(i, true)] && s'.path == s4.path && s'.content == s4.content[i := Some(p)]
  {
    s5 := Next(s4, Truncate(p));
    s6 := Next(s5, Empty(p));
    s' := Next(s6, Write(p));
    assert s'.pcs == s4.pcs[p := Owner(i, true)] && s'.content == s4.content[i := Some(p)];
  }

  /** An owner can give up the file, which takes its name away. */
  lemma OwnerReleases(s: State, p: nat) returns (s': State)
    requires p < |s.pcs| && (s.pcs[p].Owner? || s.pcs[p].Emptied?)
    ensures Runs(s, [Unlink(p), Close(p)], s') && s' == s.(pcs := s.pcs[p := Outside], path := None)
  {
    var s1 := Next(s, Unlink(p));
    s' := Next(s1, Close(p));
    assert s'.pcs == s.pcs[p := Outside];
    RunsOne(s1, Close(p), [], s');
    RunsOne(s, Unlink(p), [Close(p)], s');
  }

  lemma RunsOne(s: State, step: Step, more: seq<Step>, s': State)
    requires Enabled(s, step) && Runs(Next(s, step), more, s')
    ensures Runs(s, [step] + more, s')
  {
    assert ([step] + more)[1..] == more;
  }
}
