/**
  Descriptor watchers and the poll() backend: watchers of one descriptor form a list,
  changes are collected and applied before the loop waits, and the array handed to
  poll() is kept dense by moving the last entry into a gap.
 */
module FdPoll {
  import opened Sequences

  datatype Io = READ | WRITE

  class IoWatcher {
    const fd: nat
    const events: set<Io>
    var iofdset: bool            // EV__IOFDSET in the events: the descriptor was set anew
    var active: bool
    var next: IoWatcher?

    constructor (fd: nat, events: set<Io>)
      ensures this.fd == fd && this.events == events && iofdset && !active
    {
      this.fd, this.events := fd, events;
      iofdset, active, next := true, false, null;
    }
  }

  /** The reify byte: EV_ANFD_REIFY and EV__IOFDSET. */
  datatype Reify = Reify(changed: bool, iofdset: bool) {
    predicate Set() { changed || iofdset }
  }

  datatype Anfd = Anfd(head: IoWatcher?, events: set<Io>, reify: Reify)

  datatype PollFd = PollFd(fd: nat, events: set<Io>)

  const NO_ANFD := Anfd(null, {}, Reify(false, false))

  // ----- The poll array -----

  /** What is registered: the events by descriptor. */
  ghost predicate Mirrors(polls: seq<PollFd>, pollcnt: nat, pollidxs: seq<int>, events: seq<set<Io>>) {
    && pollcnt <= |polls|
    && (forall k | 0 <= k < pollcnt ::
          var f := polls[k].fd;
          f < |events| && f < |pollidxs| && pollidxs[f] == k && polls[k].events == events[f] && events[f] != {})
    && (forall f | 0 <= f < |pollidxs| && pollidxs[f] != -1 :: 0 <= pollidxs[f] < pollcnt && polls[pollidxs[f]].fd == f)
    && (forall f | 0 <= f < |events| && events[f] != {} :: f < |pollidxs| && pollidxs[f] != -1)
  }

  /** The array holds exactly one entry for each descriptor with events, with these events, and nothing else. */
  lemma OneEntryEach(polls: seq<PollFd>, pollcnt: nat, pollidxs: seq<int>, events: seq<set<Io>>, f: nat)
    requires Mirrors(polls, pollcnt, pollidxs, events) && f < |events|
    ensures events[f] != {} <==> exists k | 0 <= k < pollcnt :: polls[k].fd == f
    ensures forall k, l | 0 <= k < pollcnt && 0 <= l < pollcnt && polls[k].fd == f && polls[l].fd == f :: k == l
    ensures forall k | 0 <= k < pollcnt && polls[k].fd == f :: polls[k].events == events[f] && pollidxs[f] == k
  {
    if events[f] != {} {
      assert polls[pollidxs[f]].fd == f;
    }
  }

  class Poll {
    var polls: seq<PollFd>
    var pollcnt: nat
    var pollidxs: seq<int>

    constructor ()
      ensures pollcnt == 0 && polls == [] && pollidxs == []
    {
      polls, pollcnt, pollidxs := [], 0, [];
    }

    /** poll_modify */
    method Modify(fd: nat, oev: set<Io>, nev: set<Io>, ghost events: seq<set<Io>>)
      requires fd < |events| && oev == events[fd] && Mirrors(polls, pollcnt, pollidxs, events)
      modifies this
      ensures Mirrors(polls, pollcnt, pollidxs, events[fd := nev])
    {
      if oev == nev {
        assert events[fd := nev] == events;
        return;
      }
      if fd >= |pollidxs| {
        pollidxs := pollidxs + seq(fd + 1 - |pollidxs|, _ => -1);
      }
      var idx := pollidxs[fd];
      if idx < 0 {
        Append(fd, events);
        idx := pollidxs[fd];
      }
      if nev != {} {
        polls := polls[idx := polls[idx].(events := nev)];
      } else {
        Remove(fd, idx, events);
      }
    }

    /** As `Mirrors`, while the entry of `fd` may hold anything. */
    ghost predicate MirrorsBut(fd: nat, events: seq<set<Io>>)
      reads this
    {
      && fd < |events| && fd < |pollidxs| && 0 <= pollidxs[fd] < pollcnt <= |polls| && polls[pollidxs[fd]].fd == fd
      && (forall k | 0 <= k < pollcnt && k != pollidxs[fd] ::
            var f := polls[k].fd;
            && f != fd && f < |events| && f < |pollidxs| && pollidxs[f] == k
            && polls[k].events == events[f] && events[f] != {})
      && (forall f | 0 <= f < |pollidxs| && pollidxs[f] != -1 ::
            0 <= pollidxs[f] < pollcnt && polls[pollidxs[f]].fd == f)
      && (forall f | 0 <= f < |events| && events[f] != {} :: f < |pollidxs| && pollidxs[f] != -1)
    }

    /** A new entry at the end. */
    method Append(fd: nat, ghost events: seq<set<Io>>)
      requires fd < |events| && fd < |pollidxs| && pollidxs[fd] < 0 && Mirrors(polls, pollcnt, pollidxs, events)
      modifies this
      ensures MirrorsBut(fd, events)
    {
      pollidxs := pollidxs[fd := pollcnt];
      pollcnt := pollcnt + 1;
      if pollcnt > |polls| {
        polls := polls + [PollFd(fd, {})];
      }
      polls := polls[pollcnt - 1 := polls[pollcnt - 1].(fd := fd)];
    }

    /** The last entry takes the place of the one that goes. */
    method Remove(fd: nat, idx: nat, ghost events: seq<set<Io>>)
      requires MirrorsBut(fd, events) && idx == pollidxs[fd]
      modifies this
      ensures Mirrors(polls, pollcnt, pollidxs, events[fd := {}])
    {
      pollidxs := pollidxs[fd := -1];
      pollcnt := pollcnt - 1;
      if idx < pollcnt {
        polls := polls[idx := polls[pollcnt]];
        pollidxs := pollidxs[polls[idx].fd := idx];
      }
    }
  }

  // ----- Watcher lists -----

  ghost predicate Linked(head: IoWatcher?, list: seq<IoWatcher>)
    reads list`next
  {
    && (list == [] ==> head == null)
    && (list != [] ==> head == list[0] && list[|list| - 1].next == null)
    && (forall i {:trigger list[i].next} | 0 <= i < |list| - 1 :: list[i].next == list[i + 1])
  }

  /** What the watchers of a list are interested in, together. */
  ghost function Union(list: seq<IoWatcher>): set<Io> {
    if list == [] then {} else list[0].events + Union(list[1..])
  }

  lemma {:induction false} UnionIs(list: seq<IoWatcher>, e: Io)
    ensures e in Union(list) <==> exists i | 0 <= i < |list| :: e in list[i].events
  {
    if list != [] {
      UnionIs(list[1..], e);
      assert forall i | 1 <= i < |list| :: list[i] == list[1..][i - 1];
      if e in Union(list[1..]) {
        var j :| 0 <= j < |list[1..]| && e in list[1..][j].events;
        assert e in list[j + 1].events;
      }
    }
  }

  // ----- The descriptor half of the event loop -----

  ghost function EventsOf(anfds: seq<Anfd>): seq<set<Io>> {
    seq(|anfds|, f requires 0 <= f < |anfds| => anfds[f].events)
  }

  /** The change list names each descriptor with a reify flag once, and no other. */
  ghost predicate ChangeList(changes: seq<nat>, anfds: seq<Anfd>) {
    && (forall i | 0 <= i < |changes| :: changes[i] < |anfds| && anfds[changes[i]].reify.Set())
    && (forall i, j | 0 <= i < j < |changes| :: changes[i] != changes[j])
    && (forall f | 0 <= f < |anfds| && anfds[f].reify.Set() :: f in changes)
  }

  /** Different watchers of descriptor f. */
  ghost predicate Members(list: seq<IoWatcher>, f: nat, known: set<IoWatcher>) {
    (forall i | 0 <= i < |list| :: list[i] in known && list[i].fd == f) && NoDup(list)
  }

  ghost predicate AllActive(list: seq<IoWatcher>)
    reads list`active
  {
    forall i | 0 <= i < |list| :: list[i].active
  }

  /** The list that starts at `head` holds active watchers of descriptor f. */
  ghost predicate ListFor(head: IoWatcher?, list: seq<IoWatcher>, f: nat, known: set<IoWatcher>)
    reads list`next, list`active
  {
    Members(list, f, known) && AllActive(list) && Linked(head, list)
  }

  class FdLoop {
    var anfds: seq<Anfd>
    var fdchanges: seq<nat>
    const poll: Poll
    ghost var lists: seq<seq<IoWatcher>>    // the watchers of each descriptor
    ghost var known: set<IoWatcher>         // every initialised watcher

    ghost predicate ListOk(f: nat)
      requires f < |lists| == |anfds|
      reads this`lists, this`anfds, this`known, lists[f]`next, lists[f]`active
    {
      ListFor(anfds[f].head, lists[f], f, known)
    }

    /** Every list is well formed, and the active watchers are those in the list of their descriptor. */
    ghost predicate ListsOk()
      reads this`lists, this`anfds, this`known, known`next, known`active
    {
      && |lists| == |anfds|
      && (forall f | 0 <= f < |lists| :: Members(lists[f], f, known) && ListOk(f))
      && (forall w | w in known && w.active :: w.fd < |lists| && w in lists[w.fd])
    }

    /** A descriptor that is not in the change list is registered for what its watchers want. */
    ghost predicate Registered()
      reads this`lists, this`anfds
    {
      |lists| == |anfds| && forall f | 0 <= f < |anfds| && !anfds[f].reify.Set() :: anfds[f].events == Union(lists[f])
    }

    ghost predicate Valid()
      reads this, known, poll
    {
      && ListsOk() && Registered() && ChangeList(fdchanges, anfds)
      && Mirrors(poll.polls, poll.pollcnt, poll.pollidxs, EventsOf(anfds))
    }

    constructor ()
      ensures Valid() && anfds == [] && known == {} && fresh(poll)
    {
      anfds, fdchanges, lists, known := [], [], [], {};
      poll := new Poll();
    }

    /** ev_io_init */
    method Initialise(w: IoWatcher)
      requires Valid() && w !in known && !w.active
      modifies this`known
      ensures Valid() && known == old(known) + {w}
    {
      known := known + {w};
      forall f | 0 <= f < |lists|
        ensures Members(lists[f], f, known) && ListOk(f)
      {
        assert old(ListOk(f));
      }
    }

    /** fd_change */
    method FdChange(fd: nat, flags: Reify)
      requires fd < |anfds| && flags.changed && ChangeList(fdchanges, anfds)
      modifies this`anfds, this`fdchanges
      ensures |anfds| == |old(anfds)| && forall f | 0 <= f < |anfds| && f != fd :: anfds[f] == old(anfds)[f]
      ensures anfds[fd].reify.Set() && anfds[fd].head == old(anfds)[fd].head
      ensures anfds[fd].events == old(anfds)[fd].events
      ensures anfds[fd].reify.changed && (anfds[fd].reify.iofdset <==> old(anfds)[fd].reify.iofdset || flags.iofdset)
      ensures ChangeList(fdchanges, anfds) && EventsOf(anfds) == EventsOf(old(anfds))
    {
      var reify := anfds[fd].reify;
      anfds := anfds[fd := anfds[fd].(reify := Reify(true, reify.iofdset || flags.iofdset))];
      if !reify.Set() {
        fdchanges := fdchanges + [fd];
        assert fdchanges[|fdchanges| - 1] == fd;
      }
      assert forall f | f in old(fdchanges) :: f in fdchanges;
    }

    /** array_needsize with zero fill */
    method NeedAnfds(count: nat)
      requires Valid()
      modifies this`anfds, this`lists
      ensures Valid() && |anfds| >= count
    {
      if count > |anfds| {
        var more := count - |anfds|;
        MirrorsMore(poll.polls, poll.pollcnt, poll.pollidxs, anfds, seq(more, _ => NO_ANFD));
        assert forall f | 0 <= f < |anfds| :: ListOk(f);
        hide ListOk, Mirrors;
        MoreLists(more);
      }
    }

    method MoreLists(more: nat)
      requires ListsOk() && Registered() && ChangeList(fdchanges, anfds)
      modifies this`anfds, this`lists
      ensures ListsOk() && Registered() && ChangeList(fdchanges, anfds)
      ensures anfds == old(anfds) + seq(more, _ => NO_ANFD)
    {
      anfds := anfds + seq(more, _ => NO_ANFD);
      lists := lists + seq(more, _ => []);
      forall f | 0 <= f < |lists|
        ensures ListOk(f)
      {
        if f < |old(lists)| { assert old(ListOk(f)); }
      }
    }

    /** As `Registered`, leaving out one descriptor. */
    ghost predicate RegisteredBut(fd: nat)
      reads this`lists, this`anfds
    {
      |lists| == |anfds| && forall f | 0 <= f < |anfds| && f != fd && !anfds[f].reify.Set() ::
        anfds[f].events == Union(lists[f])
    }

    /** The list of `fd` has changed: its registration has to be looked at. */
    method NoteChange(fd: nat, flags: Reify)
      requires ListsOk() && RegisteredBut(fd) && ChangeList(fdchanges, anfds) && fd < |anfds| && flags.changed
      requires Mirrors(poll.polls, poll.pollcnt, poll.pollidxs, EventsOf(anfds))
      modifies this`anfds, this`fdchanges
      ensures Valid() && anfds[fd].reify.Set() && (flags.iofdset ==> anfds[fd].reify.iofdset)
    {
      ghost var before := anfds;
      forall f | 0 <= f < |anfds|
        ensures ListFor(before[f].head, lists[f], f, known)
      {
        assert ListOk(f);
      }
      hide ListFor, Mirrors, ChangeList, Union;
      FdChange(fd, flags);
      forall f | 0 <= f < |anfds|
        ensures ListOk(f)
      {
        assert anfds[f].head == before[f].head;
      }
    }

    /** ev_io_start */
    method IoStart(w: IoWatcher)
      requires Valid() && w in known
      modifies this`anfds, this`fdchanges, this`lists, {w}`active, {w}`next, {w}`iofdset
      ensures Valid() && w.active && w.fd < |lists| && w in lists[w.fd]
      ensures forall v | v in known && v != w :: v.active == old(v.active)
      ensures !old(w.active) ==> anfds[w.fd].reify.Set() && (old(w.iofdset) ==> anfds[w.fd].reify.iofdset)
      ensures !old(w.active) ==> !w.iofdset
    {
      if w.active {
        return;
      }
      NeedAnfds(w.fd + 1);
      hide ListFor, Mirrors, ChangeList, Union;
      ghost var before := anfds;
      WlistAdd(w);
      NewHead(fdchanges, before, w.fd, w);
      NoteChange(w.fd, Reify(true, w.iofdset));
      w.iofdset := false;
      InItsList(w);
    }

    lemma InItsList(w: IoWatcher)
      requires ListsOk() && w in known && w.active
      ensures w.fd < |lists| && w in lists[w.fd]
    {
    }

    /** ev_io_stop */
    method IoStop(w: IoWatcher)
      requires Valid() && w in known
      modifies this`anfds, this`fdchanges, this`lists, known`next, {w}`active
      ensures Valid() && !w.active
      ensures forall v | v in known && v != w :: v.active == old(v.active)
      ensures old(w.active) ==> w.fd < |anfds| && anfds[w.fd].reify.Set()
    {
      if !w.active {
        return;
      }
      hide ListFor, Mirrors, ChangeList, Union;
      ghost var before := anfds;
      WlistDel(w.fd, w);
      ghost var h: IoWatcher? :| anfds == before[w.fd := before[w.fd].(head := h)];
      NewHead(fdchanges, before, w.fd, h);
      NoteChange(w.fd, Reify(true, false));
    }

    /** fd_reify: what the watchers want is registered, for every descriptor that has changed. */
    method FdReify()
      requires Valid()
      modifies this`anfds, this`fdchanges, poll
      ensures Valid() && fdchanges == [] && lists == old(lists)
      ensures forall f | 0 <= f < |anfds| :: anfds[f].events == Union(lists[f])
    {
      var changecnt := |fdchanges|;
      hide ListFor, Mirrors, Union;
      for i := 0 to changecnt
        invariant ListsOk() && Reified(i) && changecnt == |fdchanges| && lists == old(lists)
        invariant Mirrors(poll.polls, poll.pollcnt, poll.pollidxs, EventsOf(anfds))
      {
        ReifyOne(i);
      }
      fdchanges := fdchanges[changecnt..];
    }

    /** The first i changes have been applied. */
    ghost predicate Reified(i: nat)
      reads this`anfds, this`lists, this`fdchanges
    {
      ReifiedTo(fdchanges, anfds, lists, i)
    }

    /** One turn of the loop in fd_reify. */
    method ReifyOne(i: nat)
      requires ListsOk() && Reified(i) && i < |fdchanges|
      requires Mirrors(poll.polls, poll.pollcnt, poll.pollidxs, EventsOf(anfds))
      modifies this`anfds, poll
      ensures ListsOk() && Reified(i + 1) && Mirrors(poll.polls, poll.pollcnt, poll.pollidxs, EventsOf(anfds))
    {
      var fd := fdchanges[i];
      var oEvents, oReify := anfds[fd].events, anfds[fd].reify;
      assert ListOk(fd);
      var events := Collect(anfds[fd].head, lists[fd]);
      if oReify.iofdset || oEvents != events {
        poll.Modify(fd, oEvents, events, EventsOf(anfds));
      }
      SetEvents(i, fd, events);
    }

    /** The loop over the watchers of a descriptor. */
    method Collect(head: IoWatcher?, ghost list: seq<IoWatcher>) returns (events: set<Io>)
      requires Linked(head, list)
      ensures events == Union(list)
    {
      events := {};
      var w := head;
      ghost var k: nat := 0;
      while w != null
        invariant k <= |list| && w == (if k < |list| then list[k] else null)
        invariant Union(list) == events + Union(list[k..])
        decreases |list| - k
      {
        assert list[k..][1..] == list[k + 1..];
        events := events + w.events;
        k := k + 1;
        w := w.next;
      }
    }

    method SetEvents(ghost i: nat, fd: nat, events: set<Io>)
      requires ListsOk() && Reified(i) && i < |fdchanges| && fd == fdchanges[i] && events == Union(lists[fd])
      modifies this`anfds
      ensures ListsOk() && Reified(i + 1) && EventsOf(anfds) == EventsOf(old(anfds))[fd := events]
    {
      ghost var before := anfds;
      Apart(fd);
      OneMoreReified(fdchanges, anfds, lists, i, fd, events);
      hide ListFor, Members, Union, ReifiedTo, EventsOf;
      anfds := anfds[fd := anfds[fd].(reify := Reify(false, false), events := events)];
      forall f | 0 <= f < |lists|
        ensures ListOk(f)
      {
        assert anfds[f].head == before[f].head;
      }
    }

    /**
      After fd_reify, poll() is called with exactly one entry for each descriptor that
      some active watcher wants something of, and it asks for what they want together.
     */
    lemma PolledIsWanted(f: nat)
      requires Valid() && f < |anfds| && !anfds[f].reify.Set()
      ensures (exists k | 0 <= k < poll.pollcnt :: poll.polls[k].fd == f)
        <==> exists w | w in known && w.active && w.fd == f :: w.events != {}
      ensures forall k | 0 <= k < poll.pollcnt && poll.polls[k].fd == f ::
        && (forall l | 0 <= l < poll.pollcnt && poll.polls[l].fd == f :: l == k)
        && forall e :: e in poll.polls[k].events <==> exists w | w in known && w.active && w.fd == f :: e in w.events
    {
      var list := lists[f];
      assert ListOk(f);
      OneEntryEach(poll.polls, poll.pollcnt, poll.pollidxs, EventsOf(anfds), f);
      forall e
        ensures e in Union(list) <==> exists w | w in known && w.active && w.fd == f :: e in w.events
      {
        UnionIs(list, e);
        if w :| w in known && w.active && w.fd == f && e in w.events {
          assert w in list;
        }
      }
    }

    /** wlist_add, and the watcher becomes active. */
    method WlistAdd(w: IoWatcher)
      requires ListsOk() && w in known && !w.active && w.fd < |anfds|
      modifies this`anfds, this`lists, {w}`active, {w}`next
      ensures ListsOk() && w.active && lists == old(lists)[w.fd := [w] + old(lists)[w.fd]]
      ensures anfds == old(anfds)[w.fd := old(anfds)[w.fd].(head := w)]
    {
      var fd := w.fd;
      ghost var list := lists[fd];
      forall f | 0 <= f < |lists|
        ensures ListFor(anfds[f].head, lists[f], f, known) && Members(lists[f], f, known) && w !in lists[f]
      {
        assert ListOk(f);
      }
      hide ListFor;
      PutFirst(w, anfds[fd].head, list, known);
      NewList(fd, w, [w] + list);
    }

    /** wlist_del */
    method WlistDel(fd: nat, w: IoWatcher)
      requires ListsOk() && w in known && w.active && w.fd == fd
      modifies this`anfds, this`lists, known`next, {w}`active
      ensures ListsOk() && !w.active && |lists| == |old(lists)| && fd < |anfds| == |old(anfds)|
      ensures forall f | 0 <= f < |lists| && f != fd :: lists[f] == old(lists)[f]
      ensures OneLess(old(lists)[fd], lists[fd], w)
      ensures exists h: IoWatcher? :: anfds == old(anfds)[fd := old(anfds)[fd].(head := h)]
    {
      InItsList(w);
      ghost var list := lists[fd];
      assert ListOk(fd);
      var prev: IoWatcher?, cur := null, anfds[fd].head;
      ghost var k: nat := 0;
      while cur != null && cur != w
        invariant k <= |list| && cur == (if k < |list| then list[k] else null)
        invariant prev == if k > 0 then list[k - 1] else null
        invariant w !in list[..k]
        decreases |list| - k
      {
        prev, cur, k := cur, cur.next, k + 1;
      }
      assert k < |list|;
      ghost var h := Unlink(fd, w, prev, k);
    }

    /** The predecessor, or the head, now points past `w`. */
    method Unlink(fd: nat, w: IoWatcher, prev: IoWatcher?, ghost k: nat) returns (ghost h: IoWatcher?)
      requires ListsOk() && w in known && w.active && w.fd == fd < |lists|
      requires k < |lists[fd]| && lists[fd][k] == w && prev == if k > 0 then lists[fd][k - 1] else null
      modifies this`anfds, this`lists, known`next, {w}`active
      ensures ListsOk() && !w.active && lists == old(lists)[fd := Without(old(lists)[fd], k)]
      ensures anfds == old(anfds)[fd := old(anfds)[fd].(head := h)]
    {
      hide ListFor, Members, Without;
      var head := Cut(fd, w, prev, k);
      NewList(fd, head, Without(lists[fd], k));
      h := head;
    }

    /** One descriptor gets another list. */
    method NewList(fd: nat, head: IoWatcher?, ghost list: seq<IoWatcher>)
      requires fd < |lists| == |anfds| && ListFor(head, list, fd, known) && Members(list, fd, known)
      requires forall f | 0 <= f < |lists| && f != fd ::
        ListFor(anfds[f].head, lists[f], f, known) && Members(lists[f], f, known)
      requires forall v | v in known && v.active :: v.fd < |lists| && v in lists[fd := list][v.fd]
      modifies this`anfds, this`lists
      ensures ListsOk() && lists == old(lists)[fd := list] && anfds == old(anfds)[fd := old(anfds)[fd].(head := head)]
    {
      hide ListFor, Members;
      anfds := anfds[fd := anfds[fd].(head := head)];
      lists := lists[fd := list];
    }

    /** The links are changed; the lists of other descriptors are not affected. */
    method Cut(fd: nat, w: IoWatcher, prev: IoWatcher?, ghost k: nat) returns (head: IoWatcher?)
      requires ListsOk() && fd < |lists|
      requires k < |lists[fd]| && lists[fd][k] == w && prev == if k > 0 then lists[fd][k - 1] else null
      modifies known`next, {w}`active
      ensures !w.active
      ensures forall f | 0 <= f < |lists| && f != fd ::
        ListFor(anfds[f].head, lists[f], f, known) && Members(lists[f], f, known)
      ensures ListFor(head, Without(lists[fd], k), fd, known) && Members(Without(lists[fd], k), fd, known)
      ensures forall v | v in known && v.active :: v.fd < |lists| && v in lists[fd := Without(lists[fd], k)][v.fd]
    {
      Apart(fd);
      Others(fd, w, k);
      assert forall v | v in lists[fd] :: v in known;
      hide *;
      head := CutOut(anfds[fd].head, lists[fd], fd, known, w, prev, k);
    }

    /** No watcher is in two lists. */
    lemma Apart(fd: nat)
      requires ListsOk() && fd < |lists|
      ensures forall f | 0 <= f < |lists| :: ListFor(anfds[f].head, lists[f], f, known) && Members(lists[f], f, known)
      ensures forall f, v | 0 <= f < |lists| && f != fd && v in lists[f] :: v !in lists[fd]
    {
      forall f | 0 <= f < |lists|
        ensures ListFor(anfds[f].head, lists[f], f, known) && Members(lists[f], f, known)
      {
        assert ListOk(f);
      }
      forall f, v | 0 <= f < |lists| && f != fd && v in lists[f]
        ensures v !in lists[fd]
      {
        assert v.fd == f;
      }
    }

    lemma Others(fd: nat, w: IoWatcher, k: nat)
      requires ListsOk() && fd < |lists| && k < |lists[fd]| && lists[fd][k] == w
      ensures forall v | v in known && v.active && v != w ::
        v.fd < |lists| && v in lists[fd := Without(lists[fd], k)][v.fd]
    {
      forall v | v in known && v.active && v != w
        ensures v.fd < |lists| && v in lists[fd := Without(lists[fd], k)][v.fd]
      {
        if v.fd == fd { StillThere(lists[fd], k, v); }
      }
    }
  }

  lemma StillThere(list: seq<IoWatcher>, k: nat, v: IoWatcher)
    requires k < |list| && v in list && v != list[k]
    ensures v in Without(list, k)
  {
    var i :| 0 <= i < |list| && list[i] == v;
    assert v == Without(list, k)[if i < k then i else i - 1];
  }

  method PutFirst(w: IoWatcher, head: IoWatcher?, ghost list: seq<IoWatcher>, ghost known: set<IoWatcher>)
    requires ListFor(head, list, w.fd, known) && w in known && w !in list
    modifies {w}`next, {w}`active
    ensures w.active && Members([w] + list, w.fd, known) && ListFor(w, [w] + list, w.fd, known)
  {
    w.next, w.active := head, true;
  }

  /** Take the k-th watcher out of one list. */
  method CutOut(head: IoWatcher?, ghost list: seq<IoWatcher>, fd: nat, ghost known: set<IoWatcher>, w: IoWatcher,
                prev: IoWatcher?,
                ghost k: nat) returns (head': IoWatcher?)
    requires ListFor(head, list, fd, known) && k < |list| && list[k] == w && prev == if k > 0 then list[k - 1] else null
    modifies list`next, {w}`active
    ensures !w.active && Members(Without(list, k), fd, known) && ListFor(head', Without(list, k), fd, known)
  {
    assert k + 1 < |list| ==> list[k].next == list[k + 1];
    head' := head;
    if prev == null {
      head' := w.next;
    } else {
      prev.next := w.next;
    }
    w.active := false;
  }

  /** `after` is `before` with one element less. */
  ghost predicate OneLess(before: seq<IoWatcher>, after: seq<IoWatcher>, w: IoWatcher) {
    exists k :: 0 <= k < |before| && before[k] == w && after == Without(before, k)
  }

  /** The first i changes have been dealt with. */
  ghost predicate ReifiedTo(fdchanges: seq<nat>, anfds: seq<Anfd>, lists: seq<seq<IoWatcher>>, i: nat) {
    && |lists| == |anfds| && i <= |fdchanges|
    && (forall k | 0 <= k < |fdchanges| :: fdchanges[k] < |anfds|)
    && (forall k, l | 0 <= k < l < |fdchanges| :: fdchanges[k] != fdchanges[l])
    && (forall k | i <= k < |fdchanges| :: anfds[fdchanges[k]].reify.Set())
    && (forall f | 0 <= f < |anfds| && anfds[f].reify.Set() :: f in fdchanges[i..])
    && (forall f | 0 <= f < |anfds| && !anfds[f].reify.Set() :: anfds[f].events == Union(lists[f]))
  }

  lemma OneMoreReified(fdchanges: seq<nat>, anfds: seq<Anfd>, lists: seq<seq<IoWatcher>>, i: nat, fd: nat,
                       events: set<Io>)
    requires ReifiedTo(fdchanges, anfds, lists, i) && i < |fdchanges| && fd == fdchanges[i]
    requires events == Union(lists[fd])
    ensures var after := anfds[fd := anfds[fd].(reify := Reify(false, false), events := events)];
      ReifiedTo(fdchanges, after, lists, i + 1) && EventsOf(after) == EventsOf(anfds)[fd := events]
  {
    hide Union;
    assert fdchanges[i..] == [fd] + fdchanges[i + 1..];
  }

  /** Neither the registration nor the flags are in the head of the list. */
  lemma NewHead(changes: seq<nat>, anfds: seq<Anfd>, fd: nat, head: IoWatcher?)
    requires fd < |anfds| && ChangeList(changes, anfds)
    ensures ChangeList(changes, anfds[fd := anfds[fd].(head := head)])
    ensures EventsOf(anfds[fd := anfds[fd].(head := head)]) == EventsOf(anfds)
  {
  }

  /** Descriptors without events need no entry. */
  lemma MirrorsMore(polls: seq<PollFd>, pollcnt: nat, pollidxs: seq<int>, anfds: seq<Anfd>, more: seq<Anfd>)
    requires Mirrors(polls, pollcnt, pollidxs, EventsOf(anfds)) && forall i | 0 <= i < |more| :: more[i].events == {}
    ensures Mirrors(polls, pollcnt, pollidxs, EventsOf(anfds + more))
  {
    var e, e' := EventsOf(anfds), EventsOf(anfds + more);
    assert forall f | 0 <= f < |e| :: e'[f] == e[f];
  }
}
