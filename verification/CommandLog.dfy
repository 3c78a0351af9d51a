/**
  Accounting for the commands passed to the command-file writer: each has exactly one
  place at any time, and what the writer holds, has written and has dumped is what the
  commands at the respective place make up, in the order in which they were accepted.
 */
module CommandLog {
  import opened Options

  /** Write number, dump file number, or where the command is waiting. */
  datatype Place = Piped(write: nat) | Output | Buffered | InAio | Dumped(file: nat) | Dropped

  datatype Entry = Entry(text: seq<char>, place: Place)

  /** Every command ever accepted, in order. */
  type Log = seq<Entry>

  /** The text of the commands at `p`, in order. */
  ghost function Gather(log: Log, p: Place): seq<char> {
    if log == [] then []
    else Gather(log[..|log| - 1], p) + if log[|log| - 1].place == p then log[|log| - 1].text else []
  }

  ghost predicate NoneAt(log: Log, p: Place) {
    forall i | 0 <= i < |log| :: log[i].place != p
  }

  ghost function Texts(log: Log): seq<seq<char>> {
    seq(|log|, i requires 0 <= i < |log| => log[i].text)
  }

  /** Since `before`, no command has been thrown away, neither an old one nor one accepted since. */
  ghost predicate NothingDropped(before: Log, log: Log) {
    |before| <= |log|
    && forall i | 0 <= i < |log| :: log[i].place == Dropped <==> i < |before| && before[i].place == Dropped
  }

  /** Since `before`, the commands that were waiting in the buffer have been thrown away, and no others. */
  ghost predicate BufferDropped(before: Log, log: Log) {
    |before| <= |log|
    && forall i | 0 <= i < |log| ::
      log[i].place == Dropped <==> i < |before| && (before[i].place == Dropped || before[i].place == Buffered)
  }

  ghost function Move(log: Log, src: Place, dst: Place): (moved: Log)
    ensures Texts(moved) == Texts(log) && (src != Dropped && dst != Dropped ==> NothingDropped(log, moved))
    ensures src == Buffered && dst == Dropped ==> BufferDropped(log, moved)
  {
    seq(|log|, i requires 0 <= i < |log| => if log[i].place == src then Entry(log[i].text, dst) else log[i])
  }

  ghost predicate InLine(p: Place) {
    p.Piped? || p.Output? || p.Buffered?
  }

  /** Earlier writes come before later ones, and these before what is still waiting. */
  ghost function Rank(p: Place, writes: nat): nat
    requires InLine(p)
  {
    match p
    case Piped(k) => k
    case Output => writes
    case Buffered => writes + 1
  }

  /** Commands leave in the order in which they came. */
  ghost predicate InOrder(log: Log, writes: nat) {
    && (forall i | 0 <= i < |log| && log[i].place.Piped? :: log[i].place.write < writes)
    && (forall i, j | 0 <= i < j < |log| && InLine(log[i].place) && InLine(log[j].place) ::
          Rank(log[i].place, writes) <= Rank(log[j].place, writes))
  }

  ghost predicate FilesBelow(log: Log, files: nat) {
    forall i | 0 <= i < |log| && log[i].place.Dumped? :: log[i].place.file < files
  }

  /** The bytes each part of the writer holds are those of the commands that are there. */
  ghost predicate Books(log: Log, writes: seq<seq<char>>, files: seq<seq<char>>, output: seq<char>, buffered: seq<char>,
                        aio: Option<seq<char>>)
  {
    && InOrder(log, |writes|) && FilesBelow(log, |files|)
    && (forall k | 0 <= k < |writes| :: writes[k] == Gather(log, Piped(k)))
    && (forall k | 0 <= k < |files| :: files[k] == Gather(log, Dumped(k)))
    && output == Gather(log, Output) && buffered == Gather(log, Buffered)
    && (match aio case None => NoneAt(log, InAio) case Some(t) => t == Gather(log, InAio))
  }

  lemma {:induction false} GatherNone(log: Log, p: Place)
    requires NoneAt(log, p)
    ensures Gather(log, p) == []
  {
    if log != [] { GatherNone(log[..|log| - 1], p); }
  }

  lemma MoveLast(log: Log, src: Place, dst: Place)
    requires log != []
    ensures var moved, last := Move(log, src, dst), log[|log| - 1];
      && |moved| == |log| && moved[..|log| - 1] == Move(log[..|log| - 1], src, dst)
      && moved[|log| - 1] == if last.place == src then Entry(last.text, dst) else last
  {
  }

  /** The text at src moves to dst if nothing was there, and that at any other place stays. */
  lemma {:induction false} GatherMove(log: Log, src: Place, dst: Place, p: Place)
    requires src != dst && (p == dst ==> NoneAt(log, dst))
    ensures Gather(Move(log, src, dst), p) == if p == src then [] else Gather(log, if p == dst then src else p)
  {
    if log != [] {
      assert p == dst ==> NoneAt(log[..|log| - 1], dst) && log[|log| - 1].place != dst;
      MoveLast(log, src, dst);
      hide Move, NoneAt;
      GatherMove(log[..|log| - 1], src, dst, p);
    }
  }

  /** Nothing before the last command is behind it in the line. */
  lemma OrderBefore(log: Log, writes: nat)
    requires InOrder(log, writes) && log != []
    ensures var init, last := log[..|log| - 1], log[|log| - 1].place;
      && InOrder(init, writes)
      && (last == Output ==> NoneAt(init, Buffered))
      && (last.Piped? ==> forall n | last.write < n :: NoneAt(init, Piped(n)))
  {
  }

  /** What waits in the buffer comes after what waits in the output block. */
  lemma {:induction false} GatherJoin(log: Log, writes: nat)
    requires InOrder(log, writes)
    ensures Gather(Move(log, Buffered, Output), Output) == Gather(log, Output) + Gather(log, Buffered)
  {
    if log != [] {
      var init, last := log[..|log| - 1], log[|log| - 1];
      MoveLast(log, Buffered, Output);
      OrderBefore(log, writes);
      if last.place == Output { GatherNone(init, Buffered); }
      hide Move, InOrder, NoneAt;
      GatherJoin(init, writes);
    }
  }

  lemma GatherAccept(log: Log, e: Entry, p: Place)
    ensures Gather(log + [e], p) == Gather(log, p) + if e.place == p then e.text else []
  {
    assert (log + [e])[..|log|] == log;
  }

  // ----- What the writer does to the books -----

  lemma Accept(log: Log, writes: seq<seq<char>>, files: seq<seq<char>>, output: seq<char>, buffered: seq<char>,
               aio: Option<seq<char>>, text: seq<char>)
    requires Books(log, writes, files, output, buffered, aio)
    ensures Books(log + [Entry(text, Buffered)], writes, files, output, buffered + text, aio)
    ensures NoneAt(log, Buffered) ==> Books(log + [Entry(text, Output)], writes, files, output + text, buffered, aio)
  {
    AcceptAt(log, Entry(text, Buffered), |writes|, |files|);
    if NoneAt(log, Buffered) { AcceptAt(log, Entry(text, Output), |writes|, |files|); }
    hide InOrder, FilesBelow, Gather, NoneAt;
  }

  lemma AcceptAt(log: Log, e: Entry, writes: nat, files: nat)
    requires InOrder(log, writes) && FilesBelow(log, files)
    requires e.place == Buffered || (e.place == Output && NoneAt(log, Buffered))
    ensures InOrder(log + [e], writes) && FilesBelow(log + [e], files)
    ensures forall p :: Gather(log + [e], p) == Gather(log, p) + if e.place == p then e.text else []
    ensures NoneAt(log, InAio) ==> NoneAt(log + [e], InAio)
  {
    forall p
      ensures Gather(log + [e], p) == Gather(log, p) + if e.place == p then e.text else []
    {
      GatherAccept(log, e, p);
    }
  }

  /** Moving on in the line, or out of it, keeps the order. */
  lemma OrderKept(log: Log, src: Place, dst: Place, writes: nat, writes': nat)
    requires InOrder(log, writes)
    requires
      || (writes' == writes && (!InLine(dst) || (src == Buffered && dst == Output)))
      || (writes' == writes + 1 && src == Output && dst == Piped(writes))
    ensures InOrder(Move(log, src, dst), writes')
  {
  }

  lemma FilesKept(log: Log, src: Place, dst: Place, files: nat, files': nat)
    requires FilesBelow(log, files) && files <= files' && (dst.Dumped? ==> dst.file < files')
    ensures FilesBelow(Move(log, src, dst), files')
  {
  }

  /** Nothing has been put yet where the next write or the next file will be. */
  lemma NextIsFree(log: Log, writes: nat, files: nat)
    requires InOrder(log, writes) && FilesBelow(log, files)
    ensures NoneAt(log, Piped(writes)) && NoneAt(log, Dumped(files))
  {
  }

  lemma Moved(log: Log, src: Place, dst: Place)
    requires src != dst && NoneAt(log, dst)
    ensures forall p ::
      Gather(Move(log, src, dst), p) == if p == src then [] else Gather(log, if p == dst then src else p)
  {
    forall p
      ensures Gather(Move(log, src, dst), p) == if p == src then [] else Gather(log, if p == dst then src else p)
    {
      GatherMove(log, src, dst, p);
    }
  }

  /** buffer_slurp or join_buffers: the buffer's bytes go behind those of the output block. */
  lemma Join(log: Log, writes: seq<seq<char>>, files: seq<seq<char>>, output: seq<char>, buffered: seq<char>,
             aio: Option<seq<char>>)
    requires Books(log, writes, files, output, buffered, aio)
    ensures Books(Move(log, Buffered, Output), writes, files, output + buffered, [], aio)
  {
    GatherJoin(log, |writes|);
    OrderKept(log, Buffered, Output, |writes|, |writes|);
    FilesKept(log, Buffered, Output, |files|, |files|);
    hide InOrder, FilesBelow, Gather;
    forall p | p != Output
      ensures Gather(Move(log, Buffered, Output), p) == if p == Buffered then [] else Gather(log, p)
    {
      GatherMove(log, Buffered, Output, p);
    }
  }

  /** write(): the whole output block in one go. */
  lemma Write(log: Log, writes: seq<seq<char>>, files: seq<seq<char>>, output: seq<char>, buffered: seq<char>,
              aio: Option<seq<char>>)
    requires Books(log, writes, files, output, buffered, aio)
    ensures Books(Move(log, Output, Piped(|writes|)), writes + [output], files, [], buffered, aio)
  {
    NextIsFree(log, |writes|, |files|);
    OrderKept(log, Output, Piped(|writes|), |writes|, |writes| + 1);
    FilesKept(log, Output, Piped(|writes|), |files|, |files|);
    hide InOrder, FilesBelow, Gather;
    Moved(log, Output, Piped(|writes|));
  }

  /** aio_write(): the output block becomes the outstanding request. */
  lemma Request(log: Log, writes: seq<seq<char>>, files: seq<seq<char>>, output: seq<char>, buffered: seq<char>)
    requires Books(log, writes, files, output, buffered, None)
    ensures Books(Move(log, Output, InAio), writes, files, [], buffered, Some(output))
  {
    OrderKept(log, Output, InAio, |writes|, |writes|);
    FilesKept(log, Output, InAio, |files|, |files|);
    hide InOrder, FilesBelow, Gather;
    Moved(log, Output, InAio);
  }

  /** The outstanding request has been written completely. */
  lemma Complete(log: Log, writes: seq<seq<char>>, files: seq<seq<char>>, output: seq<char>, buffered: seq<char>,
                 aio: seq<char>)
    requires Books(log, writes, files, output, buffered, Some(aio))
    ensures Books(Move(log, InAio, Dumped(|files|)), writes, files + [aio], output, buffered, None)
  {
    NextIsFree(log, |writes|, |files|);
    OrderKept(log, InAio, Dumped(|files|), |writes|, |writes|);
    FilesKept(log, InAio, Dumped(|files|), |files|, |files| + 1);
    hide InOrder, FilesBelow, Gather;
    Moved(log, InAio, Dumped(|files|));
  }

  /** The buffer, the output block or the outstanding request is thrown away. */
  lemma Drop(log: Log, writes: seq<seq<char>>, files: seq<seq<char>>, output: seq<char>, buffered: seq<char>,
             aio: Option<seq<char>>, src: Place)
    requires Books(log, writes, files, output, buffered, aio) && src in {Buffered, Output, InAio}
    ensures Books(Move(log, src, Dropped), writes, files, if src == Output then [] else output,
                  if src == Buffered then [] else buffered, if src == InAio then None else aio)
  {
    OrderKept(log, src, Dropped, |writes|, |writes|);
    FilesKept(log, src, Dropped, |files|, |files|);
    hide InOrder, FilesBelow, Gather;
    forall p | p != Dropped
      ensures Gather(Move(log, src, Dropped), p) == if p == src then [] else Gather(log, p)
    {
      GatherMove(log, src, Dropped, p);
    }
  }

  // ----- The stream in the pipe -----

  ghost function Stream(writes: seq<seq<char>>): seq<char> {
    if writes == [] then [] else Stream(writes[..|writes| - 1]) + writes[|writes| - 1]
  }

  /** The commands of the first n writes, in the order in which they were accepted. */
  ghost function Written(log: Log, n: nat): seq<char> {
    if log == [] then []
    else
      var last := log[|log| - 1];
      Written(log[..|log| - 1], n) + if last.place.Piped? && last.place.write < n then last.text else []
  }

  lemma {:induction false} WrittenOneMore(log: Log, writes: nat, n: nat)
    requires InOrder(log, writes)
    ensures Written(log, n + 1) == Written(log, n) + Gather(log, Piped(n))
  {
    if log != [] {
      var init, last := log[..|log| - 1], log[|log| - 1];
      OrderBefore(log, writes);
      if last.place.Piped? && last.place.write < n { GatherNone(init, Piped(n)); }
      hide InOrder, NoneAt;
      WrittenOneMore(init, writes, n);
    }
  }

  lemma {:induction false} WrittenNothing(log: Log)
    ensures Written(log, 0) == []
  {
    if log != [] { WrittenNothing(log[..|log| - 1]); }
  }

  lemma {:induction false} StreamIsWritten(log: Log, writes: nat, ws: seq<seq<char>>)
    requires InOrder(log, writes) && forall k | 0 <= k < |ws| :: ws[k] == Gather(log, Piped(k))
    ensures Stream(ws) == Written(log, |ws|)
    decreases |ws|
  {
    if ws == [] {
      WrittenNothing(log);
    } else {
      StreamIsWritten(log, writes, ws[..|ws| - 1]);
      WrittenOneMore(log, writes, |ws| - 1);
    }
  }

  /** The pipe carries whole commands only, each once and in the order in which they were accepted. */
  lemma PipeCarriesWholeCommands(log: Log, writes: seq<seq<char>>, files: seq<seq<char>>, output: seq<char>,
                                 buffered: seq<char>,
                                 aio: Option<seq<char>>)
    requires Books(log, writes, files, output, buffered, aio)
    ensures Stream(writes) == Written(log, |writes|)
  {
    StreamIsWritten(log, |writes|, writes);
  }
}
