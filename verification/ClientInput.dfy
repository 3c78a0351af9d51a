/**
  The client's reader of standard input: it hands out one piece after another, each up
  to the next separator, however many bytes each read() returns.
 */
module ClientInput {
  import opened ByteBuffer
  import opened Options
  import opened Sequences

  /** What the input consists of: the pieces before separators, and what is left at the end if it is not empty. */
  function Pieces(s: string, separator: char): seq<string>
    decreases |s|
  {
    var pos := FirstAfter(s, separator);
    if s == "" then [] else if pos == 0 then [s] else [s[..pos - 1]] + Pieces(s[pos..], separator)
  }

  /** How many bytes are read before there is a piece, there is nothing left, or nothing has come yet. */
  ghost function Reads(buffered: string, unread: string, separator: char, sizes: nat -> nat, k: nat): (n: nat)
    ensures n <= |unread|
    decreases |unread|
  {
    if separator in buffered || unread == "" || sizes(k) == 0 then 0
    else
      var n := Min(sizes(k), |unread|);
      n + Reads(buffered + unread[..n], unread[n..], separator, sizes, k + 1)
  }

  /** read() returns something whenever it is called, if there is something. */
  ghost predicate AllThere(sizes: nat -> nat) {
    forall k :: sizes(k) > 0
  }

  class Input {
    const buffer: Buffer
    const separator: char
    var watching: bool
    var eof: bool
    var stopped: bool
    ghost const all: string          // all of standard input
    var unread: string               // what read() has not returned yet
    ghost var delivered: seq<string> // the pieces the read handler has been given
    ghost var eofs: nat              // calls of the EOF handler

    ghost predicate Owns()
      reads buffer, buffer.repr
    {
      buffer.Valid() && buffer.OffsetsOk() && buffer.size == |buffer.Contents()| && this !in buffer.repr
    }

    /** What has been delivered and what is still to come is what the input consists of. */
    ghost predicate Valid()
      reads this, buffer, buffer.repr
    {
      && Owns()
      && Pieces(all, separator) == delivered + Pieces(buffer.Contents() + unread, separator)
      && (eof ==> unread == "" && buffer.size == 0)
      && eofs == (if stopped then 1 else 0)
      && (stopped ==> eof) && (watching ==> !eof)
    }

    /** input_start */
    constructor (separator: char, all: string)
      ensures Valid() && !stopped && !eof && !watching && delivered == [] && this.all == all
      ensures this.separator == separator
      ensures fresh(buffer) && buffer.repr == {}
    {
      var b := new Buffer();
      buffer := b;
      this.separator, this.all, unread := separator, all, all;
      watching, eof, stopped := false, false, false;
      delivered, eofs := [], 0;
      new;
      buffer.Sized();
      hide Buffer.Valid, Buffer.Contents, Buffer.OffsetsOk, Pieces;
      assert buffer.Contents() + unread == all;
    }

    /** input_read_chunk */
    method ReadChunk(sizes: nat -> nat)
      requires Valid() && !stopped && !watching
      modifies this, buffer, buffer.repr
      ensures Valid() && fresh(buffer.repr - old(buffer.repr))
      ensures old(delivered) <= delivered && |delivered| <= |old(delivered)| + 1
      ensures old(eof) ==> stopped && delivered == old(delivered)
      ensures !old(eof) ==> unread == old(unread)[Reads(old(buffer.Contents()), old(unread), separator, sizes, 0)..]
      ensures AllThere(sizes) ==> !watching
      ensures watching ==> separator !in buffer.Contents() && unread != ""
      ensures stopped || watching || |delivered| == |old(delivered)| + 1
      ensures stopped ==> delivered == old(delivered)
    {
      if !eof {
        watching := true;
        ReadCb(sizes);
      } else {
        EndOfInput();
      }
    }

    /** The EOF handler is called, and the reader stops. */
    method EndOfInput()
      requires Valid() && !stopped && eof
      modifies this`eofs, this`stopped, this`watching
      ensures Valid() && stopped && delivered == old(delivered)
    {
      hide Buffer.Valid, Buffer.Contents, Buffer.OffsetsOk, Pieces;
      eofs := eofs + 1;
      stopped, watching := true, false;
    }

    /**
      read_cb: sizes say how many bytes each read() returns, 0 meaning that there are
      none yet; it returns end-of-file if there are no more.
     */
    method ReadCb(sizes: nat -> nat)
      requires Valid() && !stopped && watching && !eof
      modifies this, buffer, buffer.repr
      ensures Valid() && fresh(buffer.repr - old(buffer.repr))
      ensures old(delivered) <= delivered && |delivered| <= |old(delivered)| + 1
      ensures watching ==> delivered == old(delivered) && !stopped && !eof
      ensures !watching && !stopped ==> |delivered| == |old(delivered)| + 1
      ensures unread == old(unread)[Reads(old(buffer.Contents()), old(unread), separator, sizes, 0)..]
      ensures AllThere(sizes) ==> !watching
      ensures watching ==> separator !in buffer.Contents() && unread != ""
      ensures stopped ==> delivered == old(delivered)
    {
      var k: nat, more := 0, true;
      ghost var due := Reads(buffer.Contents(), unread, separator, sizes, 0);
      ghost var rest := unread[due..];
      assert buffer.OffsetsOk();
      hide Valid, Reads;
      while more
        invariant Valid() && fresh(buffer.repr - old(buffer.repr))
        invariant more ==> watching && !stopped && !eof && delivered == old(delivered)
        invariant !more ==> old(delivered) <= delivered && |delivered| <= |old(delivered)| + 1
        invariant !more && watching ==> delivered == old(delivered) && !stopped && !eof
        invariant !more && !watching && !stopped ==> |delivered| == |old(delivered)| + 1
        invariant buffer.OffsetsOk() && (stopped ==> delivered == old(delivered))
        invariant more ==> due == Reads(buffer.Contents(), unread, separator, sizes, k) && unread[due..] == rest
        invariant !more ==> unread == rest && (watching ==> separator !in buffer.Contents() && unread != "")
        invariant !more && watching ==> exists i :: sizes(i) == 0
        decreases more, |unread|
      {
        ghost var buffered, left := buffer.Contents(), unread;
        ReadsStep(buffered, left, separator, sizes, k);
        more := Turn(sizes(k));
        if more {
          ghost var n := Min(sizes(k), |left|);
          due := due - n;
          assert left[n..][due..] == left[due + n..];
        }
        k := k + 1;
      }
    }

    /** One turn of the loop in read_cb. */
    method Turn(size: nat) returns (more: bool)
      requires Valid() && !stopped && watching && !eof
      modifies this, buffer, buffer.repr
      ensures Valid() && fresh(buffer.repr - old(buffer.repr))
      ensures more ==> watching && !stopped && !eof && delivered == old(delivered) && |unread| < |old(unread)|
      ensures !more ==> old(delivered) <= delivered && |delivered| <= |old(delivered)| + 1
      ensures !more && watching ==> delivered == old(delivered) && !stopped && !eof
      ensures !more && !watching && !stopped ==> |delivered| == |old(delivered)| + 1
      ensures buffer.OffsetsOk() && (stopped ==> delivered == old(delivered))
      ensures more <==> separator !in old(buffer.Contents()) && old(unread) != "" && size > 0
      ensures more ==>
        var n := Min(size, |old(unread)|);
        unread == old(unread)[n..] && buffer.Contents() == old(buffer.Contents()) + old(unread)[..n]
      ensures !more ==> unread == old(unread)
      ensures !more && watching ==> buffer.Contents() == old(buffer.Contents()) && unread != "" && size == 0
      ensures separator in old(buffer.Contents()) ==> !watching
    {
      more := false;
      assert buffer.OffsetsOk();
      assert this !in buffer.repr;
      hide Valid;
      var there := BufferedPiece();
      if !there {
        if unread == "" {
          LastPiece();
        } else if size > 0 {
          Receive(Min(size, |unread|));
          more := true;
        }
      }
    }

    /** The next piece is `piece`, and `rest` is what comes after it. */
    ghost predicate Due(piece: string, rest: seq<string>)
      reads this`delivered
    {
      Pieces(all, separator) == delivered + ([piece] + rest)
    }

    /** The read handler is called. */
    method Deliver(ghost piece: string, ghost rest: seq<string>)
      requires Due(piece, rest)
      modifies this`delivered, this`watching
      ensures !watching && delivered == old(delivered) + [piece] && Pieces(all, separator) == delivered + rest
    {
      hide Pieces;
      watching := false;
      Glue(Pieces(all, separator), delivered, piece, rest);
      delivered := delivered + [piece];
    }

    /** The piece that is in the buffer, if it is complete. */
    method BufferedPiece() returns (there: bool)
      requires Valid() && !stopped && !eof && watching
      modifies this`delivered, this`watching, buffer, buffer.repr
      ensures Valid() && fresh(buffer.repr - old(buffer.repr))
      ensures there ==> !watching && |delivered| == |old(delivered)| + 1 && old(delivered) <= delivered
      ensures !there ==> watching && delivered == old(delivered) && separator !in buffer.Contents()
      ensures !there ==> buffer.Contents() == old(buffer.Contents())
      ensures there <==> separator in old(buffer.Contents())
    {
      ghost var before := buffer.Contents();
      ghost var pos := FirstAfter(before, separator);
      ghost var rest := Pieces(before[pos..] + unread, separator);
      PieceBuffered(before, unread);
      assert before[0..] == before && this !in buffer.repr;
      assert pos > 0 ==> Due(before[..pos - 1], rest);
      hide Buffer.Valid, Buffer.Contents, Buffer.OffsetsOk, Pieces, FirstAfter, Due;
      there := TakeChunk();
      if there {
        Deliver(before[..pos - 1], rest);
      }
    }

    /** buffer_read_chunk; the handler gets the piece as a C string. */
    method TakeChunk() returns (there: bool)
      requires Owns()
      modifies buffer, buffer.repr
      ensures Owns() && buffer.repr <= old(buffer.repr)
      ensures var before, pos := old(buffer.Contents()), FirstAfter(old(buffer.Contents()), separator);
        there == (pos > 0) && buffer.Contents() == before[pos..]
    {
      ghost var before := buffer.Contents();
      assert before[0..] == before;
      hide Buffer.Valid, Buffer.Contents, Buffer.OffsetsOk, FirstAfter, HoldsString;
      var chunk := buffer.ReadChunk(separator);
      buffer.Sized();
      there := chunk != null;
      if there {
        assert HoldsString(chunk, before[..FirstAfter(before, separator) - 1]);
      }
    }

    lemma PieceBuffered(s: string, rest: string)
      ensures FirstAfter(s, separator) > 0 ==>
        Pieces(s + rest, separator)
          == [s[..FirstAfter(s, separator) - 1]] + Pieces(s[FirstAfter(s, separator)..] + rest, separator)
    {
      var pos := FirstAfter(s, separator);
      if pos > 0 {
        FirstOfBoth(s, rest, separator);
        assert (s + rest)[..pos - 1] == s[..pos - 1] && (s + rest)[pos..] == s[pos..] + rest;
      }
    }

    /** read() has returned n bytes. */
    method Receive(n: nat)
      requires Valid() && !stopped && !eof && watching && 0 < n <= |unread|
      modifies this`unread, buffer, buffer.repr
      ensures Valid() && fresh(buffer.repr - old(buffer.repr)) && |unread| < |old(unread)|
      ensures unread == old(unread)[n..] && buffer.Contents() == old(buffer.Contents()) + old(unread)[..n]
    {
      ghost var before, unread0 := buffer.Contents(), unread;
      hide Buffer.Valid, Buffer.Contents, Buffer.OffsetsOk, Pieces;
      buffer.Append(unread[..n]);
      buffer.Sized();
      unread := unread[n..];
      MoveBytes(before, unread0, n);
    }

    /** End of file: what is left is the last piece; if nothing is left, there is none. */
    method LastPiece()
      requires Valid() && !stopped && !eof && watching && unread == "" && separator !in buffer.Contents()
      modifies this`eof, this`watching, this`stopped, this`eofs, this`delivered, buffer
      ensures Valid() && eof && !watching && buffer.repr <= old(buffer.repr)
      ensures stopped ==> delivered == old(delivered)
      ensures !stopped ==> |delivered| == |old(delivered)| + 1 && old(delivered) <= delivered
    {
      ghost var rest := buffer.Contents();
      assert rest + unread == rest;
      assert Pieces("", separator) == [] && (rest != "" ==> Pieces(rest, separator) == [rest]);
      assert "" + "" == "";
      var len := buffer.size;
      hide Buffer.Valid, Buffer.Contents, Buffer.OffsetsOk, Pieces, HoldsString;
      eof := true;
      watching := false;
      if len > 0 {
        var chunk := TakeRest();
        assert HoldsString(chunk, rest);
        Deliver(rest, []);
      } else {
        EndOfInput();
      }
    }

    /** What is left, as a C string. */
    method TakeRest() returns (chunk: array<char>)
      requires Owns()
      modifies buffer
      ensures Owns() && buffer.size == 0 && buffer.Contents() == "" && buffer.repr <= old(buffer.repr)
      ensures HoldsString(chunk, old(buffer.Contents()))
    {
      ghost var rest := buffer.Contents();
      hide Buffer.Valid, Buffer.Contents, Buffer.OffsetsOk;
      chunk := new char[buffer.size + 1];
      var got := buffer.Read(chunk, buffer.size);
      buffer.Sized();
      assert rest[..got] == rest;
      chunk[got] := '\0';
    }

    /** What n requests for which everything is there have led to. */
    ghost predicate Served(delivered0: seq<string>, stopped0: bool, n: nat)
      reads this`delivered, this`stopped, this`watching
    {
      var count := |Pieces(all, separator)|;
      && !watching && |delivered| == Min(|delivered0| + n, count)
      && (stopped <==> stopped0 || |delivered0| + n > count)
    }

    /**
      Any run of requests and readable events: the pieces of the input are delivered once
      each and in order, and the EOF handler is called once, after the last of them. If
      read() always has something to return, each request gets its piece, and the first
      one after the last piece the end of the input.
     */
    method Run(events: seq<Event>)
      requires Valid()
      modifies this, buffer, buffer.repr
      ensures Valid() && old(delivered) <= delivered <= Pieces(all, separator)
      ensures stopped ==> delivered == Pieces(all, separator) && eofs == 1
      ensures AllReady(events) && !old(watching) ==> Served(old(delivered), old(stopped), Requests(events))
    {
      assert this !in buffer.repr;
      SoFar();
      assert events[..0] == [];
      hide Valid, Pieces, AllReady;
      for i := 0 to |events|
        invariant Valid() && fresh(buffer.repr - old(buffer.repr)) && this !in buffer.repr
        invariant old(delivered) <= delivered
        invariant AllReady(events) && !old(watching) ==> Served(old(delivered), old(stopped), Requests(events[..i]))
      {
        OneMoreRequest(events, i);
        Handle(events[i]);
      }
      assert events[..|events|] == events;
      SoFar();
    }

    /** One event: a request is made if none is open, and the watcher may be active. */
    method Handle(e: Event)
      requires Valid()
      modifies this, buffer, buffer.repr
      ensures Valid() && fresh(buffer.repr - old(buffer.repr)) && this !in buffer.repr
      ensures old(delivered) <= delivered
      ensures Ready(e) && !old(watching) ==>
        && !watching && |delivered| == Min(|old(delivered)| + if e.Request? then 1 else 0, |Pieces(all, separator)|)
        && (stopped <==> old(stopped) || (e.Request? && |old(delivered)| == |Pieces(all, separator)|))
      ensures e.Request? && (old(watching) || old(stopped)) ==> delivered == old(delivered)
      ensures e.Readable? && !old(watching) ==> delivered == old(delivered) && stopped == old(stopped)
      ensures e.Readable? && old(watching) && AllThere(e.sizes) ==> !watching
    {
      assert this !in buffer.repr;
      SoFar();
      hide Valid, Pieces;
      match e {
        case Request(sizes) =>
          if !stopped && !watching {
            ReadChunk(sizes);
          }
        case Readable(sizes) =>
          if watching {
            WatchingMeansMore();
            ReadCb(sizes);
          }
      }
      SoFar();
    }

    lemma WatchingMeansMore()
      requires Valid() && watching
      ensures !stopped && !eof
    {
    }

    lemma SoFar()
      requires Valid()
      ensures delivered <= Pieces(all, separator) && this !in buffer.repr
      ensures stopped ==> delivered == Pieces(all, separator) && eofs == 1
    {
      assert eof ==> buffer.Contents() + unread == "";
      assert stopped ==> Pieces("", separator) == [];
    }
  }

  datatype Event = Request(sizes: nat -> nat) | Readable(sizes: nat -> nat)

  /** For a request, everything is there that is to be read. */
  ghost predicate Ready(e: Event) {
    e.Request? ==> AllThere(e.sizes)
  }

  ghost predicate AllReady(events: seq<Event>) {
    forall i | 0 <= i < |events| :: Ready(events[i])
  }

  ghost function Requests(events: seq<Event>): nat
    decreases |events|
  {
    if events == [] then 0 else Requests(events[..|events| - 1]) + if events[|events| - 1].Request? then 1 else 0
  }

  lemma OneMoreRequest(events: seq<Event>, i: nat)
    requires i < |events|
    ensures Requests(events[..i + 1]) == Requests(events[..i]) + if events[i].Request? then 1 else 0
    ensures AllReady(events) ==> Ready(events[i])
  {
    assert events[..i + 1][..i] == events[..i];
  }

  lemma ReadsStep(buffered: string, unread: string, separator: char, sizes: nat -> nat, k: nat)
    ensures Reads(buffered, unread, separator, sizes, k)
         == if separator in buffered || unread == "" || sizes(k) == 0 then 0
            else
              var n := Min(sizes(k), |unread|);
              n + Reads(buffered + unread[..n], unread[n..], separator, sizes, k + 1)
  {
  }

  lemma Glue(whole: seq<string>, before: seq<string>, piece: string, rest: seq<string>)
    ensures whole == before + ([piece] + rest) ==> whole == before + [piece] + rest
  {
  }

  lemma MoveBytes(a: string, b: string, n: nat)
    requires n <= |b|
    ensures a + b == a + b[..n] + b[n..]
  {
  }
}
