/**
  The block buffer: a linked list of fixed-size blocks with an offset into the first
  and into the last one, which behaves like a queue of bytes. A C `char` is a `char`.
 */
module ByteBuffer {
  import opened Sequences

  const BLOCK_SIZE: nat := 128

  // ----- The bytes of a list of blocks, as values -----

  ghost function Flat(ss: seq<seq<char>>): seq<char> {
    if ss == [] then [] else ss[0] + Flat(ss[1..])
  }

  ghost predicate Blocks(ss: seq<seq<char>>) {
    forall i | 0 <= i < |ss| :: |ss[i]| == BLOCK_SIZE
  }

  lemma {:induction false} FlatLength(ss: seq<seq<char>>)
    requires Blocks(ss)
    ensures |Flat(ss)| == |ss| * BLOCK_SIZE
    decreases |ss|
  {
    if ss != [] { FlatLength(ss[1..]); }
  }

  lemma {:induction false} FlatAppend(a: seq<seq<char>>, b: seq<seq<char>>)
    ensures Flat(a + b) == Flat(a) + Flat(b)
    decreases |a|
  {
    if a == [] {
      assert a + b == b;
    } else {
      assert (a + b)[1..] == a[1..] + b;
      FlatAppend(a[1..], b);
    }
  }

  /** What lies between the offset into the first and the offset into the last block. */
  ghost function Window(ss: seq<seq<char>>, start: nat, end: nat): seq<char>
    requires Blocks(ss) && start <= BLOCK_SIZE && end <= BLOCK_SIZE && (|ss| == 1 ==> start <= end)
  {
    FlatLength(ss);
    if ss == [] then [] else Flat(ss)[start..(|ss| - 1) * BLOCK_SIZE + end]
  }

  /** A new block at the end changes nothing if the last one is full. */
  lemma WindowAdd(ss: seq<seq<char>>, start: nat, block: seq<char>)
    requires Blocks(ss) && ss != [] && start <= BLOCK_SIZE && |block| == BLOCK_SIZE
    ensures Blocks(ss + [block]) && Window(ss + [block], start, 0) == Window(ss, start, BLOCK_SIZE)
  {
    FlatAppend(ss, [block]);
    FlatLength(ss);
    FlatLength(ss + [block]);
  }

  /** Copying to the end of the last block. */
  lemma WindowFill(ss: seq<seq<char>>, start: nat, end: nat, block: seq<char>, n: nat)
    requires Blocks(ss) && ss != [] && start <= BLOCK_SIZE && end + n <= BLOCK_SIZE && (|ss| == 1 ==> start <= end)
    requires |block| == BLOCK_SIZE && block[..end] == ss[|ss| - 1][..end]
    ensures Blocks(ss[|ss| - 1 := block])
    ensures Window(ss[|ss| - 1 := block], start, end + n) == Window(ss, start, end) + block[end..end + n]
  {
    var init, last := ss[..|ss| - 1], ss[|ss| - 1];
    assert ss == init + [last] && ss[|ss| - 1 := block] == init + [block];
    assert Blocks(init) && |last| == BLOCK_SIZE && (init == [] <==> |ss| == 1);
    hide *;
    LastFilled(init, last, block, start, end, n);
  }

  lemma LastFilled(init: seq<seq<char>>, last: seq<char>, block: seq<char>, start: nat, end: nat, n: nat)
    requires Blocks(init) && |last| == |block| == BLOCK_SIZE && start <= BLOCK_SIZE && end + n <= BLOCK_SIZE
    requires (init == [] ==> start <= end) && block[..end] == last[..end]
    ensures Blocks(init + [last]) && Blocks(init + [block])
    ensures Window(init + [block], start, end + n) == Window(init + [last], start, end) + block[end..end + n]
  {
    var f := Flat(init);
    var mid := |f| + end;
    var to, end' := mid + n, end + n;
    hide *;
    WindowSnoc(init, last, start, end, mid);
    WindowSnoc(init, block, start, end', to);
    SliceTail(f, last, block, start, end, n, mid, to);
  }

  lemma FlatSnoc(ss: seq<seq<char>>, s: seq<char>)
    ensures Flat(ss + [s]) == Flat(ss) + s
  {
    FlatAppend(ss, [s]);
    assert [s][1..] == [] && s + [] == s;
    assert Flat([s]) == s;
  }

  lemma WindowSnoc(init: seq<seq<char>>, last: seq<char>, start: nat, end: nat, to: nat)
    requires Blocks(init) && |last| == BLOCK_SIZE && start <= BLOCK_SIZE && end <= BLOCK_SIZE
    requires (init == [] ==> start <= end)
    requires to == |Flat(init)| + end
    ensures Blocks(init + [last]) && start <= to <= |Flat(init) + last|
    ensures Window(init + [last], start, end) == (Flat(init) + last)[start..to]
  {
    var whole := init + [last];
    FlatLength(init);
    FlatSnoc(init, last);
    assert Blocks(whole) && (|whole| - 1) * BLOCK_SIZE + end == to;
    hide Flat, Blocks;
  }

  lemma SliceTail(f: seq<char>, a: seq<char>, b: seq<char>, start: nat, end: nat, n: nat, mid: nat, to: nat)
    requires mid == |f| + end && to == mid + n && start <= mid && end + n <= |b| && end <= |a| && a[..end] == b[..end]
    ensures (f + b)[start..to] == (f + a)[start..mid] + b[end..end + n]
  {
    var l, r := (f + b)[start..to], (f + a)[start..mid] + b[end..end + n];
    forall i | 0 <= i < |l|
      ensures l[i] == r[i]
    {
      if |f| <= start + i < mid {
        assert a[..end][start + i - |f|] == b[..end][start + i - |f|];
      }
    }
  }

  /** Advancing in the first block takes bytes from the front. */
  lemma WindowTake(ss: seq<seq<char>>, start: nat, end: nat, n: nat)
    requires Blocks(ss) && ss != [] && start + n <= BLOCK_SIZE && end <= BLOCK_SIZE && (|ss| == 1 ==> start + n <= end)
    ensures n <= |Window(ss, start, end)|
    ensures Window(ss, start, end)[..n] == ss[0][start..start + n]
    ensures Window(ss, start, end)[n..] == Window(ss, start + n, end)
  {
    FlatLength(ss);
    assert Flat(ss)[..BLOCK_SIZE] == ss[0];
  }

  /** A first block that has been read completely can go. */
  lemma WindowDrop(ss: seq<seq<char>>, end: nat)
    requires Blocks(ss) && ss != [] && end <= BLOCK_SIZE && (|ss| == 1 ==> end == BLOCK_SIZE)
    ensures Window(ss[1..], 0, end) == Window(ss, BLOCK_SIZE, end)
  {
    FlatLength(ss);
    FlatLength(ss[1..]);
  }

  lemma WindowSize(ss: seq<seq<char>>, start: nat, end: nat)
    requires Blocks(ss) && start <= BLOCK_SIZE && end <= BLOCK_SIZE && (|ss| == 1 ==> start <= end)
    ensures |Window(ss, start, end)| == if ss == [] then 0 else (|ss| - 1) * BLOCK_SIZE + end - start
  {
    FlatLength(ss);
  }

  lemma {:induction false} FlatAt(ss: seq<seq<char>>, k: nat, i: nat)
    requires Blocks(ss) && k < |ss| && i < BLOCK_SIZE
    ensures k * BLOCK_SIZE + i < |Flat(ss)| && Flat(ss)[k * BLOCK_SIZE + i] == ss[k][i]
    decreases |ss|
  {
    FlatLength(ss);
    if k > 0 {
      FlatAt(ss[1..], k - 1, i);
    }
  }

  /** The byte at offset i of block k. */
  lemma WindowAt(ss: seq<seq<char>>, start: nat, end: nat, k: nat, i: nat)
    requires Blocks(ss) && start <= BLOCK_SIZE && end <= BLOCK_SIZE && (|ss| == 1 ==> start <= end)
    requires k < |ss| && i < (if k == |ss| - 1 then end else BLOCK_SIZE) && (k == 0 ==> start <= i)
    ensures var p := k * BLOCK_SIZE + i - start;
      0 <= p < |Window(ss, start, end)| && Window(ss, start, end)[p] == ss[k][i]
  {
    FlatAt(ss, k, i);
    FlatLength(ss);
  }

  // ----- Searching -----

  /** Position of the first `c`, counted from 1, or 0 if there is none. */
  function FirstAfter(s: seq<char>, c: char): (pos: nat)
    ensures pos <= |s| && (pos == 0 <==> c !in s)
    ensures pos > 0 ==> s[pos - 1] == c && c !in s[..pos - 1]
  {
    if s == [] then 0
    else if s[0] == c then 1
    else
      var rest := FirstAfter(s[1..], c);
      if rest == 0 then 0 else
        assert s[..rest] == [s[0]] + s[1..][..rest - 1];
        rest + 1
  }

  lemma FirstOfBoth(a: seq<char>, b: seq<char>, c: char)
    requires FirstAfter(a, c) > 0
    ensures FirstAfter(a + b, c) == FirstAfter(a, c)
  {
    var pos := FirstAfter(a, c);
    assert (a + b)[..pos - 1] == a[..pos - 1];
    OneMore(a + b, pos, c);
  }

  // ----- The buffer -----

  class Block {
    const data: array<char>
    var next: Block?

    constructor ()
      ensures data.Length == BLOCK_SIZE && next == null && fresh(data)
    {
      data := new char[BLOCK_SIZE];
      next := null;
    }
  }

  class Buffer {
    var first: Block?
    var last: Block?
    var startOffset: nat
    var endOffset: nat
    var size: nat
    ghost var blocks: seq<Block>
    ghost var bytes: seq<seq<char>>    // what is in the blocks
    ghost var repr: set<object>        // the blocks and the arrays in them

    ghost predicate Linked()
      reads this`first, this`last, this`blocks, blocks`next
    {
      && (blocks == [] ==> first == null && last == null)
      && (blocks != [] ==> first == blocks[0] && last == blocks[|blocks| - 1] && last.next == null)
      && (forall i {:trigger blocks[i].next} | 0 <= i < |blocks| - 1 :: blocks[i].next == blocks[i + 1])
    }

    ghost predicate Separate()
      reads this`blocks, this`repr
    {
      && this !in repr
      && (forall i | 0 <= i < |blocks| ::
            blocks[i] in repr && blocks[i].data in repr && blocks[i].data.Length == BLOCK_SIZE)
      && (forall i, j | 0 <= i < j < |blocks| :: blocks[i] != blocks[j] && blocks[i].data != blocks[j].data)
    }

    ghost predicate Holds()
      reads this`blocks, this`bytes, set b | b in blocks :: b.data
    {
      |bytes| == |blocks| && forall i | 0 <= i < |blocks| :: blocks[i].data[..] == bytes[i]
    }

    ghost predicate OffsetsOk()
      reads this`bytes, this`startOffset, this`endOffset
    {
      && Blocks(bytes)
      && startOffset <= BLOCK_SIZE && endOffset <= BLOCK_SIZE
      && (bytes == [] ==> startOffset == 0)
      && (|bytes| == 1 ==> startOffset <= endOffset)
    }

    ghost predicate Shape()
      reads this, blocks, set b | b in blocks :: b.data
    {
      Linked() && Separate() && Holds() && OffsetsOk()
    }

    /** The bytes in the buffer. */
    ghost function Contents(): seq<char>
      requires OffsetsOk()
      reads this`bytes, this`startOffset, this`endOffset
    {
      Window(bytes, startOffset, endOffset)
    }

    ghost predicate Valid()
      reads this, repr
    {
      && Separate() && Shape() && startOffset < BLOCK_SIZE
      && size == |Contents()|
      && (bytes != [] ==> size > 0)
    }

    lemma Sized()
      requires Valid()
      ensures OffsetsOk() && size == |Contents()|
    {
    }

    constructor ()
      ensures Valid() && Contents() == [] && repr == {}
    {
      first, last := null, null;
      startOffset, endOffset, size := 0, 0, 0;
      blocks, bytes, repr := [], [], {};
    }

    /** buffer_free followed by buffer_new */
    method Renew()
      modifies this
      ensures Valid() && Contents() == [] && repr == {}
    {
      first, last := null, null;
      startOffset, endOffset, size := 0, 0, 0;
      blocks, bytes, repr := [], [], {};
    }

    /** block_add */
    method BlockAdd()
      requires Shape() && (bytes == [] || endOffset == BLOCK_SIZE)
      modifies this`first, this`last, this`blocks, this`bytes, this`repr, this`endOffset, repr
      ensures Shape() && endOffset == 0 && Contents() == old(Contents())
      ensures bytes != [] && fresh(repr - old(repr))
    {
      GrowContents();
      hide Window;
      AddLink();
      endOffset := 0;
    }

    lemma GrowContents()
      requires OffsetsOk() && (bytes == [] || endOffset == BLOCK_SIZE)
      ensures forall block: seq<char> | |block| == BLOCK_SIZE ::
        Blocks(bytes + [block]) && Window(bytes + [block], startOffset, 0) == Contents()
    {
      forall block: seq<char> | |block| == BLOCK_SIZE
        ensures Blocks(bytes + [block]) && Window(bytes + [block], startOffset, 0) == Contents()
      {
        if bytes != [] {
          WindowAdd(bytes, startOffset, block);
        } else {
          WindowSize(bytes + [block], startOffset, 0);
        }
      }
    }

    method AddLink()
      requires Linked() && Separate() && Holds()
      modifies this`first, this`last, this`blocks, this`bytes, this`repr, repr
      ensures Linked() && Separate() && Holds()
      ensures |bytes| == |old(bytes)| + 1 && bytes == old(bytes) + [bytes[|bytes| - 1]]
      ensures |bytes[|bytes| - 1]| == BLOCK_SIZE
      ensures fresh(repr - old(repr))
    {
      var blk := new Block();
      if first == null {
        first := blk;
      } else {
        last.next := blk;
      }
      last := blk;
      last.next := null;
      blocks, bytes, repr := blocks + [blk], bytes + [blk.data[..]], repr + {blk, blk.data};
    }

    /** block_remove, and the reset of the start offset that goes with every use of it */
    method BlockRemove()
      requires Shape() && bytes != []
      requires startOffset == BLOCK_SIZE || (|bytes| == 1 && startOffset == endOffset)
      modifies this`first, this`last, this`blocks, this`bytes, this`startOffset
      ensures Shape() && startOffset == 0 && Contents() == old(Contents())
      ensures bytes == old(bytes)[1..]
    {
      ShrinkContents();
      hide Window;
      Unlink();
      startOffset := 0;
    }

    lemma ShrinkContents()
      requires OffsetsOk() && bytes != []
      requires startOffset == BLOCK_SIZE || (|bytes| == 1 && startOffset == endOffset)
      ensures Window(bytes[1..], 0, endOffset) == Contents()
    {
      if startOffset == BLOCK_SIZE {
        WindowDrop(bytes, endOffset);
      }
      WindowSize(bytes, startOffset, endOffset);
    }

    method Unlink()
      requires Linked() && Separate() && Holds() && bytes != []
      modifies this`first, this`last, this`blocks, this`bytes
      ensures Linked() && Separate() && Holds() && bytes == old(bytes)[1..]
    {
      assert |blocks| > 1 ==> blocks[0].next == blocks[1];
      first := first.next;
      blocks, bytes := blocks[1..], bytes[1..];
      if first == null {
        last := null;
      }
    }

    // ----- Append -----

    /** memcpy to the end of the last block */
    method Fill(chunk: seq<char>)
      requires Shape() && bytes != [] && endOffset + |chunk| <= BLOCK_SIZE
      modifies this`endOffset, this`bytes, last.data
      ensures Shape() && Contents() == old(Contents()) + chunk && endOffset == old(endOffset) + |chunk|
      ensures bytes != []
    {
      ghost var before := bytes;
      hide Window;
      CopyIn(chunk);
      assert last.data[..][endOffset..endOffset + |chunk|] == chunk;
      WindowFill(before, startOffset, endOffset, last.data[..], |chunk|);
      endOffset := endOffset + |chunk|;
    }

    method CopyIn(chunk: seq<char>)
      requires Linked() && Separate() && Holds() && bytes != [] && endOffset + |chunk| <= BLOCK_SIZE
      modifies this`bytes, last.data
      ensures Holds() && bytes == old(bytes)[|bytes| - 1 := last.data[..]]
      ensures last.data[..endOffset] == old(last.data[..endOffset])
      ensures last.data[endOffset..endOffset + |chunk|] == chunk
    {
      forall i | 0 <= i < |chunk| {
        last.data[endOffset + i] := chunk[i];
      }
      bytes := bytes[|bytes| - 1 := last.data[..]];
      forall i | 0 <= i < |blocks| - 1
        ensures blocks[i].data[..] == bytes[i]
      {
        assert blocks[i].data != blocks[|blocks| - 1].data;
      }
    }

    /** One turn of the loop of buffer_append. */
    method AppendSome(input: seq<char>) returns (n: nat)
      requires Shape() && input != []
      modifies this`first, this`last, this`blocks, this`bytes, this`repr, this`endOffset, repr
      ensures Shape() && OffsetsOk() && 0 < n <= |input| && Contents() == old(Contents()) + input[..n]
      ensures bytes != [] && fresh(repr - old(repr))
    {
      var available := if last == null then 0 else BLOCK_SIZE - endOffset;
      if available == 0 {
        BlockAdd();
        available := BLOCK_SIZE;
      }
      n := if |input| < available then |input| else available;
      Fill(input[..n]);
    }

    /** The loop of buffer_append. */
    method AppendAll(input: seq<char>)
      requires Shape()
      modifies this`first, this`last, this`blocks, this`bytes, this`repr, this`endOffset, repr
      ensures Shape() && OffsetsOk() && Contents() == old(Contents()) + input
      ensures fresh(repr - old(repr)) && (input == [] ==> bytes == old(bytes))
    {
      var nTodo: nat := |input|;
      ghost var before := Contents();
      assert OffsetsOk();
      hide Shape, Contents, OffsetsOk;
      while nTodo > 0
        invariant nTodo <= |input| && Shape() && OffsetsOk() && fresh(repr - old(repr))
        invariant Contents() == before + input[..|input| - nTodo]
        invariant nTodo == |input| ==> bytes == old(bytes)
      {
        var n := AppendSome(input[|input| - nTodo..]);
        nTodo := nTodo - n;
      }
    }

    /** buffer_append */
    method Append(input: seq<char>)
      requires Valid()
      modifies this, repr
      ensures Valid() && Contents() == old(Contents()) + input
      ensures fresh(repr - old(repr))
    {
      hide Window;
      AppendAll(input);
      size := size + |input|;
    }

    // ----- Read -----

    /** One turn of the loop of buffer_read. */
    method ReadSome(output: array<char>, at: nat, nTodo: nat) returns (n: nat)
      requires Shape() && startOffset < BLOCK_SIZE && 0 < nTodo <= |Contents()| && at + nTodo <= output.Length
      requires output !in repr
      modifies this`first, this`last, this`blocks, this`bytes, this`startOffset, output
      ensures Shape() && OffsetsOk() && startOffset < BLOCK_SIZE && 0 < n <= nTodo
      ensures output[..at + n] == old(output[..at]) + old(Contents())[..n] && output[at + n..] == old(output[at + n..])
      ensures Contents() == old(Contents())[n..]
    {
      WindowSize(bytes, startOffset, endOffset);
      n := if nTodo < BLOCK_SIZE - startOffset then nTodo else BLOCK_SIZE - startOffset;
      WindowTake(bytes, startOffset, endOffset, n);
      hide Window;
      CopyOut(output, at, n);
      Advance(n);
    }

    /** The first bytes have been taken; a block that has been read completely goes. */
    method Advance(n: nat)
      requires Shape() && bytes != [] && startOffset + n <= BLOCK_SIZE
      requires (|bytes| == 1 ==> startOffset + n <= endOffset)
      modifies this`first, this`last, this`blocks, this`bytes, this`startOffset
      ensures Shape() && startOffset < BLOCK_SIZE && n <= |old(Contents())| && Contents() == old(Contents())[n..]
    {
      WindowTake(bytes, startOffset, endOffset, n);
      hide Window, Blocks;
      startOffset := startOffset + n;
      if startOffset == BLOCK_SIZE {
        BlockRemove();
      }
    }

    /** memcpy from the first block */
    method CopyOut(output: array<char>, at: nat, n: nat)
      requires Linked() && Separate() && Holds() && bytes != [] && startOffset + n <= BLOCK_SIZE
      requires at + n <= output.Length && output !in repr
      modifies output
      ensures Holds()
      ensures output[..at + n] == old(output[..at]) + bytes[0][startOffset..startOffset + n]
      ensures output[at + n..] == old(output[at + n..])
    {
      forall i | 0 <= i < n {
        output[at + i] := first.data[startOffset + i];
      }
      assert first.data[..] == bytes[0];
      assert output[at..at + n] == bytes[0][startOffset..startOffset + n];
      assert output[..at + n] == output[..at] + output[at..at + n];
    }

    /** buffer_read */
    method Read(output: array<char>, n0: nat) returns (nTotal: nat)
      requires Valid() && n0 <= output.Length && output !in repr
      modifies this`first, this`last, this`blocks, this`bytes, this`startOffset, this`size, output
      ensures Valid() && OffsetsOk() && nTotal == Min(n0, |old(Contents())|)
      ensures output[..nTotal] == old(Contents())[..nTotal] && output[nTotal..] == old(output[nTotal..])
      ensures Contents() == old(Contents())[nTotal..]
    {
      nTotal := Min(n0, size);
      ReadAll(output, nTotal);
      size := size - nTotal;
      hide Window, Linked, Separate, Holds;
      RemoveIfEmpty();
    }

    /** Removing the last block of an empty buffer makes it more likely that the next chunk can be detached. */
    method RemoveIfEmpty()
      requires Shape() && startOffset < BLOCK_SIZE && size == |Contents()|
      modifies this`first, this`last, this`blocks, this`bytes, this`startOffset
      ensures Valid() && OffsetsOk() && Contents() == old(Contents())
    {
      WindowSize(bytes, startOffset, endOffset);
      hide Window;
      if size == 0 && first != null {
        BlockRemove();
      }
    }

    method ReadAll(output: array<char>, nTotal: nat)
      requires Valid() && nTotal <= |Contents()| && nTotal <= output.Length && output !in repr
      modifies this`first, this`last, this`blocks, this`bytes, this`startOffset, output
      ensures Shape() && startOffset < BLOCK_SIZE
      ensures output[..nTotal] == old(Contents())[..nTotal] && output[nTotal..] == old(output[nTotal..])
      ensures Contents() == old(Contents())[nTotal..]
    {
      var nTodo: nat := nTotal;
      ghost var before, out0 := Contents(), output[..];
      ghost var done: nat := 0;
      hide Linked, Separate, Holds, Window, Shape, Contents, OffsetsOk, Blocks;
      while nTodo > 0
        invariant done + nTodo == nTotal && Shape() && startOffset < BLOCK_SIZE && OffsetsOk()
        invariant output[..done] == before[..done]
        invariant output[done..] == out0[done..]
        invariant Contents() == before[done..]
      {
        var n := ReadSome(output, nTotal - nTodo, nTodo);
        SplitAgain(before, done, n);
        nTodo, done := nTodo - n, done + n;
      }
    }

    // ----- Read into memory of its own -----

    /** block_detach: hand out the only block instead of copying it. */
    method BlockDetach(n: nat) returns (data: array?<char>)
      requires Valid()
      modifies this`first, this`last, this`blocks, this`bytes, this`repr, this`startOffset, this`endOffset, this`size
      ensures Valid() && OffsetsOk()
      ensures data == null ==> Contents() == old(Contents()) && repr == old(repr)
      ensures data != null ==>
        && Contents() == [] && repr == {} && data in old(repr)
        && n == |old(Contents())| <= data.Length && data[..n] == old(Contents())
      ensures data != null <==> old(first) != null && old(first) == old(last) && old(startOffset) == 0 && old(size) == n
      ensures data != null ==> data == old(first).data
    {
      WindowSize(bytes, startOffset, endOffset);
      if first != null && first == last && startOffset == 0 && size == n {
        OnlyBlock();
        data := first.data;
        first, last := null, null;
        startOffset, endOffset, size := 0, 0, 0;
        blocks, bytes, repr := [], [], {};
      } else {
        data := null;
      }
    }

    lemma OnlyBlock()
      requires Valid() && first != null && first == last && startOffset == 0
      ensures |bytes| == 1 && bytes[0] == first.data[..] && Contents() == first.data[..size]
    {
      assert blocks[0] == blocks[|blocks| - 1];
      FlatLength(bytes);
      assert Flat(bytes) == bytes[0] by { assert bytes[1..] == []; }
      WindowSize(bytes, startOffset, endOffset);
    }

    /** buffer_read_alloc: the caller owns what it gets; the buffer has no access to it any more. */
    method ReadAlloc(n: nat) returns (data: array<char>, got: nat)
      requires Valid()
      modifies this
      ensures Valid() && OffsetsOk() && got == Min(n, |old(Contents())|) <= data.Length
      ensures data[..got] == old(Contents())[..got] && Contents() == old(Contents())[got..]
      ensures repr <= old(repr) && data !in repr && (fresh(data) || data in old(repr))
    {
      hide Linked, Separate, Holds, Window, Shape, Contents, OffsetsOk, Blocks;
      var detached := BlockDetach(n);
      if detached == null {
        data := new char[n];
        got := Read(data, n);
      } else {
        data, got := detached, n;
      }
    }

    /** buffer_slurp */
    method Slurp() returns (data: array<char>, got: nat)
      requires Valid()
      modifies this
      ensures Valid() && got == |old(Contents())| <= data.Length
      ensures data[..got] == old(Contents()) && Contents() == []
      ensures repr <= old(repr) && data !in repr && (fresh(data) || data in old(repr))
    {
      hide Linked, Separate, Holds, Window, Shape, Contents, OffsetsOk, Blocks;
      data, got := ReadAlloc(size);
    }

    // ----- Lines and chunks -----

    /** buffer_find_char */
    method FindChar(character: char) returns (found: nat)
      requires Valid()
      ensures found == FirstAfter(Contents(), character)
    {
      var b: Block? := first;
      var pos: nat := 1;
      ghost var k: nat := 0;
      WindowSize(bytes, startOffset, endOffset);
      while b != null
        invariant k <= |blocks| && b == (if k < |blocks| then blocks[k] else null)
        invariant pos - 1 == if k == 0 then 0 else if k < |bytes| then k * BLOCK_SIZE - startOffset else |Contents()|
        invariant NotBefore(Contents(), pos, character)
        decreases |blocks| - k
      {
        assert k == 0 <==> b == first;
        assert k == |blocks| - 1 <==> b == last;
        var i := if b == first then startOffset else 0;
        var end := if b == last then endOffset else BLOCK_SIZE;
        var there;
        there, pos := ScanBlock(b, k, i, end, pos, character);
        if there {
          return pos;
        }
        k := k + 1;
        b := b.next;
      }
      found := 0;
    }

    /** The inner loop of buffer_find_char. */
    method ScanBlock(b: Block, ghost k: nat, i0: nat, end: nat, pos0: nat, character: char)
      returns (there: bool, pos: nat)
      requires Valid() && k < |blocks| && b == blocks[k] && i0 <= end
      requires end == (if k == |blocks| - 1 then endOffset else BLOCK_SIZE) && (k == 0 ==> startOffset <= i0)
      requires pos0 >= 1 && pos0 - 1 + startOffset == k * BLOCK_SIZE + i0
      requires NotBefore(Contents(), pos0, character)
      ensures there ==> pos == FirstAfter(Contents(), character)
      ensures !there ==> pos == pos0 + end - i0 && NotBefore(Contents(), pos, character)
    {
      var i := i0;
      pos := pos0;
      hide Window, Linked, FirstAfter, NotBefore;
      while i < end
        invariant i0 <= i <= end && pos == pos0 + i - i0
        invariant NotBefore(Contents(), pos, character)
      {
        WindowAt(bytes, startOffset, endOffset, k, i);
        OneMore(Contents(), pos, character);
        if b.data[i] == character {
          return true, pos;
        }
        i, pos := i + 1, pos + 1;
      }
      there := false;
    }

    /** Read n bytes, unless n is 0. */
    method ReadThrough(n: nat) returns (data: array?<char>)
      requires Valid() && n <= |Contents()|
      modifies this
      ensures Valid() && OffsetsOk() && repr <= old(repr)
      ensures n == 0 ==> data == null && Contents() == old(Contents())
      ensures n > 0 ==> data != null && data !in repr && (fresh(data) || data in old(repr))
      ensures n > 0 ==> n <= data.Length && data[..n] == old(Contents())[..n] && Contents() == old(Contents())[n..]
    {
      assert OffsetsOk();
      hide Linked, Separate, Holds, Window, Shape, Contents, OffsetsOk, Blocks;
      data := null;
      if n != 0 {
        var got;
        data, got := ReadAlloc(n);
      }
    }

    /** buffer_read_line: the text up to the first newline, as a C string. */
    method ReadLine() returns (line: array?<char>)
      requires Valid()
      modifies this, repr
      ensures Valid() && repr <= old(repr)
      ensures var pos := FirstAfter(old(Contents()), '\n');
        if pos == 0 then line == null && Contents() == old(Contents())
        else
          && line != null && line !in repr && (fresh(line) || line in old(repr))
          && HoldsString(line, Chomped(old(Contents())[..pos - 1]))
          && Contents() == old(Contents())[pos..]
    {
      var n := FindChar('\n');
      ghost var before := Contents();
      hide Valid, OffsetsOk, Contents, FirstAfter, HoldsString, Chomped;
      line := ReadThrough(n);
      if line != null {
        assert before[..n][..n - 1] == before[..n - 1];
        TerminateLine(line, n, before[..n]);
      }
    }

    /** buffer_read_chunk: the text up to the first terminator, as a C string. */
    method ReadChunk(terminator: char) returns (chunk: array?<char>)
      requires Valid()
      modifies this, repr
      ensures Valid() && repr <= old(repr)
      ensures var pos := FirstAfter(old(Contents()), terminator);
        if pos == 0 then chunk == null && Contents() == old(Contents())
        else
          && chunk != null && chunk !in repr && (fresh(chunk) || chunk in old(repr))
          && HoldsString(chunk, old(Contents())[..pos - 1])
          && Contents() == old(Contents())[pos..]
    {
      var n := FindChar(terminator);
      ghost var before := Contents();
      hide Valid, OffsetsOk, Contents, FirstAfter, HoldsString;
      chunk := ReadThrough(n);
      if chunk != null {
        assert before[..n][..n - 1] == before[..n - 1];
        Terminate(chunk, n, before[..n]);
      }
    }
  }

  method Terminate(a: array<char>, n: nat, ghost text: seq<char>)
    requires 0 < n <= a.Length && a[..n] == text
    modifies a
    ensures HoldsString(a, text[..n - 1])
  {
    a[n - 1] := '\0';
    assert a[..n - 1] == text[..n - 1];
  }

  method TerminateLine(line: array<char>, n: nat, ghost text: seq<char>)
    requires 0 < n <= line.Length && line[..n] == text
    modifies line
    ensures HoldsString(line, Chomped(text[..n - 1]))
  {
    if n >= 2 && line[n - 2] == '\r' {
      assert text[n - 2] == '\r';
      line[n - 2] := '\0';
      assert line[..n - 2] == text[..n - 2];
    } else {
      assert n >= 2 ==> text[n - 2] == line[n - 2];
      line[n - 1] := '\0';
      assert line[..n - 1] == text[..n - 1];
    }
  }

  /** The array starts with the text and a terminating NUL. */
  ghost predicate HoldsString(a: array<char>, text: seq<char>)
    reads a
  {
    |text| < a.Length && a[..|text|] == text && a[|text|] == '\0'
  }

  /** `c` is not among the first pos - 1 bytes. */
  ghost predicate NotBefore(s: seq<char>, pos: nat, c: char) {
    1 <= pos <= |s| + 1 && c !in s[..pos - 1]
  }

  lemma OneMore(s: seq<char>, pos: nat, c: char)
    requires pos <= |s| && NotBefore(s, pos, c)
    ensures if s[pos - 1] == c then pos == FirstAfter(s, c) else NotBefore(s, pos + 1, c)
  {
    var first := FirstAfter(s, c);
    assert forall j | 0 <= j < pos - 1 :: s[..pos - 1][j] == s[j];
    if first > 0 {
      assert forall j | 0 <= j < first - 1 :: s[..first - 1][j] == s[j];
    }
  }

  lemma SplitAgain(s: seq<char>, i: nat, n: nat)
    requires i + n <= |s|
    ensures s[..i] + s[i..][..n] == s[..i + n] && s[i..][n..] == s[i + n..]
  {
  }

  /** A line without its newline: a carriage return before that goes too. */
  function Chomped(line: seq<char>): seq<char> {
    if line != [] && line[|line| - 1] == '\r' then line[..|line| - 1] else line
  }
}
