/** The reassembler itself: an ordered map of waiting substrings in front of a ring buffer. */
module StreamReassemblers {
  import opened Numbers
  import opened ByteStreams
  import opened Reassembly
  import Exactness

  /** Removing the chunk at the lower bound leaves the lower bound where it is. */
  lemma {:induction false} LowerBoundAfterErase(left: seq<Chunk>, right: seq<Chunk>, index: nat)
    requires forall i :: 0 <= i < |left| ==> left[i].start < index
    requires right == [] || index <= right[0].start
    ensures LowerBound(left + right, index) == |left|
  {
    if left == [] {
      assert left + right == right;
    } else {
      assert (left + right)[1..] == left[1..] + right;
      LowerBoundAfterErase(left[1..], right, index);
    }
  }

  /** The map without its `k`-th entry. */
  function Erase(chunks: seq<Chunk>, k: nat): (rest: seq<Chunk>)
    requires k < |chunks|
    ensures |rest| == |chunks| - 1
  {
    chunks[..k] + chunks[k + 1..]
  }

  /** One round of the merge loop. */
  lemma MergeStep(chunks: seq<Chunk>, index: nat, str: seq<byte>)
    requires Sorted(chunks)
    requires var k := LowerBound(chunks, index); k < |chunks| && chunks[k].start <= index + |str|
    ensures var k := LowerBound(chunks, index);
      var rest := Erase(chunks, k);
      && LowerBound(rest, index) == k
      && rest[..k] == chunks[..k]
      && Sorted(rest)
      && TotalSize(chunks) == TotalSize(rest) + |chunks[k].data|
      && AbsorbRight(chunks[k..], index, str) == AbsorbRight(rest[k..], index, ExtendRight(chunks[k], index, str))
  {
    hide TotalSize;
    hide LowerBound;
    var k := LowerBound(chunks, index);
    LowerBoundAfterErase(chunks[..k], chunks[k + 1..], index);
    RemoveSize(chunks, k);
    assert chunks[k..][0] == chunks[k];
    assert chunks[k..][1..] == Erase(chunks, k)[k..];
  }

  /** The left merge takes out one entry or none. */
  lemma LeftMerge(chunks: seq<Chunk>, k: nat, index: nat, str: seq<byte>)
    requires Sorted(chunks) && k <= |chunks| && k == LowerBound(chunks, index)
    ensures var l := AbsorbLeft(chunks[..k], index, str);
      if k != 0 && chunks[k - 1].End() >= index then
        && l.index == chunks[k - 1].start
        && l.rest == chunks[..k - 1] && l.rest + chunks[k..] == Erase(chunks, k - 1)
        && TotalSize(chunks) == TotalSize(Erase(chunks, k - 1)) + |chunks[k - 1].data|
        && LowerBound(Erase(chunks, k - 1), chunks[k - 1].start) == k - 1
      else
        l == Merged(chunks[..k], index, str) && l.rest + chunks[k..] == chunks
  {
    if k != 0 {
      assert chunks[..k][..k - 1] == chunks[..k - 1];
      RemoveSize(chunks, k - 1);
      LowerBoundAfterErase(chunks[..k - 1], chunks[k..], chunks[k - 1].start);
    }
  }

  /** Doing the right merge in the map first gives the same placement. */
  lemma PlaceByMerging(chunks: seq<Chunk>, data: seq<byte>, index: nat, merged: seq<Chunk>)
    requires var k := LowerBound(chunks, index);
      && merged == chunks[..k] + AbsorbRight(chunks[k..], index, data).rest
      && LowerBound(merged, index) == k
    ensures var k := LowerBound(chunks, index);
      var l := AbsorbLeft(merged[..k], index, AbsorbRight(chunks[k..], index, data).str);
      Place(chunks, data, index) == Placed(l.rest, l.index, l.str, merged[k..])
  {
    var k := LowerBound(chunks, index);
    assert merged[..k] == chunks[..k];
    assert merged[k..] == AbsorbRight(chunks[k..], index, data).rest;
  }

  /** Inserting the merged string into the map it was taken out of is storing it. */
  lemma StoreByInserting(r: Reassembler, data: seq<byte>, index: nat, merged: seq<Chunk>, k: nat, size: nat)
    requires var p := Place(r.chunks, data, index);
      merged == p.left + p.right && k == |p.left| && size == StoreSize(r, merged, |p.str|)
    ensures var p := Place(r.chunks, data, index);
      var chunks := merged[..k] + [Chunk(p.index, p.str[..size])] + merged[k..];
      && Store(r, data, index) == r.(chunks := chunks)
      && TotalSize(chunks) == TotalSize(merged) + size
  {
    hide Place;
    hide TotalSize;
    var p := Place(r.chunks, data, index);
    assert merged[..k] == p.left && merged[k..] == p.right;
    InsertSize(p.left, Chunk(p.index, p.str[..size]), p.right);
  }

  class StreamReassembler {
    const capacity: nat
    const output: ByteStream
    var chunks: seq<Chunk>
    var nidx: nat
    var eof: bool
    var eidx: nat
    var unassembled: nat

    ghost function Repr(): set<object> {
      {this, output, output.buf}
    }

    ghost predicate Valid()
      reads this, output, output.buf
    {
      && output.Valid()
      && output.capacity == capacity
      && unassembled == TotalSize(chunks)
      && WellFormed(View())
    }

    ghost function View(): Reassembler
      reads this, output, output.buf
      requires output.Valid()
    {
      Reassembler(output.View(), chunks, nidx, eof, eidx)
    }

    constructor (capacity: nat)
      ensures Valid() && fresh(Repr() - {this})
      ensures View() == New(capacity)
    {
      this.capacity := capacity;
      output := new ByteStream(capacity);
      chunks, nidx, eof, eidx, unassembled := [], 0, false, 0, 0;
    }

    method PushSubstring(data: seq<byte>, index: nat, eof: bool)
      requires Valid()
      modifies Repr()
      ensures Valid()
      ensures View() == Push(old(View()), data, index, eof)
    {
      if eof {
        eidx := index + |data|;
        this.eof := true;
      }
      assert View() == MarkEof(old(View()), index + |data|, eof);
      InsertSubstring(data, index);
      if this.eof && nidx >= eidx {
        output.EndInput();
      }
      PushKeepsShape(old(View()), data, index, eof);
    }

    method InsertSubstring(data: seq<byte>, index: nat)
      requires Valid()
      modifies Repr()
      ensures output.Valid() && unassembled == TotalSize(chunks)
      ensures View() == Insert(old(View()), data, index)
    {
      hide TotalSize;
      hide Sorted;
      hide Store;
      hide Drain;
      if index <= nidx {
        if |data| > nidx - index {
          var n := output.Write(data[nidx - index..]);
          nidx := nidx + n;
          assert View() == Accept(old(View()), data[old(nidx) - index..]);
          DrainWaiting();
        }
      } else {
        StoreWaiting(data, index);
      }
    }

    /** Writes out the waiting chunks that have become contiguous. */
    method DrainWaiting()
      requires output.Valid() && output.capacity == capacity && unassembled == TotalSize(chunks)
      modifies Repr()
      ensures output.Valid() && unassembled == TotalSize(chunks)
      ensures View() == Drain(old(View()))
    {
      hide DrainOne;
      while chunks != [] && chunks[0].start <= nidx
        invariant output.Valid() && unassembled == TotalSize(chunks)
        invariant Drain(View()) == Drain(old(View()))
        decreases |chunks|
      {
        DrainFirst();
      }
    }

    /** Writes out what the first waiting chunk adds, and erases it. */
    method DrainFirst()
      requires output.Valid() && output.capacity == capacity && unassembled == TotalSize(chunks)
      requires chunks != [] && chunks[0].start <= nidx
      modifies Repr()
      ensures output.Valid() && unassembled == TotalSize(chunks)
      ensures chunks == old(chunks)[1..]
      ensures View() == DrainOne(old(View()))
    {
      if |chunks[0].data| > nidx - chunks[0].start {
        var n := output.Write(chunks[0].data[nidx - chunks[0].start..]);
        nidx := nidx + n;
      }
      unassembled := unassembled - |chunks[0].data|;
      chunks := chunks[1..];
    }

    /** Merges a substring with what is waiting and keeps as much of it as the capacity allows. */
    method StoreWaiting(data: seq<byte>, index: nat)
      requires output.Valid() && output.capacity == capacity && unassembled == TotalSize(chunks)
      requires Sorted(chunks)
      modifies `chunks, `unassembled
      ensures unassembled == TotalSize(chunks)
      ensures View() == Store(old(View()), data, index)
    {
      hide AbsorbRight;
      hide AbsorbLeft;
      hide TotalSize;
      hide Sorted;
      hide Place;
      hide LowerBound;
      var str := MergeRight(data, index);
      PlaceByMerging(old(chunks), data, index, chunks);
      ghost var p := Place(old(chunks), data, index);
      var idx, str' := MergeLeft(str, index);
      var k := LowerBound(chunks, idx);
      assert chunks == p.left + p.right && k == |p.left| && idx == p.index && str' == p.str;
      var storeSize := Min(Sub64(capacity, unassembled + output.sz), |str'|);
      StoreByInserting(old(View()), data, index, chunks, k, storeSize);
      unassembled := unassembled + storeSize;
      chunks := chunks[..k] + [Chunk(idx, str'[..storeSize])] + chunks[k..];
    }

    /** Takes every chunk that `data` reaches out of the map and appends what it adds. */
    method MergeRight(data: seq<byte>, index: nat) returns (str: seq<byte>)
      requires unassembled == TotalSize(chunks) && Sorted(chunks)
      modifies `chunks, `unassembled
      ensures unassembled == TotalSize(chunks) && Sorted(chunks)
      ensures var k := LowerBound(old(chunks), index);
        var m := AbsorbRight(old(chunks)[k..], index, data);
        && str == m.str
        && chunks == old(chunks)[..k] + m.rest
        && LowerBound(chunks, index) == k
    {
      hide TotalSize;
      hide Sorted;
      hide LowerBound;
      hide Erase;
      str := data;
      var k := LowerBound(chunks, index);
      while k < |chunks| && chunks[k].start <= index + |str|
        invariant k == LowerBound(chunks, index) == LowerBound(old(chunks), index)
        invariant chunks[..k] == old(chunks)[..k]
        invariant unassembled == TotalSize(chunks) && Sorted(chunks)
        invariant AbsorbRight(chunks[k..], index, str) == AbsorbRight(old(chunks)[k..], index, data)
        decreases |chunks|
      {
        var c := chunks[k];
        MergeStep(chunks, index, str);
        if c.start + |c.data| > index + |str| {
          str := str + c.data[index + |str| - c.start..];
        }
        unassembled := unassembled - |c.data|;
        chunks := Erase(chunks, k);
        k := LowerBound(chunks, index);
      }
      assert chunks == chunks[..k] + chunks[k..];
    }

    /** Takes the chunk before `index` out of the map, if it reaches `index`, and prepends what it adds. */
    method MergeLeft(data: seq<byte>, index: nat) returns (idx: nat, str: seq<byte>)
      requires unassembled == TotalSize(chunks) && Sorted(chunks)
      modifies `chunks, `unassembled
      ensures unassembled == TotalSize(chunks)
      ensures var k := LowerBound(old(chunks), index);
        var l := AbsorbLeft(old(chunks)[..k], index, data);
        && idx == l.index && str == l.str
        && chunks == l.rest + old(chunks)[k..]
        && LowerBound(chunks, idx) == |l.rest|
    {
      hide TotalSize;
      hide Sorted;
      hide LowerBound;
      hide Erase;
      idx, str := index, data;
      var k := LowerBound(chunks, idx);
      LeftMerge(chunks, k, index, data);
      if chunks != [] && k != 0 && chunks[k - 1].start + |chunks[k - 1].data| >= idx {
        var c := chunks[k - 1];
        if c.start + |c.data| < index + |str| {
          str := c.data + str[c.start + |c.data| - idx..];
        } else {
          str := c.data;
        }
        unassembled := unassembled - |c.data|;
        idx := c.start;
        chunks := Erase(chunks, k - 1);
      }
    }

    /** The accessors, read together. */
    method Observe() returns (waiting: nat, empty: bool, next: nat)
      requires Valid()
      ensures waiting == TotalSize(View().chunks)
      ensures empty <==> TotalSize(View().chunks) == 0
      ensures next == |View().output.taken| + |View().output.buffer|
    {
      waiting, empty, next := unassembled, unassembled == 0, nidx;
    }
  }

  lemma RemoveSize(chunks: seq<Chunk>, k: nat)
    requires k < |chunks|
    ensures TotalSize(chunks) == TotalSize(Erase(chunks, k)) + |chunks[k].data|
  {
    assert chunks == chunks[..k] + [chunks[k]] + chunks[k + 1..];
    InsertSize(chunks[..k], chunks[k], chunks[k + 1..]);
  }

  lemma InsertSize(left: seq<Chunk>, c: Chunk, right: seq<Chunk>)
    ensures TotalSize(left + [c] + right) == TotalSize(left + right) + |c.data|
  {
    Exactness.SizeConcat(left + [c], right);
    Exactness.SizeConcat(left, [c]);
    Exactness.SizeConcat(left, right);
  }
}
