/**
 * Reassembly of a byte stream from out-of-order, overlapping and duplicated substrings:
 * the step function of the reassembler and what every run of it keeps.
 */
module Reassembly {
  import opened Numbers
  import opened ByteQueues

  /** An entry of the ordered map of waiting substrings. */
  datatype Chunk = Chunk(start: nat, data: seq<byte>) {
    function End(): nat {
      start + |data|
    }
  }

  /** `chunks` is the ordered map, listed by key; `next` is the first index not yet written out. */
  datatype Reassembler = Reassembler(
    output: ByteQueue,
    chunks: seq<Chunk>,
    next: nat,
    eofSeen: bool,
    eofIndex: nat)

  function New(capacity: nat): Reassembler {
    Reassembler(EmptyQueue(capacity), [], 0, false, 0)
  }

  function TotalSize(chunks: seq<Chunk>): nat {
    if chunks == [] then 0 else |chunks[0].data| + TotalSize(chunks[1..])
  }

  // ------------------------------------------------------------------
  // The step function

  /** Writes `data` to the output as far as it fits. */
  function Accept(r: Reassembler, data: seq<byte>): Reassembler {
    r.(output := r.output.Write(data), next := r.next + r.output.Accepted(|data|))
  }

  /** Moves one waiting chunk that starts at or before `next` to the output. */
  function DrainOne(r: Reassembler): Reassembler
    requires r.chunks != [] && r.chunks[0].start <= r.next
  {
    var c := r.chunks[0];
    var r1 := if |c.data| > r.next - c.start then Accept(r, c.data[r.next - c.start..]) else r;
    r1.(chunks := r.chunks[1..])
  }

  function Drain(r: Reassembler): Reassembler
    decreases |r.chunks|
  {
    if r.chunks != [] && r.chunks[0].start <= r.next then Drain(DrainOne(r)) else r
  }

  /** Position of the first chunk that starts at `index` or later. */
  function LowerBound(chunks: seq<Chunk>, index: nat): (k: nat)
    ensures k <= |chunks|
    ensures forall i :: 0 <= i < k ==> chunks[i].start < index
    ensures k < |chunks| ==> index <= chunks[k].start
  {
    if chunks == [] || chunks[0].start >= index then 0 else 1 + LowerBound(chunks[1..], index)
  }

  /** A string at `index` and the chunks it was not merged with. */
  datatype Merged = Merged(rest: seq<Chunk>, index: nat, str: seq<byte>)

  /** A string at `index`, with the chunks left of it and right of it. */
  datatype Placed = Placed(left: seq<Chunk>, index: nat, str: seq<byte>, right: seq<Chunk>)

  /** `str` at `index`, extended by a chunk `c` that starts inside it or right behind it. */
  function ExtendRight(c: Chunk, index: nat, str: seq<byte>): seq<byte>
    requires index <= c.start <= index + |str|
  {
    if c.End() > index + |str| then str + c.data[index + |str| - c.start..] else str
  }

  /** Merges `str` with the chunks behind it that it reaches. */
  function AbsorbRight(right: seq<Chunk>, index: nat, str: seq<byte>): Merged
    decreases |right|
  {
    if right != [] && index <= right[0].start <= index + |str|
    then AbsorbRight(right[1..], index, ExtendRight(right[0], index, str))
    else Merged(right, index, str)
  }

  /** Merges `str` with the chunk before it, if that one reaches it. */
  function AbsorbLeft(left: seq<Chunk>, index: nat, str: seq<byte>): Merged {
    if left != [] && left[|left| - 1].start < index <= left[|left| - 1].End() then
      var c := left[|left| - 1];
      Merged(left[..|left| - 1], c.start, if c.End() < index + |str| then c.data + str[c.End() - index..] else c.data)
    else
      Merged(left, index, str)
  }

  /** How much of a string of length `n` is kept, given what is stored besides: 64-bit arithmetic. */
  function StoreSize(r: Reassembler, others: seq<Chunk>, n: nat): (k: nat)
    ensures k <= n
  {
    Min(Sub64(r.output.capacity, TotalSize(others) + |r.output.buffer|), n)
  }

  /** Merges a substring with every chunk it touches. */
  function Place(chunks: seq<Chunk>, data: seq<byte>, index: nat): Placed {
    var k := LowerBound(chunks, index);
    var m := AbsorbRight(chunks[k..], index, data);
    var l := AbsorbLeft(chunks[..k], index, m.str);
    Placed(l.rest, l.index, l.str, m.rest)
  }

  /** Keeps a substring that cannot be written out yet. */
  function Store(r: Reassembler, data: seq<byte>, index: nat): Reassembler {
    var p := Place(r.chunks, data, index);
    var size := StoreSize(r, p.left + p.right, |p.str|);
    r.(chunks := p.left + [Chunk(p.index, p.str[..size])] + p.right)
  }

  function MarkEof(r: Reassembler, end: nat, eof: bool): Reassembler {
    if eof then r.(eofSeen := true, eofIndex := end) else r
  }

  function CloseIfDone(r: Reassembler): Reassembler {
    if r.eofSeen && r.next >= r.eofIndex then r.(output := r.output.EndInput()) else r
  }

  /** A new substring, after its end-of-stream mark has been noted. */
  function Insert(r: Reassembler, data: seq<byte>, index: nat): Reassembler {
    if index > r.next then Store(r, data, index)
    else if |data| > r.next - index then Drain(Accept(r, data[r.next - index..]))
    else r
  }

  function Push(r: Reassembler, data: seq<byte>, index: nat, eof: bool): Reassembler {
    CloseIfDone(Insert(MarkEof(r, index + |data|, eof), data, index))
  }

  /** The reader takes up to `n` bytes from the output. */
  function ReadFrom(r: Reassembler, n: nat): Reassembler {
    r.(output := r.output.Pop(n))
  }

  // ------------------------------------------------------------------
  // Shape: strict gaps between chunks, all of them beyond `next`

  ghost predicate Sorted(chunks: seq<Chunk>) {
    forall i, j :: 0 <= i < j < |chunks| ==> chunks[i].End() < chunks[j].start
  }

  ghost predicate StartAfter(chunks: seq<Chunk>, low: nat) {
    forall i :: 0 <= i < |chunks| ==> low < chunks[i].start
  }

  ghost predicate EndWithin(chunks: seq<Chunk>, high: int) {
    forall i :: 0 <= i < |chunks| ==> chunks[i].End() <= high
  }

  /** What holds of every reassembler, whatever is pushed into it. */
  ghost predicate WellFormed(r: Reassembler) {
    && r.output.Valid()
    && r.next == |r.output.taken| + |r.output.buffer|
    && Sorted(r.chunks)
    && StartAfter(r.chunks, r.next)
  }

  lemma {:induction false} AbsorbRightShape(right: seq<Chunk>, index: nat, str: seq<byte>, high: nat)
    requires Sorted(right)
    requires forall i :: 0 <= i < |right| ==> index <= right[i].start
    ensures var m := AbsorbRight(right, index, str);
      && m.index == index
      && |m.rest| <= |right| && m.rest == right[|right| - |m.rest|..]
      && StartAfter(m.rest, index + |m.str|)
      && |str| <= |m.str|
      && (index + |str| <= high && EndWithin(right, high) ==> index + |m.str| <= high)
    decreases |right|
  {
    hide ExtendRight;
    if right != [] && right[0].start <= index + |str| {
      ExtendRightLength(right[0], index, str);
      AbsorbRightShape(right[1..], index, ExtendRight(right[0], index, str), high);
    }
  }

  lemma ExtendRightLength(c: Chunk, index: nat, str: seq<byte>)
    requires index <= c.start <= index + |str|
    ensures index + |ExtendRight(c, index, str)| == Max(index + |str|, c.End())
  {
  }

  /** Putting a chunk between two sorted runs that leave a gap on both sides. */
  lemma SortedJoin(left: seq<Chunk>, c: Chunk, right: seq<Chunk>)
    requires Sorted(left) && Sorted(right)
    requires EndWithin(left, c.start - 1)
    requires StartAfter(right, c.End())
    ensures Sorted(left + [c] + right)
  {
    var all := left + [c] + right;
    forall i, j | 0 <= i < j < |all| ensures all[i].End() < all[j].start {
    }
  }

  lemma AbsorbLeftShape(left: seq<Chunk>, index: nat, str: seq<byte>, low: nat)
    requires Sorted(left) && StartAfter(left, low) && low < index
    requires forall i :: 0 <= i < |left| ==> left[i].start < index
    ensures var l := AbsorbLeft(left, index, str);
      && low < l.index
      && |l.rest| <= |left| && l.rest == left[..|l.rest|]
      && EndWithin(l.rest, l.index - 1)
      && (l.index + |l.str| == index + |str| || (left != [] && l.index + |l.str| == left[|left| - 1].End()))
  {
  }

  /** The merged string leaves a gap on both sides, and ends where something already ended. */
  lemma PlaceShape(chunks: seq<Chunk>, data: seq<byte>, index: nat, low: nat)
    requires Sorted(chunks) && StartAfter(chunks, low) && low < index
    ensures var p := Place(chunks, data, index);
      && low < p.index
      && Sorted(p.left) && StartAfter(p.left, low) && EndWithin(p.left, p.index - 1)
      && Sorted(p.right) && StartAfter(p.right, p.index + |p.str|)
  {
    hide AbsorbRight;
    hide AbsorbLeft;
    hide LowerBound;
    var k := LowerBound(chunks, index);
    AbsorbRightShape(chunks[k..], index, data, 0);
    AbsorbLeftShape(chunks[..k], index, AbsorbRight(chunks[k..], index, data).str, low);
  }

  lemma PlaceWithin(chunks: seq<Chunk>, data: seq<byte>, index: nat, low: nat, high: nat)
    requires Sorted(chunks) && StartAfter(chunks, low) && low < index
    requires index + |data| <= high && EndWithin(chunks, high)
    ensures var p := Place(chunks, data, index);
      p.index + |p.str| <= high && EndWithin(p.left, high) && EndWithin(p.right, high)
  {
    hide AbsorbRight;
    hide AbsorbLeft;
    hide LowerBound;
    var k := LowerBound(chunks, index);
    AbsorbRightShape(chunks[k..], index, data, high);
    AbsorbLeftShape(chunks[..k], index, AbsorbRight(chunks[k..], index, data).str, low);
  }

  lemma InsertKeepsShape(r: Reassembler, data: seq<byte>, index: nat)
    requires WellFormed(r)
    ensures WellFormed(Insert(r, data, index))
  {
    if index > r.next {
      var p := Place(r.chunks, data, index);
      var size := StoreSize(r, p.left + p.right, |p.str|);
      PlaceShape(r.chunks, data, index, r.next);
      SortedJoin(p.left, Chunk(p.index, p.str[..size]), p.right);
    } else if |data| > r.next - index {
      DrainKeepsShape(Accept(r, data[r.next - index..]));
    }
  }

  lemma {:induction false} DrainKeepsShape(r: Reassembler)
    requires r.output.Valid() && r.next == |r.output.taken| + |r.output.buffer| && Sorted(r.chunks)
    ensures WellFormed(Drain(r))
    decreases |r.chunks|
  {
    if r.chunks != [] && r.chunks[0].start <= r.next {
      DrainKeepsShape(DrainOne(r));
    }
  }

  /** Every push keeps the map ordered with strict gaps and beyond what has been written out. */
  lemma PushKeepsShape(r: Reassembler, data: seq<byte>, index: nat, eof: bool)
    requires WellFormed(r)
    ensures WellFormed(Push(r, data, index, eof))
  {
    InsertKeepsShape(MarkEof(r, index + |data|, eof), data, index);
  }

  // ------------------------------------------------------------------
  // Content: everything held is a piece of the one stream S

  /** `data` is what S holds from `index` on. */
  ghost predicate IsSlice(S: seq<byte>, index: int, data: seq<byte>) {
    data == [] || (0 <= index <= index + |data| <= |S| && S[index..index + |data|] == data)
  }

  lemma SliceSuffix(S: seq<byte>, index: nat, data: seq<byte>, k: nat)
    requires IsSlice(S, index, data) && k <= |data|
    ensures IsSlice(S, index + k, data[k..])
  {
    if data != [] {
      assert S[index..index + |data|][k..] == S[index + k..index + |data|];
    }
  }

  lemma SlicePrefix(S: seq<byte>, index: nat, data: seq<byte>, k: nat)
    requires IsSlice(S, index, data) && k <= |data|
    ensures IsSlice(S, index, data[..k])
  {
    if data != [] {
      assert S[index..index + |data|][..k] == S[index..index + k];
    }
  }

  lemma SliceConcat(S: seq<byte>, index: nat, a: seq<byte>, b: seq<byte>)
    requires IsSlice(S, index, a) && IsSlice(S, index + |a|, b)
    ensures IsSlice(S, index, a + b)
  {
    if a == [] {
      assert a + b == b;
    } else if b == [] {
      assert a + b == a;
    } else {
      assert S[index..index + |a + b|] == S[index..index + |a|] + S[index + |a|..index + |a| + |b|];
    }
  }

  ghost predicate AllSlices(S: seq<byte>, chunks: seq<Chunk>) {
    forall i :: 0 <= i < |chunks| ==> IsSlice(S, chunks[i].start, chunks[i].data)
  }

  ghost predicate OutputIsPrefix(r: Reassembler, S: seq<byte>) {
    r.next <= |S| && r.output.Written() == S[..r.next]
  }

  /** The reassembler's state agrees with the stream S, and ends exactly with it. */
  ghost predicate Safe(r: Reassembler, S: seq<byte>) {
    && WellFormed(r)
    && AllSlices(S, r.chunks)
    && OutputIsPrefix(r, S)
    && (r.eofSeen ==> r.eofIndex == |S|)
    && (r.output.inputEnded <==> r.eofSeen && r.next == |S|)
  }

  lemma {:induction false} AbsorbRightSlice(S: seq<byte>, right: seq<Chunk>, index: nat, str: seq<byte>)
    requires AllSlices(S, right) && IsSlice(S, index, str)
    ensures IsSlice(S, index, AbsorbRight(right, index, str).str)
    ensures AllSlices(S, AbsorbRight(right, index, str).rest)
    decreases |right|
  {
    if right != [] && index <= right[0].start <= index + |str| {
      ExtendRightSlice(S, right[0], index, str);
      AbsorbRightSlice(S, right[1..], index, ExtendRight(right[0], index, str));
    }
  }

  lemma ExtendRightSlice(S: seq<byte>, c: Chunk, index: nat, str: seq<byte>)
    requires index <= c.start <= index + |str|
    requires IsSlice(S, c.start, c.data) && IsSlice(S, index, str)
    ensures IsSlice(S, index, ExtendRight(c, index, str))
  {
    if c.End() > index + |str| {
      SliceSuffix(S, c.start, c.data, index + |str| - c.start);
      SliceConcat(S, index, str, c.data[index + |str| - c.start..]);
    }
  }

  lemma AbsorbLeftSlice(S: seq<byte>, left: seq<Chunk>, index: nat, str: seq<byte>)
    requires AllSlices(S, left) && IsSlice(S, index, str)
    ensures var l := AbsorbLeft(left, index, str); IsSlice(S, l.index, l.str) && AllSlices(S, l.rest)
  {
    var l := AbsorbLeft(left, index, str);
    if l.rest != left {
      var c := left[|left| - 1];
      assert IsSlice(S, c.start, c.data);
      if c.End() < index + |str| {
        SliceSuffix(S, index, str, c.End() - index);
        SliceConcat(S, c.start, c.data, str[c.End() - index..]);
      }
    }
  }

  lemma PlaceSlice(S: seq<byte>, chunks: seq<Chunk>, data: seq<byte>, index: nat)
    requires AllSlices(S, chunks) && IsSlice(S, index, data)
    ensures var p := Place(chunks, data, index);
      IsSlice(S, p.index, p.str) && AllSlices(S, p.left) && AllSlices(S, p.right)
  {
    var k := LowerBound(chunks, index);
    AbsorbRightSlice(S, chunks[k..], index, data);
    AbsorbLeftSlice(S, chunks[..k], index, AbsorbRight(chunks[k..], index, data).str);
  }

  lemma AcceptIsSafe(r: Reassembler, data: seq<byte>, S: seq<byte>)
    requires r.output.Valid() && r.next == |r.output.taken| + |r.output.buffer|
    requires OutputIsPrefix(r, S) && IsSlice(S, r.next, data)
    ensures OutputIsPrefix(Accept(r, data), S)
  {
    var k := r.output.Accepted(|data|);
    SlicePrefix(S, r.next, data, k);
    SliceConcat(S, 0, S[..r.next], data[..k]);
    assert r.output.taken + (r.output.buffer + data[..k]) == r.output.Written() + data[..k];
  }

  lemma {:induction false} DrainIsSafe(r: Reassembler, S: seq<byte>)
    requires r.output.Valid() && r.next == |r.output.taken| + |r.output.buffer|
    requires OutputIsPrefix(r, S) && AllSlices(S, r.chunks)
    ensures OutputIsPrefix(Drain(r), S) && AllSlices(S, Drain(r).chunks)
    decreases |r.chunks|
  {
    if r.chunks != [] && r.chunks[0].start <= r.next {
      var c := r.chunks[0];
      if |c.data| > r.next - c.start {
        SliceSuffix(S, c.start, c.data, r.next - c.start);
        AcceptIsSafe(r, c.data[r.next - c.start..], S);
      }
      DrainIsSafe(DrainOne(r), S);
    }
  }

  lemma StoreIsSafe(r: Reassembler, data: seq<byte>, index: nat, S: seq<byte>)
    requires AllSlices(S, r.chunks) && IsSlice(S, index, data)
    ensures AllSlices(S, Store(r, data, index).chunks)
  {
    PlaceSlice(S, r.chunks, data, index);
    var p := Place(r.chunks, data, index);
    SlicePrefix(S, p.index, p.str, StoreSize(r, p.left + p.right, |p.str|));
  }

  lemma InsertIsSafe(r: Reassembler, data: seq<byte>, index: nat, S: seq<byte>)
    requires WellFormed(r) && OutputIsPrefix(r, S) && AllSlices(S, r.chunks)
    requires IsSlice(S, index, data)
    ensures OutputIsPrefix(Insert(r, data, index), S) && AllSlices(S, Insert(r, data, index).chunks)
  {
    if index > r.next {
      StoreIsSafe(r, data, index, S);
    } else if |data| > r.next - index {
      SliceSuffix(S, index, data, r.next - index);
      AcceptIsSafe(r, data[r.next - index..], S);
      DrainIsSafe(Accept(r, data[r.next - index..]), S);
    }
  }

  /** A push of a piece of S, in or out of the window, keeps the state in agreement with S. */
  lemma PushIsSafe(r: Reassembler, data: seq<byte>, index: nat, eof: bool, S: seq<byte>)
    requires Safe(r, S)
    requires IsSlice(S, index, data)
    requires eof ==> index + |data| == |S|
    ensures Safe(Push(r, data, index, eof), S)
    ensures r.next <= Push(r, data, index, eof).next
  {
    var r1 := MarkEof(r, index + |data|, eof);
    InsertKeepsShape(r1, data, index);
    InsertIsSafe(r1, data, index, S);
    InsertAdvances(r1, data, index);
  }

  lemma {:induction false} DrainAdvances(r: Reassembler)
    ensures var d := Drain(r);
      && r.next <= d.next
      && d.eofSeen == r.eofSeen && d.eofIndex == r.eofIndex
      && d.output.inputEnded == r.output.inputEnded
      && d.output.taken == r.output.taken
      && d.output.capacity == r.output.capacity
      && d.output.error == r.output.error
    decreases |r.chunks|
  {
    if r.chunks != [] && r.chunks[0].start <= r.next {
      DrainAdvances(DrainOne(r));
    }
  }

  /** What an insertion does not touch. */
  lemma InsertAdvances(r: Reassembler, data: seq<byte>, index: nat)
    ensures var d := Insert(r, data, index);
      && r.next <= d.next
      && d.eofSeen == r.eofSeen && d.eofIndex == r.eofIndex
      && d.output.inputEnded == r.output.inputEnded
      && d.output.taken == r.output.taken
      && d.output.capacity == r.output.capacity
      && d.output.error == r.output.error
  {
    if index <= r.next && |data| > r.next - index {
      DrainAdvances(Accept(r, data[r.next - index..]));
    }
  }
}
