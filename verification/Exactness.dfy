/** Inside the window the reassembler drops nothing: it is exactly the set of bytes pushed so far. */
module Exactness {
  import opened Numbers
  import opened Reassembly

  predicate InRange(index: nat, length: nat, i: nat) {
    index <= i < index + length
  }

  predicate Covers(chunks: seq<Chunk>, i: nat) {
    chunks != [] && (InRange(chunks[0].start, |chunks[0].data|, i) || Covers(chunks[1..], i))
  }

  /** The byte at index `i` has been written out or is waiting. */
  predicate Holds(r: Reassembler, i: nat) {
    i < r.next || Covers(r.chunks, i)
  }

  /** The first index the reassembler has no room for. */
  function WindowEnd(r: Reassembler): nat {
    |r.output.taken| + r.output.capacity
  }

  ghost predicate InWindow(r: Reassembler) {
    EndWithin(r.chunks, WindowEnd(r))
  }

  // ------------------------------------------------------------------
  // Merging keeps the indices covered

  lemma {:induction false} CoversConcat(a: seq<Chunk>, b: seq<Chunk>, i: nat)
    ensures Covers(a + b, i) <==> Covers(a, i) || Covers(b, i)
  {
    if a == [] {
      assert a + b == b;
    } else {
      assert (a + b)[1..] == a[1..] + b;
      CoversConcat(a[1..], b, i);
    }
  }

  lemma {:induction false} AbsorbRightCovers(right: seq<Chunk>, index: nat, str: seq<byte>, i: nat)
    ensures var m := AbsorbRight(right, index, str);
      InRange(index, |m.str|, i) || Covers(m.rest, i) <==> InRange(index, |str|, i) || Covers(right, i)
    decreases |right|
  {
    if right != [] && index <= right[0].start <= index + |str| {
      AbsorbRightCovers(right[1..], index, ExtendRight(right[0], index, str), i);
    }
  }

  lemma AbsorbLeftCovers(left: seq<Chunk>, index: nat, str: seq<byte>, i: nat)
    ensures var l := AbsorbLeft(left, index, str);
      InRange(l.index, |l.str|, i) || Covers(l.rest, i) <==> InRange(index, |str|, i) || Covers(left, i)
  {
    if left != [] {
      var c := left[|left| - 1];
      assert left == left[..|left| - 1] + [c];
      CoversConcat(left[..|left| - 1], [c], i);
    }
  }

  lemma PlaceCovers(chunks: seq<Chunk>, data: seq<byte>, index: nat, i: nat)
    ensures var p := Place(chunks, data, index);
      InRange(p.index, |p.str|, i) || Covers(p.left + p.right, i) <==> InRange(index, |data|, i) || Covers(chunks, i)
  {
    var k := LowerBound(chunks, index);
    var p := Place(chunks, data, index);
    AbsorbRightCovers(chunks[k..], index, data, i);
    AbsorbLeftCovers(chunks[..k], index, AbsorbRight(chunks[k..], index, data).str, i);
    assert chunks == chunks[..k] + chunks[k..];
    CoversConcat(chunks[..k], chunks[k..], i);
    CoversConcat(p.left, p.right, i);
  }

  // ------------------------------------------------------------------
  // Sizes: disjoint chunks between two indices fit between them

  lemma {:induction false} SizeConcat(a: seq<Chunk>, b: seq<Chunk>)
    ensures TotalSize(a + b) == TotalSize(a) + TotalSize(b)
  {
    if a == [] {
      assert a + b == b;
    } else {
      assert (a + b)[1..] == a[1..] + b;
      SizeConcat(a[1..], b);
    }
  }

  lemma {:induction false} SizeBound(chunks: seq<Chunk>, low: nat, high: nat)
    requires Sorted(chunks) && StartAfter(chunks, low) && EndWithin(chunks, high) && low <= high
    ensures TotalSize(chunks) <= high - low
    decreases |chunks|
  {
    if chunks == [] {
    } else {
      SizeBound(chunks[1..], chunks[0].End(), high);
    }
  }

  // ------------------------------------------------------------------
  // One push

  /** A chunk that leaves a gap on both sides fits in with its neighbours. */
  lemma JoinFits(left: seq<Chunk>, c: Chunk, right: seq<Chunk>, low: nat, high: nat)
    requires Sorted(left) && StartAfter(left, low) && EndWithin(left, c.start - 1)
    requires Sorted(right) && StartAfter(right, c.End())
    requires low < c.start && c.End() <= high && EndWithin(left, high) && EndWithin(right, high)
    ensures TotalSize(left + right) + |c.data| <= high - low
    ensures EndWithin(left + [c] + right, high)
  {
    SortedJoin(left, c, right);
    SizeBound(left + [c] + right, low, high);
    SizeConcat(left + [c], right);
    SizeConcat(left, [c]);
    SizeConcat(left, right);
  }

  lemma JoinCovers(left: seq<Chunk>, c: Chunk, right: seq<Chunk>, i: nat)
    ensures Covers(left + [c] + right, i) <==> InRange(c.start, |c.data|, i) || Covers(left + right, i)
  {
    CoversConcat(left + [c], right, i);
    CoversConcat(left, [c], i);
    CoversConcat(left, right, i);
  }

  /** Inside the window the truncating store truncates nothing. */
  lemma StoreKeepsAll(r: Reassembler, data: seq<byte>, index: nat)
    requires WellFormed(r) && InWindow(r) && r.next < index && index + |data| <= WindowEnd(r)
    ensures var p := Place(r.chunks, data, index);
      && Store(r, data, index).chunks == p.left + [Chunk(p.index, p.str)] + p.right
      && InWindow(Store(r, data, index))
  {
    hide Place;
    hide TotalSize;
    var p := Place(r.chunks, data, index);
    PlaceShape(r.chunks, data, index, r.next);
    PlaceWithin(r.chunks, data, index, r.next, WindowEnd(r));
    JoinFits(p.left, Chunk(p.index, p.str), p.right, r.next, WindowEnd(r));
    assert p.str[..|p.str|] == p.str;
  }

  lemma StoreIsExact(r: Reassembler, data: seq<byte>, index: nat, i: nat)
    requires WellFormed(r) && InWindow(r) && r.next < index && index + |data| <= WindowEnd(r)
    ensures InWindow(Store(r, data, index))
    ensures Covers(Store(r, data, index).chunks, i) <==> Covers(r.chunks, i) || InRange(index, |data|, i)
  {
    var p := Place(r.chunks, data, index);
    StoreKeepsAll(r, data, index);
    PlaceCovers(r.chunks, data, index, i);
    JoinCovers(p.left, Chunk(p.index, p.str), p.right, i);
  }

  lemma {:induction false} DrainIsExact(r: Reassembler, i: nat)
    requires r.output.Valid() && r.next == |r.output.taken| + |r.output.buffer| && InWindow(r)
    ensures InWindow(Drain(r))
    ensures Holds(Drain(r), i) <==> Holds(r, i)
    decreases |r.chunks|
  {
    if r.chunks != [] && r.chunks[0].start <= r.next {
      DrainIsExact(DrainOne(r), i);
    }
  }

  lemma InsertIsExact(r: Reassembler, data: seq<byte>, index: nat, i: nat)
    requires WellFormed(r) && InWindow(r) && index + |data| <= WindowEnd(r)
    ensures InWindow(Insert(r, data, index))
    ensures Holds(Insert(r, data, index), i) <==> Holds(r, i) || InRange(index, |data|, i)
  {
    if index > r.next {
      StoreIsExact(r, data, index, i);
    } else if |data| > r.next - index {
      DrainIsExact(Accept(r, data[r.next - index..]), i);
    }
  }

  /** A push that ends inside the window adds exactly its own indices, and the capacity bound holds. */
  lemma PushIsExact(r: Reassembler, data: seq<byte>, index: nat, eof: bool, i: nat)
    requires WellFormed(r) && InWindow(r) && index + |data| <= WindowEnd(r)
    ensures var r' := Push(r, data, index, eof);
      && WellFormed(r') && InWindow(r')
      && (Holds(r', i) <==> Holds(r, i) || InRange(index, |data|, i))
      && TotalSize(r'.chunks) + |r'.output.buffer| <= r'.output.capacity
  {
    var r1 := MarkEof(r, index + |data|, eof);
    PushKeepsShape(r, data, index, eof);
    InsertIsExact(r1, data, index, i);
    FitsCapacity(Push(r, data, index, eof));
  }

  lemma FitsCapacity(r: Reassembler)
    requires WellFormed(r) && InWindow(r)
    ensures TotalSize(r.chunks) + |r.output.buffer| <= r.output.capacity
  {
    SizeBound(r.chunks, r.next, WindowEnd(r));
  }

  // ------------------------------------------------------------------
  // The capacity bound outside the window

  ghost predicate WithinCapacity(r: Reassembler) {
    TotalSize(r.chunks) + |r.output.buffer| <= r.output.capacity
  }

  /** How many waiting chunks start at or before `e`. */
  function Reached(chunks: seq<Chunk>, e: nat): (k: nat)
    ensures k <= |chunks|
  {
    LowerBound(chunks, e + 1)
  }

  /** Where in-order bytes up to `e` end together with the waiting chunks they reach. */
  function ReachedEnd(chunks: seq<Chunk>, e: nat): nat {
    var k := Reached(chunks, e);
    if k == 0 then e else Max(e, chunks[k - 1].End())
  }

  /** Draining takes out exactly the chunks reached, and writes up to their end or to the end of the window. */
  lemma {:induction false} DrainReaches(r: Reassembler)
    requires r.output.Valid() && r.next == |r.output.taken| + |r.output.buffer| && Sorted(r.chunks)
    ensures var d := Drain(r);
      && d.chunks == r.chunks[Reached(r.chunks, r.next)..]
      && d.next == Min(ReachedEnd(r.chunks, r.next), WindowEnd(r))
      && d.next == |d.output.taken| + |d.output.buffer|
      && d.output.taken == r.output.taken && d.output.capacity == r.output.capacity
    decreases |r.chunks|
  {
    hide Drain;
    hide Reached;
    hide ReachedEnd;
    if r.chunks != [] && r.chunks[0].start <= r.next {
      var r1 := DrainOne(r);
      assert Drain(r) == Drain(r1) by { DrainUnfolds(r); }
      DrainReaches(r1);
      assert r1.next == Min(Max(r.next, r.chunks[0].End()), WindowEnd(r));
      NothingMoreReached(r, r1);
    } else {
      DrainUnfolds(r);
      NothingReached(r);
    }
  }

  lemma NothingReached(r: Reassembler)
    requires r.chunks == [] || r.next < r.chunks[0].start
    ensures Reached(r.chunks, r.next) == 0 && ReachedEnd(r.chunks, r.next) == r.next
  {
  }

  lemma DrainUnfolds(r: Reassembler)
    ensures Drain(r) == if r.chunks != [] && r.chunks[0].start <= r.next then Drain(DrainOne(r)) else r
  {
  }

  /** The gaps between chunks are strict, so that what the first chunk adds reaches no further chunk. */
  lemma NothingMoreReached(r: Reassembler, r1: Reassembler)
    requires Sorted(r.chunks) && r.chunks != [] && r.chunks[0].start <= r.next <= WindowEnd(r)
    requires r1.chunks == r.chunks[1..] && r1.next == Min(Max(r.next, r.chunks[0].End()), WindowEnd(r))
    ensures Reached(r.chunks, r.next) == 1 + Reached(r1.chunks, r1.next)
    ensures Min(ReachedEnd(r.chunks, r.next), WindowEnd(r)) == Min(ReachedEnd(r1.chunks, r1.next), WindowEnd(r))
  {
    if r.chunks[0].End() > r.next && |r.chunks| > 1 {
      assert r.chunks[0].End() < r.chunks[1].start;
    }
  }

  /** The bytes stored after a push of `data` at `index` stay within the capacity exactly if this holds before. */
  ghost predicate Fits(r: Reassembler, data: seq<byte>, index: nat) {
    if index > r.next then
      var p := Place(r.chunks, data, index);
      TotalSize(p.left + p.right) + |r.output.buffer| <= r.output.capacity
    else if |data| > r.next - index then
      var e := r.next + r.output.Accepted(|data| - (r.next - index));
      TotalSize(r.chunks[Reached(r.chunks, e)..]) + Min(ReachedEnd(r.chunks, e), WindowEnd(r)) <= WindowEnd(r)
    else
      WithinCapacity(r)
  }

  /**
   * The capacity bound after a push, whatever was stored before, in or out of the window. Bytes out
   * of order: exactly if what they are not merged with leaves room besides the unread bytes. Bytes in
   * order: exactly if the chunks they do not reach fit between the new end of the output and the end
   * of the window.
   */
  lemma CapacityExactly(r: Reassembler, data: seq<byte>, index: nat, eof: bool)
    requires WellFormed(r)
    ensures WithinCapacity(Push(r, data, index, eof)) <==> Fits(r, data, index)
  {
    hide Insert;
    hide TotalSize;
    hide Place;
    hide Reached;
    hide ReachedEnd;
    hide Sorted;
    hide StartAfter;
    var r1 := MarkEof(r, index + |data|, eof);
    InsertExactly(r1, data, index);
  }

  lemma InsertExactly(r: Reassembler, data: seq<byte>, index: nat)
    requires WellFormed(r)
    ensures WithinCapacity(Insert(r, data, index)) <==> Fits(r, data, index)
  {
    hide Store;
    hide Drain;
    hide Place;
    hide TotalSize;
    hide Reached;
    hide ReachedEnd;
    if index > r.next {
      StoredExactly(r, data, index);
    } else if |data| > r.next - index {
      InOrderExactly(r, data, index);
    }
  }

  lemma InOrderExactly(r: Reassembler, data: seq<byte>, index: nat)
    requires WellFormed(r) && index <= r.next < index + |data|
    ensures WithinCapacity(Insert(r, data, index)) <==> Fits(r, data, index)
  {
    hide Drain;
    hide TotalSize;
    hide Reached;
    hide ReachedEnd;
    DrainReaches(Accept(r, data[r.next - index..]));
  }

  lemma StoredExactly(r: Reassembler, data: seq<byte>, index: nat)
    ensures var p := Place(r.chunks, data, index);
      WithinCapacity(Store(r, data, index)) <==>
        TotalSize(p.left + p.right) + |r.output.buffer| <= r.output.capacity
  {
    hide TotalSize;
    hide Place;
    var p := Place(r.chunks, data, index);
    var c := Chunk(p.index, p.str[..StoreSize(r, p.left + p.right, |p.str|)]);
    SizeConcat(p.left + [c], p.right);
    SizeConcat(p.left, [c]);
    SizeConcat(p.left, p.right);
    OneChunk(c);
  }

  lemma OneChunk(c: Chunk)
    ensures TotalSize([c]) == |c.data|
  {
  }

  lemma {:induction false} AbsorbRightSize(right: seq<Chunk>, index: nat, str: seq<byte>)
    ensures TotalSize(AbsorbRight(right, index, str).rest) <= TotalSize(right)
    decreases |right|
  {
    if right != [] && index <= right[0].start <= index + |str| {
      AbsorbRightSize(right[1..], index, ExtendRight(right[0], index, str));
    }
  }

  lemma PlaceSize(chunks: seq<Chunk>, data: seq<byte>, index: nat)
    ensures var p := Place(chunks, data, index); TotalSize(p.left + p.right) <= TotalSize(chunks)
  {
    hide TotalSize;
    hide AbsorbRight;
    var k := LowerBound(chunks, index);
    var p := Place(chunks, data, index);
    AbsorbRightSize(chunks[k..], index, data);
    SizeConcat(chunks[..k], chunks[k..]);
    assert chunks == chunks[..k] + chunks[k..];
    SizeConcat(p.left, p.right);
    if p.left != chunks[..k] {
      SizeConcat(chunks[..k - 1], [chunks[k - 1]]);
      assert chunks[..k] == chunks[..k - 1] + [chunks[k - 1]];
    }
  }

  /** The bytes of the chunk that a store leaves in the place of all that it merges. */
  lemma StoredChunk(r: Reassembler, data: seq<byte>, index: nat)
    ensures var p := Place(r.chunks, data, index);
      var used := TotalSize(p.left + p.right) + |r.output.buffer|;
      var room := if used <= r.output.capacity then r.output.capacity - used
                  else if used <= r.output.capacity + TWO64 then TWO64 - (used - r.output.capacity)
                  else (r.output.capacity - used) % TWO64;
      && |p.left| < |Store(r, data, index).chunks|
      && Store(r, data, index).chunks[|p.left|] == Chunk(p.index, p.str[..Min(room, |p.str|)])
      && Store(r, data, index).chunks[..|p.left|] == p.left
      && Store(r, data, index).chunks[|p.left| + 1..] == p.right
  {
    hide Place;
    hide TotalSize;
    var p := Place(r.chunks, data, index);
    var used := TotalSize(p.left + p.right) + |r.output.buffer|;
    if r.output.capacity < used <= r.output.capacity + TWO64 {
      assert (r.output.capacity - used) % TWO64 == if used == r.output.capacity + TWO64 then 0
                                                   else TWO64 - (used - r.output.capacity);
    }
  }

  /** So bytes out of order never break the bound, wherever they lie. */
  lemma StoreStaysWithin(r: Reassembler, data: seq<byte>, index: nat)
    requires WithinCapacity(r)
    ensures WithinCapacity(Store(r, data, index))
  {
    hide TotalSize;
    hide Place;
    PlaceSize(r.chunks, data, index);
    StoredExactly(r, data, index);
  }

  /** Outside the window the bound fails: one byte far ahead, then one in order, in a capacity of one. */
  lemma CapacityCanBeExceeded()
    ensures var r := Push(Push(New(1), [7], 5, false), [7], 0, false);
      TotalSize(r.chunks) + |r.output.buffer| == 2 && r.output.capacity == 1
  {
    var r0 := New(1);
    assert Place([], [7], 5) == Placed([], 5, [7], []);
    var r1 := Store(r0, [7], 5);
    var none: seq<Chunk> := [];
    assert none + none == none && StoreSize(r0, none + none, 1) == 1;
    assert [7][..1] == [7];
    assert r1.chunks == [Chunk(5, [7])];
    assert Push(r0, [7], 5, false) == r1;
    var r2 := Accept(r1, [7]);
    assert Drain(r2) == r2;
    assert [7][0..] == [7];
    assert Push(r1, [7], 0, false) == r2;
  }

  // ------------------------------------------------------------------
  // Runs

  datatype Event = Pushing(data: seq<byte>, index: nat, eof: bool) | Reading(n: nat)

  function Step(r: Reassembler, e: Event): Reassembler {
    match e
    case Pushing(data, index, eof) => Push(r, data, index, eof)
    case Reading(n) => ReadFrom(r, n)
  }

  function Run(r: Reassembler, events: seq<Event>): Reassembler
    decreases |events|
  {
    if events == [] then r else Run(Step(r, events[0]), events[1..])
  }

  /** Some push of the run carried index `i`. */
  predicate Pushed(events: seq<Event>, i: nat)
    decreases |events|
  {
    events != [] && ((events[0].Pushing? && InRange(events[0].index, |events[0].data|, i)) || Pushed(events[1..], i))
  }

  /** Every push of the run ends at or before (bytes read by then + capacity). */
  predicate RunInWindow(r: Reassembler, events: seq<Event>)
    decreases |events|
  {
    events == [] || (
      && (events[0].Pushing? ==> events[0].index + |events[0].data| <= WindowEnd(r))
      && RunInWindow(Step(r, events[0]), events[1..]))
  }

  /** Every push of the run is a piece of S, marked as the last one only at the end of S. */
  ghost predicate PushesSlicesOf(S: seq<byte>, events: seq<Event>) {
    forall k :: 0 <= k < |events| && events[k].Pushing? ==>
      IsSlice(S, events[k].index, events[k].data)
      && (events[k].eof ==> events[k].index + |events[k].data| == |S|)
  }

  lemma {:induction false} RunHolds(r: Reassembler, events: seq<Event>, i: nat)
    requires WellFormed(r) && InWindow(r) && RunInWindow(r, events)
    ensures WellFormed(Run(r, events)) && InWindow(Run(r, events))
    ensures Holds(Run(r, events), i) <==> Holds(r, i) || Pushed(events, i)
    decreases |events|
  {
    if events == [] {
    } else {
      if events[0].Pushing? {
        PushIsExact(r, events[0].data, events[0].index, events[0].eof, i);
      }
      RunHolds(Step(r, events[0]), events[1..], i);
    }
  }

  lemma {:induction false} NotCoveredBefore(chunks: seq<Chunk>, low: nat)
    requires StartAfter(chunks, low)
    ensures !Covers(chunks, low)
  {
    if chunks == [] {
    } else {
      NotCoveredBefore(chunks[1..], low);
    }
  }

  /**
   * Exactness over every run inside the window, for any order, overlap and duplication: a byte is
   * held if and only if it was pushed, `next` is the least index never pushed, and the bytes stored
   * stay within the capacity.
   */
  lemma RunIsExact(capacity: nat, events: seq<Event>)
    requires RunInWindow(New(capacity), events)
    ensures var r := Run(New(capacity), events);
      && (forall i: nat :: Holds(r, i) <==> Pushed(events, i))
      && (forall i: nat :: i < r.next ==> Pushed(events, i))
      && !Pushed(events, r.next)
      && TotalSize(r.chunks) + |r.output.buffer| <= r.output.capacity
  {
    var r := Run(New(capacity), events);
    forall i: nat ensures Holds(r, i) <==> Pushed(events, i) {
      RunHolds(New(capacity), events, i);
    }
    forall i: nat | i < r.next ensures Pushed(events, i) {
      assert Holds(r, i);
    }
    RunHolds(New(capacity), events, r.next);
    NotCoveredBefore(r.chunks, r.next);
    FitsCapacity(r);
  }

  /** Some push of the run was marked as the last one. */
  ghost predicate EndPushed(events: seq<Event>) {
    exists k :: 0 <= k < |events| && events[k].Pushing? && events[k].eof
  }

  lemma StepIsSafe(r: Reassembler, e: Event, S: seq<byte>)
    requires Safe(r, S)
    requires e.Pushing? ==> IsSlice(S, e.index, e.data) && (e.eof ==> e.index + |e.data| == |S|)
    ensures Safe(Step(r, e), S)
    ensures Step(r, e).eofSeen <==> r.eofSeen || (e.Pushing? && e.eof)
  {
    hide Safe;
    hide IsSlice;
    hide Insert;
    if e.Pushing? {
      PushIsSafe(r, e.data, e.index, e.eof, S);
      InsertAdvances(MarkEof(r, e.index + |e.data|, e.eof), e.data, e.index);
    } else {
      ReadIsSafe(r, e.n, S);
    }
  }

  lemma {:induction false} RunStaysSafe(r: Reassembler, events: seq<Event>, S: seq<byte>)
    requires Safe(r, S) && PushesSlicesOf(S, events)
    ensures Safe(Run(r, events), S)
    ensures Run(r, events).eofSeen <==> r.eofSeen || EndPushed(events)
    decreases |events|
  {
    hide Safe;
    hide IsSlice;
    hide Step;
    if events == [] {
    } else {
      StepIsSafe(r, events[0], S);
      RunStaysSafe(Step(r, events[0]), events[1..], S);
      assert forall k :: 0 < k < |events| ==> events[k] == events[1..][k - 1];
      assert EndPushed(events[1..]) ==> EndPushed(events) by {
        if EndPushed(events[1..]) {
          var k :| 0 <= k < |events[1..]| && events[1..][k].Pushing? && events[1..][k].eof;
          assert events[k + 1] == events[1..][k];
        }
      }
    }
  }

  lemma ReadIsSafe(r: Reassembler, n: nat, S: seq<byte>)
    requires Safe(r, S)
    ensures Safe(ReadFrom(r, n), S)
  {
    var k := Min(n, |r.output.buffer|);
    assert (r.output.taken + r.output.buffer[..k]) + r.output.buffer[k..] == r.output.Written();
  }

  /**
   * Content safety over every run, in or out of the window: the output is the prefix of S up to
   * `next`, and it is ended exactly when an end-of-stream push was seen and all of S is out.
   */
  lemma RunIsSafe(capacity: nat, events: seq<Event>, S: seq<byte>)
    requires PushesSlicesOf(S, events)
    ensures var r := Run(New(capacity), events);
      && Safe(r, S)
      && r.output.taken + r.output.buffer == S[..r.next]
      && (r.output.inputEnded <==> r.next == |S| && EndPushed(events))
  {
    RunStaysSafe(New(capacity), events, S);
  }
}
