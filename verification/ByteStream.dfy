/** The ring buffer behind every stream, and its refinement of a bounded queue. */
module ByteStreams {
  import opened Numbers
  import opened ByteQueues

  /** The slot `i` places after `head`. */
  function Slot(head: nat, i: nat, capacity: nat): nat {
    if head + i < capacity then head + i else head + i - capacity
  }

  lemma TimesGrows(k: int, m: nat)
    ensures k >= 1 ==> k * m >= m
    ensures k <= -1 ==> k * m + m <= 0
  {
    if k >= 1 {
      assert k * m == m + (k - 1) * m;
      assert (k - 1) * m >= 0;
    } else if k <= -1 {
      assert k * m + m == (k + 1) * m;
      assert (k + 1) * m <= 0;
    }
  }

  lemma RemainderIsUnique(x: nat, m: nat, q: nat, r: nat)
    requires r < m && x == q * m + r
    ensures x % m == r
  {
    TimesGrows(x / m - q, m);
    assert (x / m - q) * m == x / m * m - q * m;
  }

  /** One subtraction does the work of the remainder while at most `capacity` places are skipped. */
  lemma SlotIsRemainder(head: nat, i: nat, capacity: nat)
    requires head < capacity && i <= capacity
    ensures Slot(head, i, capacity) == (head + i) % capacity
  {
    RemainderIsUnique(head + i, capacity, if head + i < capacity then 0 else 1, Slot(head, i, capacity));
  }

  lemma SlotSteps(head: nat, i: nat, capacity: nat)
    requires head < capacity && i <= capacity
    ensures Slot(head, i, capacity) < capacity
    ensures i < capacity ==> Slot(Slot(head, i, capacity), 1, capacity) == Slot(head, i + 1, capacity)
    ensures i == 0 || i == capacity ==> Slot(head, i, capacity) == head
  {
  }

  /** `n` consecutive cells of a ring, from `head` on. */
  function Ring(cells: seq<byte>, head: nat, n: nat, capacity: nat): (r: seq<byte>)
    requires n <= capacity < |cells| && (capacity == 0 || head < capacity)
    ensures |r| == n
    ensures forall i :: 0 <= i < n ==> r[i] == cells[Slot(head, i, capacity)]
  {
    seq(n, i requires 0 <= i < n => cells[Slot(head, i, capacity)])
  }

  /** Dropping from the front of a ring is moving its head. */
  lemma RingDrop(cells: seq<byte>, head: nat, n: nat, k: nat, capacity: nat)
    requires k <= n <= capacity < |cells| && head < capacity
    ensures Slot(head, k, capacity) < capacity
    ensures Ring(cells, Slot(head, k, capacity), n - k, capacity) == Ring(cells, head, n, capacity)[k..]
    ensures Slot(Slot(head, k, capacity), n - k, capacity) == Slot(head, n, capacity)
  {
  }

  /** Writing the slot after the last one appends to a ring that is not full. */
  lemma RingAppend(cells: seq<byte>, head: nat, n: nat, capacity: nat, b: byte)
    requires n < capacity < |cells| && head < capacity
    ensures Ring(cells[Slot(head, n, capacity) := b], head, n + 1, capacity) == Ring(cells, head, n, capacity) + [b]
  {
  }

  /** Steps `i` places around the ring. */
  method Advance(head: nat, i: nat, capacity: nat) returns (r: nat)
    requires head < capacity && i <= capacity
    ensures r == Slot(head, i, capacity) < capacity
  {
    SlotIsRemainder(head, i, capacity);
    r := (head + i) % capacity;
  }

  class ByteStream {
    const capacity: nat
    const buf: array<byte>
    var endInput: bool
    var error: bool
    var readBytes: u32
    var writeBytes: u32
    var head: nat
    var tail: nat
    var sz: nat
    /** Everything popped so far. */
    ghost var taken: seq<byte>

    ghost function Repr(): set<object> {
      {this, buf}
    }

    ghost predicate Valid()
      reads this, buf
    {
      && buf.Length == capacity + 1
      && sz <= capacity
      && (if capacity == 0 then head == tail == 0 else head < capacity && tail == Slot(head, sz, capacity))
      && readBytes == |taken| % TWO32
      && writeBytes == (|taken| + sz) % TWO32
    }

    /** The bytes held, oldest first. */
    ghost function Held(): (s: seq<byte>)
      requires Valid()
      reads this, buf
    {
      Ring(buf[..], head, sz, capacity)
    }

    ghost function View(): (q: ByteQueue)
      requires Valid()
      reads this, buf
      ensures q.Valid()
    {
      ByteQueue(capacity, taken, Held(), endInput, error)
    }

    constructor (capacity: nat)
      ensures Valid() && View() == EmptyQueue(capacity)
      ensures fresh(buf)
    {
      this.capacity := capacity;
      buf := new byte[capacity + 1](_ => 48);
      endInput, error, readBytes, writeBytes := false, false, 0, 0;
      head, tail, sz, taken := 0, 0, 0, [];
    }

    method Write(data: seq<byte>) returns (idx: nat)
      requires Valid()
      modifies this, buf
      ensures Valid()
      ensures View() == old(View()).Write(data)
      ensures idx == old(View()).Accepted(|data|)
    {
      hide Ring;
      hide Slot;
      idx := 0;
      var dataSize := |data|;
      ghost var before := View();
      while (tail != head || sz != capacity) && dataSize != idx
        modifies `tail, `sz, buf
        invariant idx <= |data|
        invariant buf.Length == capacity + 1
        invariant sz == |before.buffer| + idx <= capacity
        invariant if capacity == 0 then head == tail == 0 else head < capacity && tail == Slot(head, sz, capacity)
        invariant Ring(buf[..], head, sz, capacity) == before.buffer + data[..idx]
      {
        SlotSteps(head, sz, capacity);
        assert data[..idx + 1] == data[..idx] + [data[idx]];
        PutByte(data[idx]);
        idx := idx + 1;
      }
      AddThenWrap(|taken| + |before.buffer|, idx);
      writeBytes := (writeBytes + idx) % TWO32;
    }

    /** Puts one byte behind the last one. */
    method PutByte(b: byte)
      requires buf.Length == capacity + 1 && sz < capacity && head < capacity && tail == Slot(head, sz, capacity)
      modifies `tail, `sz, buf
      ensures sz == old(sz) + 1 && tail == Slot(head, sz, capacity)
      ensures Ring(buf[..], head, sz, capacity) == old(Ring(buf[..], head, sz, capacity)) + [b]
    {
      hide Ring;
      hide Slot;
      SlotSteps(head, sz, capacity);
      RingAppend(buf[..], head, sz, capacity, b);
      buf[tail] := b;
      tail := Advance(tail, 1, capacity);
      sz := sz + 1;
    }

    method PeekOutput(len: nat) returns (ret: seq<byte>)
      requires Valid()
      ensures ret == View().Peek(len)
    {
      ret := [];
      var peekLen := Min(len, sz);
      var idx := head;
      while peekLen != 0
        invariant 0 <= peekLen <= Min(len, sz)
        invariant |ret| == Min(len, sz) - peekLen
        invariant capacity > 0 ==> idx == Slot(head, |ret|, capacity)
        invariant capacity == 0 ==> |ret| == Min(len, sz)
        invariant ret == Held()[..|ret|]
      {
        peekLen := peekLen - 1;
        ret := ret + [buf[idx]];
        idx := Advance(idx, 1, capacity);
      }
    }

    /** A stream without room divides by zero here, so the caller must not pop one. */
    method PopOutput(len: nat)
      requires Valid() && capacity > 0
      modifies this
      ensures Valid()
      ensures View() == old(View()).Pop(len)
    {
      ghost var before := View();
      var k := Min(len, sz);
      RingDrop(buf[..], head, sz, k, capacity);
      AddThenWrap(|taken|, k);
      taken := taken + before.buffer[..k];
      head := Advance(head, k, capacity);
      sz := sz - k;
      readBytes := (readBytes + k) % TWO32;
    }

    /** Reading is peeking and then popping. */
    method Read(len: nat) returns (ret: seq<byte>)
      requires Valid()
      modifies this
      ensures Valid()
      ensures ret == old(View()).Peek(len)
      ensures View() == old(View()).Pop(len)
    {
      hide Ring;
      hide Slot;
      ret := [];
      ghost var before := View();
      var k := Min(len, sz);
      var readLen := 0;
      if capacity > 0 {
        SlotSteps(head, 0, capacity);
      }
      while readLen != k
        modifies `head
        invariant 0 <= readLen <= k
        invariant |ret| == readLen
        invariant if capacity == 0 then head == 0 else head == Slot(old(head), readLen, capacity) < capacity
        invariant ret == before.buffer[..readLen]
      {
        SlotSteps(old(head), readLen, capacity);
        assert before.buffer[..readLen + 1] == before.buffer[..readLen] + [buf[head]];
        ret := ret + [buf[head]];
        head := Advance(head, 1, capacity);
        readLen := readLen + 1;
      }
      if capacity > 0 {
        RingDrop(buf[..], old(head), sz, k, capacity);
      }
      AddThenWrap(|taken|, k);
      sz := sz - k;
      readBytes := (readBytes + |ret|) % TWO32;
      taken := taken + ret;
    }

    method EndInput()
      requires Valid()
      modifies `endInput
      ensures Valid()
      ensures View() == old(View()).EndInput()
    {
      endInput := true;
    }

    method SetError()
      requires Valid()
      modifies `error
      ensures Valid()
      ensures View() == old(View()).SetError()
    {
      error := true;
    }

    /** The accessors, read together. */
    method Observe() returns (size: nat, eof: bool, remaining: nat, written: u32, read: u32)
      requires Valid()
      ensures size == |View().buffer|
      ensures eof <==> View().Eof()
      ensures remaining == View().Free()
      ensures written == View().BytesWritten() && read == View().BytesRead()
      ensures (written - read) % TWO32 == size % TWO32
    {
      size := sz;
      eof := endInput && sz == 0;
      remaining := capacity - sz;
      written := writeBytes;
      read := readBytes;
    }
  }
}
