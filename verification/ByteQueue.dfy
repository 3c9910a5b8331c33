/** A flow-controlled byte stream as a bounded queue: what the ring buffer has to implement. */
module ByteQueues {
  import opened Numbers

  /**
   * `taken` is everything the reader has removed so far and `buffer` what is still held,
   * so that `taken + buffer` is everything ever accepted from the writer.
   */
  datatype ByteQueue = ByteQueue(
    capacity: nat,
    taken: seq<byte>,
    buffer: seq<byte>,
    inputEnded: bool,
    error: bool)
  {
    ghost predicate Valid() {
      |buffer| <= capacity
    }

    function Written(): seq<byte> {
      taken + buffer
    }

    function Free(): nat {
      Sub64(capacity, |buffer|)
    }

    predicate Eof() {
      inputEnded && buffer == []
    }

    /** How many of `n` offered bytes are accepted. */
    function Accepted(n: nat): (k: nat)
      ensures k <= n
    {
      Min(n, Free())
    }

    function Write(data: seq<byte>): ByteQueue {
      this.(buffer := buffer + data[..Accepted(|data|)])
    }

    function Peek(n: nat): seq<byte> {
      buffer[..Min(n, |buffer|)]
    }

    function Pop(n: nat): ByteQueue {
      var k := Min(n, |buffer|);
      this.(taken := taken + buffer[..k], buffer := buffer[k..])
    }

    function EndInput(): ByteQueue {
      this.(inputEnded := true)
    }

    function SetError(): ByteQueue {
      this.(error := true)
    }

    /** The 32-bit counters of the original. */
    function BytesWritten(): u32 {
      |taken + buffer| % TWO32
    }

    function BytesRead(): u32 {
      |taken| % TWO32
    }
  }

  function EmptyQueue(capacity: nat): ByteQueue {
    ByteQueue(capacity, [], [], false, false)
  }

  datatype QueueOp = Offer(data: seq<byte>) | Take(n: nat) | Finish

  function ApplyOp(q: ByteQueue, op: QueueOp): ByteQueue {
    match op
    case Offer(data) => q.Write(data)
    case Take(n) => q.Pop(n)
    case Finish => q.EndInput()
  }

  function RunOps(q: ByteQueue, ops: seq<QueueOp>): ByteQueue
    decreases |ops|
  {
    if ops == [] then q else RunOps(ApplyOp(q, ops[0]), ops[1..])
  }

  /** What one operation adds at the writer's end and removes at the reader's end. */
  function Input(q: ByteQueue, op: QueueOp): seq<byte> {
    if op.Offer? then op.data[..q.Accepted(|op.data|)] else []
  }

  function Output(q: ByteQueue, op: QueueOp): seq<byte> {
    if op.Take? then q.Peek(op.n) else []
  }

  /** All the bytes the writer got accepted along a run, in order. */
  function Inputs(q: ByteQueue, ops: seq<QueueOp>): seq<byte>
    decreases |ops|
  {
    if ops == [] then []
    else Input(q, ops[0]) + Inputs(ApplyOp(q, ops[0]), ops[1..])
  }

  /** All the bytes the reader got along a run, in order. */
  function Outputs(q: ByteQueue, ops: seq<QueueOp>): seq<byte>
    decreases |ops|
  {
    if ops == [] then []
    else Output(q, ops[0]) + Outputs(ApplyOp(q, ops[0]), ops[1..])
  }

  lemma Chain(before: seq<byte>, i: seq<byte>, o: seq<byte>, mid: seq<byte>,
              i': seq<byte>, o': seq<byte>, after: seq<byte>)
    requires before + i == o + mid && mid + i' == o' + after
    ensures before + (i + i') == (o + o') + after
  {
    assert before + (i + i') == (before + i) + i' == o + (mid + i') == (o + o') + after;
  }

  lemma StepIsFifo(q: ByteQueue, op: QueueOp)
    requires q.Valid()
    ensures ApplyOp(q, op).Valid()
    ensures q.buffer + Input(q, op) == Output(q, op) + ApplyOp(q, op).buffer
    ensures ApplyOp(q, op).taken == q.taken + Output(q, op)
  {
  }

  /** First in, first out, nothing lost and never over capacity, whatever the interleaving. */
  lemma {:induction false} RunIsFifo(q: ByteQueue, ops: seq<QueueOp>)
    requires q.Valid()
    ensures RunOps(q, ops).Valid()
    ensures q.buffer + Inputs(q, ops) == Outputs(q, ops) + RunOps(q, ops).buffer
    ensures RunOps(q, ops).taken == q.taken + Outputs(q, ops)
    decreases |ops|
  {
    hide Input;
    hide Output;
    hide ApplyOp;
    if ops == [] {
    } else {
      var q' := ApplyOp(q, ops[0]);
      StepIsFifo(q, ops[0]);
      RunIsFifo(q', ops[1..]);
      var i, o := Inputs(q', ops[1..]), Outputs(q', ops[1..]);
      Chain(q.buffer, Input(q, ops[0]), Output(q, ops[0]), q'.buffer, i, o, RunOps(q, ops).buffer);
      assert (q.taken + Output(q, ops[0])) + o == q.taken + (Output(q, ops[0]) + o);
    }
  }
}
