/** The step functions of a complete TCP endpoint. */
module ConnectionSteps {
  import opened Numbers
  import opened WrappingIntegers
  import opened ByteQueues
  import opened Segments
  import opened Reception
  import opened Sending

  const MAX_RETX_ATTEMPTS: nat := 8

  /** An acknowledgment and window as put on an outgoing segment; `ackno` is absolute. */
  datatype AckSent = AckSent(ackno: nat, win: u16)

  /** `acks` is history: every acknowledgment put on an outgoing segment so far. */
  datatype Connection = Connection(
    rtTimeout: u16,
    receiver: Receiver,
    sender: Sender,
    segmentsOut: seq<Segment>,
    linger: bool,
    lingerTime: nat,
    active: bool,
    acks: set<AckSent>)
  {
    function Inbound(): ByteQueue {
      receiver.reassembler.output
    }

    function Outbound(): ByteQueue {
      sender.stream
    }

    /** The outbound stream is used up and nothing is in flight; the inbound stream is read to its end. */
    predicate BothFinished() {
      Inbound().Eof() && Outbound().Eof() && sender.inFlight == 0
    }
  }

  function NewConnection(rtTimeout: u16, recvCapacity: nat, sendCapacity: nat, isn: u32): Connection {
    Connection(rtTimeout, NewReceiver(recvCapacity), NewSender(sendCapacity, rtTimeout, isn), [], true, 0, true, {})
  }

  /** What the receiver currently advertises; the window field has 16 bits. */
  function CurrentAck(r: Receiver): AckSent {
    AckSent(r.ackno, r.WindowSize() % TWO16)
  }

  function Stamp(r: Receiver, seg: Segment): Segment {
    if r.synArrived then seg.Stamped(Wrap(r.ackno, r.isn), CurrentAck(r).win) else seg
  }

  function StampAll(r: Receiver, queue: seq<Segment>): seq<Segment> {
    if queue == [] then [] else [Stamp(r, queue[0])] + StampAll(r, queue[1..])
  }

  /** Moves the sender's segments to the outside, with the receiver's acknowledgment on them. */
  function UpdateQueue(c: Connection): Connection {
    c.(segmentsOut := c.segmentsOut + StampAll(c.receiver, c.sender.segmentsOut),
       sender := c.sender.(segmentsOut := []),
       acks := if c.receiver.synArrived && c.sender.segmentsOut != [] then c.acks + {CurrentAck(c.receiver)} else c.acks)
  }

  function SetErrors(c: Connection): Connection {
    c.(receiver := c.receiver.(reassembler := c.receiver.reassembler.(output := c.Inbound().SetError())),
       sender := c.sender.(stream := c.Outbound().SetError()),
       active := false)
  }

  /** Gives up: the reset replaces whatever was still queued. */
  function SendRst(c: Connection): Connection {
    var seg := EmptySegment(c.sender);
    SetErrors(c.(segmentsOut := [seg.(header := seg.header.(rst := true))], sender := SendEmpty(c.sender)))
  }

  function TryCleanClose(c: Connection): Connection {
    if c.BothFinished() && (!c.linger || c.lingerTime >= c.rtTimeout * 10) then c.(active := false) else c
  }

  function FillAndSend(c: Connection): Connection {
    UpdateQueue(c.(sender := FillWindow(c.sender)))
  }

  function EmptyAndSend(c: Connection): Connection {
    UpdateQueue(c.(sender := SendEmpty(c.sender)))
  }

  function HandleAck(c: Connection, h: TcpHeader): Connection {
    if h.ack then
      var c1 := c.(sender := AckReceived(c.sender, h.ackno, h.win));
      if c1.sender.next != 0 then FillAndSend(c1) else c1
    else c
  }

  /** The peer has finished first: no need to linger. */
  function NotePassiveClose(c: Connection): Connection {
    if c.Inbound().Eof() && !c.Outbound().Eof() then c.(linger := false) else c
  }

  /** Answers a segment that takes up sequence numbers, or a keep-alive probe. */
  function Reply(c: Connection, seg: Segment): Connection {
    if !c.receiver.synArrived then c
    else if seg.Length() != 0 then
      if c.sender.next == 0 && seg.header.syn then FillAndSend(c) else EmptyAndSend(c)
    else if seg.header.seqno == (Wrap(c.receiver.ackno, c.receiver.isn) - 1) % TWO32 then EmptyAndSend(c)
    else c
  }

  function SegmentArrives(c: Connection, seg: Segment): Connection {
    var c0 := c.(lingerTime := 0);
    if seg.header.rst then SetErrors(c0)
    else
      var c1 := c0.(receiver := Receive(c.receiver, seg));
      Reply(TryCleanClose(NotePassiveClose(HandleAck(c1, seg.header))), seg)
  }

  function WriteData(c: Connection, data: seq<byte>): Connection {
    FillAndSend(c.(sender := WriteStream(c.sender, data)))
  }

  function EndInputStream(c: Connection): Connection {
    FillAndSend(c.(sender := EndStream(c.sender)))
  }

  function Tick(c: Connection, ms: nat): Connection {
    var c1 := UpdateQueue(c.(sender := TickSender(c.sender, ms)));
    var c2 := c1.(lingerTime := c.lingerTime + ms);
    if c2.sender.timer.retransmissions > MAX_RETX_ATTEMPTS then SendRst(c2) else TryCleanClose(c2)
  }

  function ReadInbound(c: Connection, n: nat): Connection {
    c.(receiver := ReadOut(c.receiver, n))
  }

  /** Everything the owner of an endpoint can do with it; `Collect` takes the queued segments away. */
  datatype Op =
    | Connect
    | Write(data: seq<byte>)
    | EndInput
    | Arrive(seg: Segment)
    | Elapse(ms: nat)
    | Read(n: nat)
    | Collect

  function Step(c: Connection, op: Op): Connection {
    match op
    case Connect => FillAndSend(c)
    case Write(data) => WriteData(c, data)
    case EndInput => EndInputStream(c)
    case Arrive(seg) => SegmentArrives(c, seg)
    case Elapse(ms) => Tick(c, ms)
    case Read(n) => ReadInbound(c, n)
    case Collect => c.(segmentsOut := [])
  }

  function Run(c: Connection, ops: seq<Op>): Connection
    decreases |ops|
  {
    if ops == [] then c else Run(Step(c, ops[0]), ops[1..])
  }
}
