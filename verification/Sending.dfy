/** The step functions of the TCP sender and its retransmission timer, and what every step keeps. */
module Sending {
  import opened Numbers
  import opened WrappingIntegers
  import opened ByteQueues
  import opened Segments
  import opened Reception

  const MAX_PAYLOAD_SIZE: nat := 1000

  /** A segment and the absolute sequence number right behind it. */
  datatype Sent = Sent(seg: Segment, end: nat) {
    function Start(): int {
      end - seg.Length()
    }
  }

  datatype Timer = Timer(
    running: bool,
    rto: u32,
    baseRto: u32,
    initialRto: u16,
    retransmissions: u32,
    outstanding: seq<Sent>)

  /**
   * `log` and `maxAck` are history: every segment made so far in order (retransmissions aside)
   * and the greatest acknowledgment accepted so far.
   */
  datatype Sender = Sender(
    isn: u32,
    stream: ByteQueue,
    next: nat,
    inFlight: nat,
    window: u16,
    ackno: nat,
    finSent: bool,
    timer: Timer,
    segmentsOut: seq<Segment>,
    log: seq<Sent>,
    maxAck: nat)

  function NewTimer(timeout: u16): Timer {
    Timer(false, timeout, timeout, timeout, 0, [])
  }

  function NewSender(capacity: nat, timeout: u16, isn: u32): Sender {
    Sender(isn, EmptyQueue(capacity), 0, 0, 1, 0, false, NewTimer(timeout), [], [], 0)
  }

  // ------------------------------------------------------------------
  // The timer

  predicate TimesOut(t: Timer, ms: nat) {
    t.running && t.rto <= ms
  }

  /** The segments sent again when `ms` milliseconds pass: the oldest outstanding one, on a timeout. */
  function Retransmitted(t: Timer, ms: nat): seq<Segment> {
    if TimesOut(t, ms) && t.outstanding != [] then [t.outstanding[0].seg] else []
  }

  /** On a timeout with an open window the timeout doubles, in 32 bits. */
  function TickTimer(t: Timer, ms: nat, window: u16): Timer {
    if TimesOut(t, ms) then
      var base: u32 := if window != 0 then t.baseRto * 2 % TWO32 else t.baseRto;
      t.(retransmissions := if window != 0 then (t.retransmissions + 1) % TWO32 else t.retransmissions,
         baseRto := base,
         rto := base)
    else if t.running then
      t.(rto := t.rto - ms)
    else
      t
  }

  function TotalLength(q: seq<Sent>): nat {
    if q == [] then 0 else q[0].seg.Length() + TotalLength(q[1..])
  }

  /** The segments that `ackno` does not acknowledge completely. */
  function DropAcked(q: seq<Sent>, ackno: nat): seq<Sent> {
    if q != [] && q[0].end <= ackno then DropAcked(q[1..], ackno) else q
  }

  function AckedLength(q: seq<Sent>, ackno: nat): nat {
    if q != [] && q[0].end <= ackno then q[0].seg.Length() + AckedLength(q[1..], ackno) else 0
  }

  function AckTimer(t: Timer, ackno: nat): Timer {
    var rest := DropAcked(t.outstanding, ackno);
    var popped := t.outstanding != [] && t.outstanding[0].end <= ackno;
    t.(retransmissions := 0,
       rto := if popped then t.initialRto else t.rto,
       baseRto := if popped then t.initialRto else t.baseRto,
       outstanding := rest,
       running := t.running && rest != [])
  }

  // ------------------------------------------------------------------
  // The sender

  /** The first sequence number that may not be sent; a closed window counts as one. */
  function Limit(s: Sender): nat {
    s.ackno + Max(s.window, 1)
  }

  predicate CanSend(s: Sender, limit: nat) {
    !s.finSent && s.next < limit && (s.stream.buffer != [] || s.next == 0 || s.stream.Eof())
  }

  /** How many bytes the next segment carries. */
  function PayloadLength(s: Sender, limit: nat): nat
    requires CanSend(s, limit)
  {
    Min(Min(limit - s.next - Bit(s.next == 0), |s.stream.buffer|), MAX_PAYLOAD_SIZE)
  }

  function NextSegment(s: Sender, limit: nat): Segment
    requires CanSend(s, limit)
  {
    var n := PayloadLength(s, limit);
    var syn := s.next == 0;
    var fin := n + Bit(syn) < limit - s.next && s.stream.Pop(n).Eof();
    Segment(DEFAULT_HEADER.(seqno := Wrap(s.next, s.isn), syn := syn, fin := fin), s.stream.Peek(n))
  }

  /** Numbers, queues and times a new segment that starts at `next`. */
  function Record(s: Sender, seg: Segment): Sender {
    var sent := Sent(seg, s.next + seg.Length());
    s.(inFlight := s.inFlight + seg.Length(),
       next := sent.end,
       segmentsOut := s.segmentsOut + [seg],
       timer := s.timer.(running := true, outstanding := s.timer.outstanding + [sent]),
       log := s.log + [sent])
  }

  /** One round of the fill loop: at least one number, and none beyond the limit. */
  function SendOne(s: Sender, limit: nat): (s': Sender)
    requires CanSend(s, limit)
    ensures s.next < s'.next <= limit
  {
    var seg := NextSegment(s, limit);
    Record(s.(stream := s.stream.Pop(PayloadLength(s, limit)), finSent := seg.header.fin), seg)
  }

  function Fill(s: Sender, limit: nat): Sender
    decreases limit - s.next
  {
    if CanSend(s, limit) then Fill(SendOne(s, limit), limit) else s
  }

  function FillWindow(s: Sender): Sender {
    Fill(s, Limit(s))
  }

  function AcceptAck(s: Sender, ackno: nat, window: u16): Sender {
    s.(ackno := ackno,
       window := window,
       timer := AckTimer(s.timer, ackno),
       inFlight := Sub64(s.inFlight, AckedLength(s.timer.outstanding, ackno)),
       maxAck := Max(s.maxAck, ackno))
  }

  /** An acknowledgment of something not sent yet is ignored. */
  function AckReceived(s: Sender, ackno: u32, window: u16): Sender {
    var a := Unwrap(ackno, s.isn, s.next);
    if a <= s.next then AcceptAck(s, a, window) else s
  }

  function TickSender(s: Sender, ms: nat): Sender {
    s.(segmentsOut := s.segmentsOut + Retransmitted(s.timer, ms), timer := TickTimer(s.timer, ms, s.window))
  }

  function EmptySegment(s: Sender): Segment {
    Segment(DEFAULT_HEADER.(seqno := Wrap(s.next, s.isn)), [])
  }

  function SendEmpty(s: Sender): Sender {
    s.(segmentsOut := s.segmentsOut + [EmptySegment(s)], log := s.log + [Sent(EmptySegment(s), s.next)])
  }

  function WriteStream(s: Sender, data: seq<byte>): Sender {
    s.(stream := s.stream.Write(data))
  }

  function EndStream(s: Sender): Sender {
    s.(stream := s.stream.EndInput())
  }

  // ------------------------------------------------------------------
  // Invariant

  /** The entries cover `from` to `to` one behind the other, without gap or overlap. */
  ghost predicate Tiles(q: seq<Sent>, from: int, to: int) {
    if q == [] then from == to else q[0].Start() == from && Tiles(q[1..], q[0].end, to)
  }

  /** All payloads, in order. */
  function Payloads(q: seq<Sent>): seq<byte> {
    if q == [] then [] else q[0].seg.payload + Payloads(q[1..])
  }

  /** The entries that take up sequence numbers and are not completely acknowledged by `ackno`. */
  function Unacked(q: seq<Sent>, ackno: nat): seq<Sent> {
    if q == [] then []
    else (if q[0].seg.Length() > 0 && q[0].end > ackno then [q[0]] else []) + Unacked(q[1..], ackno)
  }

  /** A logged segment carries the stream's own bytes, SYN first and FIN last. */
  ghost predicate GoodEntry(s: Sender, e: Sent) {
    && 0 <= e.Start() && e.end <= s.next
    && !e.seg.header.ack
    && CarriesStream(e.seg, e.Start(), s.isn, s.stream.taken)
    && (e.Start() == 0 && e.seg.Length() > 0 ==> e.seg.header.syn)
    && (e.seg.header.fin ==> s.finSent)
  }

  ghost predicate LogInv(s: Sender) {
    forall i :: 0 <= i < |s.log| ==> GoodEntry(s, s.log[i])
  }

  /** The sequence numbers used are the SYN, the bytes taken from the stream, and the FIN. */
  ghost predicate NumberInv(s: Sender) {
    && s.stream.Valid()
    && s.next == (if s.next == 0 then 0 else 1) + |s.stream.taken| + Bit(s.finSent)
    && (s.finSent ==> s.stream.inputEnded && s.next > 0)
    && Tiles(s.log, 0, s.next)
    && Payloads(s.log) == s.stream.taken
  }

  ghost predicate QueueInv(s: Sender) {
    && s.timer.outstanding == Unacked(s.log, s.maxAck)
    && Tiles(s.timer.outstanding, s.next - s.inFlight, s.next)
    && s.inFlight == TotalLength(s.timer.outstanding)
    && s.next - s.inFlight <= s.maxAck
    && s.ackno <= s.maxAck <= s.next
  }

  /** The timer runs exactly while something is outstanding, and is fresh whenever it is idle. */
  ghost predicate TimerInv(t: Timer) {
    && (t.running <==> t.outstanding != [])
    && (!t.running ==> t.rto == t.baseRto == t.initialRto && t.retransmissions == 0)
  }

  ghost predicate SenderInv(s: Sender) {
    NumberInv(s) && LogInv(s) && QueueInv(s) && TimerInv(s.timer)
  }

  // ------------------------------------------------------------------
  // Facts about the queues

  lemma {:induction false} TilesAppend(q: seq<Sent>, from: int, to: int, e: Sent)
    requires Tiles(q, from, to) && e.Start() == to
    ensures Tiles(q + [e], from, e.end)
  {
    if q == [] {
    } else {
      assert (q + [e])[1..] == q[1..] + [e];
      TilesAppend(q[1..], q[0].end, to, e);
    }
  }

  lemma {:induction false} TilesLength(q: seq<Sent>, from: int, to: int)
    requires Tiles(q, from, to)
    ensures TotalLength(q) == to - from
  {
    if q == [] {
    } else {
      TilesLength(q[1..], q[0].end, to);
    }
  }

  lemma {:induction false} LengthAppend(q: seq<Sent>, e: Sent)
    ensures TotalLength(q + [e]) == TotalLength(q) + e.seg.Length()
  {
    if q == [] {
    } else {
      assert (q + [e])[1..] == q[1..] + [e];
      LengthAppend(q[1..], e);
    }
  }

  lemma {:induction false} PayloadsAppend(q: seq<Sent>, e: Sent)
    ensures Payloads(q + [e]) == Payloads(q) + e.seg.payload
  {
    if q == [] {
    } else {
      assert (q + [e])[1..] == q[1..] + [e];
      PayloadsAppend(q[1..], e);
    }
  }

  lemma {:induction false} UnackedAppend(q: seq<Sent>, e: Sent, ackno: nat)
    ensures Unacked(q + [e], ackno) == Unacked(q, ackno) + (if e.seg.Length() > 0 && e.end > ackno then [e] else [])
  {
    if q == [] {
    } else {
      assert (q + [e])[1..] == q[1..] + [e];
      UnackedAppend(q[1..], e, ackno);
    }
  }

  lemma {:induction false} UnackedInLog(q: seq<Sent>, ackno: nat, e: Sent)
    ensures e in Unacked(q, ackno) <==> e in q && e.seg.Length() > 0 && e.end > ackno
  {
    if q == [] {
    } else {
      UnackedInLog(q[1..], ackno, e);
      assert e in q <==> e == q[0] || e in q[1..];
    }
  }

  /** Popping from the front leaves a tiling that begins no later than the acknowledgment. */
  lemma {:induction false} DropAckedTiles(q: seq<Sent>, from: int, to: int, ackno: nat)
    requires Tiles(q, from, to)
    ensures TotalLength(q) == AckedLength(q, ackno) + TotalLength(DropAcked(q, ackno))
    ensures Tiles(DropAcked(q, ackno), from + AckedLength(q, ackno), to)
    ensures AckedLength(q, ackno) > 0 ==> from + AckedLength(q, ackno) <= ackno
  {
    if q != [] && q[0].end <= ackno {
      DropAckedTiles(q[1..], q[0].end, to, ackno);
    }
  }

  /** Nothing is acknowledged in a tiling that begins at or after the acknowledgment. */
  lemma {:induction false} UnackedBeyond(q: seq<Sent>, from: int, to: int, a: nat, b: nat)
    requires Tiles(q, from, to) && a <= from && b <= from
    ensures Unacked(q, a) == Unacked(q, b)
  {
    if q == [] {
    } else {
      UnackedBeyond(q[1..], q[0].end, to, a, b);
    }
  }

  /** Popping what a new acknowledgment covers is filtering by the greatest one so far. */
  lemma {:induction false} DropAckedIsUnacked(q: seq<Sent>, from: int, to: int, a: nat, b: nat)
    requires Tiles(q, from, to)
    ensures DropAcked(Unacked(q, a), b) == Unacked(q, Max(a, b))
  {
    if q == [] {
    } else {
      DropAckedIsUnacked(q[1..], q[0].end, to, a, b);
      if q[0].seg.Length() > 0 && q[0].end > a {
        assert Unacked(q, a)[1..] == Unacked(q[1..], a);
        if q[0].end > b {
          UnackedBeyond(q[1..], q[0].end, to, a, Max(a, b));
        }
      } else {
        assert Unacked(q, a) == Unacked(q[1..], a);
      }
    }
  }
}
