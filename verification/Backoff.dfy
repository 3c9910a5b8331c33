/** Exponential backoff: how long an endpoint keeps trying before it resets the connection. */
module Backoff {
  import opened Numbers
  import opened WrappingIntegers
  import opened Segments
  import opened Reception
  import opened Sending
  import opened ConnectionSteps

  function Pow2(k: nat): nat {
    if k == 0 then 1 else 2 * Pow2(k - 1)
  }

  /** The parts of the timer that only time and accepted acknowledgments move. */
  predicate SameClock(t: Timer, t': Timer) {
    t'.rto == t.rto && t'.baseRto == t.baseRto && t'.initialRto == t.initialRto
    && t'.retransmissions == t.retransmissions
  }

  /** No acknowledgment is accepted in this operation. */
  predicate NoAckAccepted(c: Connection, op: Op) {
    op.Arrive? && op.seg.header.ack && !op.seg.header.rst ==>
      Unwrap(op.seg.header.ackno, c.sender.isn, c.sender.next) > c.sender.next
  }

  predicate NoAcksAccepted(c: Connection, ops: seq<Op>)
    decreases |ops|
  {
    ops == [] || (NoAckAccepted(c, ops[0]) && NoAcksAccepted(Step(c, ops[0]), ops[1..]))
  }

  /** Total time that passes in a run. */
  function Elapsed(ops: seq<Op>): nat
    decreases |ops|
  {
    if ops == [] then 0 else (if ops[0].Elapse? then ops[0].ms else 0) + Elapsed(ops[1..])
  }

  /** How often the timer expires in a run. */
  function Timeouts(c: Connection, ops: seq<Op>): nat
    decreases |ops|
  {
    if ops == [] then 0
    else Bit(ops[0].Elapse? && TimesOut(c.sender.timer, ops[0].ms)) + Timeouts(Step(c, ops[0]), ops[1..])
  }

  /** The timeout after `k` doublings, in 32 bits. */
  function BaseAfter(base: u32, k: nat): u32 {
    if k == 0 then base else BaseAfter(base, k - 1) * 2 % TWO32
  }

  /** What was left of the first timeout, and the `k` timeouts that follow it. */
  function Waited(left: nat, base: u32, k: nat): nat {
    if k == 0 then left else Waited(left, base, k - 1) + BaseAfter(base, k)
  }

  /**
   * After `k` expirations of a timer that began with timeout `base`, of which `left` was left: the
   * counter is `k`, the timeout is doubled `k` times, and the time that has passed together with what
   * is left of the timeout makes up all timeouts so far.
   */
  ghost predicate BackedOff(t: Timer, left: nat, base: u32, elapsed: nat, k: nat) {
    && t.retransmissions == k
    && t.baseRto == BaseAfter(base, k)
    && (k > 0 ==> t.rto <= t.baseRto)
    && elapsed + t.rto >= Waited(left, base, k)
  }

  /** A tick with an open window. */
  lemma TickBacksOff(t: Timer, left: nat, base: u32, elapsed: nat, k: nat, ms: nat, window: u16)
    requires BackedOff(t, left, base, elapsed, k) && k <= MAX_RETX_ATTEMPTS && window != 0
    ensures BackedOff(TickTimer(t, ms, window), left, base, elapsed + ms, k + Bit(TimesOut(t, ms)))
  {
  }

  lemma {:induction false} FillKeepsClock(s: Sender, limit: nat)
    ensures SameClock(s.timer, Fill(s, limit).timer) && Fill(s, limit).window == s.window
    decreases limit - s.next
  {
    if CanSend(s, limit) {
      FillKeepsClock(SendOne(s, limit), limit);
    }
  }

  /** The clock and the window are where they were. */
  predicate SameTiming(s: Sender, s': Sender) {
    SameClock(s.timer, s'.timer) && s'.window == s.window
  }

  lemma ReplyKeepsClock(c: Connection, seg: Segment)
    ensures SameTiming(c.sender, Reply(c, seg).sender)
  {
    hide Fill;
    hide StampAll;
    hide Wrap;
    FillKeepsClock(c.sender, Limit(c.sender));
  }

  lemma RefusedAckKeepsClock(c: Connection, h: TcpHeader)
    requires h.ack ==> Unwrap(h.ackno, c.sender.isn, c.sender.next) > c.sender.next
    ensures SameTiming(c.sender, HandleAck(c, h).sender)
  {
    hide Fill;
    hide StampAll;
    hide Unwrap;
    FillKeepsClock(c.sender, Limit(c.sender));
  }

  lemma ArrivalKeepsClock(c: Connection, seg: Segment)
    requires NoAckAccepted(c, Arrive(seg))
    ensures SameTiming(c.sender, SegmentArrives(c, seg).sender)
  {
    hide Receive;
    hide Unwrap;
    hide HandleAck;
    hide Reply;
    if !seg.header.rst {
      var c1 := c.(lingerTime := 0, receiver := Receive(c.receiver, seg));
      RefusedAckKeepsClock(c1, seg.header);
      ReplyKeepsClock(TryCleanClose(NotePassiveClose(HandleAck(c1, seg.header))), seg);
    }
  }

  /** Only time moves the clock while no acknowledgment is accepted. */
  lemma StepClock(c: Connection, op: Op)
    requires NoAckAccepted(c, op)
    ensures var t, t' := c.sender.timer, Step(c, op).sender.timer;
      && Step(c, op).sender.window == c.sender.window
      && SameClock(if op.Elapse? then TickTimer(t, op.ms, c.sender.window) else t, t')
  {
    hide Fill;
    hide StampAll;
    hide SegmentArrives;
    hide Wrap;
    match op {
      case Connect => FillKeepsClock(c.sender, Limit(c.sender));
      case Write(data) => FillKeepsClock(WriteStream(c.sender, data), Limit(c.sender));
      case EndInput => FillKeepsClock(EndStream(c.sender), Limit(c.sender));
      case Arrive(seg) => ArrivalKeepsClock(c, seg);
      case Elapse(ms) =>
      case Read(n) =>
      case Collect =>
    }
  }

  /** A connection that is still active after a tick has not reached the limit. */
  lemma ActiveBelowLimit(c: Connection, op: Op)
    requires Step(c, op).active
    ensures c.active
    ensures op.Elapse? ==> Step(c, op).sender.timer.retransmissions <= MAX_RETX_ATTEMPTS
  {
    hide Fill;
    hide StampAll;
    hide Receive;
    hide AckReceived;
    hide TickTimer;
    hide Retransmitted;
    hide Wrap;
  }

  lemma StepBacksOff(c: Connection, op: Op, left: nat, base: u32, elapsed: nat, k: nat)
    requires NoAckAccepted(c, op) && c.sender.window != 0
    requires BackedOff(c.sender.timer, left, base, elapsed, k) && k <= MAX_RETX_ATTEMPTS
    ensures var k' := k + Bit(op.Elapse? && TimesOut(c.sender.timer, op.ms));
      && BackedOff(Step(c, op).sender.timer, left, base, elapsed + (if op.Elapse? then op.ms else 0), k')
      && (Step(c, op).active ==> k' <= MAX_RETX_ATTEMPTS)
  {
    hide Step;
    hide NoAckAccepted;
    hide TickTimer;
    hide BaseAfter;
    hide Waited;
    StepClock(c, op);
    if op.Elapse? {
      TickBacksOff(c.sender.timer, left, base, elapsed, k, op.ms, c.sender.window);
    }
    if Step(c, op).active {
      ActiveBelowLimit(c, op);
    }
  }

  /** As long as the connection is active and nothing is acknowledged. */
  lemma {:induction false} RunBacksOff(c: Connection, ops: seq<Op>, left: nat, base: u32, before: nat, k: nat)
    requires NoAcksAccepted(c, ops) && c.sender.window != 0
    requires BackedOff(c.sender.timer, left, base, before, k) && k <= MAX_RETX_ATTEMPTS
    requires Run(c, ops).active
    ensures var c' := Run(c, ops);
      && BackedOff(c'.sender.timer, left, base, before + Elapsed(ops), k + Timeouts(c, ops))
      && k + Timeouts(c, ops) <= MAX_RETX_ATTEMPTS
      && c'.sender.window == c.sender.window
    decreases |ops|
  {
    hide Step;
    hide NoAckAccepted;
    hide BackedOff;
    hide TickTimer;
    hide TimesOut;
    if ops == [] {
    } else {
      var c1 := Step(c, ops[0]);
      var k' := k + Bit(ops[0].Elapse? && TimesOut(c.sender.timer, ops[0].ms));
      RunStaysInactive(c1, ops[1..]);
      StepBacksOff(c, ops[0], left, base, before, k);
      StepClock(c, ops[0]);
      RunBacksOff(c1, ops[1..], left, base, before + (if ops[0].Elapse? then ops[0].ms else 0), k');
    }
  }

  lemma {:induction false} RunStaysInactive(c: Connection, ops: seq<Op>)
    requires Run(c, ops).active
    ensures c.active
    decreases |ops|
  {
    hide Step;
    if ops == [] {
    } else {
      RunStaysInactive(Step(c, ops[0]), ops[1..]);
      ActiveBelowLimit(c, ops[0]);
    }
  }

  /**
   * The backoff over any run in which no acknowledgment is accepted and the window is open, from any
   * timer whose counter is zero, fresh or not: after `k` expirations the counter is `k`, the timeout
   * has doubled `k` times, and the first `k` timeouts have passed. The connection is reset exactly by
   * the ninth expiration.
   */
  lemma BackoffOverRuns(c: Connection, ops: seq<Op>, ms: nat)
    requires NoAcksAccepted(c, ops) && c.sender.window != 0 && c.sender.timer.retransmissions == 0
    requires Run(c, ops).active
    ensures var t0, t, k := c.sender.timer, Run(c, ops).sender.timer, Timeouts(c, ops);
      && t.retransmissions == k <= MAX_RETX_ATTEMPTS
      && t.baseRto == BaseAfter(t0.baseRto, k)
      && (k > 0 ==> Elapsed(ops) >= Waited(t0.rto, t0.baseRto, k - 1))
    ensures var t0, t := c.sender.timer, Run(c, ops).sender.timer;
      && (Tick(Run(c, ops), ms).sender.timer.retransmissions > MAX_RETX_ATTEMPTS <==>
           Timeouts(c, ops) == MAX_RETX_ATTEMPTS && TimesOut(t, ms))
      && (Tick(Run(c, ops), ms).sender.timer.retransmissions > MAX_RETX_ATTEMPTS ==>
           Elapsed(ops) + ms >= Waited(t0.rto, t0.baseRto, MAX_RETX_ATTEMPTS))
  {
    hide Step;
    hide NoAcksAccepted;
    hide Tick;
    hide TickTimer;
    hide TimesOut;
    hide Timeouts;
    var t0, k := c.sender.timer, Timeouts(c, ops);
    RunBacksOff(c, ops, t0.rto, t0.baseRto, 0, 0);
    var c1 := Run(c, ops);
    TickClock(c1, ms);
    TickBacksOff(c1.sender.timer, t0.rto, t0.baseRto, Elapsed(ops), k, ms, c1.sender.window);
  }

  lemma TickClock(c: Connection, ms: nat)
    ensures SameClock(TickTimer(c.sender.timer, ms, c.sender.window), Tick(c, ms).sender.timer)
  {
    hide StampAll;
    hide Wrap;
    hide TickTimer;
    hide Retransmitted;
  }

  // ------------------------------------------------------------------
  // In closed form, as long as the doubling stays within 32 bits

  function Doubled(base: nat, k: nat): nat {
    if k == 0 then base else 2 * Doubled(base, k - 1)
  }

  lemma {:induction false} DoubledIsPower(base: nat, k: nat)
    ensures Doubled(base, k) == base * Pow2(k)
  {
    if k == 0 {
    } else {
      DoubledIsPower(base, k - 1);
      assert base * (2 * Pow2(k - 1)) == 2 * (base * Pow2(k - 1));
    }
  }

  lemma {:induction false} ClosedForm(left: nat, base: u32, k: nat)
    requires Doubled(base, k) < TWO32
    ensures BaseAfter(base, k) == Doubled(base, k)
    ensures Waited(left, base, k) == left + 2 * Doubled(base, k) - 2 * base
  {
    if k == 0 {
    } else {
      ClosedForm(left, base, k - 1);
    }
  }

  lemma PowersBelowLimit(k: nat)
    requires k <= MAX_RETX_ATTEMPTS
    ensures Pow2(k) <= Pow2(8) == 256
  {
    assert Pow2(8) == 2 * Pow2(7) && Pow2(7) == 2 * Pow2(6);
    assert Pow2(6) == 2 * Pow2(5) && Pow2(5) == 2 * Pow2(4) && Pow2(4) == 2 * Pow2(3);
    assert Pow2(3) == 2 * Pow2(2) && Pow2(2) == 2 * Pow2(1) && Pow2(1) == 2 * Pow2(0) && Pow2(0) == 1;
  }

  lemma BelowOverflow(base: u32, k: nat)
    requires k <= MAX_RETX_ATTEMPTS && base * 256 < TWO32
    ensures Doubled(base, k) == base * Pow2(k) < TWO32
  {
    PowersBelowLimit(k);
    DoubledIsPower(base, k);
    assert base * Pow2(k) <= base * 256;
  }

  /**
   * The retransmission limit never resets a connection early: from any timer whose counter is zero
   * and whose timeout can double eight times within 32 bits, `k` expirations double the timeout `k`
   * times and take what was left of the first timeout and 2^k - 2 timeouts, and the reset takes 510
   * timeouts besides. A fresh timer, whose timeout has 16 bits, makes that 2^k - 1 and 511.
   */
  lemma ResetTakesTime(c: Connection, ops: seq<Op>, ms: nat)
    requires NoAcksAccepted(c, ops) && c.sender.window != 0
    requires var t := c.sender.timer; t.retransmissions == 0 && t.baseRto * 256 < TWO32
    requires Run(c, ops).active
    ensures var t0, t, k := c.sender.timer, Run(c, ops).sender.timer, Timeouts(c, ops);
      && t.retransmissions == k && t.baseRto == t0.baseRto * Pow2(k)
      && (k > 0 ==> Elapsed(ops) >= t0.rto + t0.baseRto * Pow2(k) - 2 * t0.baseRto)
    ensures Tick(Run(c, ops), ms).sender.timer.retransmissions > MAX_RETX_ATTEMPTS ==>
              Elapsed(ops) + ms >= c.sender.timer.rto + 510 * c.sender.timer.baseRto
  {
    hide Step;
    hide Run;
    hide NoAcksAccepted;
    hide Tick;
    hide Timeouts;
    hide Waited;
    hide BaseAfter;
    var t0, k := c.sender.timer, Timeouts(c, ops);
    BackoffOverRuns(c, ops, ms);
    BelowOverflow(t0.baseRto, k);
    ClosedForm(t0.rto, t0.baseRto, k);
    if k > 0 {
      BelowOverflow(t0.baseRto, k - 1);
      ClosedForm(t0.rto, t0.baseRto, k - 1);
    }
    BelowOverflow(t0.baseRto, MAX_RETX_ATTEMPTS);
    ClosedForm(t0.rto, t0.baseRto, MAX_RETX_ATTEMPTS);
    PowersBelowLimit(MAX_RETX_ATTEMPTS);
  }

  /** From a fresh timer: 2^k - 1 initial timeouts for `k` expirations, and 511 for the reset. */
  lemma FreshResetTakesTime(c: Connection, ops: seq<Op>, ms: nat)
    requires NoAcksAccepted(c, ops) && c.sender.window != 0
    requires var t := c.sender.timer; t.rto == t.baseRto == t.initialRto && t.retransmissions == 0
    requires Run(c, ops).active
    ensures var t, k := Run(c, ops).sender.timer, Timeouts(c, ops);
      && t.retransmissions == k && t.baseRto == c.sender.timer.initialRto * Pow2(k)
      && Elapsed(ops) >= c.sender.timer.initialRto * (Pow2(k) - 1)
    ensures Tick(Run(c, ops), ms).sender.timer.retransmissions > MAX_RETX_ATTEMPTS ==>
              Elapsed(ops) + ms >= 511 * c.sender.timer.initialRto
  {
    hide Step;
    hide Run;
    hide NoAcksAccepted;
    hide Tick;
    hide Timeouts;
    var initial, k := c.sender.timer.initialRto, Timeouts(c, ops);
    ResetTakesTime(c, ops, ms);
    assert initial * (Pow2(k) - 1) == initial * Pow2(k) - initial;
  }
}
