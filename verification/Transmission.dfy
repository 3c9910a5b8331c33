/** From the history to the network and back: what is made is sent, and a timeout leads to progress. */
module Transmission {
  import opened Numbers
  import opened WrappingIntegers
  import opened Segments
  import opened Reassembly
  import opened Reception
  import opened Sending
  import opened ConnectionSteps
  import opened ConnectionInvariant
  import opened Links
  import opened FlowControl
  import opened Network
  import opened Nearness
  import opened Outgoing
  import SenderRuns

  // ------------------------------------------------------------------
  // What is made is sent

  /** The endpoint has not been reset. */
  predicate Alive(c: Connection) {
    c.active || !c.Outbound().error
  }

  /** A copy of the segment waits for the network, or is on it. */
  ghost predicate Sent(seg: Segment, queue: seq<Segment>, net: set<Segment>) {
    exists x :: (x in queue || x in net) && SameData(seg, x)
  }

  ghost predicate AllSent(c: Connection, net: set<Segment>) {
    Alive(c) ==> forall i :: 0 <= i < |c.sender.log| ==> Sent(c.sender.log[i].seg, c.segmentsOut, net)
  }

  /** What the network gets from an operation. */
  function NetAfter(c: Connection, op: Op, net: set<Segment>): set<Segment> {
    if op.Collect? then net + set seg | seg in c.segmentsOut else net
  }

  lemma SentStays(seg: Segment, queue: seq<Segment>, queue': seq<Segment>, net: set<Segment>)
    requires Sent(seg, queue, net) && queue <= queue'
    ensures Sent(seg, queue', net)
  {
    var x :| (x in queue || x in net) && SameData(seg, x);
    if x in queue {
      var i :| 0 <= i < |queue| && queue[i] == x;
      assert queue'[i] == x;
    }
  }

  lemma CollectSends(c: Connection, net: set<Segment>)
    requires AllSent(c, net)
    ensures AllSent(Step(c, Collect), NetAfter(c, Collect, net))
  {
    var net' := NetAfter(c, Collect, net);
    if Alive(c) {
      forall i | 0 <= i < |c.sender.log| ensures Sent(c.sender.log[i].seg, [], net') {
        assert Sent(c.sender.log[i].seg, c.segmentsOut, net);
        var x :| (x in c.segmentsOut || x in net) && SameData(c.sender.log[i].seg, x);
        assert x in net';
      }
    }
  }

  /** The queue only grows, and has a copy of everything that was made meanwhile. */
  lemma SendsAll(c: Connection, c': Connection, net: set<Segment>)
    requires Sends(c, c') && (Alive(c') ==> Alive(c)) && AllSent(c, net)
    ensures AllSent(c', net)
  {
    hide Stamp;
    hide Sends;
    hide SameData;
    SentLength(c, c');
    SendsPrefix(c, c');
    if Alive(c') {
      forall i | 0 <= i < |c'.sender.log| ensures Sent(c'.sender.log[i].seg, c'.segmentsOut, net) {
        if i < |c.sender.log| {
          assert c'.sender.log[i] == c.sender.log[i];
          SentStays(c.sender.log[i].seg, c.segmentsOut, c'.segmentsOut, net);
        } else {
          var k := |c.segmentsOut| + i - |c.sender.log|;
          SentAt(c, c', k);
          StampKeepsData(c'.receiver, c'.sender.log[i].seg);
          assert c'.segmentsOut[k] in c'.segmentsOut;
        }
      }
    }
  }

  lemma SendsPrefix(c: Connection, c': Connection)
    requires Sends(c, c')
    ensures c.sender.log <= c'.sender.log
  {
  }

  lemma StampKeepsData(r: Receiver, seg: Segment)
    ensures SameData(seg, Stamp(r, seg)) && Stamp(r, seg).header.rst == seg.header.rst
  {
    hide Wrap;
  }

  lemma StepKeepsSent(c: Connection, op: Op, net: set<Segment>)
    requires SenderInv(c.sender) && Flushed(c) && AllSent(c, net)
    ensures AllSent(Step(c, op), NetAfter(c, op, net))
  {
    hide SenderInv;
    hide Step;
    hide Sends;
    hide Sent;
    hide GivesUp;
    var c' := Step(c, op);
    if Alive(c') {
      StaysAlive(c, op);
      if op.Collect? {
        CollectSends(c, net);
      } else if op.Elapse? {
        TickSends(c, op.ms);
        TickPrefix(c, op.ms);
        forall i | 0 <= i < |c'.sender.log| ensures Sent(c'.sender.log[i].seg, c'.segmentsOut, net) {
          SentStays(c.sender.log[i].seg, c.segmentsOut, c'.segmentsOut, net);
        }
      } else {
        StepSends(c, op);
        SendsAll(c, c', net);
      }
    }
  }

  lemma TickPrefix(c: Connection, ms: nat)
    requires c.sender.segmentsOut == [] && !GivesUp(c, Elapse(ms))
    ensures c.segmentsOut <= Step(c, Elapse(ms)).segmentsOut
  {
    hide Step;
    TickOutput(c, ms);
  }

  ghost predicate WorldSent(w: World) {
    && SenderInv(w.a.sender) && Flushed(w.a) && AllSent(w.a, w.ab)
    && SenderInv(w.b.sender) && Flushed(w.b) && AllSent(w.b, w.ba)
  }

  lemma {:induction false} ExecKeepsSent(w: World, events: seq<Event>)
    requires WorldSent(w)
    ensures WorldSent(Exec(w, events))
    decreases |events|
  {
    hide SenderInv;
    hide Flushed;
    hide AllSent;
    hide Step;
    if events == [] {
    } else {
      var c, net, op := if events[0].side.A? then w.a else w.b, if events[0].side.A? then w.ab else w.ba, events[0].op;
      StepSender(c, op);
      StepFlushes(c, op);
      StepKeepsSent(c, op, net);
      ExecKeepsSent(Apply(w, events[0]), events[1..]);
    }
  }

  lemma InitialSent(w: World)
    requires Initial(w)
    ensures WorldSent(w)
  {
  }

  lemma ReachableSent(w: World)
    requires Reachable(w)
    ensures WorldSent(w)
  {
    hide Legal;
    hide Exec;
    hide WorldSent;
    var w0: World, events: seq<Event> :| Initial(w0) && Legal(w0, events) && w == Exec(w0, events);
    InitialSent(w0);
    ExecKeepsSent(w0, events);
  }

  /**
   * In every reachable state with an endpoint that is active, or at least not broken, every segment it
   * has ever made is on the network or in its queue to the network.
   */
  lemma MadeIsSent(w: World, i: nat)
    requires Reachable(w) && Alive(w.a) && i < |w.a.sender.log|
    ensures exists x :: (x in w.a.segmentsOut || x in w.ab) && SameData(w.a.sender.log[i].seg, x)
  {
    hide Reachable;
    hide SenderInv;
    ReachableSent(w);
    assert Sent(w.a.sender.log[i].seg, w.a.segmentsOut, w.ab);
  }

  // ------------------------------------------------------------------
  // A timeout leads to progress

  /** The timer of the endpoint expires with this tick, and it is not the last attempt. */
  predicate Resends(c: Connection, ms: nat) {
    Alive(c) && c.sender.inFlight > 0 && c.sender.timer.rto <= ms && !GivesUp(c, Elapse(ms))
  }

  /** The segment last put out. */
  function LastOut(c: Connection): Segment {
    if c.segmentsOut == [] then Segment(DEFAULT_HEADER, []) else c.segmentsOut[|c.segmentsOut| - 1]
  }

  /** What the tick puts out: the oldest outstanding segment, with the current acknowledgment. */
  lemma ResentFacts(c: Connection, ms: nat)
    requires SenderInv(c.sender) && Flushed(c) && Resends(c, ms)
    ensures c.sender.timer.outstanding != []
    ensures var c', e := Step(c, Elapse(ms)), c.sender.timer.outstanding[0];
      && c'.segmentsOut == c.segmentsOut + [LastOut(c')]
      && LastOut(c') == Stamp(c.receiver, e.seg) && e in c.sender.log
      && c'.sender.log == c.sender.log
      && c.sender.maxAck < e.end && e.seg.Length() > 0
  {
    hide SenderInv;
    hide Step;
    hide Stamp;
    hide GivesUp;
    FirstUnacked(c.sender);
    TickSends(c, ms);
    var c', f := Step(c, Elapse(ms)), c.sender.timer.outstanding[0];
    var e :| HoldsFirstUnacked(c.sender, e) && e.Start() == c.sender.next - c.sender.inFlight
             && c'.segmentsOut == c.segmentsOut + [Stamp(c.receiver, e.seg)];
    FirstUnackedIsUnique(c.sender, e, f);
  }

  /** A tick leaves the receiver and the numbers alone, and notes the acknowledgment that it sends. */
  lemma TickRest(c: Connection, ms: nat)
    requires Resends(c, ms) && c.sender.timer.running && c.sender.timer.outstanding != []
    ensures var c' := Step(c, Elapse(ms));
      && c'.receiver == c.receiver && c'.sender.next == c.sender.next
      && c'.sender.maxAck == c.sender.maxAck && c'.sender.isn == c.sender.isn
      && (c.receiver.synArrived ==> CurrentAck(c.receiver) in c'.acks)
      && Alive(c')
  {
    hide StampAll;
    hide TickTimer;
    hide CurrentAck;
    assert c.sender.segmentsOut + [c.sender.timer.outstanding[0].seg] != [];
  }

  ghost predicate Below64(w: World) {
    w.a.sender.next < TWO64 && w.b.sender.next < TWO64
  }

  /** The tick, and what it puts out goes onto the network. */
  function AfterTimeout(w: World, ms: nat): World {
    Apply(Apply(w, Event(A, Elapse(ms))), Event(A, Collect))
  }

  function Resent(w: World, ms: nat): Segment {
    LastOut(Step(w.a, Elapse(ms)))
  }

  lemma AfterTimeoutFacts(w: World, ms: nat)
    requires Reachable(w) && Resends(w.a, ms)
    ensures var w' := AfterTimeout(w, ms);
      && Reachable(w') && w'.b == w.b && w'.ba == w.ba && Resent(w, ms) in w'.ab
      && w'.a == Step(w.a, Elapse(ms)).(segmentsOut := [])
  {
    hide Reachable;
    hide Tick;
    hide SenderInv;
    hide AllSent;
    hide Resends;
    hide Flushed;
    ReachableSent(w);
    ReachableStep(w, Event(A, Elapse(ms)));
    ReachableStep(Apply(w, Event(A, Elapse(ms))), Event(A, Collect));
    ResentFacts(w.a, ms);
    assert Resent(w, ms) in Step(w.a, Elapse(ms)).segmentsOut;
  }

  /** The segment that a timeout puts out may be delivered. */
  lemma ResentIsDeliverable(w: World, ms: nat)
    requires Reachable(w) && Resends(w.a, ms) && Below64(w)
    ensures var w' := AfterTimeout(w, ms);
      Enabled(w', Event(B, Arrive(Resent(w, ms)))) && !Resent(w, ms).header.rst
  {
    hide Reachable;
    hide Step;
    hide SenderInv;
    hide AllSent;
    hide Resends;
    hide Flushed;
    hide AfterTimeout;
    hide Deliverable;
    hide Tight;
    var seg, w' := Resent(w, ms), AfterTimeout(w, ms);
    AfterTimeoutFacts(w, ms);
    ReachableSent(w);
    ResentFacts(w.a, ms);
    FirstUnacked(w.a.sender);
    ResentRest(w, ms);
    var i := OldestIsRecent(w.a.sender);
    ReachableTight(w);
    OldestIsOrdinary(w.a.sender, i);
    StampKeepsData(w.a.receiver, w.a.sender.log[i].seg);
    var x := if w.a.receiver.synArrived then CurrentAck(w.a.receiver) else AckSent(w.b.sender.maxAck, 0);
    ResentCopy(w', w.a, i, x, seg);
    AckIsCurrent(w);
    RecentIsDeliverable(w', i, x, seg);
  }

  lemma ResentRest(w: World, ms: nat)
    requires Resends(w.a, ms) && w.a.sender.timer.running && w.a.sender.timer.outstanding != []
    ensures var c' := Step(w.a, Elapse(ms));
      && c'.receiver == w.a.receiver && c'.sender.next == w.a.sender.next
      && c'.sender.maxAck == w.a.sender.maxAck && c'.sender.isn == w.a.sender.isn
      && (w.a.receiver.synArrived ==> CurrentAck(w.a.receiver) in c'.acks)
  {
    hide Step;
    hide Resends;
    hide CurrentAck;
    TickRest(w.a, ms);
  }

  lemma OldestIsOrdinary(s: Sender, i: nat)
    requires SenderInv(s) && Tight(s) && i < |s.log|
    ensures !s.log[i].seg.header.rst && !s.log[i].seg.header.ack
  {
    hide NumberInv;
    hide QueueInv;
    hide CarriesStream;
    assert GoodEntry(s, s.log[i]);
    assert Ordinary(s.log[i].seg);
  }

  lemma ResentCopy(w: World, a: Connection, i: nat, x: AckSent, seg: Segment)
    requires w.a.sender.log == a.sender.log && w.a.receiver == a.receiver && i < |a.sender.log|
    requires seg == Stamp(a.receiver, a.sender.log[i].seg) && !a.sender.log[i].seg.header.ack
    requires a.receiver.synArrived ==> x == CurrentAck(a.receiver) && x in w.a.acks
    ensures CopyOf(w, i, x, seg)
  {
    hide Wrap;
  }

  /** The receiver's acknowledgment is not older than any that the peer has accepted. */
  lemma AckIsCurrent(w: World)
    requires Reachable(w)
    ensures w.b.sender.maxAck <= w.a.receiver.ackno <= w.b.sender.next
    ensures w.a.receiver.synArrived ==> w.a.receiver.isn == w.b.sender.isn
    ensures w.a.receiver.ackno > 0 ==> w.a.receiver.synArrived
  {
    hide Reachable;
    hide Flow;
    hide NetKnown;
    hide SenderInv;
    hide Safe;
    hide WellFormed;
    ReachableInv(w);
    assert Link(w.b.sender, w.a.receiver, w.a.acks);
    AcknoBounded(w.b.sender, w.a.receiver, w.a.acks);
  }

  /**
   * A timeout makes progress: in every reachable state below 2^64 numbers, the segment that it puts out
   * may be delivered, and delivering it to an open window that is large enough moves the receiver's
   * ackno beyond everything acknowledged so far.
   */
  lemma RetransmissionMakesProgress(w: World, ms: nat)
    requires Reachable(w) && Resends(w.a, ms) && Below64(w)
    requires w.b.receiver.WindowSize() > 0 && |Resent(w, ms).payload| <= w.b.receiver.WindowSize()
    ensures var w', e := AfterTimeout(w, ms), Event(B, Arrive(Resent(w, ms)));
      && Enabled(w', e) && Reachable(Apply(w', e))
      && w.a.sender.maxAck < Apply(w', e).b.receiver.ackno
      && Apply(w', e).b.receiver == Receive(w.b.receiver, Resent(w, ms))
  {
    hide Reachable;
    hide Enabled;
    hide Tick;
    hide SenderInv;
    hide AllSent;
    hide Resends;
    hide Flushed;
    hide AfterTimeout;
    hide SegmentArrives;
    hide Receive;
    var seg, w' := Resent(w, ms), AfterTimeout(w, ms);
    AfterTimeoutFacts(w, ms);
    ResentIsDeliverable(w, ms);
    ReachableStep(w', Event(B, Arrive(seg)));
    ReachableSent(w);
    ResentFacts(w.a, ms);
    StampKeepsData(w.a.receiver, w.a.sender.timer.outstanding[0].seg);
    OldestIsAcknowledged(w, seg);
    ArrivalReceiver(w'.b, seg);
  }

  // ------------------------------------------------------------------
  // The round trip

  /** The resent segment arrives, and the answer goes onto the network. */
  function AfterAnswer(w: World, ms: nat): World {
    Apply(Apply(AfterTimeout(w, ms), Event(B, Arrive(Resent(w, ms)))), Event(B, Collect))
  }

  function Answer(w: World, ms: nat): Segment {
    LastOut(Apply(AfterTimeout(w, ms), Event(B, Arrive(Resent(w, ms)))).b)
  }

  /** What an arrival puts out last is a copy of the last segment made, with the current acknowledgment. */
  lemma AnswerFacts(c: Connection, seg: Segment)
    requires SenderInv(c.sender) && c.sender.segmentsOut == [] && !seg.header.rst && seg.Length() > 0
    requires Receive(c.receiver, seg).synArrived
    ensures var c', r := Step(c, Arrive(seg)), Receive(c.receiver, seg);
      && c'.segmentsOut != [] && c'.sender.log != [] && c'.receiver == r && CurrentAck(r) in c'.acks
      && Acks(r, LastOut(c'))
      && LastOut(c') == Stamp(r, c'.sender.log[|c'.sender.log| - 1].seg)
  {
    hide SenderInv;
    hide SegmentArrives;
    hide Receive;
    hide Stamp;
    hide Acks;
    hide Sends;
    hide CurrentAck;
    var c' := Step(c, Arrive(seg));
    ArrivalIsAcknowledged(c, seg);
    ArrivalSends(c, seg);
    SentLength(c, c');
    SentAt(c, c', |c'.segmentsOut| - 1);
  }

  lemma LastEntryEnds(s: Sender)
    requires SenderInv(s) && s.log != []
    ensures s.log[|s.log| - 1].end == s.next && s.maxAck <= s.next
  {
    hide LogInv;
    hide Tiles;
    hide Unacked;
    SenderRuns.TilesLast(s.log, 0, s.next);
  }

  /** The conditions of the round trip. */
  ghost predicate CanAnswer(w: World, ms: nat) {
    && Reachable(w) && Resends(w.a, ms) && Below64(w) && Alive(w.b)
    && w.b.receiver.WindowSize() > 0 && |Resent(w, ms).payload| <= w.b.receiver.WindowSize()
    && AfterAnswer(w, ms).b.sender.next < TWO64
  }

  lemma AnswerState(w: World, ms: nat)
    requires CanAnswer(w, ms)
    ensures var w', r := AfterAnswer(w, ms), Receive(w.b.receiver, Resent(w, ms));
      && Reachable(w') && w'.a == AfterTimeout(w, ms).a && Answer(w, ms) in w'.ba
      && w'.b.receiver == r && w.a.sender.maxAck < r.ackno && CurrentAck(r) in w'.b.acks
      && w'.b.sender.log != [] && Answer(w, ms) == Stamp(r, w'.b.sender.log[|w'.b.sender.log| - 1].seg)
      && Acks(r, Answer(w, ms))
      && w'.b.sender.next == Apply(AfterTimeout(w, ms), Event(B, Arrive(Resent(w, ms)))).b.sender.next
  {
    hide Reachable;
    hide Enabled;
    hide SenderInv;
    hide AllSent;
    hide Resends;
    hide AfterTimeout;
    hide Resent;
    hide SegmentArrives;
    hide Receive;
    hide Stamp;
    hide Acks;
    hide CurrentAck;
    var w2, seg := AfterTimeout(w, ms), Resent(w, ms);
    AfterTimeoutFacts(w, ms);
    RetransmissionMakesProgress(w, ms);
    ResentTakesNumbers(w, ms);
    var w3 := Apply(w2, Event(B, Arrive(seg)));
    ReachableSent(w2);
    AckIsCurrent(w3.Swap()) by { ReachableSwap(w3); }
    AnswerFacts(w2.b, seg);
    ReachableStep(w3, Event(B, Collect)) by { CollectIsEnabled(w3); }
  }

  lemma CollectIsEnabled(w: World)
    ensures Enabled(w, Event(B, Collect))
  {
  }

  lemma ResentTakesNumbers(w: World, ms: nat)
    requires Reachable(w) && Resends(w.a, ms) && Below64(w)
    ensures Resent(w, ms).Length() > 0 && !Resent(w, ms).header.rst
  {
    hide Reachable;
    hide Step;
    hide SenderInv;
    hide AllSent;
    hide Resends;
    hide Flushed;
    hide Enabled;
    ResentIsDeliverable(w, ms);
    ReachableSent(w);
    ResentFacts(w.a, ms);
    StampKeepsData(w.a.receiver, w.a.sender.timer.outstanding[0].seg);
  }

  /** The answer may be delivered. */
  lemma AnswerIsDeliverable(w: World, ms: nat)
    requires CanAnswer(w, ms)
    ensures Enabled(AfterAnswer(w, ms), Event(A, Arrive(Answer(w, ms)))) && !Answer(w, ms).header.rst
  {
    hide Reachable;
    hide SenderInv;
    hide Tight;
    hide Deliverable;
    hide AfterAnswer;
    hide Answer;
    hide Receive;
    hide CurrentAck;
    hide Step;
    var w', r := AfterAnswer(w, ms), Receive(w.b.receiver, Resent(w, ms));
    AnswerState(w, ms);
    ReachableTight(w');
    ReachableSwap(w');
    var i := |w'.b.sender.log| - 1;
    OldestIsOrdinary(w'.b.sender, i);
    StampKeepsData(r, w'.b.sender.log[i].seg);
    LastEntryEnds(w'.b.sender);
    AnswerCopy(w', r, i, Answer(w, ms));
    TimeoutKeepsNumbers(w, ms);
    AckIsCurrent(w'.Swap());
    CurrentAckno(r);
    RecentIsDeliverable(w'.Swap(), i, CurrentAck(r), Answer(w, ms));
  }

  lemma CurrentAckno(r: Receiver)
    ensures CurrentAck(r).ackno == r.ackno
  {
  }

  lemma AnswerCopy(w: World, r: Receiver, i: nat, seg: Segment)
    requires i < |w.b.sender.log| && w.b.receiver == r && CurrentAck(r) in w.b.acks
    requires seg == Stamp(r, w.b.sender.log[i].seg) && Acks(r, seg)
    ensures CopyOf(w.Swap(), i, CurrentAck(r), seg)
  {
    hide Wrap;
  }

  lemma TimeoutKeepsNumbers(w: World, ms: nat)
    requires Reachable(w) && Resends(w.a, ms)
    ensures var a := AfterTimeout(w, ms).a.sender;
      a.next == w.a.sender.next && a.maxAck == w.a.sender.maxAck && a.isn == w.a.sender.isn
  {
    hide Reachable;
    hide Step;
    hide SenderInv;
    hide AllSent;
    hide Resends;
    hide Flushed;
    hide AfterTimeout;
    AfterTimeoutFacts(w, ms);
    ReachableSent(w);
    ResentFacts(w.a, ms);
    FirstUnacked(w.a.sender);
    ResentRest(w, ms);
  }

  /**
   * One timeout and two deliveries always move the connection on: in every reachable state below 2^64
   * numbers, with an open window that is large enough for it, the segment that the timeout puts out may
   * be delivered, the peer answers it, the answer may be delivered, and the greatest acknowledgment
   * accepted has grown.
   */
  lemma RoundTripMakesProgress(w: World, ms: nat)
    requires CanAnswer(w, ms)
    ensures var w', e := AfterAnswer(w, ms), Event(A, Arrive(Answer(w, ms)));
      && Enabled(w', e) && Reachable(Apply(w', e))
      && w.a.sender.maxAck < Apply(w', e).a.sender.maxAck
  {
    hide Reachable;
    hide Enabled;
    hide SenderInv;
    hide AfterAnswer;
    hide AfterTimeout;
    hide Answer;
    hide Receive;
    hide Step;
    var w', r, ack := AfterAnswer(w, ms), Receive(w.b.receiver, Resent(w, ms)), Answer(w, ms);
    AnswerState(w, ms);
    AnswerIsDeliverable(w, ms);
    ReachableStep(w', Event(A, Arrive(ack)));
    TimeoutKeepsNumbers(w, ms);
    ReachableSwap(w');
    AckIsCurrent(w'.Swap());
    RecentAckIsNear(w'.Swap(), CurrentAck(r)) by { CurrentAckno(r); }
    ReachableTight(w');
    StepSender(w'.a, Arrive(ack));
    AnswerIsAccepted(w'.a.sender, r, ack);
  }

  lemma AnswerIsAccepted(s: Sender, r: Receiver, ack: Segment)
    requires Acks(r, ack) && r.isn == s.isn && !ack.header.rst && Near(r.ackno, s.next) && r.ackno <= s.next
    ensures AckedSender(s, ack.header).maxAck >= r.ackno
  {
    hide Wrap;
    hide Unwrap;
    AckAtPosition(s, CurrentAck(r), ack.header);
  }
}
