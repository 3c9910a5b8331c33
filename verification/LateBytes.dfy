/** Bytes that a stream accepts after the sender's FIN is out: nothing will ever send them. */
module LateBytes {
  import opened Numbers
  import opened WrappingIntegers
  import opened Sending
  import opened SenderRuns

  /** How many bytes of a write come too late. */
  function LateIn(s: Sender, data: seq<byte>): nat {
    if s.finSent then s.stream.Accepted(|data|) else 0
  }

  /** After `late` such bytes, what is left in the stream behind a FIN is exactly these. */
  predicate LateInv(s: Sender, late: nat) {
    if s.finSent then |s.stream.buffer| == late else late == 0
  }

  /** A fill sends its FIN behind the last byte, and nothing after it. */
  lemma {:induction false} FillLate(s: Sender, limit: nat, late: nat)
    requires LateInv(s, late)
    ensures LateInv(Fill(s, limit), late)
    decreases limit - s.next
  {
    hide Wrap;
    if CanSend(s, limit) {
      FillLate(SendOne(s, limit), limit, late);
    }
  }

  lemma WriteLate(s: Sender, data: seq<byte>, late: nat)
    requires LateInv(s, late)
    ensures LateInv(WriteStream(s, data), late + LateIn(s, data))
  {
  }

  /** The late bytes of a run. */
  function Late(s: Sender, events: seq<Event>): nat
    decreases |events|
  {
    if events == [] then 0
    else (if events[0].Writing? then LateIn(s, events[0].data) else 0) + Late(Step(s, events[0]), events[1..])
  }

  lemma {:induction false} RunLate(s: Sender, events: seq<Event>, late: nat)
    requires LateInv(s, late)
    ensures LateInv(Run(s, events), late + Late(s, events))
    decreases |events|
  {
    hide Fill;
    hide Unwrap;
    hide TickTimer;
    hide AckTimer;
    if events == [] {
    } else {
      FillLate(s, Limit(s), late);
      var now := if events[0].Writing? then LateIn(s, events[0].data) else 0;
      RunLate(Step(s, events[0]), events[1..], late + now);
    }
  }
}
