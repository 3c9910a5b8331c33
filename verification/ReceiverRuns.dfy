/** The receiver's window over whole runs. */
module ReceiverRuns {
  import opened Segments
  import opened Reception

  datatype Event = Arrival(seg: Segment) | Reading(n: nat)

  function Step(r: Receiver, e: Event): Receiver {
    match e
    case Arrival(seg) => Receive(r, seg)
    case Reading(n) => ReadOut(r, n)
  }

  function Run(r: Receiver, events: seq<Event>): Receiver
    decreases |events|
  {
    if events == [] then r else Run(Step(r, events[0]), events[1..])
  }

  /** Once the SYN is in, the acknowledgment plus the window is the right edge, which only the reader moves. */
  lemma WindowReachesEdge(r: Receiver)
    requires ReceiverInv(r) && r.ackno > 0
    ensures r.ackno + r.WindowSize() == RightEdge(r)
  {
  }

  /** In every run the acknowledgment and the right edge of the window never move back. */
  lemma {:induction false} WindowNeverShrinks(r: Receiver, events: seq<Event>)
    requires ReceiverInv(r)
    ensures var r' := Run(r, events);
      && ReceiverInv(r')
      && r.ackno <= r'.ackno
      && RightEdge(r) <= RightEdge(r')
      && (r'.ackno > 0 ==> r'.ackno + r'.WindowSize() == RightEdge(r'))
    decreases |events|
  {
    if events == [] {
    } else {
      if events[0].Arrival? {
        ReceiveKeepsInv(r, events[0].seg);
      }
      WindowNeverShrinks(Step(r, events[0]), events[1..]);
    }
  }
}
