/** What every run of a network interface keeps: the cache, the requests and the datagrams. */
module ArpSafety {
  import opened Numbers
  import opened Ipv4Wire
  import opened AddressResolution

  // ------------------------------------------------------------------
  // Invariant

  /** A datagram waits only while there is no usable address for its next hop. */
  ghost predicate WaitingInv(i: Interface) {
    forall ip :: ip in i.waiting && ip in i.addrs ==> i.addrs[ip].eth == BROADCAST
  }

  /** The entry was learned as long ago as its remaining life says. */
  ghost predicate Genuine(learned: seq<Learning>, now: nat, ip: u32, e: Entry) {
    exists k :: 0 <= k < |learned| && learned[k].ip == ip && learned[k].eth == e.eth
                && learned[k].at <= now && now - learned[k].at + e.ttl == MAPPING_LIFETIME
  }

  ghost predicate CacheInv(t: Trace) {
    forall ip :: ip in t.iface.addrs ==>
      && t.iface.addrs[ip].ttl > 0
      && (t.iface.addrs[ip].eth != BROADCAST ==> Genuine(t.learned, t.now, ip, t.iface.addrs[ip]))
  }

  /** The request is at least five seconds old, or the cache still remembers it that long. */
  ghost predicate Remembered(t: Trace, r: Request) {
    && r.at <= t.now
    && (|| t.now - r.at >= REQUEST_LIFETIME
        || (r.ip in t.iface.addrs && t.iface.addrs[r.ip].ttl + (t.now - r.at) >= REQUEST_LIFETIME))
  }

  ghost predicate RequestsRemembered(t: Trace) {
    forall k :: 0 <= k < |t.requests| ==> Remembered(t, t.requests[k])
  }

  ghost predicate RequestsSpaced(requests: seq<Request>) {
    forall j, k :: 0 <= j < k < |requests| && requests[j].ip == requests[k].ip ==>
      requests[j].at + 5000 <= requests[k].at
  }

  /** The frame went to an address learned for its next hop less than thirty seconds before. */
  ghost predicate WellAddressed(learned: seq<Learning>, f: Framing) {
    exists k :: 0 <= k < |learned| && learned[k].ip == f.hop && learned[k].eth == f.dst
                && learned[k].at <= f.at < learned[k].at + 30000
  }

  ghost predicate AllWellAddressed(t: Trace) {
    forall k :: 0 <= k < |t.framed| ==> WellAddressed(t.learned, t.framed[k])
  }

  function SendingsOf(framed: seq<Framing>): seq<Sending> {
    if framed == [] then [] else [Sending(framed[0].hop, framed[0].dgram)] + SendingsOf(framed[1..])
  }

  /** Whether the interface still holds that datagram for that hop. */
  predicate Holds(i: Interface, x: Sending) {
    x.hop in i.waiting && i.waiting[x.hop] == x.dgram
  }

  /** How often a datagram is accounted for: framed, waiting, dropped or displaced. */
  function Accounted(t: Trace, x: Sending): nat {
    Count(SendingsOf(t.framed), x) + Bit(Holds(t.iface, x)) + Count(t.dropped, x) + Count(t.displaced, x)
  }

  function Count(s: seq<Sending>, x: Sending): nat {
    multiset(s)[x]
  }

  /** Every datagram is accounted for exactly as often as it was sent. */
  ghost predicate Conserved(t: Trace) {
    forall x: Sending :: Accounted(t, x) == Count(t.sent, x)
  }

  ghost predicate TraceInv(t: Trace) {
    WaitingInv(t.iface) && CacheInv(t) && RequestsRemembered(t) && RequestsSpaced(t.requests)
    && AllWellAddressed(t) && Conserved(t)
  }

  // ------------------------------------------------------------------
  // Steps

  lemma GenuineStays(learned: seq<Learning>, more: seq<Learning>, now: nat, ms: nat, ip: u32, e: Entry)
    requires Genuine(learned, now, ip, e) && ms < e.ttl
    ensures Genuine(learned + more, now + ms, ip, Entry(e.ttl - ms, e.eth))
  {
    var k :| 0 <= k < |learned| && learned[k].ip == ip && learned[k].eth == e.eth
             && learned[k].at <= now && now - learned[k].at + e.ttl == MAPPING_LIFETIME;
    assert (learned + more)[k] == learned[k];
  }

  lemma AddressedStays(learned: seq<Learning>, more: seq<Learning>, f: Framing)
    requires WellAddressed(learned, f)
    ensures WellAddressed(learned + more, f)
  {
    var k :| 0 <= k < |learned| && learned[k].ip == f.hop && learned[k].eth == f.dst
             && learned[k].at <= f.at < learned[k].at + 30000;
    assert (learned + more)[k] == learned[k];
  }

  lemma {:induction false} SendingsAppend(framed: seq<Framing>, f: Framing)
    ensures SendingsOf(framed + [f]) == SendingsOf(framed) + [Sending(f.hop, f.dgram)]
  {
    if framed == [] {
    } else {
      assert (framed + [f])[1..] == framed[1..] + [f];
      SendingsAppend(framed[1..], f);
    }
  }

  /** A cached address is used: the frame is well addressed because the entry is genuine. */
  lemma CachedIsAddressed(t: Trace, hop: u32, d: Datagram)
    requires CacheInv(t) && hop in t.iface.addrs && t.iface.addrs[hop].eth != BROADCAST
    ensures WellAddressed(t.learned, Framing(hop, d, t.iface.addrs[hop].eth, t.now))
  {
    assert Genuine(t.learned, t.now, hop, t.iface.addrs[hop]);
  }

  lemma SnocCount(s: seq<Sending>, y: Sending, x: Sending)
    ensures Count(s + [y], x) == Count(s, x) + Bit(x == y)
  {
  }

  lemma SendConserves(t: Trace, d: Datagram, hop: u32)
    requires Conserved(t)
    ensures Conserved(TraceSend(t, d, hop))
  {
    hide SendingsOf;
    hide Count;
    var t' := TraceSend(t, d, hop);
    var y := Sending(hop, d);
    forall x: Sending ensures Accounted(t', x) == Count(t'.sent, x) {
      assert Accounted(t, x) == Count(t.sent, x);
      SnocCount(t.sent, y, x);
      SendCounts(t, d, hop, x);
    }
  }

  /** The new datagram is accounted for once, and nothing else changes its account. */
  lemma SendCounts(t: Trace, d: Datagram, hop: u32, x: Sending)
    ensures Accounted(TraceSend(t, d, hop), x) == Accounted(t, x) + Bit(x == Sending(hop, d))
  {
    hide SendingsOf;
    hide Count;
    var i, y := t.iface, Sending(hop, d);
    if hop !in i.addrs {
      if hop in i.waiting {
        SnocCount(t.displaced, Sending(hop, i.waiting[hop]), x);
      }
    } else if Pending(i, hop) {
      SnocCount(t.dropped, y, x);
    } else {
      SendingsAppend(t.framed, Framing(hop, d, i.addrs[hop].eth, t.now));
      SnocCount(SendingsOf(t.framed), y, x);
    }
  }

  lemma ArpConserves(t: Trace, m: ArpMessage)
    requires Conserved(t)
    ensures Conserved(TraceArp(t, m))
  {
    var t' := TraceArp(t, m);
    forall x: Sending ensures Accounted(t', x) == Count(t'.sent, x) {
      assert Accounted(t, x) == Count(t.sent, x);
      if t'.framed != t.framed {
        SendingsAppend(t.framed, t'.framed[|t.framed|]);
      }
    }
  }

  lemma SendKeepsCache(t: Trace, d: Datagram, hop: u32)
    requires CacheInv(t) && RequestsRemembered(t) && RequestsSpaced(t.requests)
    ensures var t' := TraceSend(t, d, hop); CacheInv(t') && RequestsRemembered(t') && RequestsSpaced(t'.requests)
  {
    hide Genuine;
    var t' := TraceSend(t, d, hop);
    forall k | 0 <= k < |t'.requests| ensures Remembered(t', t'.requests[k]) {
      if k < |t.requests| {
        assert Remembered(t, t.requests[k]);
      }
    }
  }

  lemma SendKeepsAddressed(t: Trace, d: Datagram, hop: u32)
    requires CacheInv(t) && AllWellAddressed(t)
    ensures AllWellAddressed(TraceSend(t, d, hop))
  {
    hide WellAddressed;
    hide Genuine;
    if hop in t.iface.addrs && t.iface.addrs[hop].eth != BROADCAST {
      CachedIsAddressed(t, hop, d);
    }
  }

  lemma ArpKeepsCache(t: Trace, m: ArpMessage)
    requires CacheInv(t) && RequestsRemembered(t)
    ensures CacheInv(TraceArp(t, m)) && RequestsRemembered(TraceArp(t, m))
  {
    hide Genuine;
    var t' := TraceArp(t, m);
    forall ip | ip in t'.iface.addrs
      ensures t'.iface.addrs[ip].ttl > 0
      ensures t'.iface.addrs[ip].eth != BROADCAST ==> Genuine(t'.learned, t'.now, ip, t'.iface.addrs[ip])
    {
      if ip == m.senderIp {
        JustLearned(t, m);
      } else if t.iface.addrs[ip].eth != BROADCAST {
        GenuineStays(t.learned, [Learning(m.senderIp, m.senderEthernet, t.now)], t.now, 0, ip, t.iface.addrs[ip]);
      }
    }
    forall k | 0 <= k < |t'.requests| ensures Remembered(t', t'.requests[k]) {
      assert Remembered(t, t.requests[k]);
    }
  }

  lemma JustLearned(t: Trace, m: ArpMessage)
    ensures var l := t.learned + [Learning(m.senderIp, m.senderEthernet, t.now)];
      Genuine(l, t.now, m.senderIp, Entry(MAPPING_LIFETIME, m.senderEthernet))
  {
    var l := t.learned + [Learning(m.senderIp, m.senderEthernet, t.now)];
    assert l[|t.learned|] == Learning(m.senderIp, m.senderEthernet, t.now);
  }

  lemma ArpKeepsAddressed(t: Trace, m: ArpMessage)
    requires AllWellAddressed(t)
    ensures AllWellAddressed(TraceArp(t, m))
  {
    hide WellAddressed;
    var t' := TraceArp(t, m);
    var more := [Learning(m.senderIp, m.senderEthernet, t.now)];
    forall k | 0 <= k < |t'.framed| ensures WellAddressed(t'.learned, t'.framed[k]) {
      if k < |t.framed| {
        AddressedStays(t.learned, more, t.framed[k]);
      } else {
        LearnedNow(t, m, t'.framed[k]);
      }
    }
  }

  lemma LearnedNow(t: Trace, m: ArpMessage, f: Framing)
    requires f.hop == m.senderIp && f.dst == m.senderEthernet && f.at == t.now
    ensures WellAddressed(t.learned + [Learning(m.senderIp, m.senderEthernet, t.now)], f)
  {
    assert (t.learned + [Learning(m.senderIp, m.senderEthernet, t.now)])[|t.learned|].at == t.now;
  }

  lemma TickKeepsInv(t: Trace, ms: nat)
    requires TraceInv(t)
    ensures TraceInv(Step(t, Elapse(ms)))
  {
    hide Genuine;
    hide WellAddressed;
    hide RequestsSpaced;
    var t' := Step(t, Elapse(ms));
    forall ip | ip in t'.iface.addrs && t'.iface.addrs[ip].eth != BROADCAST
      ensures Genuine(t'.learned, t'.now, ip, t'.iface.addrs[ip])
    {
      GenuineStays(t.learned, [], t.now, ms, ip, t.iface.addrs[ip]);
      assert t.learned + [] == t.learned;
    }
    forall k | 0 <= k < |t'.requests| ensures Remembered(t', t'.requests[k]) {
      assert Remembered(t, t.requests[k]);
    }
    forall x: Sending ensures Accounted(t', x) == Count(t'.sent, x) {
      assert Accounted(t, x) == Count(t.sent, x);
    }
  }

  lemma WaitingStays(t: Trace, e: Event)
    requires WaitingInv(t.iface)
    ensures WaitingInv(Step(t, e).iface)
  {
  }

  lemma StepKeepsInv(t: Trace, e: Event)
    requires TraceInv(t)
    ensures TraceInv(Step(t, e))
  {
    hide CacheInv;
    hide WaitingInv;
    hide RequestsRemembered;
    hide RequestsSpaced;
    hide AllWellAddressed;
    hide Conserved;
    WaitingStays(t, e);
    match e {
      case Send(d, hop) =>
        SendKeepsCache(t, d, hop);
        SendKeepsAddressed(t, d, hop);
        SendConserves(t, d, hop);
      case Arrive(f) =>
        if f.typ == TypeArp && f.payload.Arp? {
          ArpKeepsCache(t, f.payload.msg);
          ArpKeepsAddressed(t, f.payload.msg);
          ArpConserves(t, f.payload.msg);
        }
      case Elapse(ms) => TickKeepsInv(t, ms);
    }
  }

  lemma {:induction false} RunKeepsInv(t: Trace, events: seq<Event>)
    requires TraceInv(t)
    ensures TraceInv(Run(t, events))
    decreases |events|
  {
    hide TraceInv;
    hide Step;
    if events == [] {
    } else {
      StepKeepsInv(t, events[0]);
      RunKeepsInv(Step(t, events[0]), events[1..]);
    }
  }

  // ------------------------------------------------------------------
  // Safety over every run

  /**
   * In every run: no datagram waits while a usable address for its next hop is cached; two requests
   * for the same address are at least five seconds apart; every IPv4 frame went to an address that
   * was learned for its next hop less than thirty seconds before; and every datagram sent was framed,
   * still waits, was dropped or was displaced, each exactly once.
   */
  lemma ArpIsSafe(eth: Ethernet, ip: u32, events: seq<Event>)
    ensures var t := Run(NewTrace(eth, ip), events);
      && WaitingInv(t.iface)
      && RequestsSpaced(t.requests)
      && AllWellAddressed(t)
      && Conserved(t)
  {
    hide Step;
    NewTraceInv(eth, ip);
    RunKeepsInv(NewTrace(eth, ip), events);
  }

  lemma NewTraceInv(eth: Ethernet, ip: u32)
    ensures TraceInv(NewTrace(eth, ip))
  {
  }

  // ------------------------------------------------------------------
  // Exactly when a datagram is lost

  /** No datagram is sent while its next hop is pending, or while an older one waits without an entry. */
  predicate Careful(t: Trace, events: seq<Event>)
    decreases |events|
  {
    events == [] || (
      && (events[0].Send? ==> !Pending(t.iface, events[0].hop) && !Orphaned(t.iface, events[0].hop))
      && Careful(Step(t, events[0]), events[1..]))
  }

  /** Nothing is lost so far. */
  predicate Lossless(t: Trace) {
    t.dropped == [] && t.displaced == []
  }

  lemma {:induction false} LosslessExactly(t: Trace, events: seq<Event>)
    ensures Lossless(Run(t, events)) <==> Lossless(t) && Careful(t, events)
    decreases |events|
  {
    if events == [] {
    } else {
      LosslessExactly(Step(t, events[0]), events[1..]);
    }
  }

  /**
   * A run frames or keeps every datagram it was given if and only if none is sent to a pending next
   * hop, and none to a next hop whose request has expired with another datagram still waiting.
   */
  lemma LosesNothingExactly(eth: Ethernet, ip: u32, events: seq<Event>)
    ensures var t := Run(NewTrace(eth, ip), events);
      (forall x: Sending :: Count(SendingsOf(t.framed), x) + Bit(Holds(t.iface, x)) == Count(t.sent, x))
        <==> Careful(NewTrace(eth, ip), events)
  {
    hide Step;
    hide Run;
    hide Careful;
    hide SendingsOf;
    hide WaitingInv;
    hide RequestsSpaced;
    hide AllWellAddressed;
    var t := Run(NewTrace(eth, ip), events);
    ArpIsSafe(eth, ip, events);
    LosslessExactly(NewTrace(eth, ip), events);
    forall x: Sending ensures Accounted(t, x) == Count(t.sent, x) {
    }
    if t.dropped != [] {
      assert t.dropped[0] in multiset(t.dropped);
      assert Accounted(t, t.dropped[0]) == Count(t.sent, t.dropped[0]);
    } else if t.displaced != [] {
      assert t.displaced[0] in multiset(t.displaced);
      assert Accounted(t, t.displaced[0]) == Count(t.sent, t.displaced[0]);
    }
  }

  /** The reply that tells the address of `hop`. */
  function ReplyFrom(hop: u32, eth: Ethernet): Frame {
    Frame(0, eth, TypeArp, Arp(ArpMessage(OPCODE_REPLY, eth, hop, 0, 0)))
  }

  /** Sent while the request is pending: the second datagram is dropped, and the reply releases the first. */
  lemma SecondIsDropped(d1: Datagram, d2: Datagram, hop: u32)
    ensures var t := Run(NewTrace(1, 0), [Send(d1, hop), Send(d2, hop), Arrive(ReplyFrom(hop, 2))]);
      t.framed == [Framing(hop, d1, 2, 0)] && t.iface.waiting == map[] && t.dropped == [Sending(hop, d2)]
  {
    RunOfThree(NewTrace(1, 0), Send(d1, hop), Send(d2, hop), Arrive(ReplyFrom(hop, 2)));
  }

  /** Sent after the request has expired: the first datagram is displaced, though nothing was pending. */
  lemma FirstIsDisplaced(d1: Datagram, d2: Datagram, hop: u32)
    ensures var t := Step(Run(NewTrace(1, 0), [Send(d1, hop), Elapse(5000), Send(d2, hop)]),
                          Arrive(ReplyFrom(hop, 2)));
      t.framed == [Framing(hop, d2, 2, 5000)] && t.iface.waiting == map[]
      && t.displaced == [Sending(hop, d1)] && t.dropped == []
  {
    RunOfThree(NewTrace(1, 0), Send(d1, hop), Elapse(5000), Send(d2, hop));
  }

  lemma RunOfThree(t: Trace, a: Event, b: Event, c: Event)
    ensures Run(t, [a, b, c]) == Step(Step(Step(t, a), b), c)
  {
    hide Step;
    var t1, t2 := Step(t, a), Step(Step(t, a), b);
    assert [a, b, c][1..] == [b, c] && Run(t, [a, b, c]) == Run(t1, [b, c]);
    assert [b, c][1..] == [c] && Run(t1, [b, c]) == Run(t2, [c]);
    assert [c][1..] == [] && Run(t2, [c]) == Step(t2, c);
  }

  // ------------------------------------------------------------------
  // The history is the outbound queue

  lemma {:induction false} Ipv4Append(frames: seq<Frame>, f: Frame)
    ensures Ipv4Part(frames + [f]) == Ipv4Part(frames) + IfIpv4(f)
  {
    hide IfIpv4;
    if frames == [] {
      assert [f][1..] == [];
    } else {
      assert (frames + [f])[1..] == frames[1..] + [f];
      Ipv4Append(frames[1..], f);
    }
  }

  lemma {:induction false} RequestAppend(frames: seq<Frame>, f: Frame)
    ensures RequestPart(frames + [f]) == RequestPart(frames) + Asks(f)
  {
    hide Asks;
    if frames == [] {
      assert [f][1..] == [];
    } else {
      assert (frames + [f])[1..] == frames[1..] + [f];
      RequestAppend(frames[1..], f);
    }
  }

  lemma FrameAppend(frames: seq<Frame>, f: Frame)
    ensures Ipv4Part(frames + [f]) == Ipv4Part(frames) + IfIpv4(f)
    ensures RequestPart(frames + [f]) == RequestPart(frames) + Asks(f)
  {
    Ipv4Append(frames, f);
    RequestAppend(frames, f);
  }

  lemma {:induction false} FramesAppend(eth: Ethernet, framed: seq<Framing>, f: Framing)
    ensures FramesOf(eth, framed + [f]) == FramesOf(eth, framed) + [Frame(f.dst, eth, TypeIpv4, Ip(f.dgram))]
  {
    if framed == [] {
    } else {
      assert (framed + [f])[1..] == framed[1..] + [f];
      FramesAppend(eth, framed[1..], f);
    }
  }

  lemma {:induction false} AskedAppend(requests: seq<Request>, r: Request)
    ensures AskedFor(requests + [r]) == AskedFor(requests) + [r.ip]
  {
    if requests == [] {
    } else {
      assert (requests + [r])[1..] == requests[1..] + [r];
      AskedAppend(requests[1..], r);
    }
  }

  /** The recorded framings and requests are the frames in the outbound queue, in order. */
  ghost predicate Honest(t: Trace) {
    && Ipv4Part(t.iface.framesOut) == FramesOf(t.iface.eth, t.framed)
    && RequestPart(t.iface.framesOut) == AskedFor(t.requests)
  }

  lemma SendIsHonest(t: Trace, d: Datagram, hop: u32)
    requires Honest(t)
    ensures Honest(TraceSend(t, d, hop))
  {
    hide Ipv4Part;
    hide RequestPart;
    hide FramesOf;
    hide AskedFor;
    var i := t.iface;
    if hop !in i.addrs {
      FrameAppend(i.framesOut, RequestFrame(i, hop));
      AskedAppend(t.requests, Request(hop, t.now));
    } else if i.addrs[hop].eth != BROADCAST {
      FrameAppend(i.framesOut, Ipv4Frame(i, i.addrs[hop].eth, d));
      FramesAppend(i.eth, t.framed, Framing(hop, d, i.addrs[hop].eth, t.now));
    }
  }

  lemma ArpIsHonest(t: Trace, m: ArpMessage)
    requires Honest(t)
    ensures Honest(TraceArp(t, m))
  {
    hide Ipv4Part;
    hide RequestPart;
    hide FramesOf;
    hide AskedFor;
    var i := t.iface;
    var i1 := Learn(i, m);
    if m.senderIp in i.waiting {
      FrameAppend(i.framesOut, Ipv4Frame(i, m.senderEthernet, i.waiting[m.senderIp]));
      FramesAppend(i.eth, t.framed, Framing(m.senderIp, i.waiting[m.senderIp], m.senderEthernet, t.now));
    }
    FrameAppend(i1.framesOut, ReplyFrame(i, m));
  }

  lemma {:induction false} RunStaysHonest(t: Trace, events: seq<Event>)
    requires Honest(t)
    ensures Honest(Run(t, events))
    decreases |events|
  {
    hide Honest;
    if events == [] {
    } else {
      match events[0] {
        case Send(d, hop) => SendIsHonest(t, d, hop);
        case Arrive(f) =>
          if f.typ == TypeArp && f.payload.Arp? {
            ArpIsHonest(t, f.payload.msg);
          }
        case Elapse(ms) => ClockIsHonest(t, ms);
      }
      RunStaysHonest(Step(t, events[0]), events[1..]);
    }
  }

  lemma ClockIsHonest(t: Trace, ms: nat)
    requires Honest(t)
    ensures Honest(Step(t, Elapse(ms)))
  {
  }

  /**
   * In every run from a new interface: the history is that of the interface which the events lead to,
   * and the recorded framings and requests are the frames in its outbound queue, in order.
   */
  lemma HistoryIsHonest(eth: Ethernet, ip: u32, events: seq<Event>)
    ensures var t := Run(NewTrace(eth, ip), events);
      && t.iface == RunInterface(NewInterface(eth, ip), events)
      && Ipv4Part(t.iface.framesOut) == FramesOf(t.iface.eth, t.framed)
      && RequestPart(t.iface.framesOut) == AskedFor(t.requests)
  {
    hide Step;
    hide StepInterface;
    TraceFollowsInterface(NewTrace(eth, ip), events);
    RunStaysHonest(NewTrace(eth, ip), events);
  }
}
