/** Interfaces on one network: how a datagram gets from one to the other, and how long an address is known. */
module Resolution {
  import opened Numbers
  import opened Options
  import opened Ipv4Wire
  import opened AddressResolution
  import opened ArpSafety
  import opened Routing

  function LastFrame(i: Interface): Frame
    requires i.framesOut != []
  {
    i.framesOut[|i.framesOut| - 1]
  }

  /** What the interface does with a frame, and what it hands up. */
  function Hears(i: Interface, f: Frame): Interface {
    ReceiveFrame(i, f).0
  }

  function HandsUp(i: Interface, f: Frame): Option<Datagram> {
    ReceiveFrame(i, f).1
  }

  /**
   * Two interfaces with nothing known about each other: `a` has a datagram for `b`, its request reaches
   * `b`, the answer of `b` reaches `a`, and the frame that `a` then puts out makes `b`, and no one with
   * another address, hand up exactly that datagram.
   */
  lemma DatagramGetsThere(a: Interface, b: Interface, other: Interface, d: Datagram)
    requires b.ip !in a.addrs && other.eth != b.eth
    ensures var a1 := SendDatagram(a, d, b.ip);
      && a1.framesOut != []
      && var b1 := Hears(b, LastFrame(a1));
      && b1.framesOut != []
      && var a2 := Hears(a1, LastFrame(b1));
      && a2.framesOut != []
      && HandsUp(b1, LastFrame(a2)) == Some(d)
      && HandsUp(other, LastFrame(a2)) == None
      && b.ip !in a2.waiting
  {
  }

  /** The request tells every listener the asker's address; only the one asked for answers. */
  lemma RequestIsUnderstood(a: Interface, c: Interface, d: Datagram, hop: u32)
    requires hop !in a.addrs
    ensures var a1 := SendDatagram(a, d, hop);
      && a1.framesOut != []
      && var c1 := Hears(c, LastFrame(a1));
      && a.ip in c1.addrs && c1.addrs[a.ip] == Entry(MAPPING_LIFETIME, a.eth)
      && HandsUp(c, LastFrame(a1)) == None
      && (c.ip != hop && a.ip !in c.waiting ==> c1.framesOut == c.framesOut)
      && (c.ip == hop ==> c1.framesOut != [] && LastFrame(c1).dst == a.eth
                          && var a2 := Hears(a1, LastFrame(c1));
                             hop in a2.addrs && a2.addrs[hop] == Entry(MAPPING_LIFETIME, c.eth))
  {
  }

  /** Once the address is known, datagrams in either direction go out at once and are handed up. */
  lemma KnownAddressIsUsed(a: Interface, b: Interface, d: Datagram)
    requires b.ip in a.addrs && a.addrs[b.ip].eth == b.eth && b.eth != BROADCAST
    ensures var a1 := SendDatagram(a, d, b.ip);
      && |a1.framesOut| == |a.framesOut| + 1 && HandsUp(b, LastFrame(a1)) == Some(d)
  {
  }

  /** And back: the first request has told `b` where `a` is. */
  lemma AnswerGetsBack(a: Interface, b: Interface, d: Datagram, answer: Datagram)
    requires b.ip !in a.addrs && a.eth != BROADCAST
    ensures var a1 := SendDatagram(a, d, b.ip);
      && a1.framesOut != []
      && var b2 := SendDatagram(Hears(b, LastFrame(a1)), answer, a.ip);
      && b2.framesOut != []
      && HandsUp(a1, LastFrame(b2)) == Some(answer)
  {
    RequestIsUnderstood(a, b, d, b.ip);
    var a1 := SendDatagram(a, d, b.ip);
    KnownAddressIsUsed(Hears(b, LastFrame(a1)), a1, answer);
  }

  // ------------------------------------------------------------------
  // Everything framed in a run

  lemma {:induction false} FramesAt(eth: Ethernet, framed: seq<Framing>)
    ensures |FramesOf(eth, framed)| == |framed|
    ensures forall k :: 0 <= k < |framed| ==>
              FramesOf(eth, framed)[k] == Frame(framed[k].dst, eth, TypeIpv4, Ip(framed[k].dgram))
  {
    if framed == [] {
    } else {
      FramesAt(eth, framed[1..]);
    }
  }

  /**
   * In every run, each IPv4 frame put out makes the interface it was framed for, whatever its state,
   * hand up the datagram that was sent, and any other interface nothing.
   */
  lemma FramedIsHandedUp(eth: Ethernet, ip: u32, events: seq<Event>, k: nat, listener: Interface)
    requires k < |Run(NewTrace(eth, ip), events).framed|
    ensures var t := Run(NewTrace(eth, ip), events);
      && |Ipv4Part(t.iface.framesOut)| == |t.framed|
      && HandsUp(listener, Ipv4Part(t.iface.framesOut)[k]) ==
           if listener.eth == t.framed[k].dst then Some(t.framed[k].dgram) else None
  {
    hide Run;
    hide Step;
    hide RunInterface;
    hide Ipv4Part;
    hide RequestPart;
    hide AskedFor;
    hide FramesOf;
    HistoryIsHonest(eth, ip, events);
    FramesAt(Run(NewTrace(eth, ip), events).iface.eth, Run(NewTrace(eth, ip), events).framed);
  }

  // ------------------------------------------------------------------
  // How long an address is known

  function Elapsed(events: seq<Event>): nat
    decreases |events|
  {
    if events == [] then 0 else (if events[0].Elapse? then events[0].ms else 0) + Elapsed(events[1..])
  }

  /** The event brings an ARP message from that address. */
  predicate TellsOf(e: Event, ip: u32) {
    e.Arrive? && e.frame.typ == TypeArp && e.frame.payload.Arp? && e.frame.payload.msg.senderIp == ip
  }

  predicate NothingTold(events: seq<Event>, ip: u32) {
    forall k :: 0 <= k < |events| ==> !TellsOf(events[k], ip)
  }

  predicate NothingSent(events: seq<Event>, ip: u32) {
    forall k :: 0 <= k < |events| ==> !(events[k].Send? && events[k].hop == ip)
  }

  lemma StepAges(i: Interface, e: Event, ip: u32)
    requires ip in i.addrs && !TellsOf(e, ip)
    ensures var ms := if e.Elapse? then e.ms else 0;
      var i' := StepInterface(i, e);
      && (ip in i'.addrs <==> !e.Elapse? || ms < i.addrs[ip].ttl)
      && (ip in i'.addrs ==> i'.addrs[ip] == Entry(i.addrs[ip].ttl - ms, i.addrs[ip].eth))
  {
  }

  lemma StepStaysUnknown(i: Interface, e: Event, ip: u32)
    requires ip !in i.addrs && !TellsOf(e, ip) && !(e.Send? && e.hop == ip)
    ensures ip !in StepInterface(i, e).addrs
  {
  }

  /** An entry lives as long as it was given, ages with time alone, and is used until then. */
  lemma {:induction false} EntryLives(i: Interface, events: seq<Event>, ip: u32)
    requires ip in i.addrs && i.addrs[ip].ttl > 0 && NothingTold(events, ip)
    requires Elapsed(events) < i.addrs[ip].ttl
    ensures var i' := RunInterface(i, events);
      ip in i'.addrs && i'.addrs[ip] == Entry(i.addrs[ip].ttl - Elapsed(events), i.addrs[ip].eth)
    decreases |events|
  {
    hide StepInterface;
    hide TellsOf;
    if events == [] {
    } else {
      StepAges(i, events[0], ip);
      assert forall k :: 0 <= k < |events[1..]| ==> events[1..][k] == events[k + 1];
      EntryLives(StepInterface(i, events[0]), events[1..], ip);
    }
  }

  lemma {:induction false} UnknownStays(i: Interface, events: seq<Event>, ip: u32)
    requires ip !in i.addrs && NothingTold(events, ip) && NothingSent(events, ip)
    ensures ip !in RunInterface(i, events).addrs
    decreases |events|
  {
    hide StepInterface;
    hide TellsOf;
    if events == [] {
    } else {
      StepStaysUnknown(i, events[0], ip);
      assert forall k :: 0 <= k < |events[1..]| ==> events[1..][k] == events[k + 1];
      UnknownStays(StepInterface(i, events[0]), events[1..], ip);
    }
  }

  /**
   * An entry is there exactly until its life is over: over any events that neither bring an ARP message
   * from its address nor send to it.
   */
  lemma {:induction false} EntryLivesExactly(i: Interface, events: seq<Event>, ip: u32)
    requires ip in i.addrs && i.addrs[ip].ttl > 0 && NothingTold(events, ip) && NothingSent(events, ip)
    ensures ip in RunInterface(i, events).addrs <==> Elapsed(events) < i.addrs[ip].ttl
    decreases |events|
  {
    hide StepInterface;
    hide TellsOf;
    if events == [] {
    } else {
      StepAges(i, events[0], ip);
      assert forall k :: 0 <= k < |events[1..]| ==> events[1..][k] == events[k + 1];
      if ip in StepInterface(i, events[0]).addrs {
        EntryLivesExactly(StepInterface(i, events[0]), events[1..], ip);
      } else {
        UnknownStays(StepInterface(i, events[0]), events[1..], ip);
      }
    }
  }

  /** The interface after an ARP message from `ip` and then `events`. */
  function AfterLearning(i: Interface, f: Frame, events: seq<Event>): Interface {
    RunInterface(Hears(i, f), events)
  }

  /**
   * A learned address is used for thirty seconds: as long as less time has passed and no other message
   * has come from it, a datagram for it goes out at once to that address, and makes that interface hand
   * it up.
   */
  lemma LearnedIsUsed(i: Interface, f: Frame, events: seq<Event>, b: Interface, d: Datagram)
    requires f.typ == TypeArp && f.payload.Arp? && f.payload.msg.senderIp == b.ip
    requires f.payload.msg.senderEthernet == b.eth && b.eth != BROADCAST
    requires NothingTold(events, b.ip) && Elapsed(events) < 30000
    ensures var i1 := AfterLearning(i, f, events);
      var i2 := SendDatagram(i1, d, b.ip);
      && |i2.framesOut| == |i1.framesOut| + 1 && HandsUp(b, LastFrame(i2)) == Some(d)
  {
    hide RunInterface;
    hide SendDatagram;
    EntryLives(Hears(i, f), events, b.ip);
    KnownAddressIsUsed(AfterLearning(i, f, events), b, d);
  }

  // ------------------------------------------------------------------
  // Through a router

  /** There is one choice among the rules. */
  lemma ChoiceIsUnique(rules: seq<Rule>, dst: nat, i: nat, j: nat)
    requires Lengths(rules) && i < |rules| && j < |rules| && IsChoice(rules, dst, i) && IsChoice(rules, dst, j)
    ensures i == j
  {
    hide Matches;
  }

  /** Where the chosen rule sends a datagram. */
  function HopOf(rule: Rule, d: Datagram): u32 {
    match rule.route.nextHop
    case Some(hop) => hop
    case None => d.header.dst
  }

  /**
   * A router that knows the address of the next hop passes a datagram on: with a TTL above one, the
   * interface of the chosen rule, and no other, puts out one more frame, and it makes the next hop hand
   * up the datagram with its TTL reduced by one.
   */
  lemma RoutedGetsThere(rules: seq<Rule>, ifaces: seq<Interface>, d: Datagram, i: nat, next: Interface)
    requires Lengths(rules) && i < |rules| && IsChoice(rules, d.header.dst, i) && d.header.ttl > 1
    requires rules[i].route.port < |ifaces| && next.ip == HopOf(rules[i], d) && next.eth != BROADCAST
    requires var addrs := ifaces[rules[i].route.port].addrs; next.ip in addrs && addrs[next.ip].eth == next.eth
    ensures var n, after := rules[i].route.port, HandAll(ifaces, Forwarded(rules, d));
      && (forall k :: 0 <= k < |ifaces| && k != n ==> after[k] == ifaces[k])
      && |after[n].framesOut| == |ifaces[n].framesOut| + 1
      && HandsUp(next, LastFrame(after[n])) == Some(d.(header := d.header.(ttl := d.header.ttl - 1)))
  {
    hide Matches;
    hide Best;
    hide SendDatagram;
    ForwardedExactly(rules, d);
    assert Forwarded(rules, d) != [];
    var j :| 0 <= j < |rules| && IsChoice(rules, d.header.dst, j)
             && Forwarded(rules, d)[0].port == rules[j].route.port
             && Forwarded(rules, d)[0].hop == HopOf(rules[j], d);
    ChoiceIsUnique(rules, d.header.dst, i, j);
    var f := Forwarded(rules, d)[0];
    assert Forwarded(rules, d) == [f] && [f][1..] == [];
    assert HandAll(ifaces, [f]) == Hand(ifaces, f);
    KnownAddressIsUsed(ifaces[f.port], next, f.dgram);
  }
}
