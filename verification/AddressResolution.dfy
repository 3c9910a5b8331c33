/** The step functions of a network interface, with a history of what it asked, learned and framed. */
module AddressResolution {
  import opened Numbers
  import opened Options
  import opened Ipv4Wire

  /** Addresses of 48 bits. */
  type Ethernet = x: int | 0 <= x <= 0xffff_ffff_ffff

  const BROADCAST: Ethernet := 0xffff_ffff_ffff

  const OPCODE_REQUEST: u16 := 1
  const OPCODE_REPLY: u16 := 2

  const REQUEST_LIFETIME: nat := 5000
  const MAPPING_LIFETIME: nat := 30000

  datatype ArpMessage = ArpMessage(
    opcode: u16,
    senderEthernet: Ethernet,
    senderIp: u32,
    targetEthernet: Ethernet,
    targetIp: u32)

  /** What the bytes of a frame parse to. */
  datatype Payload = Ip(dgram: Datagram) | Arp(msg: ArpMessage) | Garbage

  datatype FrameType = TypeIpv4 | TypeArp | OtherType

  datatype Frame = Frame(dst: Ethernet, src: Ethernet, typ: FrameType, payload: Payload)

  /** A cached address, or a pending request if it is the broadcast address; `ttl` is what is left of its life. */
  datatype Entry = Entry(ttl: nat, eth: Ethernet)

  datatype Interface = Interface(
    eth: Ethernet,
    ip: u32,
    addrs: map<u32, Entry>,
    waiting: map<u32, Datagram>,
    framesOut: seq<Frame>)

  function NewInterface(eth: Ethernet, ip: u32): Interface {
    Interface(eth, ip, map[], map[], [])
  }

  function Ipv4Frame(i: Interface, dst: Ethernet, d: Datagram): Frame {
    Frame(dst, i.eth, TypeIpv4, Ip(d))
  }

  function RequestFrame(i: Interface, hop: u32): Frame {
    Frame(BROADCAST, i.eth, TypeArp, Arp(ArpMessage(OPCODE_REQUEST, i.eth, i.ip, 0, hop)))
  }

  function ReplyFrame(i: Interface, m: ArpMessage): Frame {
    Frame(m.senderEthernet, i.eth, TypeArp,
          Arp(ArpMessage(OPCODE_REPLY, i.eth, m.targetIp, m.senderEthernet, m.senderIp)))
  }

  /** Sends to a cached address, asks for an unknown one, and drops while a request is pending. */
  function SendDatagram(i: Interface, d: Datagram, hop: u32): Interface {
    if hop in i.addrs then
      if i.addrs[hop].eth != BROADCAST
      then i.(framesOut := i.framesOut + [Ipv4Frame(i, i.addrs[hop].eth, d)])
      else i
    else
      i.(framesOut := i.framesOut + [RequestFrame(i, hop)],
         addrs := i.addrs[hop := Entry(REQUEST_LIFETIME, BROADCAST)],
         waiting := i.waiting[hop := d])
  }

  /** Learns the sender's address and sends the datagram that waited for it. */
  function Learn(i: Interface, m: ArpMessage): Interface {
    var i1 := i.(addrs := i.addrs[m.senderIp := Entry(MAPPING_LIFETIME, m.senderEthernet)]);
    if m.senderIp in i.waiting
    then i1.(framesOut := i.framesOut + [Ipv4Frame(i, m.senderEthernet, i.waiting[m.senderIp])],
             waiting := i.waiting - {m.senderIp})
    else i1
  }

  function ReceiveArp(i: Interface, m: ArpMessage): Interface {
    var i1 := Learn(i, m);
    if m.opcode == OPCODE_REQUEST && m.targetIp == i.ip
    then i1.(framesOut := i1.framesOut + [ReplyFrame(i, m)])
    else i1
  }

  function ReceiveFrame(i: Interface, f: Frame): (Interface, Option<Datagram>) {
    if f.typ == TypeIpv4 && f.dst == i.eth then
      (i, if f.payload.Ip? then Some(f.payload.dgram) else None)
    else if f.typ == TypeArp && f.payload.Arp? then
      (ReceiveArp(i, f.payload.msg), None)
    else
      (i, None)
  }

  /** One pass over the cache: entries age, and those at the end of their life go. */
  function Age(addrs: map<u32, Entry>, ms: nat): map<u32, Entry> {
    map ip | ip in addrs && addrs[ip].ttl > ms :: Entry(addrs[ip].ttl - ms, addrs[ip].eth)
  }

  function Tick(i: Interface, ms: nat): Interface {
    i.(addrs := Age(i.addrs, ms))
  }

  // ------------------------------------------------------------------
  // History

  datatype Sending = Sending(hop: u32, dgram: Datagram)

  datatype Framing = Framing(hop: u32, dgram: Datagram, dst: Ethernet, at: nat)

  datatype Request = Request(ip: u32, at: nat)

  datatype Learning = Learning(ip: u32, eth: Ethernet, at: nat)

  /**
   * An interface and its past: what it was given, what it framed, asked and learned, what it lost by
   * refusing to keep it and by overwriting it, and the time.
   */
  datatype Trace = Trace(
    iface: Interface,
    now: nat,
    sent: seq<Sending>,
    framed: seq<Framing>,
    requests: seq<Request>,
    learned: seq<Learning>,
    dropped: seq<Sending>,
    displaced: seq<Sending>)

  datatype Event = Send(dgram: Datagram, hop: u32) | Arrive(frame: Frame) | Elapse(ms: nat)

  /** There is an entry for the next hop, but no address to send to. */
  predicate Pending(i: Interface, hop: u32) {
    hop in i.addrs && i.addrs[hop].eth == BROADCAST
  }

  /** The entry for the next hop is gone, but a datagram still waits for it. */
  predicate Orphaned(i: Interface, hop: u32) {
    hop !in i.addrs && hop in i.waiting
  }

  function TraceSend(t: Trace, d: Datagram, hop: u32): Trace {
    var i := t.iface;
    Trace(SendDatagram(i, d, hop), t.now, t.sent + [Sending(hop, d)],
          if hop in i.addrs && i.addrs[hop].eth != BROADCAST
          then t.framed + [Framing(hop, d, i.addrs[hop].eth, t.now)]
          else t.framed,
          if hop !in i.addrs then t.requests + [Request(hop, t.now)] else t.requests,
          t.learned,
          if Pending(i, hop) then t.dropped + [Sending(hop, d)] else t.dropped,
          if Orphaned(i, hop) then t.displaced + [Sending(hop, i.waiting[hop])] else t.displaced)
  }

  function TraceArp(t: Trace, m: ArpMessage): Trace {
    t.(iface := ReceiveArp(t.iface, m),
       framed := if m.senderIp in t.iface.waiting
                 then t.framed + [Framing(m.senderIp, t.iface.waiting[m.senderIp], m.senderEthernet, t.now)]
                 else t.framed,
       learned := t.learned + [Learning(m.senderIp, m.senderEthernet, t.now)])
  }

  function Step(t: Trace, e: Event): Trace {
    match e
    case Send(d, hop) => TraceSend(t, d, hop)
    case Arrive(f) => if f.typ == TypeArp && f.payload.Arp? then TraceArp(t, f.payload.msg) else t
    case Elapse(ms) => t.(iface := Tick(t.iface, ms), now := t.now + ms)
  }

  function Run(t: Trace, events: seq<Event>): Trace
    decreases |events|
  {
    if events == [] then t else Run(Step(t, events[0]), events[1..])
  }

  function NewTrace(eth: Ethernet, ip: u32): Trace {
    Trace(NewInterface(eth, ip), 0, [], [], [], [], [], [])
  }

  /** The interface alone, without its history. */
  function StepInterface(i: Interface, e: Event): Interface {
    match e
    case Send(d, hop) => SendDatagram(i, d, hop)
    case Arrive(f) => ReceiveFrame(i, f).0
    case Elapse(ms) => Tick(i, ms)
  }

  function RunInterface(i: Interface, events: seq<Event>): Interface
    decreases |events|
  {
    if events == [] then i else RunInterface(StepInterface(i, events[0]), events[1..])
  }

  /** The history does not influence what the interface does. */
  lemma {:induction false} TraceFollowsInterface(t: Trace, events: seq<Event>)
    ensures Run(t, events).iface == RunInterface(t.iface, events)
    decreases |events|
  {
    hide SendDatagram;
    hide ReceiveArp;
    hide Tick;
    if events == [] {
    } else {
      TraceFollowsInterface(Step(t, events[0]), events[1..]);
    }
  }

  /** The IPv4 frames of an outbound queue. */
  function Ipv4Part(frames: seq<Frame>): seq<Frame> {
    if frames == [] then [] else IfIpv4(frames[0]) + Ipv4Part(frames[1..])
  }

  function IfIpv4(f: Frame): seq<Frame> {
    if f.typ == TypeIpv4 then [f] else []
  }

  function FramesOf(eth: Ethernet, framed: seq<Framing>): seq<Frame> {
    if framed == [] then []
    else [Frame(framed[0].dst, eth, TypeIpv4, Ip(framed[0].dgram))] + FramesOf(eth, framed[1..])
  }

  /** The requests of an outbound queue, by address asked for. */
  function RequestPart(frames: seq<Frame>): seq<u32> {
    if frames == [] then [] else Asks(frames[0]) + RequestPart(frames[1..])
  }

  /** The address a frame asks for, if it is a request. */
  function Asks(f: Frame): seq<u32> {
    if f.payload.Arp? && f.payload.msg.opcode == OPCODE_REQUEST then [f.payload.msg.targetIp] else []
  }

  function AskedFor(requests: seq<Request>): seq<u32> {
    if requests == [] then [] else [requests[0].ip] + AskedFor(requests[1..])
  }
}
