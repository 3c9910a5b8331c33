/** The network interface as an object. */
module NetworkInterfaces {
  import opened Numbers
  import opened Options
  import opened Ipv4Wire
  import opened AddressResolution

  class NetworkInterface {
    const eth: Ethernet
    const ip: u32
    var addrs: map<u32, Entry>
    var waiting: map<u32, Datagram>
    var framesOut: seq<Frame>

    ghost function View(): Interface
      reads this
    {
      Interface(eth, ip, addrs, waiting, framesOut)
    }

    constructor (eth: Ethernet, ip: u32)
      ensures View() == NewInterface(eth, ip)
    {
      this.eth, this.ip, addrs, waiting, framesOut := eth, ip, map[], map[], [];
    }

    method SendDatagram(d: Datagram, hop: u32)
      modifies this
      ensures View() == AddressResolution.SendDatagram(old(View()), d, hop)
    {
      if hop in addrs {
        if addrs[hop].eth != BROADCAST {
          framesOut := framesOut + [Frame(addrs[hop].eth, eth, TypeIpv4, Ip(d))];
        }
      } else {
        var message := ArpMessage(OPCODE_REQUEST, eth, ip, 0, hop);
        framesOut := framesOut + [Frame(BROADCAST, eth, TypeArp, Arp(message))];
        addrs := addrs[hop := Entry(REQUEST_LIFETIME, BROADCAST)];
        waiting := waiting[hop := d];
      }
    }

    method ReceiveFrame(f: Frame) returns (r: Option<Datagram>)
      modifies this
      ensures (View(), r) == AddressResolution.ReceiveFrame(old(View()), f)
    {
      r := None;
      if f.typ == TypeIpv4 && f.dst == eth {
        if f.payload.Ip? {
          r := Some(f.payload.dgram);
        }
      } else if f.typ == TypeArp && f.payload.Arp? {
        var m := f.payload.msg;
        addrs := addrs[m.senderIp := Entry(MAPPING_LIFETIME, m.senderEthernet)];
        if m.senderIp in waiting {
          var frame := Frame(m.senderEthernet, eth, TypeIpv4, Ip(waiting[m.senderIp]));
          waiting := waiting - {m.senderIp};
          framesOut := framesOut + [frame];
        }
        if m.opcode == OPCODE_REQUEST && m.targetIp == ip {
          var reply := ArpMessage(OPCODE_REPLY, eth, m.targetIp, m.senderEthernet, m.senderIp);
          framesOut := framesOut + [Frame(m.senderEthernet, eth, TypeArp, Arp(reply))];
        }
      }
    }

    /** Visits every entry once: it ages, or it goes. */
    method Tick(ms: nat)
      modifies `addrs
      ensures View() == AddressResolution.Tick(old(View()), ms)
    {
      var todo := addrs.Keys;
      while todo != {}
        invariant todo <= old(addrs).Keys
        invariant forall key :: key in todo ==> key in addrs && addrs[key] == old(addrs)[key]
        invariant forall key :: key in old(addrs) && key !in todo ==>
          (key in addrs <==> key in Age(old(addrs), ms)) && (key in addrs ==> addrs[key] == Age(old(addrs), ms)[key])
        invariant addrs.Keys <= old(addrs).Keys
        decreases |todo|
      {
        var key :| key in todo;
        if addrs[key].ttl > ms {
          addrs := addrs[key := Entry(addrs[key].ttl - ms, addrs[key].eth)];
        } else {
          addrs := addrs - {key};
        }
        todo := todo - {key};
      }
      assert addrs == Age(old(addrs), ms);
    }
  }
}
