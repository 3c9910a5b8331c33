/** The router as an object. */
module Routers {
  import opened Numbers
  import opened Options
  import opened Ipv4Wire
  import opened AddressResolution
  import opened Routing

  /** Everything still to be forwarded, the rest of queue `n` first. */
  function Remaining(rules: seq<Rule>, queues: seq<seq<Datagram>>, n: nat): seq<Forward>
    requires Lengths(rules) && n <= |queues|
  {
    ForwardedFrom(rules, queues[n..])
  }

  lemma NextDatagram(rules: seq<Rule>, queues: seq<seq<Datagram>>, n: nat)
    requires Lengths(rules) && n < |queues| && queues[n] != []
    ensures Remaining(rules, queues, n)
         == Forwarded(rules, queues[n][0]) + Remaining(rules, queues[n := queues[n][1..]], n)
  {
    var queues' := queues[n := queues[n][1..]];
    assert queues'[n..] == [queues[n][1..]] + queues[n + 1..];
    assert queues[n..] == [queues[n]] + queues[n + 1..];
    assert queues'[n..][1..] == queues[n..][1..] == queues[n + 1..];
  }

  lemma NextQueue(rules: seq<Rule>, queues: seq<seq<Datagram>>, n: nat)
    requires Lengths(rules) && n < |queues| && queues[n] == []
    ensures Remaining(rules, queues, n) == Remaining(rules, queues, n + 1)
  {
    assert queues[n..][1..] == queues[n + 1..];
  }

  class Router {
    var table: Table
    var ifaces: seq<Interface>
    var received: seq<seq<Datagram>>
    /** All rules so far, in the order in which they were added. */
    ghost var rules: seq<Rule>

    ghost predicate Valid()
      reads this
    {
      Lengths(rules) && table == TableOf(rules) && |received| == |ifaces|
    }

    constructor ()
      ensures Valid() && rules == [] && ifaces == []
    {
      table, ifaces, received, rules := EmptyTable(33), [], [], [];
    }

    method AddInterface(iface: Interface) returns (n: nat)
      requires Valid()
      modifies this
      ensures Valid() && rules == old(rules)
      ensures ifaces == old(ifaces) + [iface] && received == old(received) + [[]]
      ensures n < |ifaces| && ifaces[n] == iface
    {
      ifaces := ifaces + [iface];
      received := received + [[]];
      n := |ifaces| - 1;
    }

    method AddRoute(prefix: u32, length: nat, nextHop: Option<u32>, port: nat)
      requires Valid() && length <= 32
      modifies this
      ensures Valid()
      ensures rules == old(rules) + [Rule(prefix, length, Route(nextHop, port))]
      ensures ifaces == old(ifaces) && received == old(received)
    {
      var realPrefix := ShiftLeft(ShiftRight(prefix, 32 - length), 32 - length);
      table := table[length := table[length][realPrefix := Route(nextHop, port)]];
      rules := rules + [Rule(prefix, length, Route(nextHop, port))];
      assert rules[..|rules| - 1] == old(rules);
    }

    /** Finds the route by masking the destination further and further. */
    method FindRoute(dst: u32) returns (m: Option<Match>)
      requires Valid()
      ensures m == Best(rules, dst)
    {
      hide Masked;
      hide Best;
      LookupIsBest(rules, dst);
      var masked: nat := dst;
      var len := 32;
      while true
        invariant 0 <= len <= 32
        invariant LookupFrom(table, masked, len) == Best(rules, dst)
        decreases len
      {
        masked := Masked(masked, 32 - len);
        if masked in table[len] {
          return Some(Match(len, table[len][masked]));
        }
        if len == 0 {
          return None;
        }
        len := len - 1;
      }
    }

    method RouteOneDatagram(d: Datagram)
      requires Valid() && PortsExist(rules, |ifaces|)
      modifies `ifaces
      ensures |ifaces| == |old(ifaces)|
      ensures ifaces == HandAll(old(ifaces), Forwarded(rules, d))
    {
      hide Best;
      hide SendDatagram;
      if d.header.ttl == 0 {
        return;
      }
      var out := d.(header := d.header.(ttl := d.header.ttl - 1));
      if out.header.ttl == 0 {
        return;
      }
      var m := FindRoute(d.header.dst);
      if m.Some? {
        ForwardedPortExists(rules, d, |ifaces|);
        var hop := if m.value.route.nextHop.Some? then m.value.route.nextHop.value else d.header.dst;
        assert Forwarded(rules, d) == [Forward(m.value.route.port, hop, out)];
        var n := m.value.route.port;
        assert Forward(n, hop, out) in Forwarded(rules, d);
        ifaces := ifaces[n := SendDatagram(ifaces[n], out, hop)];
      }
    }

    /**
     * Empties every queue; each received datagram that is routable and not dying is handed out once,
     * in order, with its TTL reduced, as the naive scan of the rules would have it.
     */
    method RouteAll()
      requires Valid() && PortsExist(rules, |ifaces|)
      modifies this
      ensures Valid() && rules == old(rules)
      ensures ifaces == HandAll(old(ifaces), ForwardedFrom(rules, old(received)))
      ensures forall i :: 0 <= i < |received| ==> received[i] == []
    {
      hide HandAll;
      hide Forwarded;
      hide Best;
      hide TableOf;
      assert received[0..] == received;
      for n := 0 to |ifaces|
        modifies this
        invariant Valid() && rules == old(rules) && |ifaces| == |old(ifaces)| && table == old(table)
        invariant forall i :: 0 <= i < n ==> received[i] == []
        invariant HandAll(ifaces, Remaining(rules, received, n))
               == HandAll(old(ifaces), ForwardedFrom(rules, old(received)))
      {
        while received[n] != []
          modifies this
          invariant Valid() && rules == old(rules) && |ifaces| == |old(ifaces)| && table == old(table)
          invariant forall i :: 0 <= i < n ==> received[i] == []
          invariant HandAll(ifaces, Remaining(rules, received, n))
               == HandAll(old(ifaces), ForwardedFrom(rules, old(received)))
          decreases |received[n]|
        {
          NextDatagram(rules, received, n);
          HandInTwo(ifaces, Forwarded(rules, received[n][0]), Remaining(rules, received[n := received[n][1..]], n));
          RouteOneDatagram(received[n][0]);
          received := received[n := received[n][1..]];
        }
        NextQueue(rules, received, n);
      }
      assert Remaining(rules, received, |ifaces|) == [];
      HandNothing(ifaces);
    }
  }

  lemma HandNothing(ifaces: seq<Interface>)
    ensures HandAll(ifaces, []) == ifaces
  {
  }
}
