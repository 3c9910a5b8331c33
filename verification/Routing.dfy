/** Longest-prefix routing: the masked lookup and the naive scan it has to agree with. */
module Routing {
  import opened Numbers
  import opened Options
  import opened Ipv4Wire
  import opened AddressResolution

  /** `x` shifted right, and left, by `k` bits. */
  function ShiftRight(x: nat, k: nat): nat {
    if k == 0 then x else ShiftRight(x, k - 1) / 2
  }

  function ShiftLeft(x: nat, k: nat): nat {
    if k == 0 then x else 2 * ShiftLeft(x, k - 1)
  }

  /** `x` with its low `k` bits cleared. */
  function Masked(x: nat, k: nat): nat {
    ShiftLeft(ShiftRight(x, k), k)
  }

  datatype Route = Route(nextHop: Option<u32>, port: nat)

  /** A rule as it was added. */
  datatype Rule = Rule(prefix: u32, length: nat, route: Route)

  /** One map for each prefix length, from masked prefix to route. */
  type Table = seq<map<nat, Route>>

  function EmptyTable(lengths: nat): (t: Table)
    ensures |t| == lengths && forall i :: 0 <= i < lengths ==> t[i] == map[]
  {
    if lengths == 0 then [] else EmptyTable(lengths - 1) + [map[]]
  }

  function AddRoute(t: Table, r: Rule): (t': Table)
    requires r.length <= 32 && |t| == 33
    ensures |t'| == 33
  {
    t[r.length := t[r.length][Masked(r.prefix, 32 - r.length) := r.route]]
  }

  datatype Match = Match(length: nat, route: Route)

  /** The loop of the lookup from length `len` down, with the destination masked again each round. */
  function LookupFrom(t: Table, dst: nat, len: nat): Option<Match>
    requires len <= 32 && |t| == 33
    decreases len
  {
    var masked := Masked(dst, 32 - len);
    if masked in t[len] then Some(Match(len, t[len][masked]))
    else if len == 0 then None
    else LookupFrom(t, masked, len - 1)
  }

  // ------------------------------------------------------------------
  // The naive scan

  /** The first `length` bits of the rule's prefix are those of the destination. */
  predicate Matches(r: Rule, dst: nat)
    requires r.length <= 32
  {
    ShiftRight(r.prefix, 32 - r.length) == ShiftRight(dst, 32 - r.length)
  }

  predicate Lengths(rules: seq<Rule>) {
    forall i :: 0 <= i < |rules| ==> rules[i].length <= 32
  }

  /** Of the matching rules, one of the greatest length, and of those the last one added. */
  function Best(rules: seq<Rule>, dst: nat): Option<Match>
    requires Lengths(rules)
  {
    if rules == [] then None
    else
      var before := Best(rules[..|rules| - 1], dst);
      var r := rules[|rules| - 1];
      if Matches(r, dst) && (before.None? || before.value.length <= r.length)
      then Some(Match(r.length, r.route))
      else before
  }

  /** Rule `i` matches, and every matching rule is shorter, or as long and not added later. */
  ghost predicate IsChoice(rules: seq<Rule>, dst: nat, i: nat)
    requires Lengths(rules) && i < |rules|
  {
    && Matches(rules[i], dst)
    && (forall j :: 0 <= j < |rules| && Matches(rules[j], dst) ==>
          rules[j].length < rules[i].length || (rules[j].length == rules[i].length && j <= i))
  }

  /** What the result of the scan means. */
  lemma {:induction false} BestIsLongest(rules: seq<Rule>, dst: nat) returns (i: int)
    requires Lengths(rules)
    ensures Best(rules, dst).None? <==> i < 0
    ensures i < 0 ==> forall j :: 0 <= j < |rules| ==> !Matches(rules[j], dst)
    ensures i >= 0 ==> i < |rules| && IsChoice(rules, dst, i)
                       && Best(rules, dst).value == Match(rules[i].length, rules[i].route)
  {
    hide Matches;
    if rules == [] {
      i := -1;
    } else {
      var n := |rules| - 1;
      var front := rules[..n];
      i := BestIsLongest(front, dst);
      assert forall j :: 0 <= j < n ==> front[j] == rules[j];
      if Matches(rules[n], dst) && (i < 0 || rules[i].length <= rules[n].length) {
        i := n;
      }
    }
  }

  function TableOf(rules: seq<Rule>): (t: Table)
    requires Lengths(rules)
    ensures |t| == 33
  {
    if rules == [] then EmptyTable(33) else AddRoute(TableOf(rules[..|rules| - 1]), rules[|rules| - 1])
  }

  // ------------------------------------------------------------------
  // Masks

  lemma {:induction false} ShiftBack(x: nat, k: nat)
    ensures ShiftRight(ShiftLeft(x, k), k) == x
  {
    if k == 0 {
    } else {
      ShiftTwice(2 * ShiftLeft(x, k - 1), k - 1);
      ShiftBack(x, k - 1);
    }
  }

  /** Shifting once and then `k` times is shifting `k` times and then once. */
  lemma {:induction false} ShiftTwice(x: nat, k: nat)
    ensures ShiftRight(x / 2, k) == ShiftRight(x, k + 1)
  {
    if k == 0 {
    } else {
      ShiftTwice(x, k - 1);
    }
  }

  /** Two numbers agree after masking exactly if their high bits agree. */
  lemma MaskedEqual(x: nat, y: nat, k: nat)
    ensures Masked(x, k) == Masked(y, k) <==> ShiftRight(x, k) == ShiftRight(y, k)
  {
    hide ShiftLeft;
    hide ShiftRight;
    ShiftBack(ShiftRight(x, k), k);
    ShiftBack(ShiftRight(y, k), k);
  }

  /** Masking a masked number further is masking the number itself. */
  lemma MaskedAgain(x: nat, k: nat)
    ensures ShiftRight(Masked(x, k), k + 1) == ShiftRight(x, k + 1)
    ensures Masked(Masked(x, k), k + 1) == Masked(x, k + 1)
  {
    ShiftBack(ShiftRight(x, k), k);
  }

  // ------------------------------------------------------------------
  // The lookup

  /** The lookup without the repeated masking. */
  function Direct(t: Table, dst: nat, len: nat): Option<Match>
    requires len <= 32 && |t| == 33
    decreases len
  {
    var masked := Masked(dst, 32 - len);
    if masked in t[len] then Some(Match(len, t[len][masked]))
    else if len == 0 then None
    else Direct(t, dst, len - 1)
  }

  /** Masking again and again never loses a bit that is still needed. */
  lemma {:induction false} ProgressiveMasking(t: Table, dst: nat, dst': nat, len: nat)
    requires len <= 32 && |t| == 33 && ShiftRight(dst, 32 - len) == ShiftRight(dst', 32 - len)
    ensures LookupFrom(t, dst', len) == Direct(t, dst, len)
    decreases len
  {
    hide ShiftRight;
    hide Masked;
    MaskedEqual(dst, dst', 32 - len);
    if len > 0 && Masked(dst, 32 - len) !in t[len] {
      MaskedAgain(dst, 32 - len);
      ProgressiveMasking(t, dst, Masked(dst', 32 - len), len - 1);
    }
  }

  lemma {:induction false} DirectAfterAdd(t: Table, r: Rule, dst: nat, len: nat)
    requires len <= 32 && r.length <= 32 && |t| == 33
    ensures var before := Direct(t, dst, len);
      Direct(AddRoute(t, r), dst, len) ==
        if r.length <= len && Matches(r, dst) && (before.None? || before.value.length <= r.length)
        then Some(Match(r.length, r.route)) else before
    ensures Direct(t, dst, len).Some? ==> Direct(t, dst, len).value.length <= len
    decreases len
  {
    hide ShiftRight;
    hide Masked;
    MaskedEqual(r.prefix, dst, 32 - r.length);
    if len == 0 {
    } else {
      DirectAfterAdd(t, r, dst, len - 1);
    }
  }

  lemma {:induction false} EmptyTableFindsNothing(dst: nat, len: nat)
    requires len <= 32
    ensures Direct(EmptyTable(33), dst, len).None?
    decreases len
  {
    if len == 0 {
    } else {
      EmptyTableFindsNothing(dst, len - 1);
    }
  }

  /**
   * The progressively masked lookup refines the naive scan: for any rules, added in any order, it
   * finds the most recently added rule of the greatest matching length.
   */
  lemma {:induction false} LookupIsBest(rules: seq<Rule>, dst: nat)
    requires Lengths(rules)
    ensures LookupFrom(TableOf(rules), dst, 32) == Best(rules, dst)
  {
    hide LookupFrom;
    hide Direct;
    hide AddRoute;
    hide Matches;
    ProgressiveMasking(TableOf(rules), dst, dst, 32);
    if rules == [] {
      EmptyTableFindsNothing(dst, 32);
    } else {
      var front := rules[..|rules| - 1];
      LookupIsBest(front, dst);
      ProgressiveMasking(TableOf(front), dst, dst, 32);
      DirectAfterAdd(TableOf(front), rules[|rules| - 1], dst, 32);
    }
  }

  // ------------------------------------------------------------------
  // Forwarding

  /** A datagram on its way out of a port. */
  datatype Forward = Forward(port: nat, hop: u32, dgram: Datagram)

  /** The reference: nothing for a dying or unroutable datagram, otherwise one copy with the TTL reduced. */
  function Forwarded(rules: seq<Rule>, d: Datagram): seq<Forward>
    requires Lengths(rules)
  {
    if d.header.ttl <= 1 || Best(rules, d.header.dst).None? then []
    else
      var route := Best(rules, d.header.dst).value.route;
      [Forward(route.port, if route.nextHop.Some? then route.nextHop.value else d.header.dst,
               d.(header := d.header.(ttl := d.header.ttl - 1)))]
  }

  /**
   * What is forwarded: nothing exactly if the TTL is used up or no rule matches; otherwise one copy of
   * the datagram with the TTL reduced by one, out of the port of the chosen rule, to its next hop, or to
   * the destination itself if the rule has none.
   */
  lemma ForwardedExactly(rules: seq<Rule>, d: Datagram)
    requires Lengths(rules)
    ensures Forwarded(rules, d) == [] <==>
              d.header.ttl <= 1 || forall j :: 0 <= j < |rules| ==> !Matches(rules[j], d.header.dst)
    ensures Forwarded(rules, d) != [] ==>
      && |Forwarded(rules, d)| == 1
      && exists i :: 0 <= i < |rules| && IsChoice(rules, d.header.dst, i)
           && var f := Forwarded(rules, d)[0];
           && f.port == rules[i].route.port
           && (rules[i].route.nextHop.Some? ==> f.hop == rules[i].route.nextHop.value)
           && (rules[i].route.nextHop.None? ==> f.hop == d.header.dst)
           && f.dgram.payload == d.payload
           && f.dgram.header.ttl == d.header.ttl - 1
           && f.dgram.header == d.header.(ttl := f.dgram.header.ttl)
  {
    hide Matches;
    var i := BestIsLongest(rules, d.header.dst);
    if i >= 0 {
      assert IsChoice(rules, d.header.dst, i);
    }
  }

  function ForwardedAll(rules: seq<Rule>, queue: seq<Datagram>): seq<Forward>
    requires Lengths(rules)
  {
    if queue == [] then [] else Forwarded(rules, queue[0]) + ForwardedAll(rules, queue[1..])
  }

  /** All queues, in the order in which they are emptied. */
  function ForwardedFrom(rules: seq<Rule>, queues: seq<seq<Datagram>>): seq<Forward>
    requires Lengths(rules)
  {
    if queues == [] then [] else ForwardedAll(rules, queues[0]) + ForwardedFrom(rules, queues[1..])
  }

  /** Datagrams are forwarded one by one, in the order in which they were received. */
  lemma {:induction false} ForwardedInOrder(rules: seq<Rule>, a: seq<Datagram>, d: Datagram, b: seq<Datagram>)
    requires Lengths(rules)
    ensures ForwardedAll(rules, a + [d] + b) == ForwardedAll(rules, a) + Forwarded(rules, d) + ForwardedAll(rules, b)
  {
    hide Forwarded;
    var all := a + [d] + b;
    if a == [] {
      assert all[1..] == b;
    } else {
      assert all[1..] == a[1..] + [d] + b;
      ForwardedInOrder(rules, a[1..], d, b);
      var x := Forwarded(rules, a[0]);
      var y, z, u := ForwardedAll(rules, a[1..]), Forwarded(rules, d), ForwardedAll(rules, b);
      assert x + (y + z + u) == (x + y) + z + u;
    }
  }

  predicate PortsExist(rules: seq<Rule>, n: nat) {
    forall i :: 0 <= i < |rules| ==> rules[i].route.port < n
  }

  lemma ForwardedPortExists(rules: seq<Rule>, d: Datagram, n: nat)
    requires Lengths(rules) && PortsExist(rules, n)
    ensures forall f :: f in Forwarded(rules, d) ==> f.port < n
  {
    var i := BestIsLongest(rules, d.header.dst);
  }

  /** Hands a datagram to the interface of its port. */
  function Hand(ifaces: seq<Interface>, f: Forward): (r: seq<Interface>)
    ensures |r| == |ifaces|
  {
    if f.port < |ifaces| then ifaces[f.port := SendDatagram(ifaces[f.port], f.dgram, f.hop)] else ifaces
  }

  function HandAll(ifaces: seq<Interface>, fs: seq<Forward>): (r: seq<Interface>)
    ensures |r| == |ifaces|
    decreases |fs|
  {
    if fs == [] then ifaces else HandAll(Hand(ifaces, fs[0]), fs[1..])
  }

  lemma {:induction false} HandInTwo(ifaces: seq<Interface>, a: seq<Forward>, b: seq<Forward>)
    ensures HandAll(ifaces, a + b) == HandAll(HandAll(ifaces, a), b)
    decreases |a|
  {
    if a == [] {
      assert a + b == b;
    } else {
      assert (a + b)[1..] == a[1..] + b;
      HandInTwo(Hand(ifaces, a[0]), a[1..], b);
    }
  }
}
