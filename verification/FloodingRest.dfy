/** When does flooding come to rest?  Updates are relayed whether or not they are new, so copies die
    out only where the neighbour lists leave them nowhere to go.  With the neighbour lists fixed and
    nothing but deliveries, this is decided exactly. */
module FloodingRest {
  import opened Common
  import opened LinkState
  import opened Flooding
  import opened Spreading

  /** The interfaces of every router, which deliveries never change. */
  type Wiring = map<U32, seq<Iface>>

  ghost function WiringOf(net: Net): Wiring { map x | x in net.routers :: net.routers[x].ifaces }

  /** The copies that the delivery of p gives rise to. */
  ghost function Offspring(owner: Owner, w: Wiring, p: Packet): seq<Packet> {
    if p.daddr in owner && owner[p.daddr] in w then Forward(w[owner[p.daddr]], p) else []
  }

  /** A packet in flight starts a chain of relays that comes back to a packet it already contains:
      a cycle of neighbours on which no relay goes to the originator or straight back. */
  ghost predicate Circulates(owner: Owner, net: Net) {
    exists c, i :: Lasso(owner, net, c, i)
  }

  ghost predicate Lasso(owner: Owner, net: Net, c: seq<Packet>, i: nat) {
    Descent(SpreadOf(owner, WiringOf(net)), c) && c[0] in net.flight && i < |c| - 1 && c[i] == c[|c| - 1]
  }

  ghost function SpreadOf(owner: Owner, w: Wiring): Packet -> seq<Packet> { (p: Packet) => Offspring(owner, w, p) }

  /** Consecutive deliveries and nothing else. */
  ghost predicate DeliveryRun(owner: Owner, nets: seq<Net>) {
    |nets| > 0 && forall i | 0 <= i < |nets| - 1 :: DeliveredAt(owner, nets, i)
  }

  ghost predicate DeliveredAt(owner: Owner, nets: seq<Net>, i: nat)
    requires i + 1 < |nets|
  {
    Delivers(owner, nets[i], nets[i + 1])
  }

  ghost predicate Delivers(owner: Owner, net: Net, net': Net) { exists p :: Deliver(owner, net, net', p) }

  ghost predicate RunOfLength(owner: Owner, net: Net, nets: seq<Net>, n: nat) {
    DeliveryRun(owner, nets) && nets[0] == net && |nets| == n + 1
  }

  /** Deliveries can go on for any number of steps. */
  ghost predicate NeverRests(owner: Owner, net: Net) {
    forall n: nat :: CanRun(owner, net, n)
  }

  ghost predicate CanRun(owner: Owner, net: Net, n: nat) { exists nets :: RunOfLength(owner, net, nets, n) }

  /** No update in flight is longer than a database entry. */
  ghost predicate AllShort(net: Net) { forall p | p in net.flight :: |p.lsu.adv| <= MAX_ADV }

  // ---- a cycle keeps flooding alive

  ghost function Delivered(owner: Owner, net: Net, p: Packet): Net
    requires p.daddr in owner && owner[p.daddr] in net.routers
  {
    var x := owner[p.daddr];
    var step := Receive(net.routers[x], p);
    net.(routers := net.routers[x := step.0], flight := net.flight - multiset{p} + multiset(step.1))
  }

  lemma OffspringKeepsUpdate(owner: Owner, w: Wiring, p: Packet, q: Packet)
    requires q in Offspring(owner, w, p)
    ensures q.lsu == p.lsu && (q.saddr, q.daddr) in AddressPairs(w)
  {
    var ifs := w[owner[p.daddr]];
    ForwardSends(ifs, p);
    assert Relays(q, ifs, p);
    var k, i :| RelayTo(q, ifs, p, k, i);
    assert 0 <= k < |ifs| && 0 <= i < |ifs[k].nbrs|;
  }

  /** Along a chain of relays no packet goes straight back to the address it came from, nor to a neighbour
      that is its originator. */
  lemma RelaysNeverReturn(owner: Owner, w: Wiring, c: seq<Packet>, i: nat)
    requires Descent(SpreadOf(owner, w), c) && i + 1 < |c|
    ensures c[i + 1].daddr != c[i].saddr && c[i].daddr in owner && owner[c[i].daddr] in w
    ensures Relays(c[i + 1], w[owner[c[i].daddr]], c[i])
  {
    assert DescendsAt(SpreadOf(owner, w), c, i);
    ForwardSends(w[owner[c[i].daddr]], c[i]);
  }

  /** Every pair of addresses that a relay can use. */
  ghost function AddressPairs(w: Wiring): set<(U32, U32)> {
    set x, k, i | x in w && 0 <= k < |w[x]| && 0 <= i < |w[x][k].nbrs| :: (w[x][k].ip, w[x][k].nbrs[i].ip)
  }

  lemma DeliverMeaning(owner: Owner, net: Net, net': Net, p: Packet)
    requires Deliver(owner, net, net', p)
    ensures WiringOf(net') == WiringOf(net)
    ensures net'.flight == net.flight - multiset{p} + multiset(Offspring(owner, WiringOf(net), p))
  {
  }

  lemma DeliverKeepsShort(owner: Owner, net: Net, net': Net, p: Packet)
    requires Deliver(owner, net, net', p) && AllShort(net)
    ensures AllShort(net')
  {
    DeliverMeaning(owner, net, net', p);
    forall q | q in net'.flight ensures |q.lsu.adv| <= MAX_ADV {
      if q in Offspring(owner, WiringOf(net), p) {
        OffspringKeepsUpdate(owner, WiringOf(net), p, q);
      }
    }
  }

  lemma Deliverable(owner: Owner, net: Net, p: Packet)
    requires Inv(owner, net) && AllShort(net) && p in net.flight
    ensures p.daddr in owner && owner[p.daddr] in net.routers && Deliver(owner, net, Delivered(owner, net, p), p)
  {
    assert PacketOk(owner, net, p);
  }

  /** Deliveries can follow any chain of relays to its end. */
  lemma {:induction false} FollowChain(owner: Owner, net: Net, c: seq<Packet>) returns (nets: seq<Net>)
    requires Inv(owner, net) && AllShort(net) && Descent(SpreadOf(owner, WiringOf(net)), c) && c[0] in net.flight
    ensures RunOfLength(owner, net, nets, |c|)
    decreases |c|
  {
    var p := c[0];
    Deliverable(owner, net, p);
    var net' := Delivered(owner, net, p);
    var rest := [net'];
    if |c| > 1 {
      DeliverMeaning(owner, net, net', p);
      DeliverKeepsShort(owner, net, net', p);
      DeliverKeepsInv(owner, net, net', p);
      assert DescendsAt(SpreadOf(owner, WiringOf(net)), c, 0);
      assert c[1] in multiset(Offspring(owner, WiringOf(net), p));
      TailChain(SpreadOf(owner, WiringOf(net)), c);
      rest := FollowChain(owner, net', c[1..]);
    }
    nets := [net] + rest;
    RunCons(owner, net, rest, p);
  }

  lemma RunCons(owner: Owner, net: Net, rest: seq<Net>, p: Packet)
    requires DeliveryRun(owner, rest) && Deliver(owner, net, rest[0], p)
    ensures DeliveryRun(owner, [net] + rest)
  {
    var nets := [net] + rest;
    forall i | 0 <= i < |nets| - 1 ensures DeliveredAt(owner, nets, i) {
      assert i > 0 ==> DeliveredAt(owner, rest, i - 1);
    }
  }

  // ---- without one, flooding dies out

  ghost predicate AllBounded(owner: Owner, net: Net, k: nat) {
    forall p | p in net.flight :: Bounded(SpreadOf(owner, WiringOf(net)), p, k)
  }

  /** A delivery takes exactly one off the total. */
  lemma DeliverTakesOne(owner: Owner, net: Net, net': Net, p: Packet, k: nat)
    requires Deliver(owner, net, net', p) && AllBounded(owner, net, k)
    ensures WiringOf(net') == WiringOf(net)
    ensures var next := SpreadOf(owner, WiringOf(net));
      Total(next, net'.flight, k) + 1 == Total(next, net.flight, k)
  {
    DeliverMeaning(owner, net, net', p);
    TotalAfter(SpreadOf(owner, WiringOf(net)), net.flight, p, k);
  }

  lemma DeliverKeepsBounded(owner: Owner, net: Net, net': Net, p: Packet, k: nat)
    requires Deliver(owner, net, net', p) && AllBounded(owner, net, k)
    ensures AllBounded(owner, net', k)
  {
    var next := SpreadOf(owner, WiringOf(net));
    DeliverMeaning(owner, net, net', p);
    BoundedIsPositive(next, p, k);
    AllOffspringBounded(next, p, k - 1);
    forall q | q in net'.flight ensures Bounded(next, q, k) {
      assert q in net.flight || q in next(p);
    }
  }

  lemma {:induction false} RunIsBounded(owner: Owner, nets: seq<Net>, k: nat)
    requires DeliveryRun(owner, nets) && AllBounded(owner, nets[0], k)
    ensures |nets| - 1 <= Total(SpreadOf(owner, WiringOf(nets[0])), nets[0].flight, k)
    decreases |nets|
  {
    if |nets| > 1 {
      assert DeliveredAt(owner, nets, 0);
      var p :| Deliver(owner, nets[0], nets[1], p);
      DeliverTakesOne(owner, nets[0], nets[1], p, k);
      DeliverKeepsBounded(owner, nets[0], nets[1], p, k);
      var tail := nets[1..];
      forall i | 0 <= i < |tail| - 1 ensures DeliveredAt(owner, tail, i) {
        assert DeliveredAt(owner, nets, i + 1);
      }
      RunIsBounded(owner, tail, k);
    }
  }

  // ---- long chains repeat a packet

  lemma {:induction false} ChainKeepsUpdate(owner: Owner, w: Wiring, c: seq<Packet>, i: nat)
    requires Descent(SpreadOf(owner, w), c) && i < |c|
    ensures c[i].lsu == c[0].lsu && (i > 0 ==> (c[i].saddr, c[i].daddr) in AddressPairs(w))
  {
    if i > 0 {
      ChainKeepsUpdate(owner, w, c, i - 1);
      assert DescendsAt(SpreadOf(owner, w), c, i - 1);
      OffspringKeepsUpdate(owner, w, c[i - 1], c[i]);
    }
  }

  /** Among more positions than values, two hold the same value. */
  lemma {:induction false} Pigeonhole(vs: seq<(U32, U32)>, s: set<(U32, U32)>) returns (i: nat, j: nat)
    requires |vs| > |s| && forall v | v in vs :: v in s
    ensures i < j < |vs| && vs[i] == vs[j]
    decreases |vs|
  {
    var front, v := vs[..|vs| - 1], vs[|vs| - 1];
    if v in front {
      i :| 0 <= i < |front| && front[i] == v;
      j := |front|;
    } else {
      i, j := Pigeonhole(front, s - {v});
    }
  }

  lemma LongChainCirculates(owner: Owner, net: Net, c: seq<Packet>)
    requires Descent(SpreadOf(owner, WiringOf(net)), c) && c[0] in net.flight && |c| > |AddressPairs(WiringOf(net))| + 1
    ensures Circulates(owner, net)
  {
    var w := WiringOf(net);
    var vs := seq(|c| - 1, i requires 0 <= i < |c| - 1 => (c[i + 1].saddr, c[i + 1].daddr));
    forall v | v in vs ensures v in AddressPairs(w) {
      var i :| 0 <= i < |vs| && vs[i] == v;
      ChainKeepsUpdate(owner, w, c, i + 1);
    }
    var i, j := Pigeonhole(vs, AddressPairs(w));
    ChainKeepsUpdate(owner, w, c, i + 1);
    ChainKeepsUpdate(owner, w, c, j + 1);
    var d := c[..j + 2];
    forall k | 0 <= k < |d| - 1 ensures DescendsAt(SpreadOf(owner, w), d, k) {
      assert DescendsAt(SpreadOf(owner, w), c, k);
    }
    assert Lasso(owner, net, d, i + 1);
  }

  lemma LongChain(owner: Owner, net: Net, n: nat) returns (d: seq<Packet>)
    requires Circulates(owner, net)
    ensures Descent(SpreadOf(owner, WiringOf(net)), d) && d[0] in net.flight && |d| == n + 1
  {
    var c, i: nat :| Lasso(owner, net, c, i);
    var at;
    d, at := Unroll(SpreadOf(owner, WiringOf(net)), c, i, n);
  }

  lemma CirculatingNeverRests(owner: Owner, net: Net, n: nat)
    requires Inv(owner, net) && AllShort(net) && Circulates(owner, net)
    ensures CanRun(owner, net, n)
  {
    var nets := [net];
    if n > 0 {
      var d := LongChain(owner, net, n - 1);
      nets := FollowChain(owner, net, d);
    }
    assert RunOfLength(owner, net, nets, n);
  }

  lemma NotCirculatingIsBounded(owner: Owner, net: Net)
    requires !Circulates(owner, net)
    ensures AllBounded(owner, net, |AddressPairs(WiringOf(net))| + 1)
  {
    var k := |AddressPairs(WiringOf(net))| + 1;
    forall p | p in net.flight ensures Bounded(SpreadOf(owner, WiringOf(net)), p, k) {
      forall c | ChainFrom(SpreadOf(owner, WiringOf(net)), p, c) ensures |c| <= k {
        if |c| > k {
          LongChainCirculates(owner, net, c);
        }
      }
    }
  }

  // ---- no order of deliveries ends a cycle, and every order ends without one

  /** A lasso whose first packet was delivered, one packet further. */
  lemma LassoMoves(owner: Owner, net: Net, net': Net, c: seq<Packet>, i: nat) returns (d: seq<Packet>, j: nat)
    requires Lasso(owner, net, c, i) && Deliver(owner, net, net', c[0])
    ensures Lasso(owner, net', d, j)
  {
    DeliverMeaning(owner, net, net', c[0]);
    hide Deliver, Descent;
    d, j := PullIn(SpreadOf(owner, WiringOf(net)), c, i);
    assert d[0] in multiset(Offspring(owner, WiringOf(net), c[0]));
  }

  lemma DeliverKeepsCirculating(owner: Owner, net: Net, net': Net, p: Packet)
    requires Deliver(owner, net, net', p) && Circulates(owner, net)
    ensures Circulates(owner, net')
  {
    var c, i: nat :| Lasso(owner, net, c, i);
    if c[0] == p {
      var d, j := LassoMoves(owner, net, net', c, i);
    } else {
      DeliverMeaning(owner, net, net', p);
      assert Lasso(owner, net', c, i);
    }
  }

  /** However deliveries go on, something is in flight. */
  ghost predicate AlwaysInFlight(owner: Owner, net: Net) {
    forall nets: seq<Net> | DeliveryRun(owner, nets) && nets[0] == net :: nets[|nets| - 1].flight != multiset{}
  }

  lemma {:induction false} RunKeepsCirculating(owner: Owner, nets: seq<Net>)
    requires DeliveryRun(owner, nets) && Circulates(owner, nets[0])
    ensures Circulates(owner, nets[|nets| - 1])
  {
    hide Circulates, Deliver;
    if |nets| > 1 {
      var front := nets[..|nets| - 1];
      assert DeliveredAt(owner, nets, |nets| - 2);
      forall i | 0 <= i < |front| - 1 ensures DeliveredAt(owner, front, i) {
        assert DeliveredAt(owner, nets, i);
      }
      RunKeepsCirculating(owner, front);
      var p :| Deliver(owner, nets[|nets| - 2], nets[|nets| - 1], p);
      DeliverKeepsCirculating(owner, nets[|nets| - 2], nets[|nets| - 1], p);
    }
  }

  lemma CirculatingIsInFlight(owner: Owner, net: Net)
    requires Circulates(owner, net)
    ensures AlwaysInFlight(owner, net)
  {
    forall nets: seq<Net> | DeliveryRun(owner, nets) && nets[0] == net ensures nets[|nets| - 1].flight != multiset{} {
      RunKeepsCirculating(owner, nets);
      var c, i: nat :| Lasso(owner, nets[|nets| - 1], c, i);
      assert c[0] in nets[|nets| - 1].flight;
    }
  }

  /** Where chains are bounded, delivering whatever is left empties the flight. */
  lemma {:induction false} Drain(owner: Owner, net: Net, k: nat) returns (nets: seq<Net>)
    requires Inv(owner, net) && AllShort(net) && AllBounded(owner, net, k)
    ensures DeliveryRun(owner, nets) && nets[0] == net && nets[|nets| - 1].flight == multiset{}
    decreases Total(SpreadOf(owner, WiringOf(net)), net.flight, k)
  {
    if net.flight == multiset{} {
      nets := [net];
    } else {
      var p :| p in net.flight;
      Deliverable(owner, net, p);
      var net' := Delivered(owner, net, p);
      DeliverTakesOne(owner, net, net', p, k);
      DeliverKeepsBounded(owner, net, net', p, k);
      DeliverKeepsShort(owner, net, net', p);
      DeliverKeepsInv(owner, net, net', p);
      var rest := Drain(owner, net', k);
      RunCons(owner, net, rest, p);
      nets := [net] + rest;
    }
  }

  lemma NotCirculatingRests(owner: Owner, net: Net)
    requires Inv(owner, net) && AllShort(net) && !Circulates(owner, net)
    ensures !NeverRests(owner, net) && !AlwaysInFlight(owner, net)
  {
    NotCirculatingIsBounded(owner, net);
    var k := |AddressPairs(WiringOf(net))| + 1;
    var n := Total(SpreadOf(owner, WiringOf(net)), net.flight, k) + 1;
    if CanRun(owner, net, n) {
      var nets :| RunOfLength(owner, net, nets, n);
      RunIsBounded(owner, nets, k);
    }
    var drained := Drain(owner, net, k);
  }

  /** Main result: from a reachable state, if some packet in flight leads into a cycle of relays, then
      deliveries can go on for ever and no order of them ever empties the flight; otherwise no order of them goes
      beyond a fixed number, and they can end with nothing left. */
  lemma FloodingNeverRestsIff(owner: Owner, net: Net)
    requires Inv(owner, net) && AllShort(net)
    ensures NeverRests(owner, net) <==> Circulates(owner, net)
    ensures AlwaysInFlight(owner, net) <==> Circulates(owner, net)
  {
    if Circulates(owner, net) {
      CirculatingIsInFlight(owner, net);
      forall n: nat ensures CanRun(owner, net, n) {
        CirculatingNeverRests(owner, net, n);
      }
    } else {
      NotCirculatingRests(owner, net);
    }
  }

  // ---- an instance

  /** Router x, whose address is its number, hears router y. */
  ghost predicate Hears(owner: Owner, net: Net, x: U32, y: U32) {
    x in owner && owner[x] == x && x in net.routers && HasNeighbour(net.routers[x].ifaces, x, y)
  }

  lemma TriangleCirculates(owner: Owner, net: Net, lsu: Lsu)
    requires lsu.rid == 1 && Packet(1, 2, lsu) in net.flight
    requires Hears(owner, net, 2, 3) && Hears(owner, net, 3, 4) && Hears(owner, net, 4, 2)
    ensures Circulates(owner, net)
  {
    var c := [Packet(1, 2, lsu), Packet(2, 3, lsu), Packet(3, 4, lsu), Packet(4, 2, lsu), Packet(2, 3, lsu)];
    forall i | 0 <= i < |c| - 1 ensures DescendsAt(SpreadOf(owner, WiringOf(net)), c, i) {
      RelaysAlong(owner, net, c[i], c[i].daddr, c[i + 1].daddr);
    }
    assert Lasso(owner, net, c, 1);
  }

  /** Three routers that hear each other in a ring, beside the originator 1: an update that has reached
      one of them goes round among them for ever. */
  lemma TriangleNeverRests(owner: Owner, net: Net, lsu: Lsu)
    requires Inv(owner, net) && AllShort(net) && lsu.rid == 1 && Packet(1, 2, lsu) in net.flight
    requires Hears(owner, net, 2, 3) && Hears(owner, net, 3, 4) && Hears(owner, net, 4, 2)
    ensures NeverRests(owner, net) && AlwaysInFlight(owner, net)
  {
    TriangleCirculates(owner, net, lsu);
    FloodingNeverRestsIff(owner, net);
  }

  /** Address ip faces the router of this number and address. */
  ghost predicate HasNeighbour(ifaces: seq<Iface>, ip: U32, y: U32) {
    exists k, i :: Slot(ifaces, k, i) && ifaces[k].ip == ip && ifaces[k].nbrs[i].ip == ifaces[k].nbrs[i].id == y
  }

  lemma RelaysAlong(owner: Owner, net: Net, p: Packet, x: U32, y: U32)
    requires p.daddr == x && Hears(owner, net, x, y) && y != p.saddr && y != p.lsu.rid
    ensures Packet(x, y, p.lsu) in Offspring(owner, WiringOf(net), p)
  {
    var ifs := net.routers[x].ifaces;
    var k, i :| Slot(ifs, k, i) && ifs[k].ip == x && ifs[k].nbrs[i].ip == ifs[k].nbrs[i].id == y;
    var q := SlotIsServed(ifs, p, k, i);
  }
}
