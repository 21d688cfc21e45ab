/** Routers on a line: since no relay goes straight back, an update only moves on, and flooding comes to
    rest; with a run of three routers in which it does. */
module LineNetwork {
  import opened Common
  import opened LinkState
  import opened Flooding
  import opened Spreading
  import opened FloodingRest
  import opened Advertising
  import opened SmallNetworks

  // ---- any number of routers

  /** Every router's address is its number, and it hears at most the next lower and the next higher one. */
  ghost predicate OnLine(owner: Owner, w: Wiring) {
    && (forall a | a in owner :: owner[a] == a)
    && forall x, k, i | x in w && Slot(w[x], k, i) :: LineSlot(x, w[x], k, i)
  }

  ghost predicate LineSlot(x: U32, ifaces: seq<Iface>, k: int, i: int)
    requires Slot(ifaces, k, i)
  {
    ifaces[k].ip == x && (ifaces[k].nbrs[i].ip == x + 1 || ifaces[k].nbrs[i].ip == x - 1)
  }

  /** Which way a packet goes. */
  ghost function Heading(p: Packet): int { p.daddr - p.saddr }

  lemma RelayGoesOn(owner: Owner, w: Wiring, c: seq<Packet>, i: nat)
    requires OnLine(owner, w) && Descent(SpreadOf(owner, w), c) && i + 1 < |c|
    ensures c[i + 1].saddr == c[i].daddr && (Heading(c[i + 1]) == 1 || Heading(c[i + 1]) == -1)
    ensures Heading(c[i]) == 1 || Heading(c[i]) == -1 ==> Heading(c[i + 1]) == Heading(c[i])
  {
    RelaysNeverReturn(owner, w, c, i);
    var x := owner[c[i].daddr];
    var k, j :| RelayTo(c[i + 1], w[x], c[i], k, j);
    assert LineSlot(x, w[x], k, j);
  }

  /** After the first relay every one goes the same way. */
  lemma {:induction false} ChainGoesOn(owner: Owner, w: Wiring, c: seq<Packet>, i: nat)
    requires OnLine(owner, w) && Descent(SpreadOf(owner, w), c) && 0 < i < |c|
    ensures Heading(c[i]) == Heading(c[1]) && (Heading(c[1]) == 1 || Heading(c[1]) == -1)
    ensures c[i].daddr == c[1].daddr + (i - 1) * Heading(c[1])
  {
    RelayGoesOn(owner, w, c, i - 1);
    if i > 1 {
      ChainGoesOn(owner, w, c, i - 1);
      assert (i - 1) * Heading(c[1]) == (i - 2) * Heading(c[1]) + Heading(c[1]);
    }
  }

  lemma NoRepeat(owner: Owner, w: Wiring, c: seq<Packet>, i: nat)
    requires OnLine(owner, w) && Descent(SpreadOf(owner, w), c) && i < |c| - 1
    ensures c[i] != c[|c| - 1]
  {
    var last, h := |c| - 1, Heading(c[1]);
    ChainGoesOn(owner, w, c, last);
    if i > 0 {
      ChainGoesOn(owner, w, c, i);
      assert (last - 1) * h - (i - 1) * h == (last - i) * h;
    } else {
      RelayGoesOn(owner, w, c, 0);
      assert h + (last - 1) * h == last * h;
    }
  }

  /** On a line no order of deliveries goes on for ever, however long the line, and the flight empties. */
  lemma LineComesToRest(owner: Owner, net: Net)
    requires Inv(owner, net) && AllShort(net) && OnLine(owner, WiringOf(net))
    ensures !NeverRests(owner, net) && !AlwaysInFlight(owner, net)
  {
    if Circulates(owner, net) {
      var c, i: nat :| Lasso(owner, net, c, i);
      NoRepeat(owner, WiringOf(net), c, i);
    }
    FloodingNeverRestsIff(owner, net);
  }

  // ---- three routers

  const OWNER: Owner := map[1 := 1, 2 := 2, 3 := 3]

  /** Whom each of the three has heard, in order. */
  type Hearsay = map<U32, seq<U32>>

  function Nbrs(ys: seq<U32>): seq<Nbr> { seq(|ys|, i requires 0 <= i < |ys| => Neighbour(ys[i])) }

  /** Router x with one interface, after at most n Hellos. */
  ghost predicate Placed(r: Router, x: U32, ys: seq<U32>, n: nat) {
    r.ifaces == [Iface(x, 7, 255, Nbrs(ys))] && r.sequenceNum <= 2 * n && |ys| <= 2
  }

  ghost predicate Stage(net: Net, heard: Hearsay, n: nat) {
    && net.routers.Keys == heard.Keys == {1, 2, 3} && AllShort(net)
    && forall x | x in net.routers :: Placed(net.routers[x], x, heard[x], n)
  }

  function Start(): Net {
    Net(map[1 := Fresh(1), 2 := Fresh(2), 3 := Fresh(3)], multiset{}, map[1 := 0, 2 := 0, 3 := 0],
        map[1 := 0, 2 := 0, 3 := 0])
  }

  function Fresh(x: U32): Router { Router(x, 0, [Iface(x, 7, 255, [])], []) }

  lemma StartIsInitial()
    ensures Init(OWNER, Start())
  {
  }

  lemma StartIsFirstStage()
    ensures Stage(Start(), map[1 := [], 2 := [], 3 := []], 0)
  {
    var net, heard: Hearsay := Start(), map[1 := [], 2 := [], 3 := []];
    assert Nbrs([]) == [];
    forall x | x in net.routers ensures Placed(net.routers[x], x, heard[x], 0) {
      assert net.routers[x] == Fresh(x) && heard[x] == [];
    }
    assert net.routers.Keys == heard.Keys == {1, 2, 3};
  }

  lemma SmallDegree(r: Router)
    requires |r.ifaces| == 1 && r.ifaces[0].ip in {1, 2, 3}
    ensures Degree(r.ifaces) == |r.ifaces[0].nbrs| == |Advertisement(r.ifaces)|
  {
    AdvertisementCounts(r.ifaces);
    assert r.ifaces[..0] == [];
    assert LanSlots(r.ifaces) == {};
  }

  /** The Hello of y, which x has not heard before. */
  ghost function Told(net: Net, x: U32, y: U32): Net
    requires x in net.routers && |net.routers[x].ifaces| > 0
  {
    Emit(net, x, Greet(net.routers[x], 0, Neighbour(y)), SequenceNumbers(net))
  }

  lemma NbrsSnoc(ys: seq<U32>, y: U32)
    ensures Nbrs(ys) + [Neighbour(y)] == Nbrs(ys + [y])
    ensures y !in ys ==> !Heard(Nbrs(ys), y)
  {
  }

  lemma HearingIsCounted(r: Router, x: U32, ys: seq<U32>, n: nat)
    requires r.ifaces == [Iface(x, 7, 255, Nbrs(ys))] && r.sequenceNum <= 2 * n && |ys| <= 2
    requires n < 100 && x in {1, 2, 3}
    ensures NoWrap(r) && var (r', out) := Originate(r);
      Placed(r', x, ys, n + 1) && forall q | q in out :: |q.lsu.adv| <= 2
  {
    SmallDegree(r);
    AnnounceSends(r.ifaces, r.rid, r.sequenceNum, Advertisement(r.ifaces));
    hide Nbrs, Announce, Advertisement, Degree;
  }

  /** What the Hello makes of the router that hears it. */
  lemma HearingPlaces(r: Router, x: U32, ys: seq<U32>, y: U32, n: nat)
    requires Placed(r, x, ys, n) && n < 100 && x in {1, 2, 3} && y !in ys && |ys| <= 1
    ensures var (r', out) := Greet(r, 0, Neighbour(y));
      Placed(r', x, ys + [y], n + 1) && forall q | q in out :: |q.lsu.adv| <= 2
    ensures NoWrap(WithNbrs(r, 0, r.ifaces[0].nbrs + [Neighbour(y)])) && !Heard(r.ifaces[0].nbrs, y)
  {
    NbrsSnoc(ys, y);
    hide Nbrs, Originate, Heard, NoWrap;
    HearingIsCounted(WithNbrs(r, 0, r.ifaces[0].nbrs + [Neighbour(y)]), x, ys + [y], n);
  }

  lemma HearingIsStep(owner: Owner, net: Net, x: U32, y: U32)
    requires OwnAddress(owner, net, y) && x in net.routers && x != y
    requires var r := net.routers[x];
      |r.ifaces| > 0 && !Heard(r.ifaces[0].nbrs, y) && NoWrap(WithNbrs(r, 0, r.ifaces[0].nbrs + [Neighbour(y)]))
    ensures Next(owner, net, Told(net, x, y))
  {
    hide Greet, NoWrap, Emit, WithNbrs, SequenceNumbers, Heard;
    assert Hello(owner, net, Told(net, x, y), x, 0, Neighbour(y));
  }

  ghost predicate Meets(heard: Hearsay, n: nat, x: U32, y: U32) {
    n < 100 && x in heard && y in heard && x != y && y !in heard[x] && |heard[x]| <= 1
  }

  lemma FlightStaysShort(net: Net, x: U32, step: (Router, seq<Packet>), base: map<U32, int>)
    requires x in net.routers && AllShort(net) && forall q | q in step.1 :: |q.lsu.adv| <= 2
    ensures AllShort(Emit(net, x, step, base))
  {
    forall q | q in net.flight + multiset(step.1) ensures |q.lsu.adv| <= MAX_ADV {
      assert q in net.flight || q in step.1;
    }
  }

  lemma PlacedLater(r: Router, x: U32, ys: seq<U32>, n: nat)
    requires Placed(r, x, ys, n)
    ensures Placed(r, x, ys, n + 1)
  {
  }

  lemma HearingAdvances(net: Net, heard: Hearsay, n: nat, x: U32, y: U32)
    requires Stage(net, heard, n) && Meets(heard, n, x, y) && |net.routers[x].ifaces| > 0
    ensures Stage(Told(net, x, y), heard[x := heard[x] + [y]], n + 1)
  {
    hide Placed, Greet, SequenceNumbers, AllShort;
    assert Placed(net.routers[x], x, heard[x], n);
    HearingPlaces(net.routers[x], x, heard[x], y, n);
    FlightStaysShort(net, x, Greet(net.routers[x], 0, Neighbour(y)), SequenceNumbers(net));
    forall z | z in net.routers && z != x ensures Placed(net.routers[z], z, heard[z], n + 1) {
      PlacedLater(net.routers[z], z, heard[z], n);
    }
  }

  lemma MeetingIsStep(net: Net, heard: Hearsay, n: nat, x: U32, y: U32)
    requires Stage(net, heard, n) && Meets(heard, n, x, y)
    ensures |net.routers[x].ifaces| > 0 && Next(OWNER, net, Told(net, x, y))
  {
    assert Placed(net.routers[x], x, heard[x], n);
    HearingPlaces(net.routers[x], x, heard[x], y, n);
    hide Next, Greet, NoWrap, WithNbrs, Heard, AllShort, Told;
    HearingIsStep(OWNER, net, x, y);
  }

  lemma OneMeets(nets: seq<Net>, net: Net, heard: Hearsay, n: nat, x: U32, y: U32, heard': Hearsay)
    returns (more: seq<Net>, net': Net)
    requires LeadsTo(OWNER, nets, net) && Stage(net, heard, n)
    requires Meets(heard, n, x, y) && heard' == heard[x := heard[x] + [y]]
    ensures LeadsTo(OWNER, more, net') && Stage(net', heard', n + 1)
  {
    MeetingIsStep(net, heard, n, x, y);
    HearingAdvances(net, heard, n, x, y);
    net' := Told(net, x, y);
    hide LeadsTo, Stage, Next, Told;
    more := OneMore(OWNER, nets, net, net');
  }

  /** The line 1 - 2 - 3 after everyone has heard its neighbours. */
  const FULL: Hearsay := map[1 := [2], 2 := [1, 3], 3 := [2]]

  lemma AllMeet() returns (nets: seq<Net>, net: Net)
    ensures LeadsTo(OWNER, nets, net) && Stage(net, FULL, 4)
  {
    StartIsInitial();
    StartIsFirstStage();
    nets, net := [Start()], Start();
    hide Stage, Start, Init;
    assert LeadsTo(OWNER, nets, net);
    hide LeadsTo;
    var h1: Hearsay, h2: Hearsay := map[1 := [2], 2 := [], 3 := []], map[1 := [2], 2 := [1], 3 := []];
    var h3: Hearsay := map[1 := [2], 2 := [1, 3], 3 := []];
    assert [] + [2] == [2] && [] + [1] == [1] && [1] + [3] == [1, 3];
    nets, net := OneMeets(nets, net, map[1 := [], 2 := [], 3 := []], 0, 1, 2, h1);
    nets, net := OneMeets(nets, net, h1, 1, 2, 1, h2);
    nets, net := OneMeets(nets, net, h2, 2, 2, 3, h3);
    nets, net := OneMeets(nets, net, h3, 3, 3, 2, FULL);
  }

  lemma FullIsOnLine(net: Net)
    requires Stage(net, FULL, 4)
    ensures OnLine(OWNER, WiringOf(net))
  {
    var w := WiringOf(net);
    forall x, k, i | x in w && Slot(w[x], k, i) ensures LineSlot(x, w[x], k, i) {
      assert Placed(net.routers[x], x, FULL[x], 4);
    }
  }

  lemma DeliveriesExtend(owner: Owner, nets: seq<Net>, more: seq<Net>)
    requires Run(owner, nets) && DeliveryRun(owner, more) && more[0] == nets[|nets| - 1]
    ensures Run(owner, nets + more[1..])
  {
    hide Next, Init, Deliver;
    var all := nets + more[1..];
    forall i | 0 <= i < |all| - 1 ensures Next(owner, all[i], all[i + 1]) {
      if i < |nets| - 1 {
        assert Next(owner, nets[i], nets[i + 1]);
      } else {
        assert DeliveredAt(owner, more, i - |nets| + 1);
        DeliveryIsStep(owner, all[i], all[i + 1]);
      }
    }
  }

  lemma DeliveryIsStep(owner: Owner, net: Net, net': Net)
    requires Delivers(owner, net, net')
    ensures Next(owner, net, net')
  {
  }

  /** Four Hellos on a line of three routers, and all deliveries: whatever their order they come to an end,
      and here nothing is left in flight. */
  lemma ThreeOnALineComeToRest() returns (nets: seq<Net>, net: Net)
    ensures Run(OWNER, nets) && nets[|nets| - 1].flight == multiset{}
    ensures net in nets && Stage(net, FULL, 4) && !NeverRests(OWNER, net)
  {
    nets, net := AllMeet();
    RunKeepsInv(OWNER, nets);
    FullIsOnLine(net);
    LineComesToRest(OWNER, net);
    hide Stage, OnLine, NeverRests, Inv;
    var more: seq<Net> :| DeliveryRun(OWNER, more) && more[0] == net && more[|more| - 1].flight == multiset{};
    DeliveriesExtend(OWNER, nets, more);
    nets := nets + more[1..];
  }
}
