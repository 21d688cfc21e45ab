/** A run that never comes to rest: three routers that hear each other in a ring, and a fourth one that
    has told one of them about itself. */
module RingNetwork {
  import opened Common
  import opened Flooding
  import opened FloodingRest
  import opened SmallNetworks

  const OWNER: Owner := map[1 := 1, 2 := 2, 3 := 3, 4 := 4]

  /** Whom each router hears: 2, 3 and 4 in a ring, and 1 hears 2. */
  function Heeded(x: U32): U32 { if x == 2 then 3 else if x == 3 then 4 else 2 }

  /** The routers in `met` have heard their neighbours once, and nothing was delivered yet. */
  ghost predicate Stage(net: Net, met: set<U32>) {
    && net.routers.Keys == {1, 2, 3, 4}
    && (forall x | x in net.routers ::
         net.routers[x] == At(x, Heeded(x), if x in met then 1 else 0, x in met, []))
    && (forall x | x in met :: Copy(x, Heeded(x), 1) in net.flight)
    && (forall p | p in net.flight :: |p.lsu.adv| == 1)
  }

  function Start(): Net {
    Net(map[1 := At(1, 2, 0, false, []), 2 := At(2, 3, 0, false, []),
            3 := At(3, 4, 0, false, []), 4 := At(4, 2, 0, false, [])],
        multiset{}, map[1 := 0, 2 := 0, 3 := 0, 4 := 0], map[1 := 0, 2 := 0, 3 := 0, 4 := 0])
  }

  lemma StartIsInitial()
    ensures Init(OWNER, Start())
  {
  }

  lemma StartIsFirstStage()
    ensures Stage(Start(), {})
  {
  }

  lemma AtStart() returns (nets: seq<Net>)
    ensures LeadsTo(OWNER, nets, Start())
  {
    hide Init, Start;
    StartIsInitial();
    nets := [Start()];
  }

  lemma MeetingAdvances(net: Net, met: set<U32>, x: U32)
    requires Stage(net, met) && x in net.routers && x !in met
    ensures Stage(Met(net, x, Heeded(x), 0), met + {x})
  {
  }

  lemma OneMeets(nets: seq<Net>, net: Net, met: set<U32>, x: U32) returns (more: seq<Net>, net': Net)
    requires LeadsTo(OWNER, nets, net) && Stage(net, met) && x in {1, 2, 3, 4} && x !in met
    ensures LeadsTo(OWNER, more, net') && Stage(net', met + {x})
  {
    hide LeadsTo, Next;
    net' := Met(net, x, Heeded(x), 0);
    Hearing(OWNER, net, x, Heeded(x), 0);
    more := OneMore(OWNER, nets, net, net');
    MeetingAdvances(net, met, x);
  }

  lemma AllMeet() returns (nets: seq<Net>, net: Net)
    ensures LeadsTo(OWNER, nets, net) && Stage(net, {2, 3, 4, 1})
  {
    hide LeadsTo, Stage, Start;
    nets := AtStart();
    StartIsFirstStage();
    nets, net := OneMeets(nets, Start(), {}, 2);
    nets, net := OneMeets(nets, net, {} + {2}, 3);
    nets, net := OneMeets(nets, net, {} + {2} + {3}, 4);
    nets, net := OneMeets(nets, net, {} + {2} + {3} + {4}, 1);
    assert {} + {2} + {3} + {4} + {1} == {2, 3, 4, 1};
  }

  lemma RouterHears(net: Net, met: set<U32>, x: U32)
    requires Stage(net, met) && x in {2, 3, 4} && x in met
    ensures Hears(OWNER, net, x, Heeded(x))
  {
    assert Slot(net.routers[x].ifaces, 0, 0);
  }

  /** Four Hellos suffice: from there on deliveries can go on for ever, and no order of them ends. */
  lemma RingNeverRests() returns (nets: seq<Net>)
    ensures Run(OWNER, nets) && NeverRests(OWNER, nets[|nets| - 1]) && AlwaysInFlight(OWNER, nets[|nets| - 1])
  {
    var net;
    nets, net := AllMeet();
    hide Run, Inv, NeverRests, AlwaysInFlight;
    RunKeepsInv(OWNER, nets);
    RouterHears(net, {2, 3, 4, 1}, 2);
    RouterHears(net, {2, 3, 4, 1}, 3);
    RouterHears(net, {2, 3, 4, 1}, 4);
    hide Hears;
    TriangleNeverRests(OWNER, net, Update(1, 2, 1));
  }
}
