/** Routers with one interface, whose address is their number, and one neighbour there: the steps that
    the concrete runs are made of. */
module SmallNetworks {
  import opened Common
  import opened LinkState
  import opened Flooding

  function Neighbour(y: U32): Nbr { Nbr(y, y, 7, 255) }

  /** The interface of router x, before or after it has heard y. */
  function Face(x: U32, y: U32, heard: bool): Iface { Iface(x, 7, 255, if heard then [Neighbour(y)] else []) }

  function Update(x: U32, y: U32, s: U16): Lsu { Lsu(x, s, [Lsa(7, 255, y)]) }

  /** What x sends to y about their link. */
  function Copy(x: U32, y: U32, s: U16): Packet { Packet(x, y, Update(x, y, s)) }

  function At(x: U32, y: U32, s: U16, heard: bool, db: seq<Lsu>): Router { Router(x, s, [Face(x, y, heard)], db) }

  /** No number is the address that marks a host network. */
  ghost predicate Small(x: U32) { x < 100 }

  lemma Origination(x: U32, y: U32, s: U16, db: seq<Lsu>)
    requires Small(x) && s < 0xffff
    ensures Originate(At(x, y, s, true, db)) == (At(x, y, s + 1, true, db), [Copy(x, y, s + 1)])
    ensures Degree([Face(x, y, true)]) == 1 && Advertisement([Face(x, y, true)]) == [Lsa(7, 255, y)]
  {
    var f, m := Face(x, y, true), Neighbour(y);
    assert [f][..0] == [] && [m][..0] == [];
    assert NbrAdv([m]) == [Lsa(7, 255, y)];
    assert Advertisement([f]) == NbrAdv([m]);
    assert AnnounceOn(x, [m], x, s, [Lsa(7, 255, y)]) == [Copy(x, y, s + 1)];
    assert Announce([f], x, s, [Lsa(7, 255, y)]) == [Copy(x, y, s + 1)];
  }

  /** What the only neighbour originated is stored, and goes nowhere. */
  lemma Arrival(x: U32, y: U32, s: U16, db: seq<Lsu>, t: U16)
    ensures Receive(At(x, y, s, true, db), Copy(y, x, t)) == (At(x, y, s, true, Absorb(db, Update(y, x, t))), [])
  {
    var m, p := Neighbour(y), Copy(y, x, t);
    assert [Face(x, y, true)][..0] == [] && [m][..0] == [];
    assert ForwardOn(x, [m], p) == [];
    assert Forward([Face(x, y, true)], p) == [];
  }

  lemma Greeting(x: U32, y: U32, s: U16)
    requires Small(x) && s < 0xffff
    ensures Greet(At(x, y, s, false, []), 0, Neighbour(y)) == (At(x, y, s + 1, true, []), [Copy(x, y, s + 1)])
    ensures WithNbrs(At(x, y, s, false, []), 0, [] + [Neighbour(y)]) == At(x, y, s, true, [])
  {
    Origination(x, y, s, []);
    assert [] + [Neighbour(y)] == [Neighbour(y)];
    assert [Face(x, y, false)][0 := Face(x, y, true)] == [Face(x, y, true)];
  }

  ghost predicate OwnAddress(owner: Owner, net: Net, y: U32) { y in owner && owner[y] == y && y in net.routers }

  /** x has heard its neighbour y for the first time. */
  ghost function Met(net: Net, x: U32, y: U32, s: U16): Net
    requires s < 0xffff
  {
    Net(net.routers[x := At(x, y, s + 1, true, [])], net.flight + multiset{Copy(x, y, s + 1)},
        net.batch[x := s as int], SequenceNumbers(net))
  }

  lemma Hearing(owner: Owner, net: Net, x: U32, y: U32, s: U16)
    requires Small(x) && x != y && OwnAddress(owner, net, y) && s < 0xffff
    requires x in net.routers && net.routers[x] == At(x, y, s, false, [])
    ensures Next(owner, net, Met(net, x, y, s))
  {
    Origination(x, y, s, []);
    Greeting(x, y, s);
    assert net.flight + multiset{Copy(x, y, s + 1)} == net.flight + multiset([Copy(x, y, s + 1)]);
    assert Hello(owner, net, Met(net, x, y, s), x, 0, Neighbour(y));
  }

  ghost function Repeated(net: Net, x: U32, y: U32, s: U16): Net
    requires s < 0xffff
  {
    Net(net.routers[x := At(x, y, s + 1, true, [])], net.flight + multiset{Copy(x, y, s + 1)},
        net.batch[x := s as int], net.base)
  }

  lemma Repeating(owner: Owner, net: Net, x: U32, y: U32, s: U16)
    requires Small(x) && s < 0xffff && x in net.routers && net.routers[x] == At(x, y, s, true, [])
    ensures Next(owner, net, Repeated(net, x, y, s))
  {
    Origination(x, y, s, []);
    assert net.flight + multiset{Copy(x, y, s + 1)} == net.flight + multiset([Copy(x, y, s + 1)]);
    assert Periodic(net, Repeated(net, x, y, s), x);
  }

  ghost function Taken(net: Net, x: U32, y: U32, s: U16, db: seq<Lsu>, t: U16): Net {
    net.(routers := net.routers[x := At(x, y, s, true, db)], flight := net.flight - multiset{Copy(y, x, t)})
  }

  lemma Arriving(owner: Owner, net: Net, x: U32, y: U32, s: U16, db: seq<Lsu>, t: U16)
    requires OwnAddress(owner, net, x) && net.routers[x] == At(x, y, s, true, db) && Copy(y, x, t) in net.flight
    ensures Next(owner, net, Taken(net, x, y, s, Absorb(db, Update(y, x, t)), t))
  {
    Arrival(x, y, s, db, t);
    assert net.flight - multiset{Copy(y, x, t)} + multiset([]) == net.flight - multiset{Copy(y, x, t)};
    assert Deliver(owner, net, Taken(net, x, y, s, Absorb(db, Update(y, x, t)), t), Copy(y, x, t));
  }

  // ---- runs

  ghost predicate LeadsTo(owner: Owner, nets: seq<Net>, net: Net) { Run(owner, nets) && nets[|nets| - 1] == net }

  lemma OneMore(owner: Owner, nets: seq<Net>, net: Net, net': Net) returns (more: seq<Net>)
    requires LeadsTo(owner, nets, net) && Next(owner, net, net')
    ensures LeadsTo(owner, more, net')
  {
    hide Next, Init;
    more := nets + [net'];
    forall i | 0 <= i < |more| - 1 ensures Next(owner, more[i], more[i + 1]) {
      if i < |nets| - 1 {
        assert Next(owner, nets[i], nets[i + 1]);
      }
    }
  }
}
