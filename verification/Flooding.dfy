/** The flooding protocol as a state machine over all routers and the packets in flight.
    Links lose nothing but may reorder; neighbours come and go through Hellos and timeouts. */
module Flooding {
  import opened Common
  import opened LinkState

  /** `batch` and `base` are history: the sequence number each router had when it last originated,
      and the one it had when any router's neighbours last changed. */
  datatype Net = Net(routers: map<U32, Router>, flight: multiset<Packet>, batch: map<U32, int>, base: map<U32, int>)

  /** Who owns an interface address. */
  type Owner = map<U32, U32>

  // ---- steps

  ghost predicate Init(owner: Owner, net: Net) {
    && net.flight == multiset{} && net.batch.Keys == net.base.Keys == net.routers.Keys
    && (forall x | x in net.routers ::
         && net.routers[x].rid == x && net.routers[x].sequenceNum == 0 && net.routers[x].db == []
         && net.batch[x] == net.base[x] == 0
         && forall f | f in net.routers[x].ifaces :: f.ip in owner && owner[f.ip] == x && f.nbrs == [])
  }

  ghost function SequenceNumbers(net: Net): map<U32, int> {
    map x | x in net.routers :: net.routers[x].sequenceNum as int
  }

  /** Router x becomes `after` having sent `out`; its previous sequence number starts the new batch. */
  ghost function Emit(net: Net, x: U32, step: (Router, seq<Packet>), base: map<U32, int>): Net
    requires x in net.routers
  {
    Net(net.routers[x := step.0], net.flight + multiset(step.1), net.batch[x := net.routers[x].sequenceNum], base)
  }

  /** The 16-bit counter does not wrap during the origination by r. */
  ghost predicate NoWrap(r: Router) { r.sequenceNum + Degree(r.ifaces) < 0x1_0000 }

  ghost predicate Periodic(net: Net, net': Net, x: U32) {
    && x in net.routers && NoWrap(net.routers[x])
    && net' == Emit(net, x, Originate(net.routers[x]), net.base)
  }

  /** Router x hears on interface k the Hello of the router that owns address n.ip. */
  ghost predicate Hello(owner: Owner, net: Net, net': Net, x: U32, k: nat, n: Nbr) {
    && x in net.routers && k < |net.routers[x].ifaces|
    && n.ip in owner && owner[n.ip] == n.id && n.id in net.routers && n.id != x
    && if Heard(net.routers[x].ifaces[k].nbrs, n.ip) then net' == net
       else
         && NoWrap(WithNbrs(net.routers[x], k, net.routers[x].ifaces[k].nbrs + [n]))
         && net' == Emit(net, x, Greet(net.routers[x], k, n), SequenceNumbers(net))
  }

  ghost predicate Timeout(net: Net, net': Net, x: U32, k: nat, i: nat) {
    && x in net.routers && k < |net.routers[x].ifaces| && i < |net.routers[x].ifaces[k].nbrs|
    && NoWrap(WithNbrs(net.routers[x], k, net.routers[x].ifaces[k].nbrs[..i] + net.routers[x].ifaces[k].nbrs[i + 1..]))
    && net' == Emit(net, x, Expire(net.routers[x], k, i), SequenceNumbers(net))
  }

  ghost function WithNbrs(r: Router, k: nat, nbrs: seq<Nbr>): Router
    requires k < |r.ifaces|
  {
    r.(ifaces := r.ifaces[k := r.ifaces[k].(nbrs := nbrs)])
  }

  /** A delivery, where the update has room in the database. */
  ghost predicate Deliver(owner: Owner, net: Net, net': Net, p: Packet) {
    && p in net.flight && p.daddr in owner && owner[p.daddr] in net.routers
    && RoomFor(net.routers[owner[p.daddr]].db, p.lsu)
    && var x := owner[p.daddr];
       var step := Receive(net.routers[x], p);
       net' == net.(routers := net.routers[x := step.0], flight := net.flight - multiset{p} + multiset(step.1))
  }

  ghost predicate Next(owner: Owner, net: Net, net': Net) {
    || (exists x :: Periodic(net, net', x))
    || (exists x, k, n :: Hello(owner, net, net', x, k, n))
    || (exists x, k, i :: Timeout(net, net', x, k, i))
    || (exists p :: Deliver(owner, net, net', p))
  }

  ghost predicate Run(owner: Owner, nets: seq<Net>) {
    |nets| > 0 && Init(owner, nets[0]) && forall i | 0 <= i < |nets| - 1 :: Next(owner, nets[i], nets[i + 1])
  }

  // ---- the invariant

  ghost predicate Slot(ifaces: seq<Iface>, k: int, i: int) {
    0 <= k < |ifaces| && 0 <= i < |ifaces[k].nbrs|
  }

  ghost predicate Adjacent(r: Router, y: U32) {
    exists k, i :: Slot(r.ifaces, k, i) && r.ifaces[k].nbrs[i].id == y
  }

  ghost predicate IfacesOk(owner: Owner, net: Net, x: U32, ifaces: seq<Iface>) {
    && (forall k | 0 <= k < |ifaces| :: ifaces[k].ip in owner && owner[ifaces[k].ip] == x)
    && (forall k, i | Slot(ifaces, k, i) :: NbrOk(owner, net, x, ifaces[k].nbrs[i]))
  }

  ghost predicate NbrOk(owner: Owner, net: Net, x: U32, n: Nbr) {
    n.ip in owner && owner[n.ip] == n.id && n.id in net.routers && n.id != x
  }

  ghost predicate RouterOk(owner: Owner, net: Net, x: U32)
    requires x in net.routers
  {
    var r := net.routers[x];
    && r.rid == x && IfacesOk(owner, net, x, r.ifaces) && UniqueRids(r.db)
    && x in net.batch && x in net.base
    && 0 <= net.batch[x] && net.batch[x] + Degree(r.ifaces) == r.sequenceNum
    && net.base[x] <= r.sequenceNum
    && forall e | e in r.db :: e.rid != x && LsuOk(net, e)
  }

  /** An update in circulation was issued by its originator, and the latest ones carry what that
      router advertises now. */
  ghost predicate LsuOk(net: Net, u: Lsu) {
    && u.rid in net.routers && u.rid in net.batch && u.seqNo <= net.routers[u.rid].sequenceNum
    && (u.seqNo > net.batch[u.rid] ==> u.adv == Advertisement(net.routers[u.rid].ifaces))
  }

  ghost predicate Has(net: Net, x: U32, o: U32, s: int) {
    x in net.routers && Stored(net.routers[x].db, o).Some? && Stored(net.routers[x].db, o).value.seqNo >= s
  }

  ghost predicate PacketOk(owner: Owner, net: Net, p: Packet) {
    && p.saddr in owner && p.daddr in owner && owner[p.daddr] in net.routers
    && owner[p.daddr] != p.lsu.rid && LsuOk(net, p.lsu)
    && (owner[p.saddr] != p.lsu.rid ==> Has(net, owner[p.saddr], p.lsu.rid, p.lsu.seqNo))
  }

  ghost predicate Underway(owner: Owner, net: Net, y: U32, o: U32, s: int, p: Packet) {
    p in net.flight && p.daddr in owner && owner[p.daddr] == y && p.lsu.rid == o && p.lsu.seqNo >= s
  }

  /** Router y holds an update of o numbered s or later, or one is on its way. */
  ghost predicate Covered(owner: Owner, net: Net, y: U32, o: U32, s: int) {
    Has(net, y, o, s) || exists p :: Underway(owner, net, y, o, s, p)
  }

  /** Whatever x learned since the last neighbour change, its neighbour y has or will get. */
  ghost predicate Relayed(owner: Owner, net: Net, x: U32, y: U32, o: U32)
    requires x in net.routers && o in net.base
  {
    Adjacent(net.routers[x], y) && x != o && y != o ==>
      var e := Stored(net.routers[x].db, o);
      e.Some? && e.value.seqNo > net.base[o] ==> Covered(owner, net, y, o, e.value.seqNo)
  }

  ghost predicate FreshSince(net: Net, o: U32) {
    o in net.batch && o in net.base && net.batch[o] >= net.base[o]
  }

  /** A router that originated since the last neighbour change reaches its own neighbours. */
  ghost predicate Announced(owner: Owner, net: Net, o: U32, y: U32)
    requires o in net.routers
  {
    Adjacent(net.routers[o], y) && FreshSince(net, o) ==> Covered(owner, net, y, o, net.batch[o] + 1)
  }

  ghost predicate Inv(owner: Owner, net: Net) {
    && net.batch.Keys == net.base.Keys == net.routers.Keys
    && (forall x | x in net.routers :: RouterOk(owner, net, x))
    && (forall p | p in net.flight :: PacketOk(owner, net, p))
    && (forall x, y, o | x in net.routers && o in net.routers :: Relayed(owner, net, x, y, o))
    && (forall o, y | o in net.routers :: Announced(owner, net, o, y))
  }

  // ---- what an origination sends

  lemma {:induction false} DegreeZeroMeansAlone(ifaces: seq<Iface>)
    requires Degree(ifaces) == 0
    ensures forall k | 0 <= k < |ifaces| :: ifaces[k].nbrs == []
  {
    if ifaces != [] {
      DegreeZeroMeansAlone(ifaces[..|ifaces| - 1]);
    }
  }

  ghost predicate SentTo(p: Packet, ifaces: seq<Iface>, k: int, i: int) {
    Slot(ifaces, k, i) && p.saddr == ifaces[k].ip && p.daddr == ifaces[k].nbrs[i].ip
  }

  ghost predicate SentAs(p: Packet, ifaces: seq<Iface>, rid: U32, s: int, adv: seq<Lsa>) {
    && p.lsu.rid == rid && p.lsu.adv == adv && s < p.lsu.seqNo <= s + Degree(ifaces)
    && exists k, i :: SentTo(p, ifaces, k, i)
  }

  ghost predicate SentSome(out: seq<Packet>, ifaces: seq<Iface>, k: int, i: int) {
    exists p :: p in out && SentTo(p, ifaces, k, i)
  }

  lemma {:induction false} AnnounceOnSends(ip: U32, nbrs: seq<Nbr>, rid: U32, s: nat, adv: seq<Lsa>)
    requires s + |nbrs| < 0x1_0000
    ensures |AnnounceOn(ip, nbrs, rid, s, adv)| == |nbrs|
    ensures forall i | 0 <= i < |nbrs| ::
      AnnounceOn(ip, nbrs, rid, s, adv)[i] == Packet(ip, nbrs[i].ip, Lsu(rid, s + i + 1, adv))
  {
    if nbrs != [] {
      AnnounceOnSends(ip, nbrs[..|nbrs| - 1], rid, s, adv);
    }
  }

  /** An origination sends one update per neighbour and nothing else. */
  lemma {:induction false} AnnounceSends(ifaces: seq<Iface>, rid: U32, s: nat, adv: seq<Lsa>)
    requires s + Degree(ifaces) < 0x1_0000
    ensures forall p | p in Announce(ifaces, rid, s, adv) :: SentAs(p, ifaces, rid, s, adv)
    ensures forall k, i | Slot(ifaces, k, i) :: SentSome(Announce(ifaces, rid, s, adv), ifaces, k, i)
  {
    if ifaces != [] {
      var front, f := ifaces[..|ifaces| - 1], ifaces[|ifaces| - 1];
      var s' := s + Degree(front);
      AnnounceSends(front, rid, s, adv);
      AnnounceOnSends(f.ip, f.nbrs, rid, s', adv);
      var head, tail := Announce(front, rid, s, adv), AnnounceOn(f.ip, f.nbrs, rid, s', adv);
      assert Announce(ifaces, rid, s, adv) == head + tail;
      forall p | p in head + tail ensures SentAs(p, ifaces, rid, s, adv) {
        if p in head {
          assert SentAs(p, front, rid, s, adv);
          var k, i :| SentTo(p, front, k, i);
          assert SentTo(p, ifaces, k, i);
        } else {
          var i :| 0 <= i < |tail| && tail[i] == p;
          assert SentTo(p, ifaces, |front|, i);
        }
      }
      forall k, i | Slot(ifaces, k, i) ensures SentSome(head + tail, ifaces, k, i) {
        if k < |front| {
          assert Slot(front, k, i) && SentSome(head, front, k, i);
          var p :| p in head && SentTo(p, front, k, i);
          assert SentTo(p, ifaces, k, i);
        } else {
          assert tail[i] in head + tail && SentTo(tail[i], ifaces, k, i);
        }
      }
    }
  }

  // ---- what a relay sends

  /** q goes to the neighbour in this slot, which is neither where p came from nor its originator. */
  ghost predicate RelayTo(q: Packet, ifaces: seq<Iface>, p: Packet, k: int, i: int) {
    && Slot(ifaces, k, i) && ifaces[k].nbrs[i].ip != p.saddr && ifaces[k].nbrs[i].id != p.lsu.rid
    && q == Packet(ifaces[k].ip, ifaces[k].nbrs[i].ip, p.lsu)
  }

  ghost predicate Relays(q: Packet, ifaces: seq<Iface>, p: Packet) {
    exists k, i :: RelayTo(q, ifaces, p, k, i)
  }

  /** A relay sends to exactly the neighbours other than the one it came from and the originator. */
  lemma {:induction false} ForwardSends(ifaces: seq<Iface>, p: Packet)
    ensures forall q :: q in Forward(ifaces, p) <==> Relays(q, ifaces, p)
  {
    if ifaces != [] {
      var front, f := ifaces[..|ifaces| - 1], ifaces[|ifaces| - 1];
      ForwardSends(front, p);
      ForwardOnSends(f.ip, f.nbrs, p);
      forall q ensures q in Forward(ifaces, p) <==> Relays(q, ifaces, p) {
        RelaysSnoc(q, ifaces, p);
      }
    }
  }

  lemma SlotIsServed(ifaces: seq<Iface>, p: Packet, k: nat, i: nat) returns (q: Packet)
    requires Slot(ifaces, k, i) && ifaces[k].nbrs[i].ip != p.saddr && ifaces[k].nbrs[i].id != p.lsu.rid
    ensures q == Packet(ifaces[k].ip, ifaces[k].nbrs[i].ip, p.lsu) && q in Forward(ifaces, p)
  {
    q := Packet(ifaces[k].ip, ifaces[k].nbrs[i].ip, p.lsu);
    ForwardSends(ifaces, p);
    assert RelayTo(q, ifaces, p, k, i);
  }

  lemma RelaysSnoc(q: Packet, ifaces: seq<Iface>, p: Packet)
    requires ifaces != []
    ensures var f := ifaces[|ifaces| - 1];
      Relays(q, ifaces, p) <==> Relays(q, ifaces[..|ifaces| - 1], p) || RelaysOn(q, f.ip, f.nbrs, p)
  {
    var front, f := ifaces[..|ifaces| - 1], ifaces[|ifaces| - 1];
    if k, i :| RelayTo(q, front, p, k, i) {
      assert RelayTo(q, ifaces, p, k, i);
    }
    if i :| RelayOnTo(q, f.ip, f.nbrs, p, i) {
      assert RelayTo(q, ifaces, p, |front|, i);
    }
    if k, i :| RelayTo(q, ifaces, p, k, i) {
      if k < |front| {
        assert RelayTo(q, front, p, k, i);
      } else {
        assert RelayOnTo(q, f.ip, f.nbrs, p, i);
      }
    }
  }

  ghost predicate RelayOnTo(q: Packet, ip: U32, nbrs: seq<Nbr>, p: Packet, i: int) {
    0 <= i < |nbrs| && nbrs[i].ip != p.saddr && nbrs[i].id != p.lsu.rid && q == Packet(ip, nbrs[i].ip, p.lsu)
  }

  ghost predicate RelaysOn(q: Packet, ip: U32, nbrs: seq<Nbr>, p: Packet) { exists i :: RelayOnTo(q, ip, nbrs, p, i) }

  lemma {:induction false} ForwardOnSends(ip: U32, nbrs: seq<Nbr>, p: Packet)
    ensures forall q :: q in ForwardOn(ip, nbrs, p) <==> RelaysOn(q, ip, nbrs, p)
  {
    if nbrs != [] {
      var front := nbrs[..|nbrs| - 1];
      ForwardOnSends(ip, front, p);
      forall q ensures q in ForwardOn(ip, nbrs, p) <==> RelaysOn(q, ip, nbrs, p) {
        if i :| RelayOnTo(q, ip, front, p, i) {
          assert RelayOnTo(q, ip, nbrs, p, i);
        }
        if i :| RelayOnTo(q, ip, nbrs, p, i) {
          assert i < |front| ==> RelayOnTo(q, ip, front, p, i);
        }
        assert Eligible(nbrs[|front|], p) && q == Packet(ip, nbrs[|front|].ip, p.lsu) ==>
            RelayOnTo(q, ip, nbrs, p, |front|);
      }
    }
  }

  /** The slots that a relay of p sends to. */
  ghost function RelaySlots(ifaces: seq<Iface>, p: Packet): set<(nat, nat)> {
    set k: nat, i: nat | k < |ifaces| && i < |ifaces[k].nbrs|
      && ifaces[k].nbrs[i].ip != p.saddr && ifaces[k].nbrs[i].id != p.lsu.rid :: (k, i)
  }

  /** It sends one copy per slot. */
  lemma {:induction false} ForwardCounts(ifaces: seq<Iface>, p: Packet)
    ensures |Forward(ifaces, p)| == |RelaySlots(ifaces, p)|
  {
    if ifaces != [] {
      var front, k, f := ifaces[..|ifaces| - 1], |ifaces| - 1, ifaces[|ifaces| - 1];
      ForwardCounts(front, p);
      ForwardOnCounts(f.ip, f.nbrs, p, k);
      assert RelaySlots(ifaces, p) == RelaySlots(front, p) + SlotsOn(f.nbrs, p, k);
      assert RelaySlots(front, p) !! SlotsOn(f.nbrs, p, k);
    }
  }

  ghost function SlotsOn(nbrs: seq<Nbr>, p: Packet, k: nat): set<(nat, nat)> {
    set i: nat | i < |nbrs| && nbrs[i].ip != p.saddr && nbrs[i].id != p.lsu.rid :: (k, i)
  }

  lemma {:induction false} ForwardOnCounts(ip: U32, nbrs: seq<Nbr>, p: Packet, k: nat)
    ensures |ForwardOn(ip, nbrs, p)| == |SlotsOn(nbrs, p, k)|
  {
    if nbrs != [] {
      var front, i := nbrs[..|nbrs| - 1], |nbrs| - 1;
      ForwardOnCounts(ip, front, p, k);
      assert SlotsOn(nbrs, p, k) == SlotsOn(front, p, k) + if Eligible(nbrs[i], p) then {(k, i)} else {};
    }
  }

  // ---- every step keeps the invariant

  lemma InitHolds(owner: Owner, net: Net)
    requires Init(owner, net)
    ensures Inv(owner, net)
  {
    forall x | x in net.routers ensures RouterOk(owner, net, x) {
      NoNeighboursDegree(net.routers[x].ifaces);
    }
    hide RouterOk;
  }

  lemma {:induction false} NoNeighboursDegree(ifaces: seq<Iface>)
    requires forall f | f in ifaces :: f.nbrs == []
    ensures Degree(ifaces) == 0
  {
    if ifaces != [] {
      NoNeighboursDegree(ifaces[..|ifaces| - 1]);
    }
  }

  /** The router after it originated over these interfaces, without a wrap of its counter. */
  ghost function Grown(r: Router, ifaces: seq<Iface>): Router
    requires r.sequenceNum + Degree(ifaces) < 0x1_0000
  {
    Router(r.rid, r.sequenceNum + Degree(ifaces), ifaces, r.db)
  }

  /** An origination by x that sent `out`, after its interfaces became `ifaces`: either nothing
      changed, or the neighbour change restarts `base` everywhere. */
  ghost predicate Originates(owner: Owner, net: Net, net': Net, x: U32, ifaces: seq<Iface>, out: seq<Packet>) {
    && x in net.routers
    && IfacesOk(owner, net, x, ifaces) && net.routers[x].sequenceNum + Degree(ifaces) < 0x1_0000
    && net'.routers == net.routers[x := Grown(net.routers[x], ifaces)]
    && net'.flight == net.flight + multiset(out)
    && net'.batch == net.batch[x := net.routers[x].sequenceNum]
    && ((ifaces == net.routers[x].ifaces && net'.base == net.base) || net'.base == SequenceNumbers(net))
    && (forall p | p in out :: SentAs(p, ifaces, net.routers[x].rid, net.routers[x].sequenceNum, Advertisement(ifaces)))
    && (forall k, i {:trigger SentSome(out, ifaces, k, i)} | Slot(ifaces, k, i) :: SentSome(out, ifaces, k, i))
  }

  lemma OriginateKeepsLsu(owner: Owner, net: Net, net': Net, x: U32, ifaces: seq<Iface>, out: seq<Packet>, u: Lsu)
    requires Originates(owner, net, net', x, ifaces, out) && RouterOk(owner, net, x) && LsuOk(net, u)
    ensures LsuOk(net', u)
  {
  }

  lemma OriginateKeepsRouters(owner: Owner, net: Net, net': Net, x: U32, ifaces: seq<Iface>, out: seq<Packet>, y: U32)
    requires Originates(owner, net, net', x, ifaces, out) && RouterOk(owner, net, x)
    requires y in net.routers && RouterOk(owner, net, y)
    ensures RouterOk(owner, net', y)
  {
    forall e | e in net.routers[y].db ensures LsuOk(net', e) {
      OriginateKeepsLsu(owner, net, net', x, ifaces, out, e);
    }
    var ifs := net'.routers[y].ifaces;
    assert IfacesOk(owner, net, y, ifs);
    forall k, i | Slot(ifs, k, i) ensures NbrOk(owner, net', y, ifs[k].nbrs[i]) {
      assert NbrOk(owner, net, y, ifs[k].nbrs[i]);
    }
  }

  lemma OriginateKeepsPacket(owner: Owner, net: Net, net': Net, x: U32, ifaces: seq<Iface>, out: seq<Packet>, p: Packet)
    requires Originates(owner, net, net', x, ifaces, out) && RouterOk(owner, net, x) && PacketOk(owner, net, p)
    ensures PacketOk(owner, net', p)
  {
    OriginateKeepsLsu(owner, net, net', x, ifaces, out, p.lsu);
  }

  lemma OriginatedPacketOk(owner: Owner, net: Net, net': Net, x: U32, ifaces: seq<Iface>, out: seq<Packet>, p: Packet)
    requires Originates(owner, net, net', x, ifaces, out) && RouterOk(owner, net, x)
    requires SentAs(p, ifaces, x, net.routers[x].sequenceNum, Advertisement(ifaces))
    ensures PacketOk(owner, net', p)
  {
    var k, i :| SentTo(p, ifaces, k, i);
    assert NbrOk(owner, net, x, ifaces[k].nbrs[i]);
  }

  lemma OriginateKeepsPackets(owner: Owner, net: Net, net': Net, x: U32, ifaces: seq<Iface>, out: seq<Packet>,
                              p: Packet)
    requires Originates(owner, net, net', x, ifaces, out) && RouterOk(owner, net, x)
    requires p in net'.flight && (p in net.flight ==> PacketOk(owner, net, p))
    ensures PacketOk(owner, net', p)
  {
    if p in net.flight {
      OriginateKeepsPacket(owner, net, net', x, ifaces, out, p);
    } else {
      assert p in multiset(out);
      OriginatedPacketOk(owner, net, net', x, ifaces, out, p);
    }
  }

  lemma CoverageGrows(owner: Owner, net: Net, net': Net, y: U32, o: U32, s: int)
    requires Covered(owner, net, y, o, s)
    requires net.flight <= net'.flight && net.routers.Keys <= net'.routers.Keys
    requires forall x | x in net.routers :: net'.routers[x].db == net.routers[x].db
    ensures Covered(owner, net', y, o, s)
  {
    if !Has(net, y, o, s) {
      var p :| Underway(owner, net, y, o, s, p);
      assert Underway(owner, net', y, o, s, p);
    }
  }

  lemma OriginateKeepsRelayed(owner: Owner, net: Net, net': Net, x: U32, ifaces: seq<Iface>, out: seq<Packet>,
                              z: U32, y: U32, o: U32)
    requires Originates(owner, net, net', x, ifaces, out)
    requires z in net.routers && o in net.routers && RouterOk(owner, net, o) && RouterOk(owner, net, z)
    requires Relayed(owner, net, z, y, o)
    ensures o in net'.base && Relayed(owner, net', z, y, o)
  {
    var e := Stored(net.routers[z].db, o);
    if e.Some? && e.value.seqNo > net'.base[o] && Adjacent(net'.routers[z], y) && z != o && y != o {
      assert LsuOk(net, e.value);
      CoverageGrows(owner, net, net', y, o, e.value.seqNo);
    }
  }

  lemma OriginationReaches(owner: Owner, net: Net, net': Net, x: U32, ifaces: seq<Iface>, out: seq<Packet>, y: U32)
    requires Originates(owner, net, net', x, ifaces, out) && RouterOk(owner, net, x)
    requires Adjacent(net'.routers[x], y)
    ensures Covered(owner, net', y, x, net.routers[x].sequenceNum + 1)
  {
    var s := net.routers[x].sequenceNum;
    var k, i :| Slot(ifaces, k, i) && ifaces[k].nbrs[i].id == y;
    assert SentSome(out, ifaces, k, i);
    var p :| p in out && SentTo(p, ifaces, k, i);
    assert p in multiset(out) && SentAs(p, ifaces, x, s, Advertisement(ifaces));
    assert NbrOk(owner, net, x, ifaces[k].nbrs[i]);
    assert Underway(owner, net', y, x, s + 1, p);
  }

  /** A router that has sent nothing since its counter was read has no neighbours. */
  lemma UnsentMeansAlone(owner: Owner, net: Net, o: U32, y: U32)
    requires o in net.routers && RouterOk(owner, net, o) && net.batch[o] >= net.routers[o].sequenceNum
    ensures !Adjacent(net.routers[o], y)
  {
    DegreeZeroMeansAlone(net.routers[o].ifaces);
  }

  lemma OriginateKeepsOthersAnnounced(owner: Owner, net: Net, net': Net, x: U32, ifaces: seq<Iface>, out: seq<Packet>,
                                      o: U32, y: U32)
    requires Originates(owner, net, net', x, ifaces, out) && o != x && o in net.routers && RouterOk(owner, net, o)
    requires Announced(owner, net, o, y) && Adjacent(net'.routers[o], y) && FreshSince(net', o)
    ensures Covered(owner, net', y, o, net'.batch[o] + 1)
  {
    if net'.base != net.base {
      UnsentMeansAlone(owner, net, o, y);
    } else {
      CoverageGrows(owner, net, net', y, o, net.batch[o] + 1);
    }
  }

  lemma OriginateKeepsAnnounced(owner: Owner, net: Net, net': Net, x: U32, ifaces: seq<Iface>, out: seq<Packet>,
                                o: U32, y: U32)
    requires Originates(owner, net, net', x, ifaces, out)
    requires o in net.routers && RouterOk(owner, net, o) && Announced(owner, net, o, y)
    ensures Announced(owner, net', o, y)
  {
    if Adjacent(net'.routers[o], y) && FreshSince(net', o) {
      if o == x {
        OriginationReaches(owner, net, net', x, ifaces, out, y);
      } else {
        OriginateKeepsOthersAnnounced(owner, net, net', x, ifaces, out, o, y);
      }
    }
  }

  lemma OriginateKeepsRoutersAndPackets(owner: Owner, net: Net, net': Net, x: U32, ifaces: seq<Iface>, out: seq<Packet>)
    requires Inv(owner, net) && Originates(owner, net, net', x, ifaces, out)
    ensures forall y | y in net'.routers :: RouterOk(owner, net', y)
    ensures forall p | p in net'.flight :: PacketOk(owner, net', p)
  {
    forall y | y in net'.routers ensures RouterOk(owner, net', y) {
      OriginateKeepsRouters(owner, net, net', x, ifaces, out, y);
    }
    forall p | p in net'.flight ensures PacketOk(owner, net', p) {
      OriginateKeepsPackets(owner, net, net', x, ifaces, out, p);
    }
  }

  lemma OriginateKeepsCoverage(owner: Owner, net: Net, net': Net, x: U32, ifaces: seq<Iface>, out: seq<Packet>)
    requires Inv(owner, net) && Originates(owner, net, net', x, ifaces, out) && net'.base.Keys == net.routers.Keys
    ensures forall z, y, o | z in net'.routers && o in net'.routers :: Relayed(owner, net', z, y, o)
    ensures forall o, y | o in net'.routers :: Announced(owner, net', o, y)
  {
    forall z, y, o | z in net'.routers && o in net'.routers ensures Relayed(owner, net', z, y, o) {
      OriginateKeepsRelayed(owner, net, net', x, ifaces, out, z, y, o);
    }
    forall o, y | o in net'.routers ensures Announced(owner, net', o, y) {
      OriginateKeepsAnnounced(owner, net, net', x, ifaces, out, o, y);
    }
  }

  lemma OriginateKeepsInv(owner: Owner, net: Net, net': Net, x: U32, ifaces: seq<Iface>, out: seq<Packet>)
    requires Inv(owner, net) && Originates(owner, net, net', x, ifaces, out)
    ensures Inv(owner, net')
  {
    hide RouterOk, PacketOk, Relayed, Announced, IfacesOk, SentAs, SentSome;
    OriginateKeepsRoutersAndPackets(owner, net, net', x, ifaces, out);
    OriginateKeepsCoverage(owner, net, net', x, ifaces, out);
  }

  lemma DeliverKeepsStored(owner: Owner, net: Net, net': Net, p: Packet, z: U32, o: U32)
    requires Deliver(owner, net, net', p) && z in net.routers && UniqueRids(net.routers[z].db)
    ensures UniqueRids(net'.routers[z].db)
    ensures Stored(net'.routers[z].db, o) ==
      if z != owner[p.daddr] || o != p.lsu.rid then Stored(net.routers[z].db, o)
      else if Stored(net.routers[z].db, o).Some? && p.lsu.seqNo <= Stored(net.routers[z].db, o).value.seqNo
           then Stored(net.routers[z].db, o)
           else Some(p.lsu)
  {
    AbsorbMeaning(net.routers[z].db, p.lsu, o);
  }

  lemma DeliverKeepsHas(owner: Owner, net: Net, net': Net, p: Packet, y: U32, o: U32, s: int)
    requires Deliver(owner, net, net', p) && Has(net, y, o, s) && UniqueRids(net.routers[y].db)
    ensures Has(net', y, o, s)
  {
    DeliverKeepsStored(owner, net, net', p, y, o);
  }

  lemma DeliverKeepsCovered(owner: Owner, net: Net, net': Net, p: Packet, y: U32, o: U32, s: int)
    requires Deliver(owner, net, net', p) && Covered(owner, net, y, o, s)
    requires forall z | z in net.routers :: UniqueRids(net.routers[z].db)
    ensures Covered(owner, net', y, o, s)
  {
    if Has(net, y, o, s) {
      DeliverKeepsHas(owner, net, net', p, y, o, s);
    } else {
      var q :| Underway(owner, net, y, o, s, q);
      if q == p {
        DeliverKeepsStored(owner, net, net', p, y, o);
      } else {
        assert Underway(owner, net', y, o, s, q);
      }
    }
  }

  lemma DeliverKeepsRouters(owner: Owner, net: Net, net': Net, p: Packet, z: U32)
    requires Deliver(owner, net, net', p) && PacketOk(owner, net, p)
    requires z in net.routers && RouterOk(owner, net, z)
    ensures RouterOk(owner, net', z)
  {
    DeliverKeepsStored(owner, net, net', p, z, p.lsu.rid);
    forall e | e in net'.routers[z].db ensures e.rid != z && LsuOk(net', e) {
      assert e == p.lsu || e in net.routers[z].db;
      SameOriginators(owner, net, net', p, e);
    }
    var ifs := net'.routers[z].ifaces;
    forall k, i | Slot(ifs, k, i) ensures NbrOk(owner, net', z, ifs[k].nbrs[i]) {
      assert NbrOk(owner, net, z, ifs[k].nbrs[i]);
    }
  }

  lemma SameOriginators(owner: Owner, net: Net, net': Net, p: Packet, u: Lsu)
    requires Deliver(owner, net, net', p) && LsuOk(net, u)
    ensures LsuOk(net', u)
  {
  }

  lemma DeliverKeepsPackets(owner: Owner, net: Net, net': Net, p: Packet, q: Packet)
    requires Deliver(owner, net, net', p) && PacketOk(owner, net, p) && RouterOk(owner, net, owner[p.daddr])
    requires forall z | z in net.routers :: UniqueRids(net.routers[z].db)
    requires q in net'.flight && (q in net.flight ==> PacketOk(owner, net, q))
    ensures PacketOk(owner, net', q)
  {
    var x := owner[p.daddr];
    if q in net.flight {
      SameOriginators(owner, net, net', p, q.lsu);
      if owner[q.saddr] != q.lsu.rid {
        DeliverKeepsHas(owner, net, net', p, owner[q.saddr], q.lsu.rid, q.lsu.seqNo);
      }
    } else {
      ForwardSends(net.routers[x].ifaces, p);
      assert Relays(q, net.routers[x].ifaces, p);
      var k, i :| RelayTo(q, net.routers[x].ifaces, p, k, i);
      assert NbrOk(owner, net, x, net.routers[x].ifaces[k].nbrs[i]);
      SameOriginators(owner, net, net', p, q.lsu);
      DeliverKeepsStored(owner, net, net', p, x, p.lsu.rid);
    }
  }

  lemma DeliverKeepsRelayed(owner: Owner, net: Net, net': Net, p: Packet, z: U32, y: U32, o: U32)
    requires Deliver(owner, net, net', p) && PacketOk(owner, net, p) && RouterOk(owner, net, owner[p.daddr])
    requires forall z | z in net.routers :: UniqueRids(net.routers[z].db)
    requires z in net.routers && o in net.base && Relayed(owner, net, z, y, o)
    ensures Relayed(owner, net', z, y, o)
  {
    DeliverKeepsStored(owner, net, net', p, z, o);
    var e := Stored(net'.routers[z].db, o);
    if e.Some? && e.value.seqNo > net'.base[o] && Adjacent(net'.routers[z], y) && z != o && y != o {
      if e == Stored(net.routers[z].db, o) {
        DeliverKeepsCovered(owner, net, net', p, y, o, e.value.seqNo);
      } else {
        RelayReaches(owner, net, net', p, y);
      }
    }
  }

  /** A freshly stored update is sent on to every neighbour but the originator, except to the
      neighbour that already has it. */
  lemma RelayReaches(owner: Owner, net: Net, net': Net, p: Packet, y: U32)
    requires Deliver(owner, net, net', p) && PacketOk(owner, net, p) && RouterOk(owner, net, owner[p.daddr])
    requires forall z | z in net.routers :: UniqueRids(net.routers[z].db)
    requires Adjacent(net.routers[owner[p.daddr]], y) && y != p.lsu.rid
    ensures Covered(owner, net', y, p.lsu.rid, p.lsu.seqNo)
  {
    var x := owner[p.daddr];
    var ifs := net.routers[x].ifaces;
    var k, i :| Slot(ifs, k, i) && ifs[k].nbrs[i].id == y;
    assert NbrOk(owner, net, x, ifs[k].nbrs[i]);
    if ifs[k].nbrs[i].ip != p.saddr {
      var q := SlotIsServed(ifs, p, k, i);
      assert q in multiset(Forward(ifs, p));
      assert Underway(owner, net', y, p.lsu.rid, p.lsu.seqNo, q);
    } else {
      DeliverKeepsHas(owner, net, net', p, y, p.lsu.rid, p.lsu.seqNo);
    }
  }

  lemma DeliverKeepsAnnounced(owner: Owner, net: Net, net': Net, p: Packet, o: U32, y: U32)
    requires Deliver(owner, net, net', p) && o in net.routers && Announced(owner, net, o, y)
    requires forall z | z in net.routers :: UniqueRids(net.routers[z].db)
    ensures Announced(owner, net', o, y)
  {
    if Adjacent(net'.routers[o], y) && FreshSince(net', o) {
      DeliverKeepsCovered(owner, net, net', p, y, o, net.batch[o] + 1);
    }
  }

  lemma EntriesAreUnique(owner: Owner, net: Net, z: U32)
    requires z in net.routers && RouterOk(owner, net, z)
    ensures UniqueRids(net.routers[z].db)
  {
  }

  lemma DeliverKeepsInv(owner: Owner, net: Net, net': Net, p: Packet)
    requires Inv(owner, net) && Deliver(owner, net, net', p)
    ensures Inv(owner, net')
  {
    hide RouterOk, PacketOk, Relayed, Announced, Receive, UniqueRids, RoomFor;
    forall z | z in net.routers ensures UniqueRids(net.routers[z].db) {
      EntriesAreUnique(owner, net, z);
    }
    forall z | z in net'.routers ensures RouterOk(owner, net', z) {
      DeliverKeepsRouters(owner, net, net', p, z);
    }
    forall q | q in net'.flight ensures PacketOk(owner, net', q) {
      DeliverKeepsPackets(owner, net, net', p, q);
    }
    forall z, y, o | z in net'.routers && o in net'.routers ensures Relayed(owner, net', z, y, o) {
      DeliverKeepsRelayed(owner, net, net', p, z, y, o);
    }
    forall o, y | o in net'.routers ensures Announced(owner, net', o, y) {
      DeliverKeepsAnnounced(owner, net, net', p, o, y);
    }
  }

  lemma EmittedOriginates(owner: Owner, net: Net, net': Net, x: U32, ifaces: seq<Iface>) returns (out: seq<Packet>)
    requires x in net.routers && IfacesOk(owner, net, x, ifaces)
    requires net.routers[x].sequenceNum + Degree(ifaces) < 0x1_0000
    requires net' == Emit(net, x, Originate(net.routers[x].(ifaces := ifaces)), net'.base)
    requires (ifaces == net.routers[x].ifaces && net'.base == net.base) || net'.base == SequenceNumbers(net)
    ensures Originates(owner, net, net', x, ifaces, out)
  {
    var r := net.routers[x];
    out := Announce(ifaces, r.rid, r.sequenceNum, Advertisement(ifaces));
    AnnounceSends(ifaces, r.rid, r.sequenceNum, Advertisement(ifaces));
    assert Originate(r.(ifaces := ifaces)) == (Grown(r, ifaces), out);
  }

  lemma EmittedKeepsInv(owner: Owner, net: Net, net': Net, x: U32, ifaces: seq<Iface>)
    requires Inv(owner, net) && x in net.routers && IfacesOk(owner, net, x, ifaces)
    requires net.routers[x].sequenceNum + Degree(ifaces) < 0x1_0000
    requires net' == Emit(net, x, Originate(net.routers[x].(ifaces := ifaces)), net'.base)
    requires (ifaces == net.routers[x].ifaces && net'.base == net.base) || net'.base == SequenceNumbers(net)
    ensures Inv(owner, net')
  {
    var out := EmittedOriginates(owner, net, net', x, ifaces);
    OriginateKeepsInv(owner, net, net', x, ifaces, out);
  }

  lemma StepKeepsInv(owner: Owner, net: Net, net': Net)
    requires Inv(owner, net) && Next(owner, net, net')
    ensures Inv(owner, net')
  {
    if x :| Periodic(net, net', x) {
      assert RouterOk(owner, net, x);
      EmittedKeepsInv(owner, net, net', x, net.routers[x].ifaces);
    } else if x, k: nat, n :| Hello(owner, net, net', x, k, n) {
      if net' != net {
        assert RouterOk(owner, net, x);
        HelloKeepsIfaces(owner, net, x, k, n);
        EmittedKeepsInv(owner, net, net', x, WithNbrs(net.routers[x], k, net.routers[x].ifaces[k].nbrs + [n]).ifaces);
      }
    } else if x, k: nat, i: nat :| Timeout(net, net', x, k, i) {
      assert RouterOk(owner, net, x);
      var nbrs := net.routers[x].ifaces[k].nbrs;
      TimeoutKeepsIfaces(owner, net, x, k, i);
      EmittedKeepsInv(owner, net, net', x, WithNbrs(net.routers[x], k, nbrs[..i] + nbrs[i + 1..]).ifaces);
    } else {
      var p :| Deliver(owner, net, net', p);
      DeliverKeepsInv(owner, net, net', p);
    }
  }

  lemma HelloKeepsIfaces(owner: Owner, net: Net, x: U32, k: nat, n: Nbr)
    requires x in net.routers && k < |net.routers[x].ifaces| && IfacesOk(owner, net, x, net.routers[x].ifaces)
    requires NbrOk(owner, net, x, n)
    ensures IfacesOk(owner, net, x, WithNbrs(net.routers[x], k, net.routers[x].ifaces[k].nbrs + [n]).ifaces)
  {
  }

  lemma TimeoutKeepsIfaces(owner: Owner, net: Net, x: U32, k: nat, i: nat)
    requires x in net.routers && k < |net.routers[x].ifaces| && IfacesOk(owner, net, x, net.routers[x].ifaces)
    requires i < |net.routers[x].ifaces[k].nbrs|
    ensures var nbrs := net.routers[x].ifaces[k].nbrs;
      IfacesOk(owner, net, x, WithNbrs(net.routers[x], k, nbrs[..i] + nbrs[i + 1..]).ifaces)
  {
  }

  lemma {:induction false} RunKeepsInv(owner: Owner, nets: seq<Net>)
    requires Run(owner, nets)
    ensures Inv(owner, nets[|nets| - 1])
  {
    if |nets| == 1 {
      InitHolds(owner, nets[0]);
    } else {
      var front := nets[..|nets| - 1];
      assert Next(owner, nets[|nets| - 2], nets[|nets| - 1]);
      RunKeepsInv(owner, front);
      StepKeepsInv(owner, nets[|nets| - 2], nets[|nets| - 1]);
    }
  }

  // ---- convergence

  /** A chain of routers, each listing the next as its neighbour. */
  ghost predicate Chain(net: Net, o: U32, x: U32, c: seq<U32>) {
    && |c| > 0 && c[0] == o && c[|c| - 1] == x
    && (forall i | 0 <= i < |c| :: c[i] in net.routers)
    && forall i | 0 <= i < |c| - 1 :: Adjacent(net.routers[c[i]], c[i + 1])
  }

  ghost predicate Current(net: Net, x: U32, o: U32) {
    && x in net.routers && o in net.routers
    && Stored(net.routers[x].db, o).Some?
    && Stored(net.routers[x].db, o).value.adv == Advertisement(net.routers[o].ifaces)
  }

  lemma {:induction false} ChainIsServed(owner: Owner, net: Net, o: U32, x: U32, c: seq<U32>)
    requires Inv(owner, net) && net.flight == multiset{} && FreshSince(net, o)
    requires Chain(net, o, x, c) && x != o
    ensures Has(net, x, o, net.batch[o] + 1)
    decreases |c|
  {
    var y, front := c[|c| - 2], c[..|c| - 1];
    assert Adjacent(net.routers[y], x);
    if y == o {
      assert Announced(owner, net, o, x);
    } else {
      assert Chain(net, o, y, front) by {
        assert forall i | 0 <= i < |front| :: front[i] == c[i];
        assert forall i | 0 <= i < |front| - 1 :: Adjacent(net.routers[c[i]], c[i + 1]);
      }
      ChainIsServed(owner, net, o, y, front);
      assert Relayed(owner, net, y, x, o);
    }
  }

  /** When no packet is in flight, every router that a recently originating router o reaches holds
      o's current advertisement, and nobody ever stores an entry for itself. */
  lemma FloodingConverges(owner: Owner, nets: seq<Net>, o: U32, x: U32, c: seq<U32>)
    requires Run(owner, nets)
    requires var net := nets[|nets| - 1];
      net.flight == multiset{} && FreshSince(net, o) && Chain(net, o, x, c)
    ensures var net := nets[|nets| - 1];
      && (x != o ==> Current(net, x, o))
      && (forall i | 0 <= i < |nets[|nets| - 1].routers[x].db| :: net.routers[x].db[i].rid != x)
  {
    var net := nets[|nets| - 1];
    RunKeepsInv(owner, nets);
    assert RouterOk(owner, net, x);
    if x != o {
      ChainIsServed(owner, net, o, x, c);
      assert LsuOk(net, Stored(net.routers[x].db, o).value);
    }
  }
}
