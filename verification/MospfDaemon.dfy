/** The routing daemon of one router: its handlers as they run, updating the interface
    neighbour lists, the database and the sequence counter in place. */
module MospfDaemon {
  import opened Common
  import opened LinkState

  class Daemon {
    var rid: U32
    var sequenceNum: U16
    var ifaces: seq<Iface>
    var db: seq<Lsu>

    ghost function State(): Router
      reads this
    {
      Router(rid, sequenceNum, ifaces, db)
    }

    /** The router takes the address of its first interface as its identity. */
    constructor (ifaces: seq<Iface>)
      requires |ifaces| > 0
      ensures rid == ifaces[0].ip && sequenceNum == 0 && db == [] && |this.ifaces| == |ifaces|
      ensures forall k | 0 <= k < |ifaces| :: this.ifaces[k] == ifaces[k].(nbrs := [])
    {
      rid := ifaces[0].ip;
      sequenceNum := 0;
      this.ifaces := seq(|ifaces|, k requires 0 <= k < |ifaces| => ifaces[k].(nbrs := []));
      db := [];
    }

    /** The buffer size announced in the header, counted before the entries are filled in. */
    method CountAdvertisements() returns (count: nat)
      ensures count == |Advertisement(ifaces)|
    {
      count := 0;
      for k := 0 to |ifaces|
        invariant count == |Advertisement(ifaces[..k])|
      {
        if ifaces[k].ip == LAN_IP1 || ifaces[k].ip == LAN_IP2 {
          count := count + 1;
        }
        for i := 0 to |ifaces[k].nbrs|
          invariant count == |Advertisement(ifaces[..k]) + LanAdv(ifaces[k])| + i
        {
          count := count + 1;
        }
        NbrAdvLength(ifaces[k].nbrs);
        assert ifaces[..k + 1][..k] == ifaces[..k];
      }
      assert ifaces[..|ifaces|] == ifaces;
    }

    method FillAdvertisements() returns (adv: seq<Lsa>)
      ensures adv == Advertisement(ifaces)
    {
      adv := [];
      for k := 0 to |ifaces|
        invariant adv == Advertisement(ifaces[..k])
      {
        var f := ifaces[k];
        if f.ip == LAN_IP1 {
          adv := adv + [Lsa(f.subnet, f.mask, LAN_RID1)];
        }
        if f.ip == LAN_IP2 {
          adv := adv + [Lsa(f.subnet, f.mask, LAN_RID2)];
        }
        for i := 0 to |f.nbrs|
          invariant adv == Advertisement(ifaces[..k]) + LanAdv(f) + NbrAdv(f.nbrs[..i])
        {
          var n := f.nbrs[i];
          adv := adv + [Lsa(n.subnet, n.mask, n.id)];
          assert f.nbrs[..i + 1][..i] == f.nbrs[..i];
        }
        assert f.nbrs[..|f.nbrs|] == f.nbrs;
        assert ifaces[..k + 1][..k] == ifaces[..k];
      }
      assert ifaces[..|ifaces|] == ifaces;
    }

    /** The packet buffer is sized by the count, and the entries fill it exactly. */
    method BuildAdvertisement() returns (adv: seq<Lsa>)
      ensures adv == Advertisement(ifaces)
    {
      var count := CountAdvertisements();
      adv := FillAdvertisements();
      assert |adv| == count;
    }

    /** The copies sent on one interface; s is the counter's value, before reduction, on entry. */
    method SendOn(f: Iface, adv: seq<Lsa>, ghost s: nat) returns (out: seq<Packet>)
      requires sequenceNum == Wrap(s)
      modifies this`sequenceNum
      ensures sequenceNum == Wrap(s + |f.nbrs|)
      ensures out == AnnounceOn(f.ip, f.nbrs, rid, s, adv)
    {
      out := [];
      for i := 0 to |f.nbrs|
        invariant sequenceNum == Wrap(s + i)
        invariant out == AnnounceOn(f.ip, f.nbrs[..i], rid, s, adv)
      {
        sequenceNum := (sequenceNum + 1) % 0x1_0000;
        WrapOnce(s + i);
        out := out + [Packet(f.ip, f.nbrs[i].ip, Lsu(rid, sequenceNum, adv))];
        assert f.nbrs[..i + 1][..i] == f.nbrs[..i];
      }
      assert f.nbrs[..|f.nbrs|] == f.nbrs;
    }

    /** Every neighbour on every interface gets a copy under a sequence number of its own. */
    method SendCopies(adv: seq<Lsa>) returns (out: seq<Packet>)
      modifies this`sequenceNum
      ensures sequenceNum == Wrap(old(sequenceNum) + Degree(ifaces))
      ensures out == Announce(ifaces, rid, old(sequenceNum), adv)
    {
      ghost var s0, me, ifs := sequenceNum, rid, ifaces;
      out := [];
      for k := 0 to |ifaces|
        invariant rid == me && ifaces == ifs
        invariant out == Announce(ifs[..k], me, s0, adv)
        invariant sequenceNum == Wrap(s0 + Degree(ifs[..k]))
      {
        var sent := SendOn(ifaces[k], adv, s0 + Degree(ifs[..k]));
        out := out + sent;
        AnnounceSnoc(ifs, k, me, s0, adv);
      }
      assert ifs[..|ifs|] == ifs;
    }

    method SendLsu() returns (out: seq<Packet>)
      modifies this`sequenceNum
      ensures (State(), out) == Originate(old(State()))
    {
      var adv := BuildAdvertisement();
      out := SendCopies(adv);
    }

    /** Store the update if its originator is new or it is newer, then relay it regardless.  An update
        longer than a database entry is written past its end, which `inBounds` reports. */
    method HandleLsu(p: Packet) returns (inBounds: bool, out: seq<Packet>)
      modifies this`db
      ensures inBounds <==> RoomFor(old(db), p.lsu)
      ensures inBounds ==> (State(), out) == Receive(old(State()), p)
    {
      var found := false;
      inBounds := true;
      for i := 0 to |db|
        invariant |db| == |old(db)|
        invariant found <==> Known(old(db)[..i], p.lsu.rid)
        invariant !inBounds <==> |p.lsu.adv| > MAX_ADV && Outdates(p.lsu, old(db)[..i])
        invariant forall j | 0 <= j < i :: db[j] == Newer(old(db)[j], p.lsu)
        invariant forall j | i <= j < |db| :: db[j] == old(db)[j]
      {
        if db[i].rid == p.lsu.rid {
          found := true;
          if db[i].seqNo < p.lsu.seqNo {
            inBounds := inBounds && |p.lsu.adv| <= MAX_ADV;
            db := db[i := p.lsu];
          }
        }
        KnownSnoc(old(db), i, p.lsu.rid);
        OutdatesSnoc(old(db), i, p.lsu);
      }
      assert old(db)[..|old(db)|] == old(db);
      if !found {
        inBounds := |p.lsu.adv| <= MAX_ADV;
        db := db + [p.lsu];
      }
      assert db == Absorb(old(db), p.lsu);
      out := Relay(p);
    }

    method Relay(p: Packet) returns (out: seq<Packet>)
      ensures out == Forward(ifaces, p)
    {
      out := [];
      for k := 0 to |ifaces|
        invariant out == Forward(ifaces[..k], p)
      {
        var f := ifaces[k];
        ghost var sent := out;
        for i := 0 to |f.nbrs|
          invariant out == sent + ForwardOn(f.ip, f.nbrs[..i], p)
        {
          if f.nbrs[i].ip != p.saddr && f.nbrs[i].id != p.lsu.rid {
            out := out + [Packet(f.ip, f.nbrs[i].ip, p.lsu)];
          }
          assert f.nbrs[..i + 1][..i] == f.nbrs[..i];
        }
        assert f.nbrs[..|f.nbrs|] == f.nbrs;
        assert ifaces[..k + 1][..k] == ifaces[..k];
      }
      assert ifaces[..|ifaces|] == ifaces;
    }

    /** A Hello on interface k from address saddr of router id. */
    method HandleHello(k: nat, id: U32, saddr: U32, subnet: U32, mask: U32) returns (out: seq<Packet>)
      requires k < |ifaces|
      modifies this`ifaces, this`sequenceNum
      ensures (State(), out) == Greet(old(State()), k, Nbr(id, saddr, subnet, mask))
    {
      var found := false;
      for i := 0 to |ifaces[k].nbrs|
        invariant found <==> exists j | 0 <= j < i :: ifaces[k].nbrs[j].ip == saddr
      {
        if saddr == ifaces[k].nbrs[i].ip {
          found := true;
        }
      }
      out := [];
      if !found {
        ifaces := ifaces[k := ifaces[k].(nbrs := ifaces[k].nbrs + [Nbr(id, saddr, subnet, mask)])];
        out := SendLsu();
      }
    }

    /** Neighbour i of interface k has been silent for too long. */
    method DropNeighbour(k: nat, i: nat) returns (out: seq<Packet>)
      requires k < |ifaces| && i < |ifaces[k].nbrs|
      modifies this`ifaces, this`sequenceNum
      ensures (State(), out) == Expire(old(State()), k, i)
    {
      var nbrs := ifaces[k].nbrs;
      ifaces := ifaces[k := ifaces[k].(nbrs := nbrs[..i] + nbrs[i + 1..])];
      out := SendLsu();
    }
  }

  lemma {:induction false} NbrAdvLength(nbrs: seq<Nbr>)
    ensures |NbrAdv(nbrs)| == |nbrs|
  {
    if nbrs != [] {
      NbrAdvLength(nbrs[..|nbrs| - 1]);
    }
  }

  lemma WrapOnce(s: nat)
    ensures (Wrap(s) + 1) % 0x1_0000 == Wrap(s + 1)
  {
  }

  lemma AnnounceSnoc(ifaces: seq<Iface>, k: nat, rid: U32, s: int, adv: seq<Lsa>)
    requires k < |ifaces|
    ensures Degree(ifaces[..k + 1]) == Degree(ifaces[..k]) + |ifaces[k].nbrs|
    ensures Announce(ifaces[..k + 1], rid, s, adv) ==
      Announce(ifaces[..k], rid, s, adv)
      + AnnounceOn(ifaces[k].ip, ifaces[k].nbrs, rid, s + Degree(ifaces[..k]), adv)
  {
    assert ifaces[..k + 1][..k] == ifaces[..k];
  }

  lemma OutdatesSnoc(db: seq<Lsu>, i: nat, u: Lsu)
    requires i < |db|
    ensures Outdates(u, db[..i + 1]) <==> Outdates(u, db[..i]) || (db[i].rid == u.rid && db[i].seqNo < u.seqNo)
  {
    assert db[..i + 1] == db[..i] + [db[i]];
    assert db[i] in db[..i + 1];
  }

  lemma KnownSnoc(db: seq<Lsu>, i: nat, rid: U32)
    requires i < |db|
    ensures Known(db[..i + 1], rid) <==> Known(db[..i], rid) || db[i].rid == rid
  {
    if Known(db[..i], rid) {
      var j :| 0 <= j < i && db[..i][j].rid == rid;
      assert db[..i + 1][j].rid == rid;
    }
    if db[i].rid == rid {
      assert db[..i + 1][i].rid == rid;
    }
    if Known(db[..i + 1], rid) && db[i].rid != rid {
      var j :| 0 <= j < i + 1 && db[..i + 1][j].rid == rid;
      assert db[..i][j].rid == rid;
    }
  }
}
