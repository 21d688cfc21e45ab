/** What a router tells the others, in the fields of its interfaces and neighbours: the entries of its
    advertisement, the number and destination of every copy, and what Hellos and timeouts change. */
module Advertising {
  import opened Common
  import opened LinkState
  import opened Flooding

  // ---- the entries

  /** A host network, with the subnet and mask of the interface it is on. */
  ghost predicate OfLan(a: Lsa, f: Iface) {
    && a.subnet == f.subnet && a.mask == f.mask
    && ((f.ip == LAN_IP1 && a.rid == 101) || (f.ip == LAN_IP2 && a.rid == 102))
  }

  /** A neighbour. */
  ghost predicate OfNbr(a: Lsa, n: Nbr) { a.subnet == n.subnet && a.mask == n.mask && a.rid == n.id }

  ghost predicate OfLanAt(a: Lsa, ifaces: seq<Iface>, k: int) { 0 <= k < |ifaces| && OfLan(a, ifaces[k]) }

  ghost predicate OfNbrAt(a: Lsa, ifaces: seq<Iface>, k: int, i: int) {
    Slot(ifaces, k, i) && OfNbr(a, ifaces[k].nbrs[i])
  }

  ghost predicate Advertises(ifaces: seq<Iface>, a: Lsa) {
    (exists k :: OfLanAt(a, ifaces, k)) || (exists k, i :: OfNbrAt(a, ifaces, k, i))
  }

  lemma {:induction false} NbrAdvIff(nbrs: seq<Nbr>, a: Lsa)
    ensures a in NbrAdv(nbrs) <==> exists i :: 0 <= i < |nbrs| && OfNbr(a, nbrs[i])
  {
    if nbrs != [] {
      var front, n := nbrs[..|nbrs| - 1], nbrs[|nbrs| - 1];
      NbrAdvIff(front, a);
      assert (exists i :: 0 <= i < |nbrs| && OfNbr(a, nbrs[i]))
          <==> (exists i :: 0 <= i < |front| && OfNbr(a, front[i])) || OfNbr(a, n) by {
        if i :| 0 <= i < |front| && OfNbr(a, front[i]) {
          assert nbrs[i] == front[i];
        }
        if OfNbr(a, n) {
          assert nbrs[|nbrs| - 1] == n;
        }
        if i :| 0 <= i < |nbrs| && OfNbr(a, nbrs[i]) && i < |front| {
          assert front[i] == nbrs[i];
        }
      }
    }
  }

  lemma AdvertisesSnoc(ifaces: seq<Iface>, a: Lsa)
    requires ifaces != []
    ensures var front, f := ifaces[..|ifaces| - 1], ifaces[|ifaces| - 1];
      Advertises(ifaces, a) <==>
        Advertises(front, a) || OfLan(a, f) || exists i :: 0 <= i < |f.nbrs| && OfNbr(a, f.nbrs[i])
  {
    var front, f := ifaces[..|ifaces| - 1], ifaces[|ifaces| - 1];
    if k :| OfLanAt(a, front, k) {
      assert OfLanAt(a, ifaces, k);
    }
    if k, i :| OfNbrAt(a, front, k, i) {
      assert OfNbrAt(a, ifaces, k, i);
    }
    if OfLan(a, f) {
      assert OfLanAt(a, ifaces, |front|);
    }
    if i :| 0 <= i < |f.nbrs| && OfNbr(a, f.nbrs[i]) {
      assert OfNbrAt(a, ifaces, |front|, i);
    }
    if k :| OfLanAt(a, ifaces, k) {
      assert k < |front| ==> OfLanAt(a, front, k);
    }
    if k, i :| OfNbrAt(a, ifaces, k, i) {
      assert k < |front| ==> OfNbrAt(a, front, k, i);
    }
  }

  /** A router advertises exactly its host networks, with subnet and mask of their interface, and its
      neighbours, with theirs. */
  lemma {:induction false} AdvertisementIff(ifaces: seq<Iface>, a: Lsa)
    ensures a in Advertisement(ifaces) <==> Advertises(ifaces, a)
  {
    if ifaces != [] {
      var front, f := ifaces[..|ifaces| - 1], ifaces[|ifaces| - 1];
      AdvertisementIff(front, a);
      NbrAdvIff(f.nbrs, a);
      AdvertisesSnoc(ifaces, a);
      hide Advertises;
      assert a in Advertisement(ifaces) <==> a in Advertisement(front) || a in LanAdv(f) || a in NbrAdv(f.nbrs);
    }
  }

  ghost function LanSlots(ifaces: seq<Iface>): set<nat> {
    set k: nat | k < |ifaces| && (ifaces[k].ip == LAN_IP1 || ifaces[k].ip == LAN_IP2)
  }

  /** One entry each. */
  lemma {:induction false} AdvertisementCounts(ifaces: seq<Iface>)
    ensures |Advertisement(ifaces)| == |LanSlots(ifaces)| + Degree(ifaces)
  {
    if ifaces != [] {
      var front, k, f := ifaces[..|ifaces| - 1], |ifaces| - 1, ifaces[|ifaces| - 1];
      AdvertisementCounts(front);
      NbrAdvCounts(f.nbrs);
      assert LanSlots(ifaces) == LanSlots(front) + if f.ip == LAN_IP1 || f.ip == LAN_IP2 then {k} else {};
    }
  }

  lemma {:induction false} NbrAdvCounts(nbrs: seq<Nbr>)
    ensures |NbrAdv(nbrs)| == |nbrs|
  {
    if nbrs != [] {
      NbrAdvCounts(nbrs[..|nbrs| - 1]);
    }
  }

  // ---- the copies

  lemma {:induction false} AnnounceOnAt(ip: U32, nbrs: seq<Nbr>, rid: U32, s: nat, adv: seq<Lsa>, i: nat)
    requires i < |nbrs|
    ensures |AnnounceOn(ip, nbrs, rid, s, adv)| == |nbrs|
    ensures AnnounceOn(ip, nbrs, rid, s, adv)[i] == Packet(ip, nbrs[i].ip, Lsu(rid, (s + i + 1) % 0x1_0000, adv))
    decreases |nbrs|
  {
    if |nbrs| > 1 {
      AnnounceOnAt(ip, nbrs[..|nbrs| - 1], rid, s, adv, if i < |nbrs| - 1 then i else 0);
    }
  }

  lemma {:induction false} AnnounceCounts(ifaces: seq<Iface>, rid: U32, s: nat, adv: seq<Lsa>)
    ensures |Announce(ifaces, rid, s, adv)| == Degree(ifaces)
  {
    if ifaces != [] {
      var front, f := ifaces[..|ifaces| - 1], ifaces[|ifaces| - 1];
      AnnounceCounts(front, rid, s, adv);
      if f.nbrs != [] {
        AnnounceOnAt(f.ip, f.nbrs, rid, s + Degree(front), adv, 0);
      }
    }
  }

  /** The copies go out interface by interface, neighbour by neighbour, numbered in that order modulo 2^16. */
  lemma {:induction false} AnnounceAt(ifaces: seq<Iface>, rid: U32, s: nat, adv: seq<Lsa>, k: nat, i: nat)
    requires Slot(ifaces, k, i)
    ensures var j := Degree(ifaces[..k]) + i;
      && j < |Announce(ifaces, rid, s, adv)| == Degree(ifaces)
      && Announce(ifaces, rid, s, adv)[j]
         == Packet(ifaces[k].ip, ifaces[k].nbrs[i].ip, Lsu(rid, (s + j + 1) % 0x1_0000, adv))
    decreases |ifaces|
  {
    var front, f := ifaces[..|ifaces| - 1], ifaces[|ifaces| - 1];
    AnnounceCounts(front, rid, s, adv);
    AnnounceCounts(ifaces, rid, s, adv);
    if k < |front| {
      AnnounceAt(front, rid, s, adv, k, i);
      assert front[..k] == ifaces[..k];
    } else {
      AnnounceOnAt(f.ip, f.nbrs, rid, s + Degree(front), adv, i);
      assert ifaces[..k] == front;
    }
  }

  // ---- what changes the neighbours

  /** Only the counter changes: it counts the neighbours. */
  lemma OriginateMeaning(r: Router)
    ensures var (r', out) := Originate(r);
      && r'.rid == r.rid && r'.ifaces == r.ifaces && r'.db == r.db
      && |out| == Degree(r.ifaces) && r'.sequenceNum == (r.sequenceNum + |out|) % 0x1_0000
  {
    AnnounceCounts(r.ifaces, r.rid, r.sequenceNum, Advertisement(r.ifaces));
  }

  /** Only interface k may differ, and there only the neighbours. */
  ghost predicate SameBut(ifaces: seq<Iface>, ifaces': seq<Iface>, k: nat) {
    && |ifaces'| == |ifaces| && k < |ifaces|
    && (forall j | 0 <= j < |ifaces| && j != k :: ifaces'[j] == ifaces[j])
    && ifaces'[k].ip == ifaces[k].ip && ifaces'[k].subnet == ifaces[k].subnet && ifaces'[k].mask == ifaces[k].mask
  }

  /** q carries number s + j + 1 to slot (k, i), j counting the slots before, and the advertisement of now. */
  ghost predicate Tells(q: Packet, r: Router, s: nat, k: nat, i: nat) {
    && Slot(r.ifaces, k, i)
    && q.saddr == r.ifaces[k].ip && q.daddr == r.ifaces[k].nbrs[i].ip && q.lsu.rid == r.rid
    && q.lsu.seqNo == (s + Degree(r.ifaces[..k]) + i + 1) % 0x1_0000
    && forall a :: a in q.lsu.adv <==> Advertises(r.ifaces, a)
  }

  ghost predicate TellsAll(out: seq<Packet>, r: Router, s: nat) {
    && |out| == Degree(r.ifaces)
    && forall k, i | Slot(r.ifaces, k, i) :: exists q :: q in out && Tells(q, r, s, k, i)
  }

  lemma OriginateTellsAll(r: Router)
    ensures TellsAll(Originate(r).1, r, r.sequenceNum)
  {
    var adv := Advertisement(r.ifaces);
    OriginateMeaning(r);
    forall k, i | Slot(r.ifaces, k, i) ensures exists q :: q in Originate(r).1 && Tells(q, r, r.sequenceNum, k, i) {
      AnnounceAt(r.ifaces, r.rid, r.sequenceNum, adv, k, i);
      var q := Originate(r).1[Degree(r.ifaces[..k]) + i];
      forall a ensures a in q.lsu.adv <==> Advertises(r.ifaces, a) {
        AdvertisementIff(r.ifaces, a);
      }
      assert Tells(q, r, r.sequenceNum, k, i);
    }
  }

  /** The first Hello from an address adds the neighbour and tells everyone, the new one included, what is
      advertised from then on; any later one changes nothing and sends nothing. */
  lemma GreetMeaning(r: Router, k: nat, n: Nbr)
    requires k < |r.ifaces|
    ensures var (r', out) := Greet(r, k, n);
      if exists i :: 0 <= i < |r.ifaces[k].nbrs| && r.ifaces[k].nbrs[i].ip == n.ip then r' == r && out == []
      else
        && SameBut(r.ifaces, r'.ifaces, k) && r'.ifaces[k].nbrs == r.ifaces[k].nbrs + [n]
        && r'.rid == r.rid && r'.db == r.db && TellsAll(out, r', r.sequenceNum)
        && r'.sequenceNum == (r.sequenceNum + |out|) % 0x1_0000
  {
    var after := r.(ifaces := r.ifaces[k := r.ifaces[k].(nbrs := r.ifaces[k].nbrs + [n])]);
    OriginateMeaning(after);
    OriginateTellsAll(after);
    hide Originate, TellsAll;
    assert TellsAll(Originate(after).1, Originate(after).0, r.sequenceNum) by {
      SameTold(Originate(after).1, after, Originate(after).0, r.sequenceNum);
    }
  }

  lemma SameTold(out: seq<Packet>, r: Router, r': Router, s: nat)
    requires r'.ifaces == r.ifaces && r'.rid == r.rid && TellsAll(out, r, s)
    ensures TellsAll(out, r', s)
  {
    forall k, i | Slot(r'.ifaces, k, i) ensures exists q :: q in out && Tells(q, r', s, k, i) {
      var q :| q in out && Tells(q, r, s, k, i);
      assert Tells(q, r', s, k, i);
    }
  }

  /** A neighbour that fell silent is gone, the others keep their order, and everyone left is told. */
  lemma ExpireMeaning(r: Router, k: nat, i: nat)
    requires k < |r.ifaces| && i < |r.ifaces[k].nbrs|
    ensures var (r', out) := Expire(r, k, i);
      var nbrs := r.ifaces[k].nbrs;
      && SameBut(r.ifaces, r'.ifaces, k) && nbrs == r'.ifaces[k].nbrs[..i] + [nbrs[i]] + r'.ifaces[k].nbrs[i..]
      && r'.rid == r.rid && r'.db == r.db && TellsAll(out, r', r.sequenceNum)
      && r'.sequenceNum == (r.sequenceNum + |out|) % 0x1_0000
  {
    var nbrs := r.ifaces[k].nbrs;
    var left := nbrs[..i] + nbrs[i + 1..];
    var after := r.(ifaces := r.ifaces[k := r.ifaces[k].(nbrs := left)]);
    OriginateMeaning(after);
    OriginateTellsAll(after);
    hide Originate, TellsAll;
    assert left[..i] == nbrs[..i] && left[i..] == nbrs[i + 1..];
    SameTold(Originate(after).1, after, Originate(after).0, r.sequenceNum);
  }
}
