/** The values the routing daemon works on, and what each of its handlers computes:
    the advertisement it originates, the copies it sends, and the database after an update. */
module LinkState {
  import opened Common

  const LAN_IP1: U32 := 0x0a000101
  const LAN_IP2: U32 := 0x0a000604
  const LAN_RID1: U32 := 101
  const LAN_RID2: U32 := 102
  /** Room for advertisements in one database entry. */
  const MAX_ADV := 5

  datatype Lsa = Lsa(subnet: U32, mask: U32, rid: U32)
  datatype Lsu = Lsu(rid: U32, seqNo: U16, adv: seq<Lsa>)
  datatype Packet = Packet(saddr: U32, daddr: U32, lsu: Lsu)
  /** `subnet` is the address under the mask, computed once. */
  datatype Nbr = Nbr(id: U32, ip: U32, subnet: U32, mask: U32)
  datatype Iface = Iface(ip: U32, subnet: U32, mask: U32, nbrs: seq<Nbr>)

  /** One router: its identity, last sequence number, interfaces with their neighbours, database. */
  datatype Router = Router(rid: U32, sequenceNum: U16, ifaces: seq<Iface>, db: seq<Lsu>)

  // ---- origination

  function LanAdv(f: Iface): seq<Lsa> {
    (if f.ip == LAN_IP1 then [Lsa(f.subnet, f.mask, LAN_RID1)] else [])
    + (if f.ip == LAN_IP2 then [Lsa(f.subnet, f.mask, LAN_RID2)] else [])
  }

  function NbrAdv(nbrs: seq<Nbr>): (adv: seq<Lsa>) {
    if nbrs == [] then []
    else
      var n := nbrs[|nbrs| - 1];
      NbrAdv(nbrs[..|nbrs| - 1]) + [Lsa(n.subnet, n.mask, n.id)]
  }

  /** The list a router advertises: its host networks and its neighbours, interface by interface. */
  function Advertisement(ifaces: seq<Iface>): (adv: seq<Lsa>) {
    if ifaces == [] then []
    else
      var f := ifaces[|ifaces| - 1];
      Advertisement(ifaces[..|ifaces| - 1]) + LanAdv(f) + NbrAdv(f.nbrs)
  }

  /** The 16-bit counter after counting up to s. */
  function Wrap(s: int): U16 { s % 0x1_0000 }

  function Degree(ifaces: seq<Iface>): nat {
    if ifaces == [] then 0 else Degree(ifaces[..|ifaces| - 1]) + |ifaces[|ifaces| - 1].nbrs|
  }

  /** One copy per neighbour of one interface, each under the next sequence number. */
  function AnnounceOn(ip: U32, nbrs: seq<Nbr>, rid: U32, s: int, adv: seq<Lsa>): (out: seq<Packet>) {
    if nbrs == [] then []
    else
      AnnounceOn(ip, nbrs[..|nbrs| - 1], rid, s, adv)
      + [Packet(ip, nbrs[|nbrs| - 1].ip, Lsu(rid, Wrap(s + |nbrs|), adv))]
  }

  function Announce(ifaces: seq<Iface>, rid: U32, s: int, adv: seq<Lsa>): (out: seq<Packet>) {
    if ifaces == [] then []
    else
      var front, f := ifaces[..|ifaces| - 1], ifaces[|ifaces| - 1];
      Announce(front, rid, s, adv) + AnnounceOn(f.ip, f.nbrs, rid, s + Degree(front), adv)
  }

  function Originate(r: Router): (Router, seq<Packet>) {
    (r.(sequenceNum := Wrap(r.sequenceNum + Degree(r.ifaces))),
     Announce(r.ifaces, r.rid, r.sequenceNum, Advertisement(r.ifaces)))
  }

  // ---- the database

  predicate Known(db: seq<Lsu>, rid: U32) { exists i | 0 <= i < |db| :: db[i].rid == rid }

  /** Database lists hold at most one entry per originator. */
  ghost predicate UniqueRids(db: seq<Lsu>) {
    forall i, j | 0 <= i < j < |db| :: db[i].rid != db[j].rid
  }

  function Stored(db: seq<Lsu>, rid: U32): (o: Option<Lsu>)
    ensures o.Some? ==> o.value in db && o.value.rid == rid
    ensures o.None? ==> forall i | 0 <= i < |db| :: db[i].rid != rid
  {
    if db == [] then None
    else if db[0].rid == rid then Some(db[0])
    else Stored(db[1..], rid)
  }

  function Newer(e: Lsu, u: Lsu): Lsu {
    if e.rid == u.rid && e.seqNo < u.seqNo then u else e
  }

  function Absorb(db: seq<Lsu>, u: Lsu): (db': seq<Lsu>) {
    if Known(db, u.rid) then seq(|db|, i requires 0 <= i < |db| => Newer(db[i], u)) else db + [u]
  }

  /** Does the update get written into the database? */
  predicate Stores(db: seq<Lsu>, u: Lsu) { !Known(db, u.rid) || Outdates(u, db) }

  predicate Outdates(u: Lsu, db: seq<Lsu>) { exists e | e in db :: e.rid == u.rid && e.seqNo < u.seqNo }

  /** What is written stays within the room of a database entry. */
  predicate RoomFor(db: seq<Lsu>, u: Lsu) { Stores(db, u) ==> |u.adv| <= MAX_ADV }

  /** It is written exactly where the database changes. */
  lemma StoresIff(db: seq<Lsu>, u: Lsu)
    ensures Stores(db, u) <==> Absorb(db, u) != db
  {
    if Known(db, u.rid) && Outdates(u, db) {
      var e :| e in db && e.rid == u.rid && e.seqNo < u.seqNo;
      var i :| 0 <= i < |db| && db[i] == e;
      assert Absorb(db, u)[i] == u;
    }
  }

  /** Every stored list fits the five places of its entry. */
  ghost predicate AllFit(db: seq<Lsu>) { forall e | e in db :: |e.adv| <= 5 }

  /** An update leaves it so exactly when there is room for it. */
  lemma FitsIff(db: seq<Lsu>, u: Lsu)
    requires AllFit(db)
    ensures AllFit(Absorb(db, u)) <==> RoomFor(db, u)
  {
    var db' := Absorb(db, u);
    StoresIff(db, u);
    if !Stores(db, u) {
      assert db' == db;
    } else if Known(db, u.rid) {
      var e :| e in db && e.rid == u.rid && e.seqNo < u.seqNo;
      var i :| 0 <= i < |db| && db[i] == e;
      assert db'[i] == u && u in db';
      assert forall x | x in db' :: x in db || x == u;
    } else {
      assert db'[|db|] == u && u in db';
    }
  }

  lemma StoredAt(db: seq<Lsu>, i: nat)
    requires i < |db| && UniqueRids(db)
    ensures Stored(db, db[i].rid) == Some(db[i])
  {
    var o := Stored(db, db[i].rid);
    var j :| 0 <= j < |db| && db[j] == o.value;
  }

  lemma AbsorbKeepsUnique(db: seq<Lsu>, u: Lsu)
    requires UniqueRids(db)
    ensures UniqueRids(Absorb(db, u))
    ensures forall i | 0 <= i < |db| :: Absorb(db, u)[i] == Newer(db[i], u)
  {
  }

  /** What one update does to each stored entry. */
  lemma AbsorbMeaning(db: seq<Lsu>, u: Lsu, r: U32)
    requires UniqueRids(db)
    ensures UniqueRids(Absorb(db, u))
    ensures Stored(Absorb(db, u), r) ==
      if r != u.rid then Stored(db, r)
      else if Stored(db, r).Some? && u.seqNo <= Stored(db, r).value.seqNo then Stored(db, r)
      else Some(u)
  {
    AbsorbKeepsUnique(db, u);
    var db' := Absorb(db, u);
    if i :| 0 <= i < |db| && db[i].rid == r {
      StoredAt(db, i);
      StoredAt(db', i);
    } else if r == u.rid {
      StoredAt(db', |db|);
    }
  }

  // ---- forwarding

  predicate Eligible(n: Nbr, p: Packet) { n.ip != p.saddr && n.id != p.lsu.rid }

  function ForwardOn(ip: U32, nbrs: seq<Nbr>, p: Packet): seq<Packet> {
    if nbrs == [] then []
    else
      var n := nbrs[|nbrs| - 1];
      ForwardOn(ip, nbrs[..|nbrs| - 1], p) + if Eligible(n, p) then [Packet(ip, n.ip, p.lsu)] else []
  }

  /** A copy for every neighbour except the one it came from and the originator. */
  function Forward(ifaces: seq<Iface>, p: Packet): seq<Packet> {
    if ifaces == [] then []
    else
      var f := ifaces[|ifaces| - 1];
      Forward(ifaces[..|ifaces| - 1], p) + ForwardOn(f.ip, f.nbrs, p)
  }

  function Receive(r: Router, p: Packet): (Router, seq<Packet>) {
    (r.(db := Absorb(r.db, p.lsu)), Forward(r.ifaces, p))
  }

  // ---- neighbours

  predicate Heard(nbrs: seq<Nbr>, ip: U32) { exists i | 0 <= i < |nbrs| :: nbrs[i].ip == ip }

  /** A Hello from an unknown address adds a neighbour and triggers an origination. */
  function Greet(r: Router, k: nat, n: Nbr): (Router, seq<Packet>)
    requires k < |r.ifaces|
  {
    if Heard(r.ifaces[k].nbrs, n.ip) then (r, [])
    else Originate(r.(ifaces := r.ifaces[k := r.ifaces[k].(nbrs := r.ifaces[k].nbrs + [n])]))
  }

  /** A neighbour that fell silent is dropped, which triggers an origination. */
  function Expire(r: Router, k: nat, i: nat): (Router, seq<Packet>)
    requires k < |r.ifaces| && i < |r.ifaces[k].nbrs|
  {
    var nbrs := r.ifaces[k].nbrs;
    Originate(r.(ifaces := r.ifaces[k := r.ifaces[k].(nbrs := nbrs[..i] + nbrs[i + 1..])]))
  }

  // ---- order independence of the database

  function AbsorbAll(db: seq<Lsu>, us: seq<Lsu>): seq<Lsu> {
    if us == [] then db else Absorb(AbsorbAll(db, us[..|us| - 1]), us[|us| - 1])
  }

  ghost predicate Dominates(u: Lsu, us: seq<Lsu>) {
    forall w | w in us && w.rid == u.rid :: w.seqNo <= u.seqNo
  }

  /** Whatever the order and repetition, exactly one entry per originator seen, a newest one. */
  lemma {:induction false} AbsorbAllKeepsNewest(us: seq<Lsu>, r: U32)
    ensures UniqueRids(AbsorbAll([], us))
    ensures Stored(AbsorbAll([], us), r).None? <==> forall w | w in us :: w.rid != r
    ensures var o := Stored(AbsorbAll([], us), r);
      o.Some? ==> o.value in us && o.value.rid == r && Dominates(o.value, us)
  {
    if us != [] {
      var front, u := us[..|us| - 1], us[|us| - 1];
      AbsorbAllKeepsNewest(front, r);
      AbsorbMeaning(AbsorbAll([], front), u, r);
      assert forall w :: w in us <==> w in front || w == u;
    }
  }

  lemma {:induction false} NewestStays(db: seq<Lsu>, us: seq<Lsu>, u: Lsu)
    requires UniqueRids(db) && Stored(db, u.rid) == Some(u) && Dominates(u, us)
    ensures UniqueRids(AbsorbAll(db, us)) && Stored(AbsorbAll(db, us), u.rid) == Some(u)
  {
    if us != [] {
      var front, w := us[..|us| - 1], us[|us| - 1];
      NewestStays(db, front, u);
      AbsorbMeaning(AbsorbAll(db, front), w, u.rid);
    }
  }

  ghost predicate SameEntries(db: seq<Lsu>, db': seq<Lsu>) {
    forall r: U32 :: Stored(db, r) == Stored(db', r)
  }

  ghost predicate Lists(us: seq<Lsu>, all: set<Lsu>) { forall u :: u in us <==> u in all }

  ghost predicate OrderIndependent(all: set<Lsu>) {
    forall us, ws | Lists(us, all) && Lists(ws, all) :: SameEntries(AbsorbAll([], us), AbsorbAll([], ws))
  }

  ghost predicate Newest(u: Lsu, all: set<Lsu>) {
    u in all && forall w | w in all && w.rid == u.rid :: w.seqNo <= u.seqNo
  }

  /** No originator has two different newest updates. */
  ghost predicate NewestAgree(all: set<Lsu>) {
    forall u, w | Newest(u, all) && Newest(w, all) && u.rid == w.rid :: u == w
  }

  /** Two routers that saw the same updates, in any order and with any duplication, hold the same
      database exactly when no originator issued two different newest updates. */
  lemma DatabaseIsOrderIndependentIff(all: set<Lsu>)
    ensures OrderIndependent(all) <==> NewestAgree(all)
  {
    if NewestAgree(all) {
      forall us, ws | Lists(us, all) && Lists(ws, all)
        ensures SameEntries(AbsorbAll([], us), AbsorbAll([], ws))
      {
        AgreeingListsMatch(us, ws, all);
      }
    } else {
      var u, w :| Newest(u, all) && Newest(w, all) && u.rid == w.rid && u != w;
      DisagreementShows(all, u, w);
    }
  }

  lemma DisagreementShows(all: set<Lsu>, u: Lsu, w: Lsu)
    requires Newest(u, all) && Newest(w, all) && u.rid == w.rid && u != w
    ensures !OrderIndependent(all)
  {
    var us := Enumerate(all);
    var uus, wus := [u] + us, [w] + us;
    FirstNewestWins(us, all, u);
    FirstNewestWins(us, all, w);
    assert Lists(uus, all) && Lists(wus, all);
    assert Stored(AbsorbAll([], uus), u.rid) != Stored(AbsorbAll([], wus), u.rid);
  }

  lemma AgreeingListsMatch(us: seq<Lsu>, ws: seq<Lsu>, all: set<Lsu>)
    requires NewestAgree(all) && Lists(us, all) && Lists(ws, all)
    ensures SameEntries(AbsorbAll([], us), AbsorbAll([], ws))
  {
    forall r: U32 ensures Stored(AbsorbAll([], us), r) == Stored(AbsorbAll([], ws), r) {
      AbsorbAllKeepsNewest(us, r);
      AbsorbAllKeepsNewest(ws, r);
      var o, o' := Stored(AbsorbAll([], us), r), Stored(AbsorbAll([], ws), r);
      if o.Some? && o'.Some? {
        assert Newest(o.value, all) && Newest(o'.value, all);
      }
    }
  }

  ghost function Enumerate(all: set<Lsu>): (us: seq<Lsu>)
    ensures Lists(us, all)
  {
    if all == {} then [] else
      var u :| u in all;
      Enumerate(all - {u}) + [u]
  }

  lemma {:induction false} AbsorbAllSplit(db: seq<Lsu>, us: seq<Lsu>, ws: seq<Lsu>)
    ensures AbsorbAll(db, us + ws) == AbsorbAll(AbsorbAll(db, us), ws)
    decreases |ws|
  {
    if ws == [] {
      assert us + ws == us;
    } else {
      AbsorbAllSplit(db, us, ws[..|ws| - 1]);
      assert (us + ws)[..|us + ws| - 1] == us + ws[..|ws| - 1];
    }
  }

  lemma FirstNewestWins(us: seq<Lsu>, all: set<Lsu>, u: Lsu)
    requires Lists(us, all) && Newest(u, all)
    ensures Stored(AbsorbAll([], [u] + us), u.rid) == Some(u)
  {
    AbsorbAllSplit([], [u], us);
    assert AbsorbAll([], [u]) == [u] by {
      assert [u][..0] == [];
    }
    NewestStays([u], us, u);
  }

  /** The next update replaces the one a peer holds, except where the 16-bit number wraps. */
  lemma NextUpdateIsAcceptedIff(rid: U32, s: U16, stale: seq<Lsa>, current: seq<Lsa>)
    ensures var next := Lsu(rid, Wrap(s + 1), current);
      Stored(Absorb([Lsu(rid, s, stale)], next), rid) == Some(next) <==> s != 0xffff
  {
    AbsorbMeaning([Lsu(rid, s, stale)], Lsu(rid, Wrap(s + 1), current), rid);
  }
}
