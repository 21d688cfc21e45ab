/** The ARP cache: resolved addresses, and packets waiting for an address to be resolved.
    Every step below is one critical section, or one action taken after the lock was released. */
module ArpCache {
  import opened Common

  const SIZE := 32
  const TIMEOUT := 15
  const MAX_RETRIES := 5

  type Ip = nat
  type Mac = nat
  type Pkt = nat

  datatype Entry = Entry(ip4: Ip, mac: Mac, added: int, valid: bool)

  /** A pending request; `id` stands for the identity of the allocated entry. */
  datatype Req = Req(id: nat, iface: nat, ip4: Ip, sent: int, retries: int, packets: seq<Pkt>)

  /** A packet together with the request it waits, or waited, on. */
  datatype Item = Item(id: nat, pkt: Pkt)

  // ---- resolved addresses

  ghost predicate UniqueValid(es: seq<Entry>) {
    forall i, j | 0 <= i < j < |es| && es[i].valid && es[j].valid :: es[i].ip4 != es[j].ip4
  }

  ghost predicate Maps(es: seq<Entry>, ip: Ip, mac: Mac) {
    exists i :: 0 <= i < |es| && es[i].valid && es[i].ip4 == ip && es[i].mac == mac
  }

  ghost predicate Mapped(es: seq<Entry>, ip: Ip) {
    exists i :: 0 <= i < |es| && es[i].valid && es[i].ip4 == ip
  }

  ghost predicate HasRoom(es: seq<Entry>) { exists i :: 0 <= i < |es| && !es[i].valid }

  /** Recording ip writes the entries that hold it or, with none and some entry free, the drawn slot. */
  ghost predicate Rewritten(es: seq<Entry>, ip: Ip, slot: nat, i: int)
    requires 0 <= i < |es|
  {
    (es[i].valid && es[i].ip4 == ip) || (i == slot && !Mapped(es, ip) && HasRoom(es))
  }

  // ---- pending requests

  function Items(id: nat, pkts: seq<Pkt>): seq<Item> {
    if pkts == [] then [] else Items(id, pkts[..|pkts| - 1]) + [Item(id, pkts[|pkts| - 1])]
  }

  /** Adds a packet to the first request for the same interface and address, or to a new request
      at the head of the list; says which request, and whether it is new. */
  function Append(reqs: seq<Req>, id: nat, iface: nat, ip: Ip, pkt: Pkt, now: int): (seq<Req>, nat, bool) {
    match FindReq(reqs, iface, ip)
    case Some(k) => (reqs[k := reqs[k].(packets := reqs[k].packets + [pkt])], reqs[k].id, false)
    case None => ([Req(id, iface, ip, now, 1, [pkt])] + reqs, id, true)
  }

  function FindReq(reqs: seq<Req>, iface: nat, ip: Ip): (o: Option<nat>)
    ensures o.Some? ==> o.value < |reqs| && reqs[o.value].iface == iface && reqs[o.value].ip4 == ip
  {
    FindReqFrom(reqs, 0, iface, ip)
  }

  function FindReqFrom(reqs: seq<Req>, k: nat, iface: nat, ip: Ip): (o: Option<nat>)
    requires k <= |reqs|
    ensures o.Some? ==> k <= o.value < |reqs| && reqs[o.value].iface == iface && reqs[o.value].ip4 == ip
    decreases |reqs| - k
  {
    if k == |reqs| then None
    else if reqs[k].iface == iface && reqs[k].ip4 == ip then Some(k)
    else FindReqFrom(reqs, k + 1, iface, ip)
  }

  function FindIpFrom(reqs: seq<Req>, k: nat, ip: Ip): (o: Option<nat>)
    requires k <= |reqs|
    ensures o.Some? ==> k <= o.value < |reqs| && reqs[o.value].ip4 == ip
    decreases |reqs| - k
  {
    if k == |reqs| then None else if reqs[k].ip4 == ip then Some(k) else FindIpFrom(reqs, k + 1, ip)
  }

  /** A resolved address releases the packets of the first request for it, in order. */
  function Release(reqs: seq<Req>, ip: Ip): (seq<Req>, seq<Item>) {
    match FindIpFrom(reqs, 0, ip)
    case Some(k) => (reqs[..k] + reqs[k + 1..], Items(reqs[k].id, reqs[k].packets))
    case None => (reqs, [])
  }

  datatype Swept = Swept(reqs: seq<Req>, probes: seq<nat>, dropped: seq<Item>)

  /** What the sweep does to one request: leave it, ask again, or give up on it. */
  function SweepOne(r: Req, now: int): Swept {
    if now - r.sent < 1 then Swept([r], [], [])
    else if r.retries < MAX_RETRIES then Swept([r.(retries := r.retries + 1)], [r.id], [])
    else Swept([], [], Items(r.id, r.packets))
  }

  function Joined(a: Swept, b: Swept): Swept {
    Swept(a.reqs + b.reqs, a.probes + b.probes, a.dropped + b.dropped)
  }

  function Sweep(reqs: seq<Req>, now: int): Swept {
    if reqs == [] then Swept([], [], [])
    else Joined(Sweep(reqs[..|reqs| - 1], now), SweepOne(reqs[|reqs| - 1], now))
  }

  class ArpCache {
    const entries: array<Entry>
    var reqs: seq<Req>
    /** How many requests have been allocated. */
    var created: nat

    ghost predicate Valid()
      reads this, entries
    {
      entries.Length == SIZE && UniqueValid(entries[..])
    }

    constructor ()
      ensures Valid() && reqs == [] && created == 0 && fresh(entries)
      ensures forall ip :: !Mapped(entries[..], ip)
    {
      entries := new Entry[SIZE](i => Entry(0, 0, 0, false));
      reqs, created := [], 0;
    }

    method Lookup(ip: Ip) returns (mac: Option<Mac>)
      requires Valid()
      ensures mac.None? <==> !Mapped(entries[..], ip)
      ensures forall m: Mac :: mac == Some(m) <==> Maps(entries[..], ip, m)
    {
      for i := 0 to SIZE
        invariant forall j | 0 <= j < i :: !(entries[j].valid && entries[j].ip4 == ip)
      {
        if entries[i].valid && entries[i].ip4 == ip {
          assert entries[..][i] == entries[i];
          return Some(entries[i].mac);
        }
      }
      mac := None;
    }

    /** Returns the request to send an ARP probe for, once the lock is released. */
    method AppendPacket(iface: nat, ip: Ip, pkt: Pkt, now: int) returns (id: nat, probe: bool)
      modifies this`reqs, this`created
      ensures (reqs, id, probe) == Append(old(reqs), old(created), iface, ip, pkt, now)
      ensures created == old(created) + if probe then 1 else 0
    {
      var k := 0;
      while k < |reqs| && !(reqs[k].iface == iface && reqs[k].ip4 == ip)
        invariant k <= |reqs| && FindReqFrom(reqs, 0, iface, ip) == FindReqFrom(reqs, k, iface, ip)
      {
        k := k + 1;
      }
      if k < |reqs| {
        id, probe := reqs[k].id, false;
        reqs := reqs[k := reqs[k].(packets := reqs[k].packets + [pkt])];
      } else {
        id, probe := created, true;
        created := created + 1;
        reqs := [Req(id, iface, ip, now, 1, [pkt])] + reqs;
      }
    }

    /** Records ip -> mac; slot is the random draw.  With the table full and ip unknown the original
        writes before the start of the array, which `inBounds` reports. */
    method Record(ip: Ip, mac: Mac, now: int, slot: nat) returns (inBounds: bool)
      requires Valid() && slot < SIZE
      modifies entries
      ensures Valid()
      ensures inBounds <==> Mapped(old(entries[..]), ip) || HasRoom(old(entries[..]))
      ensures inBounds ==> Maps(entries[..], ip, mac)
      ensures forall i | 0 <= i < SIZE ::
        entries[i] == if Rewritten(old(entries[..]), ip, slot, i) then Entry(ip, mac, now, true) else old(entries[i])
    {
      var free, found := false, false;
      ghost var before := entries[..];
      for i := 0 to SIZE
        invariant found <==> exists j | 0 <= j < i :: before[j].valid && before[j].ip4 == ip
        invariant free <==> exists j | 0 <= j < i :: !before[j].valid
        invariant forall j | 0 <= j < i ::
          entries[j] == if before[j].valid && before[j].ip4 == ip then Entry(ip, mac, now, true) else before[j]
        invariant forall j | i <= j < SIZE :: entries[j] == before[j]
      {
        if entries[i].valid && entries[i].ip4 == ip {
          entries[i] := entries[i].(mac := mac, added := now);
          found := true;
        }
        if !entries[i].valid {
          free := true;
        }
      }
      inBounds := found || free;
      if !found && free {
        entries[slot] := Entry(ip, mac, now, true);
        assert entries[..][slot].mac == mac;
      } else if found {
        ghost var j :| 0 <= j < SIZE && before[j].valid && before[j].ip4 == ip;
        assert entries[..][j].mac == mac;
      }
    }

    /** The packets to send to mac, first appended first. */
    method ReleasePackets(ip: Ip) returns (out: seq<Item>)
      modifies this`reqs
      ensures (reqs, out) == Release(old(reqs), ip)
    {
      var k := 0;
      while k < |reqs| && reqs[k].ip4 != ip
        invariant k <= |reqs| && FindIpFrom(reqs, 0, ip) == FindIpFrom(reqs, k, ip)
      {
        k := k + 1;
      }
      out := [];
      if k < |reqs| {
        var r := reqs[k];
        for i := 0 to |r.packets|
          invariant out == Items(r.id, r.packets[..i])
        {
          out := out + [Item(r.id, r.packets[i])];
          assert r.packets[..i + 1][..i] == r.packets[..i];
        }
        assert r.packets[..|r.packets|] == r.packets;
        reqs := reqs[..k] + reqs[k + 1..];
      }
    }

    method Insert(ip: Ip, mac: Mac, now: int, slot: nat) returns (inBounds: bool, out: seq<Item>)
      requires Valid() && slot < SIZE
      modifies this`reqs, entries
      ensures Valid() && (reqs, out) == Release(old(reqs), ip)
      ensures inBounds <==> Mapped(old(entries[..]), ip) || HasRoom(old(entries[..]))
      ensures inBounds ==> Maps(entries[..], ip, mac)
      ensures forall i | 0 <= i < SIZE ::
        entries[i] == if Rewritten(old(entries[..]), ip, slot, i) then Entry(ip, mac, now, true) else old(entries[i])
    {
      inBounds := Record(ip, mac, now, slot);
      out := ReleasePackets(ip);
    }

    /** One pass of the sweeper under the lock: age the entries, then go through the requests. */
    method SweepOnce(now: int) returns (probes: seq<nat>, dropped: seq<Item>)
      requires Valid()
      modifies this`reqs, entries
      ensures Valid() && Swept(reqs, probes, dropped) == Sweep(old(reqs), now)
      ensures forall i | 0 <= i < SIZE ::
        entries[i] == old(entries[i]).(valid := old(entries[i]).valid && now - old(entries[i]).added < TIMEOUT)
    {
      for i := 0 to SIZE
        invariant forall j | 0 <= j < i ::
          entries[j] == old(entries[j]).(valid := old(entries[j]).valid && now - old(entries[j]).added < TIMEOUT)
        invariant forall j | i <= j < SIZE :: entries[j] == old(entries[j])
        invariant reqs == old(reqs)
      {
        if entries[i].valid && now - entries[i].added >= TIMEOUT {
          entries[i] := entries[i].(valid := false);
        }
      }
      probes, dropped := SweepRequests(now);
    }

    method SweepRequests(now: int) returns (probes: seq<nat>, dropped: seq<Item>)
      modifies this`reqs
      ensures Swept(reqs, probes, dropped) == Sweep(old(reqs), now)
    {
      var kept: seq<Req>;
      kept, probes, dropped := [], [], [];
      for k := 0 to |reqs|
        invariant reqs == old(reqs) && Swept(kept, probes, dropped) == Sweep(reqs[..k], now)
      {
        var r := reqs[k];
        if now - r.sent < 1 {
          kept := kept + [r];
        } else if r.retries < MAX_RETRIES {
          kept, probes := kept + [r.(retries := r.retries + 1)], probes + [r.id];
        } else {
          dropped := dropped + Items(r.id, r.packets);
        }
        assert reqs[..k + 1][..k] == reqs[..k];
      }
      assert reqs[..|reqs|] == reqs;
      reqs := kept;
    }
  }

  // ---- all interleavings

  datatype Fate = Sent(mac: Mac) | Unreachable
  datatype Departure = Departure(item: Item, fate: Fate)

  /** The shared state, what threads still owe after releasing the lock (first ARP probes of new
      requests, and host-unreachable reports of the sweeper), and the history of the run. */
  datatype Cache = Cache(reqs: seq<Req>, created: nat, owed: set<nat>, dropped: seq<Item>,
                         arrived: seq<Item>, departed: seq<Departure>, probes: seq<nat>)

  ghost predicate Init(c: Cache) {
    && c.reqs == [] && c.created == 0 && c.owed == {} && c.dropped == []
    && c.arrived == [] && c.departed == [] && c.probes == []
  }

  ghost predicate Appends(c: Cache, c': Cache, iface: nat, ip: Ip, pkt: Pkt, now: int) {
    var (reqs, id, isNew) := Append(c.reqs, c.created, iface, ip, pkt, now);
    c' == c.(reqs := reqs, created := c.created + (if isNew then 1 else 0),
             owed := c.owed + (if isNew then {id} else {}), arrived := c.arrived + [Item(id, pkt)])
  }

  ghost predicate Probes(c: Cache, c': Cache, id: nat) {
    id in c.owed && c' == c.(owed := c.owed - {id}, probes := c.probes + [id])
  }

  ghost function SentAll(out: seq<Item>, mac: Mac): (ds: seq<Departure>) {
    seq(|out|, i requires 0 <= i < |out| => Departure(out[i], Sent(mac)))
  }

  ghost predicate Inserts(c: Cache, c': Cache, ip: Ip, mac: Mac) {
    var (reqs, out) := Release(c.reqs, ip);
    c' == c.(reqs := reqs, departed := c.departed + SentAll(out, mac))
  }

  /** The sweeper starts a pass only after it finished reporting the previous one. */
  ghost predicate Sweeps(c: Cache, c': Cache, now: int) {
    var s := Sweep(c.reqs, now);
    c.dropped == [] && c' == c.(reqs := s.reqs, probes := c.probes + s.probes, dropped := s.dropped)
  }

  ghost predicate Reports(c: Cache, c': Cache) {
    && c.dropped != []
    && c' == c.(dropped := c.dropped[1..], departed := c.departed + [Departure(c.dropped[0], Unreachable)])
  }

  ghost predicate Next(c: Cache, c': Cache) {
    || (exists iface, ip, pkt, now :: Appends(c, c', iface, ip, pkt, now))
    || (exists id :: Probes(c, c', id))
    || (exists ip, mac :: Inserts(c, c', ip, mac))
    || (exists now :: Sweeps(c, c', now))
    || Reports(c, c')
  }

  ghost predicate Run(cs: seq<Cache>) {
    |cs| > 0 && Init(cs[0]) && forall i | 0 <= i < |cs| - 1 :: Next(cs[i], cs[i + 1])
  }

  // ---- per-request views

  function Of(id: nat, items: seq<Item>): seq<Pkt> {
    if items == [] then []
    else
      var x := items[|items| - 1];
      Of(id, items[..|items| - 1]) + if x.id == id then [x.pkt] else []
  }

  function Gone(id: nat, ds: seq<Departure>): seq<Pkt> {
    if ds == [] then []
    else
      var x := ds[|ds| - 1].item;
      Gone(id, ds[..|ds| - 1]) + if x.id == id then [x.pkt] else []
  }

  function Waiting(id: nat, reqs: seq<Req>): seq<Pkt> {
    if reqs == [] then []
    else Waiting(id, reqs[..|reqs| - 1]) + if reqs[|reqs| - 1].id == id then reqs[|reqs| - 1].packets else []
  }

  function Count(id: nat, ids: seq<nat>): nat {
    if ids == [] then 0 else Count(id, ids[..|ids| - 1]) + if ids[|ids| - 1] == id then 1 else 0
  }

  /** ARP probes sent for a request, counting a first one that its thread still owes. */
  ghost function Tried(c: Cache, id: nat): nat { Count(id, c.probes) + if id in c.owed then 1 else 0 }

  // ---- the invariant

  /** Packets leave a request in the order they came, and each is in exactly one place. */
  ghost predicate Conserved(c: Cache, id: nat) {
    Gone(id, c.departed) + Of(id, c.dropped) + Waiting(id, c.reqs) == Of(id, c.arrived)
  }

  ghost predicate Distinct(reqs: seq<Req>) { forall i, j | 0 <= i < j < |reqs| :: reqs[i].id != reqs[j].id }

  ghost predicate Ids(c: Cache) {
    && Distinct(c.reqs)
    && (forall r | r in c.reqs :: r.id < c.created)
    && (forall id | id in c.owed || id in c.probes :: id < c.created)
    && (forall x | x in c.arrived :: x.id < c.created)
  }

  ghost predicate Retries(c: Cache) {
    && (forall r | r in c.reqs :: 1 <= r.retries <= MAX_RETRIES && r.retries == Tried(c, r.id))
    && (forall x | x in c.dropped :: Retired(c, x.id))
    && (forall d | d in c.departed && d.fate.Unreachable? :: Retired(c, d.item.id))
  }

  /** Given up on, after exactly MAX_RETRIES probes, a first one still owed included. */
  ghost predicate Retired(c: Cache, id: nat) { Tried(c, id) == MAX_RETRIES && forall r | r in c.reqs :: r.id != id }

  ghost predicate Inv(c: Cache) { Ids(c) && Retries(c) && forall id: nat :: Conserved(c, id) }

  // ---- every step keeps the invariant

  lemma {:induction false} OfConcat(id: nat, a: seq<Item>, b: seq<Item>)
    ensures Of(id, a + b) == Of(id, a) + Of(id, b)
  {
    if b == [] {
      assert a + b == a;
    } else {
      OfConcat(id, a, b[..|b| - 1]);
      assert (a + b)[..|a + b| - 1] == a + b[..|b| - 1];
    }
  }

  lemma {:induction false} OfItems(id: nat, owner: nat, pkts: seq<Pkt>)
    ensures Of(id, Items(owner, pkts)) == if id == owner then pkts else []
  {
    if pkts != [] {
      OfItems(id, owner, pkts[..|pkts| - 1]);
      var front := Items(owner, pkts[..|pkts| - 1]);
      assert (front + [Item(owner, pkts[|pkts| - 1])])[..|front|] == front;
    }
  }

  lemma {:induction false} WaitingConcat(id: nat, a: seq<Req>, b: seq<Req>)
    ensures Waiting(id, a + b) == Waiting(id, a) + Waiting(id, b)
  {
    if b == [] {
      assert a + b == a;
    } else {
      WaitingConcat(id, a, b[..|b| - 1]);
      assert (a + b)[..|a + b| - 1] == a + b[..|b| - 1];
    }
  }

  lemma WaitingOne(id: nat, r: Req)
    ensures Waiting(id, [r]) == if r.id == id then r.packets else []
  {
    assert [r][..0] == [];
  }

  lemma {:induction false} NothingWaits(id: nat, reqs: seq<Req>)
    requires forall r | r in reqs :: r.id != id
    ensures Waiting(id, reqs) == []
  {
    if reqs != [] {
      NothingWaits(id, reqs[..|reqs| - 1]);
    }
  }

  lemma {:induction false} NothingOf(id: nat, items: seq<Item>)
    requires forall x | x in items :: x.id != id
    ensures Of(id, items) == []
  {
    if items != [] {
      NothingOf(id, items[..|items| - 1]);
    }
  }

  lemma {:induction false} CountConcat(id: nat, a: seq<nat>, b: seq<nat>)
    ensures Count(id, a + b) == Count(id, a) + Count(id, b)
  {
    if b == [] {
      assert a + b == a;
    } else {
      CountConcat(id, a, b[..|b| - 1]);
      assert (a + b)[..|a + b| - 1] == a + b[..|b| - 1];
    }
  }

  lemma CountOne(id: nat, x: nat)
    ensures Count(id, [x]) == if x == id then 1 else 0
  {
    assert [x][..0] == [];
  }

  lemma {:induction false} NotCounted(id: nat, ids: seq<nat>)
    requires id !in ids
    ensures Count(id, ids) == 0
  {
    if ids != [] {
      NotCounted(id, ids[..|ids| - 1]);
    }
  }

  lemma {:induction false} GoneConcat(id: nat, a: seq<Departure>, b: seq<Departure>)
    ensures Gone(id, a + b) == Gone(id, a) + Gone(id, b)
  {
    if b == [] {
      assert a + b == a;
    } else {
      GoneConcat(id, a, b[..|b| - 1]);
      assert (a + b)[..|a + b| - 1] == a + b[..|b| - 1];
    }
  }

  lemma {:induction false} GoneSent(id: nat, out: seq<Item>, mac: Mac)
    ensures Gone(id, SentAll(out, mac)) == Of(id, out)
  {
    if out != [] {
      GoneSent(id, out[..|out| - 1], mac);
      assert SentAll(out, mac)[..|out| - 1] == SentAll(out[..|out| - 1], mac);
    }
  }

  /** The packets waiting on one request, split around its place in the list. */
  lemma WaitingAt(id: nat, reqs: seq<Req>, k: nat)
    requires k < |reqs|
    ensures Waiting(id, reqs) ==
      Waiting(id, reqs[..k]) + (if reqs[k].id == id then reqs[k].packets else []) + Waiting(id, reqs[k + 1..])
    ensures Waiting(id, reqs[..k] + reqs[k + 1..]) == Waiting(id, reqs[..k]) + Waiting(id, reqs[k + 1..])
  {
    assert reqs == (reqs[..k] + [reqs[k]]) + reqs[k + 1..];
    WaitingConcat(id, reqs[..k] + [reqs[k]], reqs[k + 1..]);
    WaitingConcat(id, reqs[..k], [reqs[k]]);
    WaitingConcat(id, reqs[..k], reqs[k + 1..]);
    WaitingOne(id, reqs[k]);
  }

  lemma NewIdIsUnused(c: Cache)
    requires Inv(c)
    ensures Gone(c.created, c.departed) == Of(c.created, c.dropped) == []
    ensures Waiting(c.created, c.reqs) == Of(c.created, c.arrived) == []
    ensures Tried(c, c.created) == 0
  {
    assert Conserved(c, c.created);
    NothingOf(c.created, c.arrived);
    NotCounted(c.created, c.probes);
  }

  lemma OneItem(id: nat, x: Item)
    ensures Of(id, [x]) == if x.id == id then [x.pkt] else []
  {
    assert [x][..0] == [];
  }

  lemma Regroup(a: seq<Pkt>, b: seq<Pkt>, w: seq<Pkt>, x: seq<Pkt>)
    ensures a + b + (w + x) == (a + b + w) + x
    ensures (a + x) + w == a + (x + w)
    ensures (a + b) + w == a + (b + w)
    ensures [] + w == w && w + [] == w
  {
  }

  /** Lengthening one request's packets lengthens what waits on it, and nothing else. */
  lemma WaitingGrows(id: nat, reqs: seq<Req>, k: nat, pkt: Pkt)
    requires k < |reqs| && Distinct(reqs)
    ensures Waiting(id, reqs[k := reqs[k].(packets := reqs[k].packets + [pkt])])
      == Waiting(id, reqs) + if reqs[k].id == id then [pkt] else []
  {
    hide Waiting;
    var reqs' := reqs[k := reqs[k].(packets := reqs[k].packets + [pkt])];
    WaitingAt(id, reqs, k);
    WaitingAt(id, reqs', k);
    assert reqs'[..k] == reqs[..k] && reqs'[k + 1..] == reqs[k + 1..];
    if id == reqs[k].id {
      NothingWaits(id, reqs[..k]);
      NothingWaits(id, reqs[k + 1..]);
    }
  }

  lemma AppendToOldConserves(c: Cache, c': Cache, k: nat, pkt: Pkt, id: nat)
    requires k < |c.reqs| && Distinct(c.reqs) && Conserved(c, id)
    requires c' == c.(reqs := c.reqs[k := c.reqs[k].(packets := c.reqs[k].packets + [pkt])],
                      arrived := c.arrived + [Item(c.reqs[k].id, pkt)])
    ensures Conserved(c', id)
  {
    var x := Item(c.reqs[k].id, pkt);
    OfConcat(id, c.arrived, [x]);
    OneItem(id, x);
    WaitingGrows(id, c.reqs, k, pkt);
    Regroup(Gone(id, c.departed), Of(id, c.dropped), Waiting(id, c.reqs), Of(id, [x]));
  }

  lemma AppendToOldKeeps(c: Cache, c': Cache, k: nat, pkt: Pkt)
    requires Inv(c) && k < |c.reqs|
    requires c' == c.(reqs := c.reqs[k := c.reqs[k].(packets := c.reqs[k].packets + [pkt])],
                      arrived := c.arrived + [Item(c.reqs[k].id, pkt)])
    ensures Inv(c')
  {
    assert c.reqs[k] in c.reqs;
    forall id: nat ensures Conserved(c', id) {
      assert Conserved(c, id);
      AppendToOldConserves(c, c', k, pkt, id);
    }
    SameIdsKeepRetries(c, c');
  }

  /** Retries survive any step that keeps identities, counters and probes. */
  lemma SameIdsKeepRetries(c: Cache, c': Cache)
    requires Retries(c) && |c'.reqs| == |c.reqs| && c'.probes == c.probes && c'.owed == c.owed
    requires c'.dropped == c.dropped && c'.departed == c.departed
    requires forall i | 0 <= i < |c.reqs| :: c'.reqs[i].id == c.reqs[i].id && c'.reqs[i].retries == c.reqs[i].retries
    ensures Retries(c')
  {
    forall r' | r' in c'.reqs ensures exists r :: r in c.reqs && r.id == r'.id && r.retries == r'.retries {
      var i :| 0 <= i < |c'.reqs| && c'.reqs[i] == r';
      assert c.reqs[i] in c.reqs;
    }
    forall id: nat | Retired(c, id) ensures Retired(c', id) {
    }
  }

  lemma AppendToNewConserves(c: Cache, c': Cache, r: Req, id: nat)
    requires Conserved(c, id) && |r.packets| == 1
    requires id == r.id ==> Of(id, c.arrived) == Gone(id, c.departed) == Of(id, c.dropped) == Waiting(id, c.reqs) == []
    requires c'.reqs == [r] + c.reqs && c'.arrived == c.arrived + [Item(r.id, r.packets[0])]
    requires c'.departed == c.departed && c'.dropped == c.dropped
    ensures Conserved(c', id)
  {
    OfConcat(id, c.arrived, [Item(r.id, r.packets[0])]);
    OneItem(id, Item(r.id, r.packets[0]));
    WaitingConcat(id, [r], c.reqs);
    WaitingOne(id, r);
  }

  lemma NewRequestRetries(c: Cache, c': Cache, r: Req)
    requires Ids(c) && Retries(c) && Tried(c, c.created) == 0 && r.id == c.created && r.retries == 1
    requires c'.reqs == [r] + c.reqs && c'.owed == c.owed + {r.id} && c'.probes == c.probes
    requires c'.departed == c.departed && c'.dropped == c.dropped
    ensures Retries(c')
  {
    forall id: nat | id != r.id ensures Tried(c', id) == Tried(c, id) {
    }
    forall id: nat | Retired(c, id) ensures Retired(c', id) {
    }
  }

  lemma AppendToNewKeeps(c: Cache, c': Cache, r: Req)
    requires Inv(c) && r.id == c.created && r.retries == 1 && |r.packets| == 1
    requires c' == c.(reqs := [r] + c.reqs, created := c.created + 1, owed := c.owed + {r.id},
                      arrived := c.arrived + [Item(r.id, r.packets[0])])
    ensures Inv(c')
  {
    NewIdIsUnused(c);
    forall id: nat ensures Conserved(c', id) {
      assert Conserved(c, id);
      AppendToNewConserves(c, c', r, id);
    }
    NewRequestRetries(c, c', r);
  }

  lemma AppendKeeps(c: Cache, c': Cache, iface: nat, ip: Ip, pkt: Pkt, now: int)
    requires Inv(c) && Appends(c, c', iface, ip, pkt, now)
    ensures Inv(c')
  {
    match FindReq(c.reqs, iface, ip)
    case Some(k) =>
      assert c.owed + {} == c.owed;
      AppendToOldKeeps(c, c', k, pkt);
    case None =>
      AppendToNewKeeps(c, c', Req(c.created, iface, ip, now, 1, [pkt]));
  }

  lemma ProbeKeeps(c: Cache, c': Cache, id: nat)
    requires Inv(c) && Probes(c, c', id)
    ensures Inv(c')
  {
    forall x: nat ensures Tried(c', x) == Tried(c, x) && Conserved(c', x) {
      CountConcat(x, c.probes, [id]);
      CountOne(x, id);
      assert Conserved(c, x);
    }
  }

  lemma InsertKeeps(c: Cache, c': Cache, ip: Ip, mac: Mac)
    requires Inv(c) && Inserts(c, c', ip, mac)
    ensures Inv(c')
  {
    match FindIpFrom(c.reqs, 0, ip)
    case Some(k) =>
      assert c'.departed == c.departed + SentAll(Items(c.reqs[k].id, c.reqs[k].packets), mac);
      ReleaseKeeps(c, c', k, mac);
    case None =>
      assert c'.departed == c.departed;
      assert c' == c;
  }

  lemma Middle(a: seq<Pkt>, p: seq<Pkt>, b: seq<Pkt>)
    ensures a + [] + b == a + b
    ensures a == b == [] ==> a + p + b == p && a + b == []
  {
  }

  /** Taking a request off the list takes away what waits on it, and nothing else. */
  lemma WaitingRemoved(id: nat, reqs: seq<Req>, k: nat)
    requires k < |reqs| && Distinct(reqs)
    ensures Waiting(id, reqs[..k] + reqs[k + 1..]) == if id == reqs[k].id then [] else Waiting(id, reqs)
    ensures id == reqs[k].id ==> Waiting(id, reqs) == reqs[k].packets
  {
    var before, after := reqs[..k], reqs[k + 1..];
    WaitingAt(id, reqs, k);
    Middle(Waiting(id, before), reqs[k].packets, Waiting(id, after));
    if id == reqs[k].id {
      assert (forall r | r in before :: r.id != id) && (forall r | r in after :: r.id != id);
      NothingWaits(id, before);
      NothingWaits(id, after);
    }
  }

  lemma SentFirst(g: seq<Pkt>, p: seq<Pkt>)
    ensures (g + p) + [] + [] == g + [] + p
  {
  }

  lemma ReleaseConserves(c: Cache, c': Cache, k: nat, mac: Mac, id: nat)
    requires k < |c.reqs| && Distinct(c.reqs) && Conserved(c, id)
    requires id == c.reqs[k].id ==> Of(id, c.dropped) == []
    requires c'.reqs == c.reqs[..k] + c.reqs[k + 1..] && c'.dropped == c.dropped && c'.arrived == c.arrived
    requires c'.departed == c.departed + SentAll(Items(c.reqs[k].id, c.reqs[k].packets), mac)
    ensures Conserved(c', id)
  {
    var r := c.reqs[k];
    var out := Items(r.id, r.packets);
    GoneConcat(id, c.departed, SentAll(out, mac));
    GoneSent(id, out, mac);
    OfItems(id, r.id, r.packets);
    WaitingRemoved(id, c.reqs, k);
    if id == r.id {
      SentFirst(Gone(id, c.departed), r.packets);
    } else {
      assert Gone(id, c.departed) + [] == Gone(id, c.departed);
    }
  }

  lemma ReleaseKeeps(c: Cache, c': Cache, k: nat, mac: Mac)
    requires Inv(c) && k < |c.reqs|
    requires c' == c.(reqs := c.reqs[..k] + c.reqs[k + 1..],
                      departed := c.departed + SentAll(Items(c.reqs[k].id, c.reqs[k].packets), mac))
    ensures Inv(c')
  {
    assert c.reqs[k] in c.reqs;
    forall id: nat ensures Conserved(c', id) {
      assert Conserved(c, id);
      if id == c.reqs[k].id {
        NothingOf(id, c.dropped);
      }
      ReleaseConserves(c, c', k, mac, id);
    }
    assert forall x | x in c'.reqs :: x in c.reqs;
    assert forall id: nat | Retired(c, id) :: Retired(c', id);
    assert forall d | d in c'.departed && d.fate.Unreachable? :: d in c.departed;
  }

  lemma ReportConserves(c: Cache, c': Cache, id: nat)
    requires Reports(c, c') && Conserved(c, id)
    ensures Conserved(c', id)
  {
    var x, d := c.dropped[0], Departure(c.dropped[0], Unreachable);
    assert c.dropped == [x] + c.dropped[1..];
    GoneConcat(id, c.departed, [d]);
    OfConcat(id, [x], c.dropped[1..]);
    OneItem(id, x);
    assert [d][..0] == [];
    Regroup(Gone(id, c.departed), [], Of(id, c.dropped[1..]), Of(id, [x]));
  }

  lemma ReportKeeps(c: Cache, c': Cache)
    requires Inv(c) && Reports(c, c')
    ensures Inv(c')
  {
    forall id: nat ensures Conserved(c', id) {
      assert Conserved(c, id);
      ReportConserves(c, c', id);
    }
    assert c.dropped[0] in c.dropped;
    assert forall id: nat | Retired(c, id) :: Retired(c', id);
  }

  // ---- the sweep

  ghost predicate Listed(reqs: seq<Req>, id: nat) { exists r :: r in reqs && r.id == id }

  /** A surviving request is an old one, its counter raised once for the probe just sent. */
  ghost predicate SurvivorOf(r': Req, reqs: seq<Req>, probes: seq<nat>) {
    exists r :: r in reqs && r.id == r'.id && r'.retries == r.retries + Count(r.id, probes)
                && r'.retries <= (if r.retries < MAX_RETRIES then MAX_RETRIES else r.retries)
  }

  ghost predicate GivenUp(id: nat, reqs: seq<Req>, s: Swept) {
    (exists r :: r in reqs && r.id == id && r.retries >= MAX_RETRIES) && Count(id, s.probes) == 0 && !Listed(s.reqs, id)
  }

  ghost predicate SweepOutcome(reqs: seq<Req>, s: Swept) {
    && Distinct(s.reqs)
    && (forall r' | r' in s.reqs :: SurvivorOf(r', reqs, s.probes))
    && (forall x | x in s.dropped :: GivenUp(x.id, reqs, s))
    && (forall id | id in s.probes :: Listed(reqs, id))
  }

  lemma {:induction false} SweepMeaning(reqs: seq<Req>, now: int)
    requires Distinct(reqs)
    ensures SweepOutcome(reqs, Sweep(reqs, now))
  {
    if reqs != [] {
      var front, r := reqs[..|reqs| - 1], reqs[|reqs| - 1];
      SweepMeaning(front, now);
      assert !Listed(front, r.id);
      SweepExtend(front, r, now, Sweep(front, now));
      assert front + [r] == reqs;
    }
  }

  /** What one more request adds to the probes. */
  lemma ProbesExtend(r: Req, now: int, probes: seq<nat>, id: nat)
    requires r.id !in probes
    ensures var b := SweepOne(r, now).probes;
      Count(id, probes + b) == if id == r.id then |b| else Count(id, probes)
    ensures SweepOne(r, now).reqs != [] ==> SweepOne(r, now).reqs[0].retries == r.retries + |SweepOne(r, now).probes|
  {
    var b := SweepOne(r, now).probes;
    NotCounted(r.id, probes);
    CountConcat(id, probes, b);
    if b != [] {
      CountOne(id, r.id);
    }
  }

  lemma SurvivorsExtend(front: seq<Req>, r: Req, now: int, a: Swept, r': Req)
    requires SweepOutcome(front, a) && !Listed(front, r.id) && r' in Joined(a, SweepOne(r, now)).reqs
    ensures SurvivorOf(r', front + [r], Joined(a, SweepOne(r, now)).probes)
  {
    if r' in a.reqs {
      assert SurvivorOf(r', front, a.probes);
      var o :| o in front && o.id == r'.id && r'.retries == o.retries + Count(o.id, a.probes)
        && r'.retries <= (if o.retries < MAX_RETRIES then MAX_RETRIES else o.retries);
      ProbesExtend(r, now, a.probes, o.id);
      assert o in front + [r];
    } else {
      ProbesExtend(r, now, a.probes, r.id);
      assert (front + [r])[|front|] == r;
    }
  }

  lemma DroppedExtend(front: seq<Req>, r: Req, now: int, a: Swept, x: Item)
    requires SweepOutcome(front, a) && !Listed(front, r.id) && !Listed(a.reqs, r.id)
    requires x in Joined(a, SweepOne(r, now)).dropped
    ensures GivenUp(x.id, front + [r], Joined(a, SweepOne(r, now)))
  {
    ProbesExtend(r, now, a.probes, x.id);
    if x in a.dropped {
      assert GivenUp(x.id, front, a) && Listed(front, x.id);
      var o :| o in front && o.id == x.id && o.retries >= MAX_RETRIES;
      assert o in front + [r];
    } else {
      OnlyOwner(r);
      assert (front + [r])[|front|] == r;
    }
  }

  lemma SweepExtend(front: seq<Req>, r: Req, now: int, a: Swept)
    requires SweepOutcome(front, a) && !Listed(front, r.id)
    ensures SweepOutcome(front + [r], Joined(a, SweepOne(r, now)))
  {
    var s := Joined(a, SweepOne(r, now));
    forall x | x in a.reqs ensures x.id != r.id {
      assert SurvivorOf(x, front, a.probes);
    }
    forall r' | r' in s.reqs ensures SurvivorOf(r', front + [r], s.probes) {
      SurvivorsExtend(front, r, now, a, r');
    }
    forall x | x in s.dropped ensures GivenUp(x.id, front + [r], s) {
      DroppedExtend(front, r, now, a, x);
    }
    forall id | id in s.probes ensures Listed(front + [r], id) {
      ListedExtends(front, r, id);
    }
  }

  lemma ListedExtends(front: seq<Req>, r: Req, id: nat)
    ensures Listed(front + [r], id) <==> Listed(front, id) || id == r.id
  {
    assert forall x :: x in front + [r] <==> x in front || x == r;
  }

  lemma OnlyOwner(r: Req)
    ensures forall x | x in Items(r.id, r.packets) :: x.id == r.id
  {
    ItemsOwned(r.id, r.packets);
  }

  lemma {:induction false} ItemsOwned(id: nat, pkts: seq<Pkt>)
    ensures forall x | x in Items(id, pkts) :: x.id == id
  {
    if pkts != [] {
      ItemsOwned(id, pkts[..|pkts| - 1]);
    }
  }

  lemma SweepOneMoves(r: Req, now: int, id: nat)
    ensures var b := SweepOne(r, now);
      && Of(id, b.dropped) + Waiting(id, b.reqs) == (if r.id == id then r.packets else [])
      && (Of(id, b.dropped) == [] || Waiting(id, b.reqs) == [])
  {
    hide Items, Waiting;
    OfItems(id, r.id, r.packets);
    WaitingOne(id, r);
    WaitingOne(id, r.(retries := r.retries + 1));
    NothingWaits(id, []);
  }

  lemma Merge(d: seq<Pkt>, w: seq<Pkt>, d': seq<Pkt>, w': seq<Pkt>)
    requires d + w == [] || d' + w' == []
    ensures (d + d') + (w + w') == (d + w) + (d' + w')
  {
  }

  /** The sweep moves packets from the list to the dropped ones without loss or reordering. */
  lemma {:induction false} SweepMovesPackets(reqs: seq<Req>, now: int, id: nat)
    requires Distinct(reqs)
    ensures Of(id, Sweep(reqs, now).dropped) + Waiting(id, Sweep(reqs, now).reqs) == Waiting(id, reqs)
  {
    if reqs != [] {
      var front, r := reqs[..|reqs| - 1], reqs[|reqs| - 1];
      var a, b := Sweep(front, now), SweepOne(r, now);
      SweepMovesPackets(front, now, id);
      SweepOneMoves(r, now, id);
      OfConcat(id, a.dropped, b.dropped);
      WaitingConcat(id, a.reqs, b.reqs);
      if id == r.id {
        NothingWaits(id, front);
      }
      Merge(Of(id, a.dropped), Waiting(id, a.reqs), Of(id, b.dropped), Waiting(id, b.reqs));
    }
  }

  lemma SweepConserves(c: Cache, c': Cache, now: int, id: nat)
    requires Distinct(c.reqs) && Conserved(c, id) && Sweeps(c, c', now)
    ensures Conserved(c', id)
  {
    SweepMovesPackets(c.reqs, now, id);
    Regroup(Gone(id, c.departed), Of(id, c'.dropped), Waiting(id, c'.reqs), []);
    assert Gone(id, c.departed) + Of(id, c.dropped) == Gone(id, c.departed);
  }

  lemma SweepKeepsRetries(c: Cache, c': Cache, now: int)
    requires Ids(c) && Retries(c) && Sweeps(c, c', now) && SweepOutcome(c.reqs, Sweep(c.reqs, now))
    ensures Ids(c') && Retries(c')
  {
    var s := Sweep(c.reqs, now);
    forall id: nat ensures Tried(c', id) == Tried(c, id) + Count(id, s.probes) {
      CountConcat(id, c.probes, s.probes);
    }
    forall r' | r' in c'.reqs
      ensures r'.id < c.created && 1 <= r'.retries <= MAX_RETRIES && r'.retries == Tried(c', r'.id)
    {
      assert SurvivorOf(r', c.reqs, s.probes);
    }
    forall x | x in c'.dropped ensures Retired(c', x.id) {
      assert GivenUp(x.id, c.reqs, s);
    }
    forall d | d in c'.departed && d.fate.Unreachable? ensures Retired(c', d.item.id) {
      assert Retired(c, d.item.id) && !Listed(c.reqs, d.item.id);
      NotCounted(d.item.id, s.probes);
      forall r' | r' in c'.reqs ensures r'.id != d.item.id {
        assert SurvivorOf(r', c.reqs, s.probes);
      }
    }
  }

  lemma SweepKeeps(c: Cache, c': Cache, now: int)
    requires Inv(c) && Sweeps(c, c', now)
    ensures Inv(c')
  {
    SweepMeaning(c.reqs, now);
    SweepKeepsRetries(c, c', now);
    forall id: nat ensures Conserved(c', id) {
      assert Conserved(c, id);
      SweepConserves(c, c', now, id);
    }
  }

  lemma StepKeepsInv(c: Cache, c': Cache)
    requires Inv(c) && Next(c, c')
    ensures Inv(c')
  {
    if iface, ip, pkt, now :| Appends(c, c', iface, ip, pkt, now) {
      AppendKeeps(c, c', iface, ip, pkt, now);
    } else if id: nat :| Probes(c, c', id) {
      ProbeKeeps(c, c', id);
    } else if ip, mac :| Inserts(c, c', ip, mac) {
      InsertKeeps(c, c', ip, mac);
    } else if now :| Sweeps(c, c', now) {
      SweepKeeps(c, c', now);
    } else {
      ReportKeeps(c, c');
    }
  }

  lemma {:induction false} RunKeepsInv(cs: seq<Cache>)
    requires Run(cs)
    ensures Inv(cs[|cs| - 1])
  {
    if |cs| > 1 {
      assert Next(cs[|cs| - 2], cs[|cs| - 1]);
      RunKeepsInv(cs[..|cs| - 1]);
      StepKeepsInv(cs[|cs| - 2], cs[|cs| - 1]);
    }
  }

  /** In every interleaving: the packets given to a request are, in order, those that left it, those
      the sweeper is reporting and those still waiting; a waiting request has been probed as often
      as its counter says exactly when its first probe is no longer owed; and packets are reported
      unreachable after exactly five probes, or four if the first is still owed even then. */
  lemma PacketsAreConserved(cs: seq<Cache>, id: nat)
    requires Run(cs)
    ensures var c := cs[|cs| - 1];
      && Gone(id, c.departed) + Of(id, c.dropped) + Waiting(id, c.reqs) == Of(id, c.arrived)
      && Gone(id, c.departed) <= Of(id, c.arrived)
      && (forall r | r in c.reqs ::
           r.retries <= MAX_RETRIES && (r.retries == Count(r.id, c.probes) <==> r.id !in c.owed))
      && (forall d | d in c.departed && d.fate.Unreachable? ::
           Count(d.item.id, c.probes) == if d.item.id in c.owed then MAX_RETRIES - 1 else MAX_RETRIES)
  {
    RunKeepsInv(cs);
    var c := cs[|cs| - 1];
    assert Conserved(c, id);
    assert Gone(id, c.departed) <= Gone(id, c.departed) + (Of(id, c.dropped) + Waiting(id, c.reqs));
    assert Gone(id, c.departed) + Of(id, c.dropped) + Waiting(id, c.reqs)
        == Gone(id, c.departed) + (Of(id, c.dropped) + Waiting(id, c.reqs));
  }

  // ---- a request given up on while its first probe is still owed

  /** The request of a first packet after k sweeps, its thread not having sent the first probe. */
  function Asked(iface: nat, ip: Ip, pkt: Pkt, k: nat): Cache {
    Cache([Req(0, iface, ip, 0, k + 1, [pkt])], 1, {0}, [], [Item(0, pkt)], [], seq(k, i => 0))
  }

  lemma SweepOfOne(r: Req, now: int)
    ensures Sweep([r], now) == SweepOne(r, now)
  {
    assert [r][..0] == [];
    assert Joined(Swept([], [], []), SweepOne(r, now)) == SweepOne(r, now);
  }

  lemma AskedAgain(iface: nat, ip: Ip, pkt: Pkt, k: nat)
    requires k + 1 < MAX_RETRIES
    ensures Next(Asked(iface, ip, pkt, k), Asked(iface, ip, pkt, k + 1))
  {
    var c, c' := Asked(iface, ip, pkt, k), Asked(iface, ip, pkt, k + 1);
    SweepOfOne(c.reqs[0], 1);
    assert c'.probes == c.probes + [0];
    assert Sweeps(c, c', 1);
  }

  lemma AskedLast(iface: nat, ip: Ip, pkt: Pkt, c': Cache)
    requires var c := Asked(iface, ip, pkt, MAX_RETRIES - 1); c' == c.(reqs := [], dropped := [Item(0, pkt)])
    ensures Next(Asked(iface, ip, pkt, MAX_RETRIES - 1), c')
  {
    var c := Asked(iface, ip, pkt, MAX_RETRIES - 1);
    SweepOfOne(c.reqs[0], 1);
    assert Items(0, [pkt]) == [Item(0, pkt)] by {
      assert [pkt][..0] == [];
    }
    assert Sweeps(c, c', 1);
  }

  lemma {:induction false} CountSame(id: nat, k: nat)
    ensures Count(id, seq(k, i => id)) == k
  {
    if k > 0 {
      CountSame(id, k - 1);
      assert seq(k, i => id)[..k - 1] == seq(k - 1, i => id);
    }
  }

  lemma RunSnoc(cs: seq<Cache>, c': Cache)
    requires Run(cs) && Next(cs[|cs| - 1], c')
    ensures Run(cs + [c'])
  {
  }

  lemma {:induction false} AskedIsReached(iface: nat, ip: Ip, pkt: Pkt, k: nat) returns (cs: seq<Cache>)
    requires k < MAX_RETRIES
    ensures Run(cs) && cs[|cs| - 1] == Asked(iface, ip, pkt, k)
  {
    if k == 0 {
      cs := [Cache([], 0, {}, [], [], [], [])];
      assert Appends(cs[0], Asked(iface, ip, pkt, 0), iface, ip, pkt, 0);
    } else {
      cs := AskedIsReached(iface, ip, pkt, k - 1);
      AskedAgain(iface, ip, pkt, k - 1);
    }
    RunSnoc(cs, Asked(iface, ip, pkt, k));
    cs := cs + [Asked(iface, ip, pkt, k)];
  }

  /** The case of four probes happens: one packet, five sweeps, and its thread does nothing. */
  lemma FourProbesHappen(iface: nat, ip: Ip, pkt: Pkt) returns (cs: seq<Cache>)
    ensures Run(cs)
    ensures var c := cs[|cs| - 1];
      c.departed == [Departure(Item(0, pkt), Unreachable)] && 0 in c.owed && Count(0, c.probes) == MAX_RETRIES - 1
  {
    cs := AskedIsReached(iface, ip, pkt, MAX_RETRIES - 1);
    var last := cs[|cs| - 1];
    var given := last.(reqs := [], dropped := [Item(0, pkt)]);
    var told := given.(dropped := [], departed := [Departure(Item(0, pkt), Unreachable)]);
    AskedLast(iface, ip, pkt, given);
    RunSnoc(cs, given);
    assert given.dropped[1..] == [] && Reports(given, told);
    RunSnoc(cs + [given], told);
    cs := cs + [given] + [told];
    CountSame(0, MAX_RETRIES - 1);
  }
}
