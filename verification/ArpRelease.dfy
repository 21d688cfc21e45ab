/** Which waiting packets leave the ARP cache when, and where to: an answer releases the first request for its
    address, and a packet is sent only to an address that was resolved for the one it was given for. */
module ArpRelease {
  import opened ArpCache

  // ---- the steps, position by position

  /** Request k is the first for this address. */
  ghost predicate FirstFor(reqs: seq<Req>, ip: Ip, k: int) {
    0 <= k < |reqs| && reqs[k].ip4 == ip && forall j | 0 <= j < k :: reqs[j].ip4 != ip
  }

  ghost predicate FirstOn(reqs: seq<Req>, iface: nat, ip: Ip, k: int) {
    && 0 <= k < |reqs| && reqs[k].iface == iface && reqs[k].ip4 == ip
    && forall j | 0 <= j < k :: reqs[j].iface != iface || reqs[j].ip4 != ip
  }

  ghost predicate Asks(reqs: seq<Req>, ip: Ip) { exists k :: 0 <= k < |reqs| && reqs[k].ip4 == ip }

  ghost predicate AsksOn(reqs: seq<Req>, iface: nat, ip: Ip) {
    exists k :: 0 <= k < |reqs| && reqs[k].iface == iface && reqs[k].ip4 == ip
  }

  lemma {:induction false} FindIpIsFirst(reqs: seq<Req>, i: nat, ip: Ip)
    requires i <= |reqs|
    ensures match FindIpFrom(reqs, i, ip)
      case Some(k) => i <= k < |reqs| && reqs[k].ip4 == ip && forall j | i <= j < k :: reqs[j].ip4 != ip
      case None => forall j | i <= j < |reqs| :: reqs[j].ip4 != ip
    decreases |reqs| - i
  {
    if i < |reqs| && reqs[i].ip4 != ip {
      FindIpIsFirst(reqs, i + 1, ip);
    }
  }

  lemma {:induction false} FindReqIsFirst(reqs: seq<Req>, i: nat, iface: nat, ip: Ip)
    requires i <= |reqs|
    ensures match FindReqFrom(reqs, i, iface, ip)
      case Some(k) => i <= k < |reqs| && reqs[k].iface == iface && reqs[k].ip4 == ip
                      && forall j | i <= j < k :: reqs[j].iface != iface || reqs[j].ip4 != ip
      case None => forall j | i <= j < |reqs| :: reqs[j].iface != iface || reqs[j].ip4 != ip
    decreases |reqs| - i
  {
    if i < |reqs| && !(reqs[i].iface == iface && reqs[i].ip4 == ip) {
      FindReqIsFirst(reqs, i + 1, iface, ip);
    }
  }

  lemma {:induction false} ItemsAt(id: nat, pkts: seq<Pkt>)
    ensures |Items(id, pkts)| == |pkts| && forall i | 0 <= i < |pkts| :: Items(id, pkts)[i] == Item(id, pkts[i])
  {
    if pkts != [] {
      ItemsAt(id, pkts[..|pkts| - 1]);
    }
  }

  /** left is reqs without its k-th request. */
  ghost predicate Without(reqs: seq<Req>, k: nat, left: seq<Req>) {
    && k < |reqs| && |left| == |reqs| - 1
    && (forall j | 0 <= j < k :: left[j] == reqs[j]) && (forall j | k <= j < |left| :: left[j] == reqs[j + 1])
  }

  /** out is what r holds, in order, as items of r. */
  ghost predicate AllOf(r: Req, out: seq<Item>) {
    |out| == |r.packets| && forall i | 0 <= i < |out| :: out[i] == Item(r.id, r.packets[i])
  }

  /** An answer for an address takes the first request for it off the list and releases exactly its packets,
      in order; the other requests stay as they are. */
  lemma ReleaseMeaning(reqs: seq<Req>, ip: Ip)
    ensures var (left, out) := Release(reqs, ip);
      && (!Asks(reqs, ip) ==> left == reqs && out == [])
      && (Asks(reqs, ip) ==> exists k :: FirstFor(reqs, ip, k))
      && (forall k | FirstFor(reqs, ip, k) :: Without(reqs, k, left) && AllOf(reqs[k], out))
  {
    FindIpIsFirst(reqs, 0, ip);
    var o := FindIpFrom(reqs, 0, ip);
    if o.Some? {
      ItemsAt(reqs[o.value].id, reqs[o.value].packets);
      assert FirstFor(reqs, ip, o.value);
      assert forall k | FirstFor(reqs, ip, k) :: k == o.value;
    }
  }

  /** After an answer nothing waits for the address any more exactly when at most one request did. */
  lemma AnswerServesAllIff(reqs: seq<Req>, ip: Ip)
    ensures !Asks(Release(reqs, ip).0, ip) <==>
      forall i, j | 0 <= i < |reqs| && 0 <= j < |reqs| && reqs[i].ip4 == reqs[j].ip4 == ip :: i == j
  {
    ReleaseMeaning(reqs, ip);
    var left := Release(reqs, ip).0;
    if Asks(reqs, ip) {
      var k :| FirstFor(reqs, ip, k);
      if i :| 0 <= i < |reqs| && reqs[i].ip4 == ip && i != k {
        assert left[i - 1] == reqs[i];
      }
    }
  }

  /** A packet joins the end of the first request for its interface and address, or starts a new one, probed
      once, at the head of the list; the others stay as they are. */
  lemma AppendMeaning(reqs: seq<Req>, id: nat, iface: nat, ip: Ip, pkt: Pkt, now: int)
    ensures var (reqs', id', isNew) := Append(reqs, id, iface, ip, pkt, now);
      && (isNew <==> !AsksOn(reqs, iface, ip))
      && (isNew ==> id' == id && Without(reqs', 0, reqs) && reqs'[0] == Req(id, iface, ip, now, 1, [pkt]))
      && (!isNew ==> exists k :: FirstOn(reqs, iface, ip, k))
      && (forall k | FirstOn(reqs, iface, ip, k) ::
            && id' == reqs[k].id && |reqs'| == |reqs| && reqs'[k] == reqs[k].(packets := reqs[k].packets + [pkt])
            && forall j | 0 <= j < |reqs| && j != k :: reqs'[j] == reqs[j])
  {
    FindReqIsFirst(reqs, 0, iface, ip);
    var o := FindReq(reqs, iface, ip);
    if o.Some? {
      assert FirstOn(reqs, iface, ip, o.value);
      assert forall k | FirstOn(reqs, iface, ip, k) :: k == o.value;
    }
  }

  // ---- the sweep

  /** A request asked for within the last second is left alone; another one is asked for once more if that
      happened fewer than five times, and else given up with all its packets. */
  ghost predicate SweptAs(r: Req, now: int, s: Swept) {
    var probes, dropped := Count(r.id, s.probes), Of(r.id, s.dropped);
    if now - r.sent < 1 then r in s.reqs && probes == 0 && dropped == []
    else if r.retries < 5 then r.(retries := r.retries + 1) in s.reqs && probes == 1 && dropped == []
    else !Listed(s.reqs, r.id) && probes == 0 && dropped == r.packets
  }

  /** Nothing but the counter of a request changes. */
  ghost predicate SameAs(r: Req, r': Req) { r' == r || r' == r.(retries := r.retries + 1) }

  ghost predicate LeftOf(reqs: seq<Req>, r': Req) { exists r :: r in reqs && SameAs(r, r') }

  lemma OneSweptAs(r: Req, now: int)
    ensures SweptAs(r, now, SweepOne(r, now)) && forall x | x in SweepOne(r, now).reqs :: SameAs(r, x)
  {
    OfItems(r.id, r.id, r.packets);
    CountOne(r.id, r.id);
    hide Items;
  }

  lemma OthersUntouched(r: Req, now: int, id: nat)
    requires id != r.id
    ensures Untouched(SweepOne(r, now), id)
  {
    OfItems(id, r.id, r.packets);
    CountOne(id, r.id);
  }

  lemma {:induction false} AbsentUntouched(reqs: seq<Req>, now: int, id: nat)
    requires !Listed(reqs, id)
    ensures Untouched(Sweep(reqs, now), id)
  {
    if reqs != [] {
      var front, l := reqs[..|reqs| - 1], reqs[|reqs| - 1];
      assert l in reqs && forall r | r in front :: r in reqs;
      AbsentUntouched(front, now, id);
      OthersUntouched(l, now, id);
      OfConcat(id, Sweep(front, now).dropped, SweepOne(l, now).dropped);
      CountConcat(id, Sweep(front, now).probes, SweepOne(l, now).probes);
    }
  }

  ghost predicate Untouched(s: Swept, id: nat) {
    Of(id, s.dropped) == [] && Count(id, s.probes) == 0 && !Listed(s.reqs, id)
  }

  lemma JoinedSweptAs(a: Swept, b: Swept, r: Req, now: int)
    requires (Untouched(a, r.id) && SweptAs(r, now, b)) || (SweptAs(r, now, a) && Untouched(b, r.id))
    ensures SweptAs(r, now, Joined(a, b))
  {
    OfConcat(r.id, a.dropped, b.dropped);
    CountConcat(r.id, a.probes, b.probes);
    hide Of, Count;
  }

  /** The sweep deals in this way with every request of the list, and leaves nothing else there. */
  lemma {:induction false} SweepIsExact(reqs: seq<Req>, now: int)
    requires Distinct(reqs)
    ensures forall r | r in reqs :: SweptAs(r, now, Sweep(reqs, now))
    ensures forall r' | r' in Sweep(reqs, now).reqs :: LeftOf(reqs, r')
  {
    if reqs != [] {
      var front, l := reqs[..|reqs| - 1], reqs[|reqs| - 1];
      SweepIsExact(front, now);
      OneSweptAs(l, now);
      assert Sweep(reqs, now) == Joined(Sweep(front, now), SweepOne(l, now));
      hide SweptAs, Sweep, SweepOne, Listed, SameAs, Untouched, Joined;
      assert l in reqs && forall r | r in front :: r in reqs;
      ListedInFront(reqs);
      forall r | r in reqs ensures SweptAs(r, now, Joined(Sweep(front, now), SweepOne(l, now))) {
        if r == l {
          AbsentUntouched(front, now, l.id);
        } else {
          OthersUntouched(l, now, r.id);
        }
        JoinedSweptAs(Sweep(front, now), SweepOne(l, now), r, now);
      }
    }
  }

  lemma ListedInFront(reqs: seq<Req>)
    requires Distinct(reqs) && reqs != []
    ensures var front, l := reqs[..|reqs| - 1], reqs[|reqs| - 1];
      !Listed(front, l.id) && forall r | r in reqs :: r == l || (r in front && r.id != l.id)
  {
  }

  ghost predicate Before(reqs: seq<Req>, x: Req, y: Req) {
    exists p, q :: 0 <= p < q < |reqs| && SameAs(reqs[p], x) && SameAs(reqs[q], y)
  }

  lemma BeforeExtends(front: seq<Req>, l: Req, x: Req, y: Req)
    requires Before(front, x, y) || (LeftOf(front, x) && SameAs(l, y))
    ensures Before(front + [l], x, y)
  {
    hide SameAs;
    var reqs := front + [l];
    if Before(front, x, y) {
      var p, q :| 0 <= p < q < |front| && SameAs(front[p], x) && SameAs(front[q], y);
      assert SameAs(reqs[p], x) && SameAs(reqs[q], y);
    } else {
      var r :| r in front && SameAs(r, x);
      var p :| 0 <= p < |front| && front[p] == r;
      assert SameAs(reqs[p], x) && SameAs(reqs[|front|], y);
    }
  }

  ghost predicate Ordered(reqs: seq<Req>, left: seq<Req>) {
    forall i, j | 0 <= i < j < |left| :: Before(reqs, left[i], left[j])
  }

  lemma OrderedExtends(front: seq<Req>, l: Req, a: seq<Req>, b: seq<Req>)
    requires Ordered(front, a) && |b| <= 1
    requires (forall x | x in a :: LeftOf(front, x)) && forall x | x in b :: SameAs(l, x)
    ensures Ordered(front + [l], a + b)
  {
    hide SameAs, Before, LeftOf;
    var left := a + b;
    forall i, j | 0 <= i < j < |left| ensures Before(front + [l], left[i], left[j]) {
      assert left[i] == a[i] && a[i] in a;
      assert j >= |a| ==> left[j] == b[0] && b[0] in b;
      BeforeExtends(front, l, left[i], left[j]);
    }
  }

  /** It keeps their order. */
  lemma {:induction false} SweepKeepsOrder(reqs: seq<Req>, now: int)
    requires Distinct(reqs)
    ensures Ordered(reqs, Sweep(reqs, now).reqs)
  {
    if reqs != [] {
      var front, l := reqs[..|reqs| - 1], reqs[|reqs| - 1];
      assert Distinct(front) && front + [l] == reqs;
      assert Sweep(reqs, now) == Joined(Sweep(front, now), SweepOne(l, now));
      SweepKeepsOrder(front, now);
      SweepIsExact(front, now);
      OneSweptAs(l, now);
      assert |SweepOne(l, now).reqs| <= 1;
      hide SameAs, Sweep, SweepOne, LeftOf, SweptAs, Ordered;
      OrderedExtends(front, l, Sweep(front, now).reqs, SweepOne(l, now).reqs);
    }
  }

  // ---- in every run

  /** What an answer does to the cache: nothing if no request is for its address, and else all packets of the
      first one depart to the address it resolves to, in order, and that request is gone. */
  lemma AnswerSendsAll(c: Cache, c': Cache, ip: Ip, mac: Mac)
    requires Inserts(c, c', ip, mac)
    ensures !Asks(c.reqs, ip) ==> c' == c
    ensures forall k | FirstFor(c.reqs, ip, k) ::
      && Without(c.reqs, k, c'.reqs) && c' == c.(reqs := c'.reqs, departed := c'.departed)
      && |c'.departed| == |c.departed| + |c.reqs[k].packets| && c'.departed[..|c.departed|] == c.departed
      && forall i | 0 <= i < |c.reqs[k].packets| ::
           c'.departed[|c.departed| + i] == Departure(Item(c.reqs[k].id, c.reqs[k].packets[i]), Sent(mac))
  {
    ReleaseMeaning(c.reqs, ip);
    assert Asks(c.reqs, ip) <==> exists k :: FirstFor(c.reqs, ip, k);
    hide Release;
  }

  /** The packet waits in a request for this address. */
  ghost predicate Waits(reqs: seq<Req>, x: Item, ip: Ip) {
    exists r :: r in reqs && r.id == x.id && r.ip4 == ip && x.pkt in r.packets
  }

  /** The packet is handed over for this address, and joins this request. */
  ghost predicate GivenAt(c: Cache, c': Cache, x: Item, ip: Ip) {
    c'.arrived == c.arrived + [x] && exists iface, now :: Appends(c, c', iface, ip, x.pkt, now)
  }

  lemma AppendWaits(c: Cache, c': Cache, iface: nat, ip: Ip, pkt: Pkt, now: int, x: Item, to: Ip)
    requires Appends(c, c', iface, ip, pkt, now) && Waits(c'.reqs, x, to) && !Waits(c.reqs, x, to)
    ensures GivenAt(c, c', x, to)
  {
    AppendMeaning(c.reqs, c.created, iface, ip, pkt, now);
    var r :| r in c'.reqs && r.id == x.id && r.ip4 == to && x.pkt in r.packets;
    var j :| 0 <= j < |c'.reqs| && c'.reqs[j] == r;
    if AsksOn(c.reqs, iface, ip) {
      var k :| FirstOn(c.reqs, iface, ip, k);
      assert c.reqs[j] in c.reqs;
    }
  }

  lemma AnswerWaits(c: Cache, c': Cache, ip: Ip, mac: Mac, x: Item, to: Ip)
    requires Inserts(c, c', ip, mac) && Waits(c'.reqs, x, to)
    ensures Waits(c.reqs, x, to)
  {
    ReleaseMeaning(c.reqs, ip);
    var r :| r in c'.reqs && r.id == x.id && r.ip4 == to && x.pkt in r.packets;
    var j :| 0 <= j < |c'.reqs| && c'.reqs[j] == r;
    if Asks(c.reqs, ip) {
      var k :| FirstFor(c.reqs, ip, k);
      assert r == if j < k then c.reqs[j] else c.reqs[j + 1];
    }
    assert r in c.reqs;
  }

  lemma SweepWaits(c: Cache, c': Cache, now: int, x: Item, to: Ip)
    requires Distinct(c.reqs) && Sweeps(c, c', now) && Waits(c'.reqs, x, to)
    ensures Waits(c.reqs, x, to)
  {
    SweepIsExact(c.reqs, now);
    var r' :| r' in c'.reqs && r'.id == x.id && r'.ip4 == to && x.pkt in r'.packets;
    var r :| r in c.reqs && SameAs(r, r');
  }

  /** A packet starts to wait for an address only when it is handed over for it. */
  lemma StepWaits(c: Cache, c': Cache, x: Item, ip: Ip)
    requires Inv(c) && Next(c, c') && Waits(c'.reqs, x, ip)
    ensures Waits(c.reqs, x, ip) || GivenAt(c, c', x, ip)
  {
    hide Append, Release, Sweep, Waits, GivenAt, Conserved;
    if iface, to, pkt, now :| Appends(c, c', iface, to, pkt, now) {
      if !Waits(c.reqs, x, ip) {
        AppendWaits(c, c', iface, to, pkt, now, x, ip);
      }
    } else if id: nat :| Probes(c, c', id) {
    } else if to, mac :| Inserts(c, c', to, mac) {
      AnswerWaits(c, c', to, mac, x, ip);
    } else if now :| Sweeps(c, c', now) {
      SweepWaits(c, c', now, x, ip);
    }
  }

  ghost predicate GivenBefore(cs: seq<Cache>, i: nat, x: Item, ip: Ip)
    requires i < |cs|
  {
    exists a: nat :: a < i && GivenAt(cs[a], cs[a + 1], x, ip)
  }

  lemma StepAt(cs: seq<Cache>, i: nat)
    requires Run(cs) && i + 1 < |cs|
    ensures Inv(cs[i]) && Next(cs[i], cs[i + 1])
  {
    RunKeepsInv(cs[..i + 1]);
  }

  lemma {:induction false} WaitingWasGiven(cs: seq<Cache>, i: nat, x: Item, ip: Ip)
    requires Run(cs) && i < |cs| && Waits(cs[i].reqs, x, ip)
    ensures GivenBefore(cs, i, x, ip)
  {
    assert i > 0;
    StepAt(cs, i - 1);
    hide Run, Inv, Next, Waits, GivenAt;
    StepWaits(cs[i - 1], cs[i], x, ip);
    if Waits(cs[i - 1].reqs, x, ip) {
      WaitingWasGiven(cs, i - 1, x, ip);
    }
  }

  /** The j-th departure happens in this step, an answer that resolves ip to mac. */
  ghost predicate AnsweredAt(c: Cache, c': Cache, j: nat, ip: Ip, mac: Mac) {
    |c.departed| <= j < |c'.departed| && Inserts(c, c', ip, mac)
  }

  ghost predicate SentFor(c: Cache, c': Cache, j: nat, ip: Ip, mac: Mac) {
    AnsweredAt(c, c', j, ip, mac) && Waits(c.reqs, c'.departed[j].item, ip)
  }

  lemma AnswerSends(c: Cache, c': Cache, j: nat, ip: Ip, mac: Mac)
    requires Inserts(c, c', ip, mac) && j < |c'.departed|
    ensures |c.departed| <= |c'.departed| && (j < |c.departed| ==> c'.departed[j] == c.departed[j])
    ensures j >= |c.departed| ==> SentFor(c, c', j, ip, mac) && c'.departed[j].fate == Sent(mac)
  {
    AnswerSendsAll(c, c', ip, mac);
    if Asks(c.reqs, ip) {
      ReleaseMeaning(c.reqs, ip);
      var k :| FirstFor(c.reqs, ip, k);
      hide Release, FirstFor, SentAll;
      if j >= |c.departed| {
        assert c.reqs[k] in c.reqs && c.reqs[k].packets[j - |c.departed|] in c.reqs[k].packets;
      }
    }
  }

  /** Departures are kept, and a step that sends a packet to some address is an answer that resolves to it. */
  lemma StepSends(c: Cache, c': Cache, j: nat)
    requires Next(c, c') && j < |c'.departed|
    ensures |c.departed| <= |c'.departed| && (j < |c.departed| ==> c'.departed[j] == c.departed[j])
    ensures j >= |c.departed| && c'.departed[j].fate.Sent? ==>
      exists ip :: SentFor(c, c', j, ip, c'.departed[j].fate.mac)
  {
    hide Append, Release, Sweep, SentFor;
    if ip, mac :| Inserts(c, c', ip, mac) {
      hide Inserts;
      AnswerSends(c, c', j, ip, mac);
    } else if iface, to, pkt, now :| Appends(c, c', iface, to, pkt, now) {
    } else if id: nat :| Probes(c, c', id) {
    } else if now :| Sweeps(c, c', now) {
    }
  }

  /** Packet d.item leaves as the j-th departure at step i, an answer for ip, for which it was handed over. */
  ghost predicate SentAt(cs: seq<Cache>, i: nat, j: nat, d: Departure, ip: Ip)
    requires d.fate.Sent?
  {
    i + 1 < |cs| && AnsweredAt(cs[i], cs[i + 1], j, ip, d.fate.mac) && GivenBefore(cs, i, d.item, ip)
  }

  lemma LastStepSends(cs: seq<Cache>, n: nat, j: nat, d: Departure) returns (ip: Ip)
    requires Run(cs) && n + 1 < |cs| && |cs[n].departed| <= j < |cs[n + 1].departed|
    requires cs[n + 1].departed[j] == d && d.fate.Sent?
    ensures SentAt(cs, n, j, d, ip)
  {
    StepAt(cs, n);
    StepSends(cs[n], cs[n + 1], j);
    hide Run, Inv, Next, Waits, GivenBefore, AnsweredAt;
    ip :| SentFor(cs[n], cs[n + 1], j, ip, d.fate.mac);
    WaitingWasGiven(cs, n, d.item, ip);
  }

  /** In every run a packet sent out had been handed over for the very address that the answer resolved when
      the packet left, and went where that answer says. */
  lemma {:induction false} SentWhereAnswered(cs: seq<Cache>, n: nat, j: nat, d: Departure) returns (i: nat, ip: Ip)
    requires Run(cs) && n < |cs| && j < |cs[n].departed| && cs[n].departed[j] == d && d.fate.Sent?
    ensures i < n && SentAt(cs, i, j, d, ip)
    decreases n
  {
    assert n > 0;
    StepAt(cs, n - 1);
    hide Run, Inv, Next, SentAt, SentFor;
    StepSends(cs[n - 1], cs[n], j);
    if j < |cs[n - 1].departed| {
      i, ip := SentWhereAnswered(cs, n - 1, j, d);
    } else {
      i := n - 1;
      ip := LastStepSends(cs, n - 1, j, d);
    }
  }
}
