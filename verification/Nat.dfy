/** The address translator in memory: two arrays updated in place.  The methods work on any contents; where
    these are the index of one table, they say what becomes of the table. */
module Nat {
  import opened Common
  import opened NatIndex

  class NatTable {
    const hash: Hash
    const externalIp: U32
    const buckets: array<seq<Entry>>
    const assignedPorts: array<bool>
    ghost var mappings: seq<Mapping>

    ghost function State(): Memory
      reads this, buckets, assignedPorts
    {
      Memory(buckets[..], assignedPorts[..])
    }

    ghost predicate Valid()
      reads this, buckets, assignedPorts
    {
      HashOk(hash) && Indexed(hash, externalIp, State(), mappings)
    }

    constructor (hash: Hash, externalIp: U32)
      requires HashOk(hash)
      ensures Valid() && mappings == [] && this.hash == hash && this.externalIp == externalIp
      ensures fresh(buckets) && fresh(assignedPorts)
    {
      this.hash := hash;
      this.externalIp := externalIp;
      buckets := new seq<Entry>[BUCKETS](i => []);
      assignedPorts := new bool[PORTS](i => false);
      mappings := [];
    }

    /** Draws until an unassigned port comes up; None means that none of these draws was free. */
    method AssignExternalPort(draws: seq<nat>) returns (r: Option<U16>)
      requires assignedPorts.Length == PORTS
      ensures r.None? <==> AllTaken(assignedPorts[..], draws)
      ensures r.Some? ==> !assignedPorts[r.value]
      ensures r.Some? ==> exists k :: 0 <= k < |draws| && draws[k] % PORTS == r.value
                                      && forall j | 0 <= j < k :: assignedPorts[draws[j] % PORTS]
      ensures Valid() ==> (r.None? <==> AllAssigned(mappings, draws)) && (r.Some? ==> !Assigned(mappings, r.value))
    {
      r := None;
      if Valid() {
        TakenIffAssigned(hash, externalIp, State(), mappings, draws);
      }
      for i := 0 to |draws|
        invariant forall j | 0 <= j < i :: assignedPorts[draws[j] % PORTS]
      {
        var port := draws[i] % PORTS;
        if !assignedPorts[port] {
          assert draws[i] in draws;
          assert State().pool[port] == assignedPorts[port];
          return Some(port);
        }
      }
    }

    /** A mapping for an unknown internal endpoint behind an unassigned port. */
    ghost predicate IsNew(m: Mapping)
      reads this, buckets, assignedPorts
    {
      && Valid() && m.externalIp == externalIp
      && Find(mappings, Inside(m.internalIp, m.internalPort)).None? && !Assigned(mappings, m.externalPort)
    }

    /** Adds a mapping under both of its ports; the copies' flags are not set. */
    method Add(m: Mapping, now: int, first: Fins, second: Fins)
      requires Shaped(State()) && HashOk(hash)
      modifies this, buckets, assignedPorts
      ensures State() == AddMem(hash, old(State()), m, now, first, second) && mappings == old(mappings) + [m]
      ensures old(IsNew(m)) ==> Valid()
    {
      ghost var mem, ms := State(), mappings;
      assignedPorts[m.externalPort] := true;
      var b, c := hash(m.internalPort), hash(m.externalPort);
      buckets[b] := buckets[b] + [Entry(m, now, first)];
      buckets[c] := buckets[c] + [Entry(m, now, second)];
      assert forall d | 0 <= d < BUCKETS ::
          buckets[d] == mem.buckets[d] + NewEntries(hash, m, d, now, first, second);
      assert State() == AddMem(hash, mem, m, now, first, second);
      if old(IsNew(m)) {
        AddKeepsIndex(hash, externalIp, mem, ms, m, now, first, second);
      }
      mappings := mappings + [m];
    }

    /** A packet's effect on the entry it met; true when the entry goes. */
    method Meet(e: Entry, key: Key, c: Control, now: int) returns (e': Entry, deleted: bool)
      requires assignedPorts.Length == PORTS && Hit(e.m, key)
      modifies assignedPorts
      ensures e' == Touched(e, key, c, now) && deleted == Torn(e, key, c)
      ensures assignedPorts[..] ==
        if deleted then old(assignedPorts[..])[e.m.externalPort := false] else old(assignedPorts[..])
    {
      e', deleted := e.(updated := now), false;
      if c == FinAck {
        e' := if key.Inside? then e'.(fins := e'.fins.(inside := 1)) else e'.(fins := e'.fins.(outside := 1));
      }
      if c == Rst && e'.fins.inside + e'.fins.outside == 2 {
        assignedPorts[e'.m.externalPort] := false;
        deleted := true;
      }
    }

    /** The second scan of an outbound packet: rewrite and send per entry met. */
    method ScanOut(es: seq<Entry>, p: Packet, now: int) returns (kept: seq<Entry>, out: seq<Packet>)
      requires assignedPorts.Length == PORTS
      modifies assignedPorts
      ensures var key := Inside(p.saddr, p.sport);
        && kept == Kept(es, Tear(key, p.control), Touch(key, p.control, now))
        && assignedPorts[..] == Freed(old(assignedPorts[..]), es, Tear(key, p.control))
        && out == Sources(p, Hits(Maps(es), key))
    {
      ghost var key := Inside(p.saddr, p.sport);
      kept, out := [], [];
      for i := 0 to |es|
        invariant assignedPorts[..] == Freed(old(assignedPorts[..]), es[..i], Tear(key, p.control))
        invariant kept == Kept(es[..i], Tear(key, p.control), Touch(key, p.control, now))
        invariant out == Sources(p, Hits(Maps(es[..i]), key))
      {
        OneEntryMore(es, i, old(assignedPorts[..]), Tear(key, p.control), Touch(key, p.control, now));
        OneHitMore(es, i, key);
        var e, deleted := es[i], false;
        if e.m.internalIp == p.saddr && e.m.internalPort == p.sport {
          RewriteSnoc(p, Hits(Maps(es[..i]), key), e.m);
          out := out + [p.(saddr := e.m.externalIp, sport := e.m.externalPort)];
          e, deleted := Meet(e, Inside(p.saddr, p.sport), p.control, now);
        }
        if !deleted {
          kept := kept + [e];
        }
      }
      assert es[..|es|] == es;
    }

    /** The scan of an inbound packet. */
    method ScanIn(es: seq<Entry>, p: Packet, now: int) returns (kept: seq<Entry>, out: seq<Packet>)
      requires assignedPorts.Length == PORTS
      modifies assignedPorts
      ensures var key := Outside(p.daddr, p.dport);
        && kept == Kept(es, Tear(key, p.control), Touch(key, p.control, now))
        && assignedPorts[..] == Freed(old(assignedPorts[..]), es, Tear(key, p.control))
        && out == Destinations(p, Hits(Maps(es), key))
    {
      ghost var key := Outside(p.daddr, p.dport);
      kept, out := [], [];
      for i := 0 to |es|
        invariant assignedPorts[..] == Freed(old(assignedPorts[..]), es[..i], Tear(key, p.control))
        invariant kept == Kept(es[..i], Tear(key, p.control), Touch(key, p.control, now))
        invariant out == Destinations(p, Hits(Maps(es[..i]), key))
      {
        OneEntryMore(es, i, old(assignedPorts[..]), Tear(key, p.control), Touch(key, p.control, now));
        OneHitMore(es, i, key);
        var e, deleted := es[i], false;
        if e.m.externalIp == p.daddr && e.m.externalPort == p.dport {
          RewriteSnoc(p, Hits(Maps(es[..i]), key), e.m);
          out := out + [p.(daddr := e.m.internalIp, dport := e.m.internalPort)];
          e, deleted := Meet(e, Outside(p.daddr, p.dport), p.control, now);
        }
        if !deleted {
          kept := kept + [e];
        }
      }
      assert es[..|es|] == es;
    }

    /** Inbound: rewrite and send once per entry met; unknown ports yield nothing. */
    method TranslateIn(p: Packet, now: int) returns (out: seq<Packet>)
      requires Shaped(State()) && HashOk(hash)
      modifies this, buckets, assignedPorts
      ensures State() == ScanMem(hash, old(State()), Outside(p.daddr, p.dport), p.control, now)
      ensures out == InSent(hash, old(State()), p)
      ensures mappings == AfterScan(hash, old(State()), old(mappings), Outside(p.daddr, p.dport), p.control)
      ensures old(Valid()) ==>
        && (Valid() <==> !TearsInPart(hash, old(State()), old(mappings), Outside(p.daddr, p.dport), p.control))
        && out == SentIn(hash, old(mappings), p)
    {
      ghost var mem, ms := State(), mappings;
      var kept;
      kept, out := ScanIn(buckets[hash(p.dport)], p, now);
      buckets[hash(p.dport)] := kept;
      mappings := AfterScan(hash, mem, ms, Outside(p.daddr, p.dport), p.control);
      assert State() == ScanMem(hash, mem, Outside(p.daddr, p.dport), p.control, now);
      if Indexed(hash, externalIp, mem, ms) {
        ScanOutcome(hash, externalIp, mem, ms, Outside(p.daddr, p.dport), p.control, now);
        DestinationsAreSent(hash, externalIp, mem, ms, p);
      }
    }

    /** The first half of an outbound packet: find or create the flow's mapping. */
    method FindOrAdd(p: Packet, draws: seq<nat>, now: int, first: Fins, second: Fins)
      returns (ok: bool, ghost k: Chance)
      requires Shaped(State()) && HashOk(hash)
      modifies this, buckets, assignedPorts
      ensures k == Chance(now, k.drawn, first, second)
      ensures !ok <==> !Known(hash, old(State()), Inside(p.saddr, p.sport)) && AllTaken(old(assignedPorts[..]), draws)
      ensures !ok ==> State() == old(State()) && mappings == old(mappings)
      ensures ok ==>
        && (!Known(hash, old(State()), Inside(p.saddr, p.sport)) ==> !old(assignedPorts[k.drawn]))
        && State() == GrownMem(hash, externalIp, old(State()), p, k)
        && (old(Valid()) ==> mappings == Grown(externalIp, old(mappings), p, k.drawn))
    {
      k, ok := Chance(now, 0, first, second), true;
      ghost var mem, ms := State(), mappings;
      if Indexed(hash, externalIp, mem, ms) {
        KnownIffFound(hash, externalIp, mem, ms, Inside(p.saddr, p.sport));
      }
      var found := MeetsFlow(buckets[hash(p.sport)], p.saddr, p.sport);
      if !found {
        var port := AssignExternalPort(draws);
        if port.None? {
          return false, k;
        }
        k := Chance(now, port.value, first, second);
        Add(Mapping(p.saddr, p.sport, externalIp, port.value), now, first, second);
      }
    }

    /** Outbound: find or create the flow's mapping, then rewrite and send once per entry met.  `first` and
        `second` are what the flags of two new copies happen to be. */
    method TranslateOut(p: Packet, draws: seq<nat>, now: int, first: Fins, second: Fins)
      returns (r: Option<seq<Packet>>, ghost k: Chance)
      requires Shaped(State()) && HashOk(hash)
      modifies this, buckets, assignedPorts
      ensures k == Chance(now, k.drawn, first, second)
      ensures r.None? <==> !Known(hash, old(State()), Inside(p.saddr, p.sport))
                           && AllTaken(old(assignedPorts[..]), draws)
      ensures r.None? ==> State() == old(State()) && mappings == old(mappings)
      ensures r.Some? ==>
        && (!Known(hash, old(State()), Inside(p.saddr, p.sport)) ==> !old(assignedPorts[k.drawn]))
        && State() == OutMem(hash, externalIp, old(State()), p, k)
        && r.value == OutSent(hash, externalIp, old(State()), p, k)
      ensures old(Valid()) ==>
        && (r.None? <==> Find(old(mappings), Inside(p.saddr, p.sport)).None? && AllAssigned(old(mappings), draws))
        && (r.None? ==> Valid())
      ensures old(Valid()) && r.Some? ==>
        && (Find(old(mappings), Inside(p.saddr, p.sport)).None? ==> !Assigned(old(mappings), k.drawn))
        && mappings == OutTable(hash, externalIp, old(State()), old(mappings), p, k)
        && (Valid() <==> !OutTearsInPart(hash, externalIp, old(State()), old(mappings), p, k))
        && r.value == SentOut(hash, Grown(externalIp, old(mappings), p, k.drawn), p)
    {
      hide AllTaken, AllAssigned, Table, BucketOk, Filtered, Kept, Freed, AddMem, Sources, Twice;
      ghost var mem, ms := State(), mappings;
      if Valid() {
        KnownIffFound(hash, externalIp, mem, ms, Inside(p.saddr, p.sport));
        TakenIffAssigned(hash, externalIp, mem, ms, draws);
      }
      var ok;
      ok, k := FindOrAdd(p, draws, now, first, second);
      if !ok {
        return None, k;
      }
      ghost var grown, ms' := State(), mappings;
      var kept, out := ScanOut(buckets[hash(p.sport)], p, now);
      buckets[hash(p.sport)] := kept;
      mappings := AfterScan(hash, grown, ms', Inside(p.saddr, p.sport), p.control);
      assert State() == ScanMem(hash, grown, Inside(p.saddr, p.sport), p.control, now);
      r := Some(out);
      if Indexed(hash, externalIp, mem, ms) {
        GrownIsIndexed(hash, externalIp, mem, ms, p, k);
        ScanOutcome(hash, externalIp, grown, ms', Inside(p.saddr, p.sport), p.control, now);
        SourcesAreSent(hash, externalIp, mem, ms, p, k);
      }
    }

    /** One bucket visited by the timeout sweep: idle entries go, and their ports go back. */
    method VisitBucket(es: seq<Entry>, now: int) returns (kept: seq<Entry>)
      requires assignedPorts.Length == PORTS
      modifies assignedPorts
      ensures kept == Kept(es, Idle(now), Same())
      ensures assignedPorts[..] == Freed(old(assignedPorts[..]), es, Idle(now))
    {
      kept := [];
      for i := 0 to |es|
        invariant kept == Kept(es[..i], Idle(now), Same())
        invariant assignedPorts[..] == Freed(old(assignedPorts[..]), es[..i], Idle(now))
      {
        OneEntryMore(es, i, old(assignedPorts[..]), Idle(now), Same());
        if now - es[i].updated > IDLE {
          assignedPorts[es[i].m.externalPort] := false;
        } else {
          kept := kept + [es[i]];
        }
      }
      assert es[..|es|] == es;
    }

    /** The timeout sweep: for every port assigned when its turn comes, its bucket is visited. */
    method Sweep(now: int)
      requires Shaped(State()) && HashOk(hash)
      modifies buckets, assignedPorts
      ensures State() == Swept(hash, old(State()), now, PORTS)
    {
      for i := 0 to PORTS
        invariant Shaped(State()) && State() == Swept(hash, old(State()), now, i)
      {
        if assignedPorts[i] {
          ghost var mem := State();
          var kept := VisitBucket(buckets[hash(i)], now);
          buckets[hash(i)] := kept;
          assert State() == Visit(hash, mem, now, i);
        }
      }
    }
  }

  method MeetsFlow(es: seq<Entry>, ip: U32, port: U16) returns (found: bool)
    ensures found <==> Hits(Maps(es), Inside(ip, port)) != []
  {
    found := false;
    for i := 0 to |es|
      invariant found <==> Hits(Maps(es[..i]), Inside(ip, port)) != []
    {
      if es[i].m.internalIp == ip && es[i].m.internalPort == port {
        found := true;
      }
      assert es[..i + 1][..i] == es[..i] && Maps(es[..i + 1])[..i] == Maps(es[..i]);
    }
    assert es[..|es|] == es;
  }
}
