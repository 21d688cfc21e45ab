/** The timeout sweep of the address translator: what it deletes from the two-fold index, exactly when
    the index survives it, and when an idle flow is really forgotten. */
module NatSweep {
  import opened Common
  import opened NatIndex

  /** Port i is still assigned when its turn comes: no bucket visited before held an idle copy with it. */
  ghost predicate Reached(hash: Hash, mem: Memory, now: int, i: nat)
    requires Shaped(mem) && HashOk(hash) && i < PORTS
    decreases i
  {
    mem.pool[i] && forall j: nat ::
      j < i ==> Reached(hash, mem, now, j) ==> !Frees(mem.buckets[hash(j)], Idle(now), i)
  }

  ghost predicate Visited(hash: Hash, mem: Memory, now: int, b: nat, i: nat)
    requires Shaped(mem) && HashOk(hash) && i <= PORTS
  {
    exists j: nat :: j < i && Reached(hash, mem, now, j) && hash(j) == b
  }

  ghost predicate Released(hash: Hash, mem: Memory, now: int, p: int, i: nat)
    requires Shaped(mem) && HashOk(hash) && i <= PORTS
  {
    exists j: nat :: j < i && Reached(hash, mem, now, j) && Frees(mem.buckets[hash(j)], Idle(now), p)
  }

  lemma {:induction false} KeptAll(es: seq<Entry>, drop: Entry -> bool)
    requires forall e | e in es :: !drop(e)
    ensures Kept(es, drop, Same()) == es
  {
    if es != [] {
      var front, l := es[..|es| - 1], es[|es| - 1];
      assert es == front + [l] && !drop(l);
      KeptAll(front, drop);
      assert Kept(es, drop, Same()) == Kept(front, drop, Same()) + [l];
    }
  }

  lemma KeptTwice(es: seq<Entry>, now: int)
    ensures var kept := Kept(es, Idle(now), Same());
      Kept(kept, Idle(now), Same()) == kept && forall p: int :: !Frees(kept, Idle(now), p)
  {
    KeptMeaning(es, Idle(now), Same());
    KeptAll(Kept(es, Idle(now), Same()), Idle(now));
  }

  /** The state of the sweep after i ports. */
  ghost predicate SweptAsStated(hash: Hash, mem: Memory, now: int, i: nat, r: Memory)
    requires Shaped(mem) && HashOk(hash) && i <= PORTS
  {
    && Shaped(r)
    && (forall b | 0 <= b < BUCKETS :: BucketAsStated(hash, mem, now, i, b, r.buckets[b]))
    && (forall p | 0 <= p < PORTS :: r.pool[p] <==> mem.pool[p] && !Released(hash, mem, now, p, i))
  }

  ghost predicate BucketAsStated(hash: Hash, mem: Memory, now: int, i: nat, b: nat, es: seq<Entry>)
    requires Shaped(mem) && HashOk(hash) && i <= PORTS && b < BUCKETS
  {
    es == if Visited(hash, mem, now, b, i) then Kept(mem.buckets[b], Idle(now), Same()) else mem.buckets[b]
  }

  lemma {:induction false} SweptMeaning(hash: Hash, mem: Memory, now: int, i: nat)
    requires Shaped(mem) && HashOk(hash) && i <= PORTS
    ensures SweptAsStated(hash, mem, now, i, Swept(hash, mem, now, i))
  {
    if i > 0 {
      var r := Swept(hash, mem, now, i - 1);
      SweptMeaning(hash, mem, now, i - 1);
      assert r.pool[i - 1] <==> Reached(hash, mem, now, i - 1);
      VisitMeaning(hash, mem, now, i - 1, r);
    }
  }

  lemma VisitMeaning(hash: Hash, mem: Memory, now: int, i: nat, r: Memory)
    requires Shaped(mem) && HashOk(hash) && i < PORTS && SweptAsStated(hash, mem, now, i, r)
    requires r.pool[i] <==> Reached(hash, mem, now, i)
    ensures SweptAsStated(hash, mem, now, i + 1, Visit(hash, r, now, i))
  {
    var r' := Visit(hash, r, now, i);
    var b0 := hash(i);
    assert BucketAsStated(hash, mem, now, i, b0, r.buckets[b0]);
    KeptTwice(mem.buckets[b0], now);
    forall b | 0 <= b < BUCKETS ensures BucketAsStated(hash, mem, now, i + 1, b, r'.buckets[b]) {
      assert BucketAsStated(hash, mem, now, i, b, r.buckets[b]);
      VisitedStep(hash, mem, now, b, i);
    }
    forall p | 0 <= p < PORTS ensures r'.pool[p] <==> mem.pool[p] && !Released(hash, mem, now, p, i + 1) {
      FreedMeaning(r.pool, r.buckets[b0], Idle(now), p);
      ReleasedStep(hash, mem, now, p, i);
    }
  }

  lemma VisitedStep(hash: Hash, mem: Memory, now: int, b: nat, i: nat)
    requires Shaped(mem) && HashOk(hash) && i < PORTS
    ensures Visited(hash, mem, now, b, i + 1) <==>
      Visited(hash, mem, now, b, i) || (Reached(hash, mem, now, i) && hash(i) == b)
  {
  }

  /** A second visit of a bucket hands nothing back. */
  lemma ReleasedStep(hash: Hash, mem: Memory, now: int, p: int, i: nat)
    requires Shaped(mem) && HashOk(hash) && i < PORTS
    ensures Released(hash, mem, now, p, i + 1) <==>
      Released(hash, mem, now, p, i) || (Reached(hash, mem, now, i) && Frees(mem.buckets[hash(i)], Idle(now), p))
    ensures Visited(hash, mem, now, hash(i), i) && Frees(mem.buckets[hash(i)], Idle(now), p)
      ==> Released(hash, mem, now, p, i)
  {
  }

  // ---- what the sweep deletes

  /** An entry goes exactly when it is idle and its bucket is that of some port still assigned at its turn. */
  lemma SweepDropsIff(hash: Hash, mem: Memory, now: int, b: nat, e: Entry)
    requires Shaped(mem) && HashOk(hash) && b < BUCKETS && e in mem.buckets[b]
    ensures e !in Swept(hash, mem, now, PORTS).buckets[b] <==>
      now - e.updated > IDLE && Visited(hash, mem, now, b, PORTS)
  {
    SweptMeaning(hash, mem, now, PORTS);
    assert BucketAsStated(hash, mem, now, PORTS, b, Swept(hash, mem, now, PORTS).buckets[b]);
    KeptMeaning(mem.buckets[b], Idle(now), Same());
    assert !Idle(now)(e) ==> Same()(e) in Kept(mem.buckets[b], Idle(now), Same());
  }

  lemma SweepAddsNothing(hash: Hash, mem: Memory, now: int, b: nat, e: Entry)
    requires Shaped(mem) && HashOk(hash) && b < BUCKETS && e in Swept(hash, mem, now, PORTS).buckets[b]
    ensures e in mem.buckets[b]
  {
    SweptMeaning(hash, mem, now, PORTS);
    assert BucketAsStated(hash, mem, now, PORTS, b, Swept(hash, mem, now, PORTS).buckets[b]);
    KeptMeaning(mem.buckets[b], Idle(now), Same());
  }

  /** The copy of m in bucket b is deleted. */
  ghost predicate Dropped(hash: Hash, mem: Memory, now: int, b: nat, m: Mapping)
    requires Shaped(mem) && HashOk(hash) && b < BUCKETS
  {
    Visited(hash, mem, now, b, PORTS) && exists e :: e in mem.buckets[b] && e.m == m && now - e.updated > IDLE
  }

  ghost predicate Agree(hash: Hash, mem: Memory, now: int, m: Mapping)
    requires Shaped(mem) && HashOk(hash)
  {
    Dropped(hash, mem, now, hash(m.internalPort), m) <==> Dropped(hash, mem, now, hash(m.externalPort), m)
  }

  ghost predicate AllAgree(hash: Hash, mem: Memory, ms: seq<Mapping>, now: int)
    requires Shaped(mem) && HashOk(hash)
  {
    forall m | m in ms :: Agree(hash, mem, now, m)
  }

  lemma DroppedEntry(hash: Hash, externalIp: U32, mem: Memory, ms: seq<Mapping>, now: int, b: nat, e: Entry)
    requires HashOk(hash) && Indexed(hash, externalIp, mem, ms) && b < BUCKETS && e in mem.buckets[b]
    ensures Dropped(hash, mem, now, b, e.m) <==> Visited(hash, mem, now, b, PORTS) && Idle(now)(e)
    ensures e.m in ms && (hash(e.m.internalPort) == b || hash(e.m.externalPort) == b)
  {
    EntryIsMapped(hash, externalIp, mem, ms, b, e);
    var f := CopyOf(hash, externalIp, mem, ms, b, e.m);
  }

  /** The mappings of which neither copy is deleted, when the copies agree. */
  ghost function Spared(hash: Hash, mem: Memory, now: int): Mapping -> bool
    requires Shaped(mem) && HashOk(hash)
  {
    (m: Mapping) => !Dropped(hash, mem, now, hash(m.externalPort), m)
  }

  lemma SparedBucket(hash: Hash, externalIp: U32, mem: Memory, ms: seq<Mapping>, now: int, b: nat)
    requires HashOk(hash) && Indexed(hash, externalIp, mem, ms) && b < BUCKETS
    requires AllAgree(hash, mem, ms, now)
    ensures var es := Swept(hash, mem, now, PORTS).buckets[b];
      Maps(es) == Filtered(Maps(mem.buckets[b]), Spared(hash, mem, now)) && SameStamps(es)
  {
    var es, keep := mem.buckets[b], Spared(hash, mem, now);
    SweptMeaning(hash, mem, now, PORTS);
    assert BucketAsStated(hash, mem, now, PORTS, b, Swept(hash, mem, now, PORTS).buckets[b]);
    assert BucketOk(hash, ms, b, es);
    forall e | e in es ensures keep(e.m) <==> !(Visited(hash, mem, now, b, PORTS) && Idle(now)(e)) {
      DroppedEntry(hash, externalIp, mem, ms, now, b, e);
      assert Agree(hash, mem, now, e.m);
    }
    if Visited(hash, mem, now, b, PORTS) {
      KeptMaps(es, Idle(now), Same(), keep);
      KeptMeaning(es, Idle(now), Same());
    } else {
      MapsMeaning(es);
      FilteredAll(Maps(es), keep);
    }
  }

  lemma ReleasedHasDropped(hash: Hash, externalIp: U32, mem: Memory, ms: seq<Mapping>, now: int, p: nat)
    returns (m: Mapping, b: nat)
    requires HashOk(hash) && Indexed(hash, externalIp, mem, ms) && p < PORTS && Released(hash, mem, now, p, PORTS)
    ensures m in ms && m.externalPort == p && (b == hash(m.internalPort) || b == hash(m.externalPort))
    ensures b < BUCKETS && Dropped(hash, mem, now, b, m)
  {
    var j: nat :| j < PORTS && Reached(hash, mem, now, j) && Frees(mem.buckets[hash(j)], Idle(now), p);
    b := hash(j);
    var e :| e in mem.buckets[b] && Idle(now)(e) && e.m.externalPort == p;
    DroppedEntry(hash, externalIp, mem, ms, now, b, e);
    m := e.m;
  }

  lemma ReleasedIsLost(hash: Hash, externalIp: U32, mem: Memory, ms: seq<Mapping>, now: int, p: nat)
    requires HashOk(hash) && Indexed(hash, externalIp, mem, ms) && p < PORTS && AllAgree(hash, mem, ms, now)
    requires Released(hash, mem, now, p, PORTS)
    ensures Loses(ms, Spared(hash, mem, now), p)
  {
    var m, b := ReleasedHasDropped(hash, externalIp, mem, ms, now, p);
    assert Agree(hash, mem, now, m);
    assert !Spared(hash, mem, now)(m);
  }

  lemma LostIsReleased(hash: Hash, mem: Memory, ms: seq<Mapping>, now: int, p: nat)
    requires HashOk(hash) && Shaped(mem) && p < PORTS && Loses(ms, Spared(hash, mem, now), p)
    ensures Released(hash, mem, now, p, PORTS)
  {
    var m :| m in ms && !Spared(hash, mem, now)(m) && m.externalPort == p;
    assert Dropped(hash, mem, now, hash(p), m);
    var e :| e in mem.buckets[hash(p)] && e.m == m && Idle(now)(e);
    assert Frees(mem.buckets[hash(p)], Idle(now), p);
  }

  lemma AgreeingSweepKeepsIndex(hash: Hash, externalIp: U32, mem: Memory, ms: seq<Mapping>, now: int)
    requires HashOk(hash) && Indexed(hash, externalIp, mem, ms) && AllAgree(hash, mem, ms, now)
    ensures Indexed(hash, externalIp, Swept(hash, mem, now, PORTS), Filtered(ms, Spared(hash, mem, now)))
  {
    forall b | 0 <= b < BUCKETS {
      SparedBucket(hash, externalIp, mem, ms, now, b);
    }
    SweptMeaning(hash, mem, now, PORTS);
    forall p | 0 <= p < PORTS
      ensures Swept(hash, mem, now, PORTS).pool[p] <==> mem.pool[p] && !Loses(ms, Spared(hash, mem, now), p)
    {
      if Released(hash, mem, now, p, PORTS) {
        ReleasedIsLost(hash, externalIp, mem, ms, now, p);
      } else if Loses(ms, Spared(hash, mem, now), p) {
        LostIsReleased(hash, mem, ms, now, p);
      }
    }
    RemovalKeepsIndex(hash, externalIp, mem, Swept(hash, mem, now, PORTS), ms, Spared(hash, mem, now));
  }

  /** The memory after the sweep is again the index of some table exactly when, of every mapping, both
      copies go or both stay. */
  lemma SweepKeepsIndexIff(hash: Hash, externalIp: U32, mem: Memory, ms: seq<Mapping>, now: int)
    requires HashOk(hash) && Indexed(hash, externalIp, mem, ms)
    ensures IsIndex(hash, externalIp, Swept(hash, mem, now, PORTS)) <==> AllAgree(hash, mem, ms, now)
  {
    if AllAgree(hash, mem, ms, now) {
      AgreeingSweepKeepsIndex(hash, externalIp, mem, ms, now);
    } else if IsIndex(hash, externalIp, Swept(hash, mem, now, PORTS)) {
      var ms' :| Indexed(hash, externalIp, Swept(hash, mem, now, PORTS), ms');
      var m :| m in ms && !Agree(hash, mem, now, m);
      CopiesAgree(hash, externalIp, mem, ms, ms', now, m);
    }
  }

  lemma CopiesAgree(hash: Hash, externalIp: U32, mem: Memory, ms: seq<Mapping>, ms': seq<Mapping>, now: int, m: Mapping)
    requires HashOk(hash) && Indexed(hash, externalIp, mem, ms) && m in ms
    requires Indexed(hash, externalIp, Swept(hash, mem, now, PORTS), ms')
    ensures Agree(hash, mem, now, m)
  {
    if Dropped(hash, mem, now, hash(m.internalPort), m) {
      NoCopyLeftBehind(hash, externalIp, mem, ms, ms', now, m, hash(m.internalPort), hash(m.externalPort));
    } else if Dropped(hash, mem, now, hash(m.externalPort), m) {
      NoCopyLeftBehind(hash, externalIp, mem, ms, ms', now, m, hash(m.externalPort), hash(m.internalPort));
    }
  }

  /** A copy that is not dropped is still there. */
  lemma SparedCopyStays(hash: Hash, externalIp: U32, mem: Memory, ms: seq<Mapping>, now: int, c: nat, m: Mapping)
    returns (e: Entry)
    requires HashOk(hash) && Indexed(hash, externalIp, mem, ms) && m in ms && c < BUCKETS
    requires hash(m.internalPort) == c || hash(m.externalPort) == c
    requires !Dropped(hash, mem, now, c, m)
    ensures e in Swept(hash, mem, now, PORTS).buckets[c] && e.m == m
  {
    e := CopyOf(hash, externalIp, mem, ms, c, m);
    SweepDropsIff(hash, mem, now, c, e);
  }

  /** Where a copy is dropped, none is left. */
  lemma DroppedCopiesGo(hash: Hash, externalIp: U32, mem: Memory, ms: seq<Mapping>, now: int, b: nat, m: Mapping,
                        f: Entry)
    requires HashOk(hash) && Indexed(hash, externalIp, mem, ms) && b < BUCKETS && Dropped(hash, mem, now, b, m)
    requires f in Swept(hash, mem, now, PORTS).buckets[b]
    ensures f.m != m
  {
    SweepAddsNothing(hash, mem, now, b, f);
    SweepDropsIff(hash, mem, now, b, f);
    assert BucketOk(hash, ms, b, mem.buckets[b]);
  }

  lemma NoCopyLeftBehind(hash: Hash, externalIp: U32, mem: Memory, ms: seq<Mapping>, ms': seq<Mapping>, now: int,
                         m: Mapping, b: nat, c: nat)
    requires HashOk(hash) && Indexed(hash, externalIp, mem, ms) && m in ms
    requires Indexed(hash, externalIp, Swept(hash, mem, now, PORTS), ms')
    requires b < BUCKETS && c < BUCKETS && Dropped(hash, mem, now, b, m)
    requires (b, c) == (hash(m.internalPort), hash(m.externalPort))
          || (c, b) == (hash(m.internalPort), hash(m.externalPort))
    ensures Dropped(hash, mem, now, c, m)
  {
    if !Dropped(hash, mem, now, c, m) {
      var e := SparedCopyStays(hash, externalIp, mem, ms, now, c, m);
      EntryIsMapped(hash, externalIp, Swept(hash, mem, now, PORTS), ms', c, e);
      var f := CopyOf(hash, externalIp, Swept(hash, mem, now, PORTS), ms', b, m);
      DroppedCopiesGo(hash, externalIp, mem, ms, now, b, m, f);
    }
  }

  // ---- one idle mapping

  /** Exactly the copies of m have been idle for too long. */
  ghost predicate OnlyIdle(mem: Memory, now: int, m: Mapping)
    requires Shaped(mem)
  {
    forall b, e | 0 <= b < BUCKETS && e in mem.buckets[b] :: Idle(now)(e) <==> e.m == m
  }

  /** Packets of the flow, or to the port, still meet an entry. */
  ghost predicate StillMet(es: seq<Entry>, key: Key) { exists e :: e in es && Hit(e.m, key) }

  lemma OthersAreReached(hash: Hash, mem: Memory, now: int, m: Mapping, i: nat)
    requires Shaped(mem) && HashOk(hash) && OnlyIdle(mem, now, m) && i < PORTS && i != m.externalPort
    ensures Reached(hash, mem, now, i) <==> mem.pool[i]
  {
  }

  lemma IdleBucketIsVisitedIff(hash: Hash, externalIp: U32, mem: Memory, ms: seq<Mapping>, now: int, m: Mapping, b: nat)
    requires HashOk(hash) && Indexed(hash, externalIp, mem, ms) && OnlyIdle(mem, now, m) && b == hash(m.internalPort)
    ensures Visited(hash, mem, now, b, PORTS) <==> exists i: nat :: i < PORTS && mem.pool[i] && hash(i) == b
  {
    if i: nat :| i < PORTS && mem.pool[i] && hash(i) == b {
      if i != m.externalPort {
        OthersAreReached(hash, mem, now, m, i);
      } else if !Reached(hash, mem, now, i) {
        var j: nat :| j < i && Reached(hash, mem, now, j) && Frees(mem.buckets[hash(j)], Idle(now), i);
        var e :| e in mem.buckets[hash(j)] && Idle(now)(e);
        EntryIsMapped(hash, externalIp, mem, ms, hash(j), e);
      }
    }
  }

  /** Its port goes back to the pool in any case, but the flow is forgotten exactly when some assigned
      port hashes to the bucket of the internal port; else it goes on leaving from that port. */
  lemma TimeoutForgetsFlowIff(hash: Hash, externalIp: U32, mem: Memory, ms: seq<Mapping>, now: int, m: Mapping)
    requires HashOk(hash) && Indexed(hash, externalIp, mem, ms) && m in ms && OnlyIdle(mem, now, m)
    ensures var r := Swept(hash, mem, now, PORTS);
      && !r.pool[m.externalPort]
      && (!StillMet(r.buckets[hash(m.internalPort)], Inside(m.internalIp, m.internalPort)) <==>
            exists i: nat :: i < PORTS && mem.pool[i] && hash(i) == hash(m.internalPort))
  {
    PortGoesBack(hash, externalIp, mem, ms, now, m);
    var r, b := Swept(hash, mem, now, PORTS), hash(m.internalPort);
    IdleBucketIsVisitedIff(hash, externalIp, mem, ms, now, m, b);
    var e := CopyOf(hash, externalIp, mem, ms, b, m);
    SweepDropsIff(hash, mem, now, b, e);
    FoundIsUnique(externalIp, ms, m, Inside(m.internalIp, m.internalPort));
    forall f | f in r.buckets[b] && Hit(f.m, Inside(m.internalIp, m.internalPort))
      ensures !Dropped(hash, mem, now, b, m)
    {
      SweepAddsNothing(hash, mem, now, b, f);
      EntryIsMapped(hash, externalIp, mem, ms, b, f);
      if Dropped(hash, mem, now, b, m) {
        DroppedCopiesGo(hash, externalIp, mem, ms, now, b, m, f);
      }
    }
  }

  lemma PortGoesBack(hash: Hash, externalIp: U32, mem: Memory, ms: seq<Mapping>, now: int, m: Mapping)
    requires HashOk(hash) && Indexed(hash, externalIp, mem, ms) && m in ms && OnlyIdle(mem, now, m)
    ensures !Swept(hash, mem, now, PORTS).pool[m.externalPort]
  {
    var p: nat := m.externalPort;
    SweptMeaning(hash, mem, now, PORTS);
    var e := CopyOf(hash, externalIp, mem, ms, hash(p), m);
    assert Frees(mem.buckets[hash(p)], Idle(now), p);
    assert Assigned(ms, p) && mem.pool[p];
    assert Released(hash, mem, now, p, PORTS);
  }

  function LowByte(): Hash { (p: U16) => p % BUCKETS }

  /** One idle flow from port 1000 behind port 2000, with the low byte as hash: the sweep hands port 2000
      back, and the flow keeps using it. */
  lemma IdleFlowSurvives(mem: Memory, now: int)
    requires Indexed(LowByte(), 9, mem, [Mapping(1, 1000, 9, 2000)]) && OnlyIdle(mem, now, Mapping(1, 1000, 9, 2000))
    ensures var r := Swept(LowByte(), mem, now, PORTS);
      !r.pool[2000] && StillMet(r.buckets[LowByte()(1000)], Inside(1, 1000))
  {
    var m := Mapping(1, 1000, 9, 2000);
    TimeoutForgetsFlowIff(LowByte(), 9, mem, [m], now, m);
    if i: nat :| i < PORTS && mem.pool[i] && LowByte()(i) == LowByte()(1000) {
      assert Assigned([m], i);
    }
  }
}
