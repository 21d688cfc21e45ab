/** What a sweep leaves behind when it breaks the index: exactly when a new flow shares its external port
    with one that is still translated, and a run in which it does. */
module NatSharing {
  import opened Common
  import opened NatIndex
  import opened NatSweep
  import opened NatTeardown
  import opened NatRuns

  // ---- what packets meet, in any memory

  ghost predicate Holds(es: seq<Entry>, m: Mapping) { exists e :: e in es && e.m == m }

  lemma HitsMeaning(es: seq<Entry>, key: Key)
    ensures forall m :: m in Hits(Maps(es), key) <==> Hit(m, key) && Holds(es, m)
  {
    FilteredMeaning(Maps(es), m => Hit(m, key));
    MapsMeaning(es);
  }

  lemma HeldIsKnown(hash: Hash, mem: Memory, key: Key, m: Mapping)
    requires Shaped(mem) && hash(key.port) < BUCKETS
    ensures Hit(m, key) && Holds(mem.buckets[hash(key.port)], m) ==> Known(hash, mem, key)
  {
    HitsMeaning(mem.buckets[hash(key.port)], key);
  }

  lemma KnownIsHeld(hash: Hash, mem: Memory, key: Key) returns (m: Mapping)
    requires Shaped(mem) && hash(key.port) < BUCKETS && Known(hash, mem, key)
    ensures Hit(m, key) && Holds(mem.buckets[hash(key.port)], m)
  {
    var es := mem.buckets[hash(key.port)];
    HitsMeaning(es, key);
    m := Hits(Maps(es), key)[0];
    assert m in Hits(Maps(es), key);
  }

  lemma {:induction false} SourcesMeaning(p: Packet, met: seq<Mapping>)
    ensures forall m | m in met :: SourceRewritten(p, m) in Sources(p, met)
    ensures forall o | o in Sources(p, met) :: exists m :: m in met && o == SourceRewritten(p, m)
  {
    if met != [] {
      var front, l := met[..|met| - 1], met[|met| - 1];
      SourcesMeaning(p, front);
      assert forall m :: m in met <==> m in front || m == l;
      forall o | o in Sources(p, met) ensures exists m :: m in met && o == SourceRewritten(p, m) {
        if o in Sources(p, front) {
          var m :| m in front && o == SourceRewritten(p, m);
          assert m in met;
        }
      }
    }
  }

  lemma {:induction false} DestinationsMeaning(p: Packet, met: seq<Mapping>)
    ensures forall m | m in met :: DestinationRewritten(p, m) in Destinations(p, met)
    ensures forall o | o in Destinations(p, met) :: exists m :: m in met && o == DestinationRewritten(p, m)
  {
    if met != [] {
      var front, l := met[..|met| - 1], met[|met| - 1];
      DestinationsMeaning(p, front);
      assert forall m :: m in met <==> m in front || m == l;
      forall o | o in Destinations(p, met) ensures exists m :: m in met && o == DestinationRewritten(p, m) {
        if o in Destinations(p, front) {
          var m :| m in front && o == DestinationRewritten(p, m);
          assert m in met;
        }
      }
    }
  }

  /** Packets from m's internal endpoint leave from m's external port. */
  ghost predicate LeavesBy(hash: Hash, mem: Memory, m: Mapping)
    requires HashOk(hash) && Shaped(mem)
  {
    Holds(mem.buckets[hash(m.internalPort)], m)
  }

  lemma LeavesByIsSent(hash: Hash, externalIp: U32, mem: Memory, p: Packet, r: Chance, m: Mapping)
    requires HashOk(hash) && Shaped(mem) && LeavesBy(hash, mem, m) && Hit(m, Inside(p.saddr, p.sport))
    ensures SourceRewritten(p, m) in OutSent(hash, externalIp, mem, p, r)
  {
    HitsMeaning(mem.buckets[hash(p.sport)], Inside(p.saddr, p.sport));
    SourcesMeaning(p, Hits(Maps(mem.buckets[hash(p.sport)]), Inside(p.saddr, p.sport)));
  }

  // ---- a new flow

  function NewMapping(externalIp: U32, p: Packet, r: Chance): Mapping {
    Mapping(p.saddr, p.sport, externalIp, r.drawn)
  }

  /** After a new flow's first packet a bucket holds what it held, and the new mapping where that belongs;
      only a reset might take the new copies away at once. */
  lemma NewFlowBuckets(hash: Hash, externalIp: U32, mem: Memory, p: Packet, r: Chance, b: nat, m: Mapping)
    requires HashOk(hash) && Shaped(mem) && b < BUCKETS && !Known(hash, mem, Inside(p.saddr, p.sport))
    ensures var before := Holds(mem.buckets[b], m)
        || (m == NewMapping(externalIp, p, r) && (hash(p.sport) == b || hash(r.drawn) == b));
      && (Holds(OutMem(hash, externalIp, mem, p, r).buckets[b], m) ==> before)
      && (before && (p.control != Rst || !Hit(m, Inside(p.saddr, p.sport))) ==>
           Holds(OutMem(hash, externalIp, mem, p, r).buckets[b], m))
  {
    AddedBucket(hash, mem, NewMapping(externalIp, p, r), r, b, m);
    KeptHolds(GrownMem(hash, externalIp, mem, p, r).buckets[b], Inside(p.saddr, p.sport), p.control, r.now, m);
  }

  lemma AddedBucket(hash: Hash, mem: Memory, n: Mapping, r: Chance, b: nat, m: Mapping)
    requires HashOk(hash) && Shaped(mem) && b < BUCKETS
    ensures Holds(AddMem(hash, mem, n, r.now, r.first, r.second).buckets[b], m) <==>
      Holds(mem.buckets[b], m) || (m == n && (hash(n.internalPort) == b || hash(n.externalPort) == b))
  {
    var es, more := mem.buckets[b], NewEntries(hash, n, b, r.now, r.first, r.second);
    assert forall e :: e in es + more <==> e in es || e in more;
    assert (exists e :: e in more) <==> hash(n.internalPort) == b || hash(n.externalPort) == b by {
      assert hash(n.internalPort) == b || hash(n.externalPort) == b ==> more[0] in more;
    }
    assert forall e | e in more :: e.m == n;
  }

  lemma KeptHolds(es: seq<Entry>, key: Key, c: Control, now: int, m: Mapping)
    ensures Holds(Kept(es, Tear(key, c), Touch(key, c, now)), m) ==> Holds(es, m)
    ensures Holds(es, m) && (c != Rst || !Hit(m, key)) ==> Holds(Kept(es, Tear(key, c), Touch(key, c, now)), m)
  {
    KeptMeaning(es, Tear(key, c), Touch(key, c, now));
    if c != Rst || !Hit(m, key) {
      if e :| e in es && e.m == m {
        assert !Tear(key, c)(e) && Touch(key, c, now)(e).m == m;
      }
    }
  }

  /** In any memory: a new flow ends up sharing the port drawn with another flow exactly when some flow
      already left from that port, though the pool held it for unassigned. */
  lemma NewFlowSharesPortIff(hash: Hash, externalIp: U32, mem: Memory, p: Packet, r: Chance)
    requires HashOk(hash) && Shaped(mem) && !Known(hash, mem, Inside(p.saddr, p.sport))
    ensures var mem' := OutMem(hash, externalIp, mem, p, r);
      && (p.control != Rst ==> LeavesBy(hash, mem', NewMapping(externalIp, p, r)))
      && ((exists m :: LeavesBy(hash, mem', m) && m.externalPort == r.drawn && !Hit(m, Inside(p.saddr, p.sport)))
          <==> exists m :: LeavesBy(hash, mem, m) && m.externalPort == r.drawn)
  {
    var mem', n, key := OutMem(hash, externalIp, mem, p, r), NewMapping(externalIp, p, r), Inside(p.saddr, p.sport);
    NewFlowBuckets(hash, externalIp, mem, p, r, hash(p.sport), n);
    forall m | LeavesBy(hash, mem, m) ensures LeavesBy(hash, mem', m) && !Hit(m, key) {
      NewFlowBuckets(hash, externalIp, mem, p, r, hash(m.internalPort), m);
      HeldIsKnown(hash, mem, key, m);
    }
    forall m | LeavesBy(hash, mem', m) && !Hit(m, key) ensures LeavesBy(hash, mem, m) {
      NewFlowBuckets(hash, externalIp, mem, p, r, hash(m.internalPort), m);
    }
  }

  /** A reply to the new flow's port reaches that flow alone if no packet to that port met an entry before. */
  lemma NewFlowGetsReplies(hash: Hash, externalIp: U32, mem: Memory, p: Packet, r: Chance, reply: Packet)
    requires HashOk(hash) && Shaped(mem) && !Known(hash, mem, Inside(p.saddr, p.sport))
    requires reply.daddr == externalIp && reply.dport == r.drawn && !Known(hash, mem, Outside(externalIp, r.drawn))
    ensures var sent := InSent(hash, OutMem(hash, externalIp, mem, p, r), reply);
      && (p.control != Rst ==> sent != [])
      && forall q | q in sent :: q == reply.(daddr := p.saddr, dport := p.sport)
  {
    var mem', n, key := OutMem(hash, externalIp, mem, p, r), NewMapping(externalIp, p, r), Outside(externalIp, r.drawn);
    var b := hash(r.drawn);
    var met := Hits(Maps(mem'.buckets[b]), key);
    HitsMeaning(mem'.buckets[b], key);
    DestinationsMeaning(reply, met);
    NewFlowBuckets(hash, externalIp, mem, p, r, b, n);
    assert p.control != Rst ==> DestinationRewritten(reply, n) in Destinations(reply, met);
    forall m | m in met ensures m == n {
      NewFlowBuckets(hash, externalIp, mem, p, r, b, m);
      HeldIsKnown(hash, mem, key, m);
    }
  }

  // ---- a run in which two flows share a port

  /** Port 2000 is the only assigned one, and its own bucket is the only one visited. */
  lemma LoneBucketIsVisited(mem: Memory, now: int)
    requires Indexed(LowByte(), 9, mem, [M]) && OnlyIdle(mem, now, M)
    ensures Dropped(LowByte(), mem, now, 2000 % BUCKETS, M)
  {
    assert forall j: nat | j < PORTS && mem.pool[j] :: Assigned([M], j) && j == 2000;
    assert M in [M] && Assigned([M], 2000);
    assert Reached(LowByte(), mem, now, 2000) && LowByte()(2000) == 2000 % BUCKETS;
    var e := CopyOf(LowByte(), 9, mem, [M], 2000 % BUCKETS, M);
  }

  lemma LoneEntry(mem: Memory, now: int, b: nat, m: Mapping)
    requires Indexed(LowByte(), 9, mem, [M]) && OnlyIdle(mem, now, M) && b < BUCKETS
    requires Holds(Swept(LowByte(), mem, now, PORTS).buckets[b], m)
    ensures m == M && b == 1000 % BUCKETS
  {
    var f :| f in Swept(LowByte(), mem, now, PORTS).buckets[b] && f.m == m;
    SweepAddsNothing(LowByte(), mem, now, b, f);
    EntryIsMapped(LowByte(), 9, mem, [M], b, f);
    if b == 2000 % BUCKETS {
      LoneBucketIsVisited(mem, now);
      DroppedCopiesGo(LowByte(), 9, mem, [M], now, b, M, f);
    }
  }

  lemma LoneFlowSwept(mem: Memory, now: int)
    requires Indexed(LowByte(), 9, mem, [M]) && OnlyIdle(mem, now, M)
    ensures var r := Swept(LowByte(), mem, now, PORTS);
      && Shaped(r) && !r.pool[2000] && LeavesBy(LowByte(), r, M)
      && !Known(LowByte(), r, Outside(9, 2000)) && !Known(LowByte(), r, Inside(1, 1001))
  {
    hide OnlyIdle, Swept;
    var r := Swept(LowByte(), mem, now, PORTS);
    IdleFlowSurvives(mem, now);
    var e :| e in r.buckets[1000 % BUCKETS] && Hit(e.m, Inside(1, 1000));
    assert Holds(r.buckets[1000 % BUCKETS], e.m);
    LoneEntry(mem, now, 1000 % BUCKETS, e.m);
    if Known(LowByte(), r, Outside(9, 2000)) {
      var m := KnownIsHeld(LowByte(), r, Outside(9, 2000));
      LoneEntry(mem, now, 2000 % BUCKETS, m);
    }
    if Known(LowByte(), r, Inside(1, 1001)) {
      var m := KnownIsHeld(LowByte(), r, Inside(1, 1001));
      LoneEntry(mem, now, 1001 % BUCKETS, m);
    }
  }

  const LATER := Chance(10, 2000, ZERO, ZERO)

  /** The second flow's first packet, when port 2000 is drawn again. */
  function SecondFlow(): Packet { Packet(1, 1001, 5, 80, Plain) }

  function FirstFlow(): Packet { Packet(1, 1000, 5, 80, Plain) }

  /** The port as its two flows and their peers see it. */
  ghost predicate Shared(mem: Memory) {
    && Shaped(mem)
    && SourceRewritten(FirstFlow(), M) in OutSent(LowByte(), 9, mem, FirstFlow(), LATER)
    && SourceRewritten(SecondFlow(), M) in OutSent(LowByte(), 9, mem, SecondFlow(), LATER)
    && var sent := InSent(LowByte(), mem, Packet(5, 80, 9, 2000, Plain));
       sent != [] && forall q | q in sent :: (q.daddr, q.dport) == (1, 1001)
  }

  lemma SecondFlowShares(mem: Memory)
    requires Shaped(mem) && LeavesBy(LowByte(), mem, M)
    requires !Known(LowByte(), mem, Outside(9, 2000)) && !Known(LowByte(), mem, Inside(1, 1001))
    ensures Shared(OutMem(LowByte(), 9, mem, SecondFlow(), LATER))
  {
    var p, r, n := SecondFlow(), LATER, NewMapping(9, SecondFlow(), LATER);
    var mem' := OutMem(LowByte(), 9, mem, p, r);
    NewFlowBuckets(LowByte(), 9, mem, p, r, 1000 % BUCKETS, M);
    NewFlowBuckets(LowByte(), 9, mem, p, r, 1001 % BUCKETS, n);
    NewFlowGetsReplies(LowByte(), 9, mem, p, r, Packet(5, 80, 9, 2000, Plain));
    hide OutMem, OutSent, InSent, Known;
    LeavesByIsSent(LowByte(), 9, mem', FirstFlow(), r, M);
    LeavesByIsSent(LowByte(), 9, mem', p, r, n);
  }

  lemma StepsSnoc(hash: Hash, externalIp: U32, states: seq<State>, actions: seq<Action>, a: Action)
    requires Steps(hash, externalIp, states, actions) && Shaped(states[|states| - 1].mem)
    requires Enabled(hash, states[|states| - 1], a)
    ensures Steps(hash, externalIp, states + [Apply(hash, externalIp, states[|states| - 1], a)], actions + [a])
  {
    hide Enabled, Apply, Init;
    var more := states + [Apply(hash, externalIp, states[|states| - 1], a)];
    forall k | 0 <= k < |actions + [a]| ensures StepAt(hash, externalIp, more, actions + [a], k) {
      assert k < |actions| ==> StepAt(hash, externalIp, states, actions, k);
    }
  }

  ghost function AfterSweep(s: State): (s': State)
    requires Shaped(s.mem)
    ensures Shaped(s'.mem)
  {
    Apply(LowByte(), 9, s, Sweep(10))
  }

  ghost function AfterSecond(s: State): State
    requires Shaped(s.mem)
  {
    Apply(LowByte(), 9, AfterSweep(s), Out(SecondFlow(), LATER))
  }

  lemma AfterwardsShared(s: State)
    requires Shaped(s.mem) && !Swept(LowByte(), s.mem, 10, PORTS).pool[2000]
    requires Shared(OutMem(LowByte(), 9, Swept(LowByte(), s.mem, 10, PORTS), SecondFlow(), LATER))
    ensures Enabled(LowByte(), s, Sweep(10)) && Enabled(LowByte(), AfterSweep(s), Out(SecondFlow(), LATER))
    ensures Apply(LowByte(), 9, s, Sweep(10)) == AfterSweep(s)
    ensures Apply(LowByte(), 9, AfterSweep(s), Out(SecondFlow(), LATER)) == AfterSecond(s)
    ensures Shared(AfterSecond(s).mem)
  {
  }

  /** One flow, ten seconds of silence, a sweep, another flow: both leave from port 2000 of the same
      address, and replies reach the second only. */
  lemma TwoFlowsShareAPort() returns (states: seq<State>, actions: seq<Action>)
    ensures Steps(LowByte(), 9, states, actions) && Shared(states[|states| - 1].mem)
  {
    var s;
    states, actions, s := IdleFlowIsReached();
    RunKeepsIndex(LowByte(), 9, states, actions, |states| - 1);
    LoneFlowSwept(s.mem, 10);
    SecondFlowShares(Swept(LowByte(), s.mem, 10, PORTS));
    AfterwardsShared(s);
    hide Steps, Enabled, Shared, AfterSweep, AfterSecond;
    StepsSnoc(LowByte(), 9, states, actions, Sweep(10));
    states, actions := states + [AfterSweep(s)], actions + [Sweep(10)];
    StepsSnoc(LowByte(), 9, states, actions, Out(SecondFlow(), LATER));
    states, actions := states + [AfterSecond(s)], actions + [Out(SecondFlow(), LATER)];
  }
}
