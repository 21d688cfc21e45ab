/** Whole runs of the address translator: packets in both directions with new mappings, FINs and the
    teardown on resets, and timeout sweeps. */
module NatRuns {
  import opened Common
  import opened NatIndex
  import opened NatSweep
  import opened NatTeardown

  datatype State = State(mem: Memory, ms: seq<Mapping>)

  datatype Action = Out(p: Packet, r: Chance) | In(p: Packet, now: int) | Sweep(now: int)

  ghost predicate Init(s: State) {
    && Shaped(s.mem) && s.ms == []
    && (forall b | 0 <= b < BUCKETS :: s.mem.buckets[b] == []) && (forall p | 0 <= p < PORTS :: !s.mem.pool[p])
  }

  /** A new mapping gets a port that the pool holds for unassigned. */
  ghost predicate Enabled(hash: Hash, s: State, a: Action)
    requires HashOk(hash) && Shaped(s.mem)
  {
    a.Out? && !Known(hash, s.mem, Inside(a.p.saddr, a.p.sport)) ==> !s.mem.pool[a.r.drawn]
  }

  ghost function Apply(hash: Hash, externalIp: U32, s: State, a: Action): (s': State)
    requires HashOk(hash) && Shaped(s.mem)
    ensures Shaped(s'.mem)
  {
    match a
    case Out(p, r) => State(OutMem(hash, externalIp, s.mem, p, r), OutTable(hash, externalIp, s.mem, s.ms, p, r))
    case In(p, now) =>
      State(ScanMem(hash, s.mem, Outside(p.daddr, p.dport), p.control, now),
            AfterScan(hash, s.mem, s.ms, Outside(p.daddr, p.dport), p.control))
    case Sweep(now) => State(Swept(hash, s.mem, now, PORTS), Filtered(s.ms, Spared(hash, s.mem, now)))
  }

  /** No mapping loses one copy and keeps the other. */
  ghost predicate KeepsIndex(hash: Hash, externalIp: U32, s: State, a: Action)
    requires HashOk(hash) && Shaped(s.mem)
  {
    match a
    case Out(p, r) => !OutTearsInPart(hash, externalIp, s.mem, s.ms, p, r)
    case In(p, _) => !TearsInPart(hash, s.mem, s.ms, Outside(p.daddr, p.dport), p.control)
    case Sweep(now) => AllAgree(hash, s.mem, s.ms, now)
  }

  /** A step leaves the index of some table exactly when it keeps copies together, and then of the table
      that the step makes. */
  lemma StepKeepsIndexIff(hash: Hash, externalIp: U32, s: State, a: Action)
    requires HashOk(hash) && Indexed(hash, externalIp, s.mem, s.ms) && Enabled(hash, s, a)
    ensures var s' := Apply(hash, externalIp, s, a);
      && (IsIndex(hash, externalIp, s'.mem) <==> KeepsIndex(hash, externalIp, s, a))
      && (KeepsIndex(hash, externalIp, s, a) ==> Indexed(hash, externalIp, s'.mem, s'.ms))
  {
    match a
    case Out(p, r) =>
      var mem, ms := GrownMem(hash, externalIp, s.mem, p, r), Grown(externalIp, s.ms, p, r.drawn);
      KnownIffFound(hash, externalIp, s.mem, s.ms, Inside(p.saddr, p.sport));
      GrownIsIndexed(hash, externalIp, s.mem, s.ms, p, r);
      ScanKeepsIndexIff(hash, externalIp, mem, ms, Inside(p.saddr, p.sport), p.control, r.now);
      ScanOutcome(hash, externalIp, mem, ms, Inside(p.saddr, p.sport), p.control, r.now);
    case In(p, now) =>
      ScanKeepsIndexIff(hash, externalIp, s.mem, s.ms, Outside(p.daddr, p.dport), p.control, now);
      ScanOutcome(hash, externalIp, s.mem, s.ms, Outside(p.daddr, p.dport), p.control, now);
    case Sweep(now) =>
      SweepKeepsIndexIff(hash, externalIp, s.mem, s.ms, now);
      if AllAgree(hash, s.mem, s.ms, now) {
        AgreeingSweepKeepsIndex(hash, externalIp, s.mem, s.ms, now);
      }
  }

  // ---- runs that keep the index

  ghost predicate StepAt(hash: Hash, externalIp: U32, states: seq<State>, actions: seq<Action>, k: nat)
    requires HashOk(hash) && k < |actions| && |states| == |actions| + 1
  {
    && Shaped(states[k].mem) && Enabled(hash, states[k], actions[k])
    && states[k + 1] == Apply(hash, externalIp, states[k], actions[k])
  }

  ghost predicate KeepsAt(hash: Hash, externalIp: U32, states: seq<State>, actions: seq<Action>, k: nat)
    requires HashOk(hash) && k < |actions| && |states| == |actions| + 1
  {
    Shaped(states[k].mem) && KeepsIndex(hash, externalIp, states[k], actions[k])
  }

  ghost predicate Steps(hash: Hash, externalIp: U32, states: seq<State>, actions: seq<Action>) {
    && HashOk(hash) && |states| == |actions| + 1 && Init(states[0])
    && forall k | 0 <= k < |actions| :: StepAt(hash, externalIp, states, actions, k)
  }

  /** Every step keeps the index. */
  ghost predicate Run(hash: Hash, externalIp: U32, states: seq<State>, actions: seq<Action>) {
    && Steps(hash, externalIp, states, actions)
    && forall k | 0 <= k < |actions| :: KeepsAt(hash, externalIp, states, actions, k)
  }

  lemma {:induction false} InitIsIndexed(hash: Hash, externalIp: U32, s: State)
    requires Init(s)
    ensures Indexed(hash, externalIp, s.mem, s.ms) && AllClean(hash, s.mem)
  {
  }

  lemma {:induction false} RunKeepsIndex(hash: Hash, externalIp: U32, states: seq<State>, actions: seq<Action>, i: nat)
    requires Run(hash, externalIp, states, actions) && i < |states|
    ensures Indexed(hash, externalIp, states[i].mem, states[i].ms)
  {
    if i == 0 {
      InitIsIndexed(hash, externalIp, states[0]);
    } else {
      RunKeepsIndex(hash, externalIp, states, actions, i - 1);
      assert StepAt(hash, externalIp, states, actions, i - 1) && KeepsAt(hash, externalIp, states, actions, i - 1);
      StepKeepsIndexIff(hash, externalIp, states[i - 1], actions[i - 1]);
    }
  }

  // ---- when copies start without flags, packets always keep the index

  ghost predicate StartsUnflagged(a: Action) { a.Out? ==> a.r.first == a.r.second == ZERO }

  lemma UnflaggedStep(hash: Hash, externalIp: U32, s: State, a: Action)
    requires HashOk(hash) && Indexed(hash, externalIp, s.mem, s.ms) && Enabled(hash, s, a)
    requires AllClean(hash, s.mem) && StartsUnflagged(a)
    ensures AllClean(hash, Apply(hash, externalIp, s, a).mem)
    ensures !a.Sweep? ==> KeepsIndex(hash, externalIp, s, a)
  {
    match a
    case Out(p, r) =>
      KnownIffFound(hash, externalIp, s.mem, s.ms, Inside(p.saddr, p.sport));
      OutKeepsClean(hash, externalIp, s.mem, s.ms, p, r);
    case In(p, now) =>
      CleanIsNotTornInPart(hash, externalIp, s.mem, s.ms, Outside(p.daddr, p.dport), p.control);
      ScanKeepsClean(hash, s.mem, Outside(p.daddr, p.dport), p.control, now);
    case Sweep(now) => SweepKeepsClean(hash, s.mem, now, PORTS);
  }

  ghost predicate SweepsAgree(hash: Hash, states: seq<State>, actions: seq<Action>)
    requires HashOk(hash) && |states| == |actions| + 1
  {
    forall k | 0 <= k < |actions| && actions[k].Sweep? && Shaped(states[k].mem) ::
      AllAgree(hash, states[k].mem, states[k].ms, actions[k].now)
  }

  lemma {:induction false} UnflaggedPrefix(hash: Hash, externalIp: U32, states: seq<State>, actions: seq<Action>,
                                           i: nat)
    requires Steps(hash, externalIp, states, actions) && SweepsAgree(hash, states, actions) && i < |states|
    requires forall a | a in actions :: StartsUnflagged(a)
    ensures Indexed(hash, externalIp, states[i].mem, states[i].ms) && AllClean(hash, states[i].mem)
    ensures i > 0 ==> KeepsAt(hash, externalIp, states, actions, i - 1)
  {
    if i == 0 {
      InitIsIndexed(hash, externalIp, states[0]);
    } else {
      UnflaggedPrefix(hash, externalIp, states, actions, i - 1);
      assert StepAt(hash, externalIp, states, actions, i - 1) && StartsUnflagged(actions[i - 1]);
      UnflaggedStep(hash, externalIp, states[i - 1], actions[i - 1]);
      StepKeepsIndexIff(hash, externalIp, states[i - 1], actions[i - 1]);
    }
  }

  /** If no copy starts flagged, only a sweep can break the index. */
  lemma UnflaggedRunKeepsIndex(hash: Hash, externalIp: U32, states: seq<State>, actions: seq<Action>)
    requires Steps(hash, externalIp, states, actions) && SweepsAgree(hash, states, actions)
    requires forall a | a in actions :: StartsUnflagged(a)
    ensures Run(hash, externalIp, states, actions)
  {
    forall k | 0 <= k < |actions| ensures KeepsAt(hash, externalIp, states, actions, k) {
      UnflaggedPrefix(hash, externalIp, states, actions, k + 1);
    }
  }

  // ---- what lasts

  /** The step removes m: a reset that tears it down, or a sweep that does not spare it. */
  ghost predicate Takes(hash: Hash, externalIp: U32, s: State, a: Action, m: Mapping)
    requires HashOk(hash) && Shaped(s.mem)
  {
    match a
    case Out(p, r) =>
      var mem, ms, key := GrownMem(hash, externalIp, s.mem, p, r), Grown(externalIp, s.ms, p, r.drawn), KeyOf(a);
      TearsDown(hash, mem, ms, key, p.control) && Find(ms, key) == Some(m)
    case In(p, _) => TearsDown(hash, s.mem, s.ms, KeyOf(a), p.control) && Find(s.ms, KeyOf(a)) == Some(m)
    case Sweep(now) => !Spared(hash, s.mem, now)(m)
  }

  /** The endpoint that a packet is looked up by. */
  function KeyOf(a: Action): Key
    requires !a.Sweep?
  {
    if a.Out? then Inside(a.p.saddr, a.p.sport) else Outside(a.p.daddr, a.p.dport)
  }

  lemma StepRemovesIff(hash: Hash, externalIp: U32, s: State, a: Action, m: Mapping)
    requires HashOk(hash) && Shaped(s.mem) && m in s.ms
    ensures m in Apply(hash, externalIp, s, a).ms <==> !Takes(hash, externalIp, s, a, m)
  {
    match a
    case Out(p, r) =>
      var mem, ms := GrownMem(hash, externalIp, s.mem, p, r), Grown(externalIp, s.ms, p, r.drawn);
      assert m in ms;
      FilteredMeaning(ms, Survives(TearsDown(hash, mem, ms, KeyOf(a), p.control), Find(ms, KeyOf(a))));
    case In(p, now) =>
      FilteredMeaning(s.ms, Survives(TearsDown(hash, s.mem, s.ms, KeyOf(a), p.control), Find(s.ms, KeyOf(a))));
    case Sweep(now) => FilteredMeaning(s.ms, Spared(hash, s.mem, now));
  }

  /** A packet takes a mapping only if it is a reset and the mapping's two ports share a bucket. */
  lemma OnlyResetsTake(hash: Hash, externalIp: U32, s: State, a: Action, m: Mapping)
    requires HashOk(hash) && Shaped(s.mem) && !a.Sweep? && Takes(hash, externalIp, s, a, m)
    ensures a.p.control == Rst && hash(m.internalPort) == hash(m.externalPort) && Hit(m, KeyOf(a))
  {
  }

  ghost predicate TakesAt(hash: Hash, externalIp: U32, states: seq<State>, actions: seq<Action>, k: nat, m: Mapping)
    requires HashOk(hash) && k < |actions| && |states| == |actions| + 1
  {
    Shaped(states[k].mem) && Takes(hash, externalIp, states[k], actions[k], m)
  }

  /** No step from i to j takes m. */
  ghost predicate Untaken(hash: Hash, externalIp: U32, states: seq<State>, actions: seq<Action>, i: nat, j: nat,
                          m: Mapping)
    requires HashOk(hash) && |states| == |actions| + 1 && i <= j < |states|
  {
    forall k | i <= k < j :: !TakesAt(hash, externalIp, states, actions, k, m)
  }

  ghost predicate InTable(states: seq<State>, k: nat, m: Mapping)
    requires k < |states|
  {
    m in states[k].ms
  }

  lemma {:induction false} UntakenStays(hash: Hash, externalIp: U32, states: seq<State>, actions: seq<Action>,
                                        i: nat, j: nat, m: Mapping)
    requires Steps(hash, externalIp, states, actions) && i <= j < |states| && m in states[i].ms
    requires Untaken(hash, externalIp, states, actions, i, j, m)
    ensures m in states[j].ms
    decreases j
  {
    if i < j {
      UntakenStays(hash, externalIp, states, actions, i, j - 1, m);
      assert StepAt(hash, externalIp, states, actions, j - 1);
      assert !TakesAt(hash, externalIp, states, actions, j - 1, m);
      StepRemovesIff(hash, externalIp, states[j - 1], actions[j - 1], m);
    }
  }

  /** Whatever the hash: a mapping stays throughout exactly when no step on the way takes it. */
  lemma MappingLastsIff(hash: Hash, externalIp: U32, states: seq<State>, actions: seq<Action>,
                        i: nat, j: nat, m: Mapping)
    requires Run(hash, externalIp, states, actions) && i <= j < |states| && m in states[i].ms
    ensures (forall k | i <= k <= j :: InTable(states, k, m)) <==> Untaken(hash, externalIp, states, actions, i, j, m)
  {
    if Untaken(hash, externalIp, states, actions, i, j, m) {
      forall k | i <= k <= j ensures InTable(states, k, m) {
        UntakenStays(hash, externalIp, states, actions, i, k, m);
      }
    } else {
      var k :| i <= k < j && TakesAt(hash, externalIp, states, actions, k, m);
      assert StepAt(hash, externalIp, states, actions, k);
      if InTable(states, k, m) {
        StepRemovesIff(hash, externalIp, states[k], actions[k], m);
        assert !InTable(states, k + 1, m);
      }
    }
  }

  /** The mapping through which p leaves as o. */
  function FlowOf(p: Packet, o: Packet): Mapping { Mapping(p.saddr, p.sport, o.saddr, o.sport) }

  /** In every run and for every hash: if p left as o, and since then no step took its mapping, the flow
      leaves as o again and a packet sent back to o's source is rewritten to p's. */
  lemma RepliesReachTheSender(hash: Hash, externalIp: U32, states: seq<State>, actions: seq<Action>, i: nat, j: nat,
                              p: Packet, o: Packet, reply: Packet)
    requires Run(hash, externalIp, states, actions) && i <= j < |states|
    requires Outbound(states[i].ms, p) == Some(o) && reply.daddr == o.saddr && reply.dport == o.sport
    requires Untaken(hash, externalIp, states, actions, i, j, FlowOf(p, o))
    ensures Outbound(states[j].ms, p) == Some(o)
    ensures Inbound(states[j].ms, reply) == Some(reply.(daddr := p.saddr, dport := p.sport))
  {
    var m := FlowOf(p, o);
    assert Find(states[i].ms, Inside(p.saddr, p.sport)) == Some(m);
    UntakenStays(hash, externalIp, states, actions, i, j, m);
    RunKeepsIndex(hash, externalIp, states, actions, j);
    FoundIsUnique(externalIp, states[j].ms, m, Inside(p.saddr, p.sport));
    FoundIsUnique(externalIp, states[j].ms, m, Outside(reply.daddr, reply.dport));
  }

  /** In every run and for every hash, packets that leave from one external port come from one flow: at one
      time always, and at different times unless a step between took the earlier flow's mapping. */
  lemma FlowsNeverShareAPort(hash: Hash, externalIp: U32, states: seq<State>, actions: seq<Action>, i: nat, j: nat,
                             p: Packet, o: Packet, q: Packet)
    requires Run(hash, externalIp, states, actions) && i <= j < |states| && Outbound(states[i].ms, p) == Some(o)
    requires Outbound(states[j].ms, q).Some? && Outbound(states[j].ms, q).value.sport == o.sport
    requires Untaken(hash, externalIp, states, actions, i, j, FlowOf(p, o))
    ensures p.saddr == q.saddr && p.sport == q.sport
  {
    assert Find(states[i].ms, Inside(p.saddr, p.sport)) == Some(FlowOf(p, o));
    UntakenStays(hash, externalIp, states, actions, i, j, FlowOf(p, o));
    RunKeepsIndex(hash, externalIp, states, actions, j);
    FoundIsUnique(externalIp, states[j].ms, FlowOf(p, o), Inside(p.saddr, p.sport));
  }

  // ---- a run that reaches an idle flow

  function Empty(): State { State(Memory(seq(BUCKETS, i => []), seq(PORTS, i => false)), []) }

  /** Port 1000's first packet, at a time when port 2000 is drawn and the first copy holds these flags. */
  function FirstPacket(now: int, c: Control, first: Fins): Action {
    Out(Packet(1, 1000, 5, 80, c), Chance(now, 2000, first, ZERO))
  }

  const M := Mapping(1, 1000, 9, 2000)

  /** The state after that packet, with the low byte as hash. */
  ghost function Started(now: int, c: Control, first: Fins): (s: State)
    ensures Shaped(s.mem)
  {
    Apply(LowByte(), 9, Empty(), FirstPacket(now, c, first))
  }

  lemma StartedTable(now: int, c: Control, first: Fins)
    requires c != Rst
    ensures Started(now, c, first).ms == [M]
  {
    var a, key := FirstPacket(now, c, first), Inside(1, 1000);
    assert Grown(9, [], a.p, 2000) == [M];
    TornOrSame(LowByte(), GrownMem(LowByte(), 9, Empty().mem, a.p, a.r), [M], key, c);
  }

  /** Each bucket of the memory before the scan, and the memory after it. */
  lemma StartedBuckets(now: int, c: Control, first: Fins, b: nat)
    requires c != Rst && b < BUCKETS
    ensures var a, key := FirstPacket(now, c, first), Inside(1, 1000);
      var es := NewEntries(LowByte(), M, b, now, first, ZERO);
      Started(now, c, first).mem.buckets[b] ==
        if b == 1000 % BUCKETS then Kept(es, Tear(key, c), Touch(key, c, now)) else es
  {
    hide OutTable, Kept, Freed, NewEntries;
    var es := NewEntries(LowByte(), M, b, now, first, ZERO);
    assert [] + es == es;
    assert !Known(LowByte(), Empty().mem, Inside(1, 1000));
  }

  lemma NewEntry(hash: Hash, m: Mapping, b: nat, now: int, first: Fins, second: Fins, key: Key, c: Control, e: Entry)
    requires var es := NewEntries(hash, m, b, now, first, second);
      e in es || e in Kept(es, Tear(key, c), Touch(key, c, now))
    ensures e.updated == now && e.m == m
  {
    KeptMeaning(NewEntries(hash, m, b, now, first, second), Tear(key, c), Touch(key, c, now));
  }

  lemma StartedEntry(now: int, c: Control, first: Fins, b: nat, e: Entry)
    requires c != Rst && b < BUCKETS && e in Started(now, c, first).mem.buckets[b]
    ensures e.updated == now && e.m == M
  {
    StartedBuckets(now, c, first, b);
    hide Started, NewEntries, Kept, Tear, Touch;
    NewEntry(LowByte(), M, b, now, first, ZERO, Inside(1, 1000), c, e);
  }

  lemma StartedFirstCopy(now: int, c: Control, first: Fins)
    requires c != Rst
    ensures Touched(Entry(M, now, first), Inside(1, 1000), c, now) in Started(now, c, first).mem.buckets[1000 % BUCKETS]
  {
    var key, e := Inside(1, 1000), Entry(M, now, first);
    var es := NewEntries(LowByte(), M, 1000 % BUCKETS, now, first, ZERO);
    assert es == [e];
    StartedBuckets(now, c, first, 1000 % BUCKETS);
    hide Started, NewEntries, Kept;
    KeptMeaning(es, Tear(key, c), Touch(key, c, now));
    assert e in es && !Tear(key, c)(e) && Touch(key, c, now)(e) == Touched(e, key, c, now);
  }

  lemma StartedIsIdle()
    ensures OnlyIdle(Started(0, Plain, ZERO).mem, 10, M)
  {
    hide Started;
    var mem := Started(0, Plain, ZERO).mem;
    forall b, e | 0 <= b < BUCKETS && e in mem.buckets[b] ensures Idle(10)(e) <==> e.m == M {
      StartedEntry(0, Plain, ZERO, b, e);
    }
  }

  lemma FirstPacketIsAllowed(now: int, c: Control, first: Fins)
    requires c != Rst
    ensures Init(Empty()) && Enabled(LowByte(), Empty(), FirstPacket(now, c, first))
    ensures KeepsIndex(LowByte(), 9, Empty(), FirstPacket(now, c, first))
  {
  }

  lemma StartedIsReached(now: int, c: Control, first: Fins) returns (states: seq<State>, actions: seq<Action>)
    requires c != Rst
    ensures Run(LowByte(), 9, states, actions) && |states| == 2 && states[1] == Started(now, c, first)
  {
    FirstPacketIsAllowed(now, c, first);
    hide Init, Enabled, KeepsIndex, FirstPacket, Apply;
    states, actions := [Empty(), Started(now, c, first)], [FirstPacket(now, c, first)];
    assert StepAt(LowByte(), 9, states, actions, 0) && KeepsAt(LowByte(), 9, states, actions, 0);
  }

  /** One packet and ten seconds of silence: a run that reaches what IdleFlowSurvives is about. */
  lemma IdleFlowIsReached() returns (states: seq<State>, actions: seq<Action>, s: State)
    ensures Run(LowByte(), 9, states, actions) && s == states[|states| - 1]
    ensures Shaped(s.mem) && s.ms == [M] && OnlyIdle(s.mem, 10, M)
    ensures !Swept(LowByte(), s.mem, 10, PORTS).pool[2000]
    ensures StillMet(Swept(LowByte(), s.mem, 10, PORTS).buckets[1000 % BUCKETS], Inside(1, 1000))
  {
    s := Started(0, Plain, ZERO);
    states, actions := StartedIsReached(0, Plain, ZERO);
    StartedTable(0, Plain, ZERO);
    StartedIsIdle();
    RunKeepsIndex(LowByte(), 9, states, actions, 1);
    IdleFlowSurvives(s.mem, 10);
  }

  /** A copy with both flags goes alone when its mapping's other copy is in another bucket. */
  lemma LoneCopyIsTornInPart(hash: Hash, externalIp: U32, mem: Memory, ms: seq<Mapping>, p: Packet, r: Chance, e: Entry)
    requires HashOk(hash) && Indexed(hash, externalIp, mem, ms) && e.m in ms
    requires hash(e.m.internalPort) != hash(e.m.externalPort)
    requires e in mem.buckets[hash(p.sport)] && Torn(e, Inside(p.saddr, p.sport), p.control)
    ensures OutTearsInPart(hash, externalIp, mem, ms, p, r)
  {
    KnownIffFound(hash, externalIp, mem, ms, Inside(p.saddr, p.sport));
    FoundIsUnique(externalIp, ms, e.m, Inside(p.saddr, p.sport));
  }

  lemma FlaggedFlowBreaks(s: State, a: Action, e: Entry)
    requires Indexed(LowByte(), 9, s.mem, s.ms) && s.ms == [M] && a == FirstPacket(1, Rst, ZERO)
    requires e.m == M && e.fins == Fins(1, 1) && e in s.mem.buckets[1000 % BUCKETS]
    ensures !IsIndex(LowByte(), 9, Apply(LowByte(), 9, s, a).mem)
  {
    LoneCopyIsTornInPart(LowByte(), 9, s.mem, s.ms, a.p, a.r, e);
    FoundIsUnique(9, s.ms, M, Inside(1, 1000));
    StepKeepsIndexIff(LowByte(), 9, s, a);
  }

  /** If the first copy happens to start with the outside flag set, a FIN and a reset from inside take it
      away, while the other copy stays. */
  lemma UnsetFlagBreaksIndex() returns (states: seq<State>, actions: seq<Action>, s: State)
    ensures Run(LowByte(), 9, states, actions) && s == states[|states| - 1] && Shaped(s.mem)
    ensures !IsIndex(LowByte(), 9, Apply(LowByte(), 9, s, FirstPacket(1, Rst, ZERO)).mem)
  {
    s := Started(0, FinAck, Fins(0, 1));
    states, actions := StartedIsReached(0, FinAck, Fins(0, 1));
    StartedTable(0, FinAck, Fins(0, 1));
    StartedFirstCopy(0, FinAck, Fins(0, 1));
    RunKeepsIndex(LowByte(), 9, states, actions, 1);
    FlaggedFlowBreaks(s, FirstPacket(1, Rst, ZERO), Entry(M, 0, Fins(1, 1)));
  }
}
