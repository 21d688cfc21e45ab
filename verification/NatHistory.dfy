/** What a copy of a mapping records of a run: its time stamp is that of the last packet that met this copy,
    its flags are those of the FINs that did, and a timeout sweep spares what was met lately. */
module NatHistory {
  import opened Common
  import opened NatIndex
  import opened NatSweep
  import opened NatRuns
  import opened NatSharing

  function Time(a: Action): int {
    match a
    case Out(_, r) => r.now
    case In(_, now) => now
    case Sweep(now) => now
  }

  /** This step is a packet of m's flow whose look-up goes through bucket b. */
  ghost predicate Meets(hash: Hash, a: Action, b: nat, m: Mapping) {
    match a
    case Out(p, _) => hash(p.sport) == b && p.saddr == m.internalIp && p.sport == m.internalPort
    case In(p, _) => hash(p.dport) == b && p.daddr == m.externalIp && p.dport == m.externalPort
    case Sweep(_) => false
  }

  /** It is moreover a FIN, from inside or from outside. */
  ghost predicate Finishes(hash: Hash, a: Action, b: nat, m: Mapping, out: bool) {
    Meets(hash, a, b, m) && a.p.control == FinAck && a.Out? == out
  }

  /** No entry is there for the endpoint that p comes from. */
  ghost predicate Unmet(hash: Hash, mem: Memory, p: Packet)
    requires HashOk(hash) && Shaped(mem)
  {
    forall e | e in mem.buckets[hash(p.sport)] :: !(e.m.internalIp == p.saddr && e.m.internalPort == p.sport)
  }

  /** This step puts a new copy of m into bucket b, with flags f to start with. */
  ghost predicate Makes(hash: Hash, externalIp: U32, s: State, a: Action, b: nat, m: Mapping, f: Fins)
    requires HashOk(hash)
  {
    && Shaped(s.mem) && a.Out? && Unmet(hash, s.mem, a.p)
    && m.internalIp == a.p.saddr && m.internalPort == a.p.sport
    && m.externalIp == externalIp && m.externalPort == a.r.drawn
    && ((hash(m.internalPort) == b && f == a.r.first) || (hash(m.externalPort) == b && f == a.r.second))
  }

  // ---- one step

  /** What a step makes of a copy in bucket b that it leaves there. */
  ghost predicate Follows(hash: Hash, a: Action, b: nat, e: Entry, e': Entry) {
    && e'.m == e.m
    && e'.updated == (if Meets(hash, a, b, e.m) then Time(a) else e.updated)
    && e'.fins.inside == (if Finishes(hash, a, b, e.m, true) then 1 else e.fins.inside)
    && e'.fins.outside == (if Finishes(hash, a, b, e.m, false) then 1 else e.fins.outside)
  }

  ghost predicate FollowsOne(hash: Hash, a: Action, b: nat, es: seq<Entry>, e': Entry) {
    exists e :: e in es && Follows(hash, a, b, e, e')
  }

  ghost predicate FollowsNew(hash: Hash, externalIp: U32, s: State, a: Action, b: nat, e': Entry)
    requires HashOk(hash)
  {
    exists f :: Makes(hash, externalIp, s, a, b, e'.m, f) && Follows(hash, a, b, Entry(e'.m, Time(a), f), e')
  }

  lemma KnownIffMet(hash: Hash, mem: Memory, p: Packet)
    requires HashOk(hash) && Shaped(mem)
    ensures !Known(hash, mem, Inside(p.saddr, p.sport)) <==> Unmet(hash, mem, p)
  {
    HitsMeaning(mem.buckets[hash(p.sport)], Inside(p.saddr, p.sport));
    if Known(hash, mem, Inside(p.saddr, p.sport)) {
      var m := KnownIsHeld(hash, mem, Inside(p.saddr, p.sport));
    } else if e :| e in mem.buckets[hash(p.sport)] && Hit(e.m, Inside(p.saddr, p.sport)) {
      HeldIsKnown(hash, mem, Inside(p.saddr, p.sport), e.m);
    }
  }

  lemma ScanFollows(hash: Hash, mem: Memory, a: Action, b: nat, e': Entry)
    requires HashOk(hash) && Shaped(mem) && b < BUCKETS && !a.Sweep?
    requires e' in ScanMem(hash, mem, KeyOf(a), a.p.control, Time(a)).buckets[b]
    ensures FollowsOne(hash, a, b, mem.buckets[b], e')
  {
    var key, c := KeyOf(a), a.p.control;
    KeptMeaning(mem.buckets[b], Tear(key, c), Touch(key, c, Time(a)));
    if b == hash(key.port) {
      var e :| e in mem.buckets[b] && e' == Touch(key, c, Time(a))(e);
      assert Follows(hash, a, b, e, e');
    } else {
      assert Follows(hash, a, b, e', e');
    }
  }

  lemma StepFollows(hash: Hash, externalIp: U32, s: State, a: Action, b: nat, e': Entry)
    requires HashOk(hash) && Shaped(s.mem) && b < BUCKETS
    requires e' in Apply(hash, externalIp, s, a).mem.buckets[b]
    ensures FollowsOne(hash, a, b, s.mem.buckets[b], e') || FollowsNew(hash, externalIp, s, a, b, e')
  {
    match a
    case Out(p, r) =>
      var mem := GrownMem(hash, externalIp, s.mem, p, r);
      ScanFollows(hash, mem, a, b, e');
      var e :| e in mem.buckets[b] && Follows(hash, a, b, e, e');
      KnownIffMet(hash, s.mem, p);
      GrownBucket(hash, externalIp, s.mem, p, r, b, e);
    case In(p, now) => ScanFollows(hash, s.mem, a, b, e');
    case Sweep(now) =>
      SweepAddsNothing(hash, s.mem, now, b, e');
      assert Follows(hash, a, b, e', e');
  }

  lemma GrownBucket(hash: Hash, externalIp: U32, mem: Memory, p: Packet, r: Chance, b: nat, e: Entry)
    requires HashOk(hash) && Shaped(mem) && b < BUCKETS
    requires e in GrownMem(hash, externalIp, mem, p, r).buckets[b]
    ensures e in mem.buckets[b]
      || (!Known(hash, mem, Inside(p.saddr, p.sport)) && e.updated == r.now
          && e.m == Mapping(p.saddr, p.sport, externalIp, r.drawn)
          && ((hash(p.sport) == b && e.fins == r.first) || (hash(r.drawn) == b && e.fins == r.second)))
  {
  }

  // ---- runs

  ghost predicate MakesAt(hash: Hash, externalIp: U32, states: seq<State>, actions: seq<Action>, k: nat, b: nat,
                          m: Mapping, f: Fins)
    requires HashOk(hash) && k < |actions| && |states| == |actions| + 1
  {
    Makes(hash, externalIp, states[k], actions[k], b, m, f)
  }

  ghost predicate MeetsAt(hash: Hash, actions: seq<Action>, k: nat, b: nat, m: Mapping)
    requires k < |actions|
  {
    Meets(hash, actions[k], b, m)
  }

  /** A FIN in this direction met m's copies in b at some step from k on, before step i. */
  ghost predicate FinSince(hash: Hash, actions: seq<Action>, k: nat, i: nat, b: nat, m: Mapping, out: bool)
    requires i <= |actions|
  {
    exists t: nat :: k <= t < i && Finishes(hash, actions[t], b, m, out)
  }

  /** Since step k, step t is the last one before i that met m's copies in b, or else it is k itself. */
  ghost predicate LastMet(hash: Hash, actions: seq<Action>, k: nat, i: nat, b: nat, m: Mapping, t: nat)
    requires i <= |actions|
  {
    && k <= t < i && (t == k || MeetsAt(hash, actions, t, b, m))
    && forall u: nat | t < u < i :: !MeetsAt(hash, actions, u, b, m)
  }

  /** The copy e was made at step k with flags f, last met at step t, and holds what the steps since then
      say. */
  ghost predicate Story(hash: Hash, externalIp: U32, states: seq<State>, actions: seq<Action>, i: nat, b: nat,
                        e: Entry, k: nat, f: Fins, t: nat)
    requires HashOk(hash) && |states| == |actions| + 1 && i < |states|
  {
    && k < i && MakesAt(hash, externalIp, states, actions, k, b, e.m, f)
    && LastMet(hash, actions, k, i, b, e.m, t) && e.updated == Time(actions[t])
    && e.fins.inside == (if FinSince(hash, actions, k, i, b, e.m, true) then 1 else f.inside)
    && e.fins.outside == (if FinSince(hash, actions, k, i, b, e.m, false) then 1 else f.outside)
  }

  lemma FinOneMore(hash: Hash, actions: seq<Action>, k: nat, i: nat, b: nat, m: Mapping, out: bool)
    requires k <= i < |actions|
    ensures FinSince(hash, actions, k, i + 1, b, m, out) <==>
      FinSince(hash, actions, k, i, b, m, out) || Finishes(hash, actions[i], b, m, out)
  {
  }

  lemma StoryStarts(hash: Hash, externalIp: U32, states: seq<State>, actions: seq<Action>, i: nat, b: nat,
                    e: Entry, f: NatIndex.Fins)
    requires HashOk(hash) && |states| == |actions| + 1 && i < |actions|
    requires MakesAt(hash, externalIp, states, actions, i, b, e.m, f)
    requires Follows(hash, actions[i], b, Entry(e.m, Time(actions[i]), f), e)
    ensures Story(hash, externalIp, states, actions, i + 1, b, e, i, f, i)
  {
    hide Makes;
    FinOneMore(hash, actions, i, i, b, e.m, true);
    FinOneMore(hash, actions, i, i, b, e.m, false);
  }

  lemma StoryGoesOn(hash: Hash, externalIp: U32, states: seq<State>, actions: seq<Action>, i: nat, b: nat,
                    e: Entry, e': Entry, k: nat, f: NatIndex.Fins, t: nat)
    requires HashOk(hash) && |states| == |actions| + 1 && i < |actions|
    requires Story(hash, externalIp, states, actions, i, b, e, k, f, t) && Follows(hash, actions[i], b, e, e')
    ensures Story(hash, externalIp, states, actions, i + 1, b, e', k, f,
                  if MeetsAt(hash, actions, i, b, e.m) then i else t)
  {
    hide Makes;
    FinOneMore(hash, actions, k, i, b, e.m, true);
    FinOneMore(hash, actions, k, i, b, e.m, false);
  }

  /** Every copy in memory has such a story, in every run, also where the memory is no index. */
  lemma {:induction false} CopyHasStory(hash: Hash, externalIp: U32, states: seq<State>, actions: seq<Action>,
                                        i: nat, b: nat, e: Entry)
    returns (k: nat, f: NatIndex.Fins, t: nat)
    requires Steps(hash, externalIp, states, actions) && i < |states| && b < BUCKETS
    requires Shaped(states[i].mem) && e in states[i].mem.buckets[b]
    ensures Story(hash, externalIp, states, actions, i, b, e, k, f, t)
    decreases i
  {
    assert i > 0;
    assert StepAt(hash, externalIp, states, actions, i - 1);
    var s, a := states[i - 1], actions[i - 1];
    StepFollows(hash, externalIp, s, a, b, e);
    hide Story, Follows, Makes, Steps, Init, Apply, Enabled;
    if FollowsOne(hash, a, b, s.mem.buckets[b], e) {
      var e0 :| e0 in s.mem.buckets[b] && Follows(hash, a, b, e0, e);
      k, f, t := CopyHasStory(hash, externalIp, states, actions, i - 1, b, e0);
      StoryGoesOn(hash, externalIp, states, actions, i - 1, b, e0, e, k, f, t);
      t := if MeetsAt(hash, actions, i - 1, b, e0.m) then i - 1 else t;
    } else {
      k, t := i - 1, i - 1;
      f :| Makes(hash, externalIp, s, a, b, e.m, f) && Follows(hash, a, b, Entry(e.m, Time(a), f), e);
      StoryStarts(hash, externalIp, states, actions, i - 1, b, e, f);
    }
  }

  // ---- what a packet takes

  /** The copy is met by a reset, and its two flags add up to two. */
  ghost predicate Reset(hash: Hash, a: Action, b: nat, e: Entry) {
    Meets(hash, a, b, e.m) && a.p.control == Rst && e.fins.inside + e.fins.outside == 2
  }

  lemma ScanKeepsIff(hash: Hash, mem: Memory, a: Action, b: nat, e: Entry)
    requires HashOk(hash) && Shaped(mem) && b < BUCKETS && !a.Sweep? && e in mem.buckets[b]
    ensures (exists e' :: e' in ScanMem(hash, mem, KeyOf(a), a.p.control, Time(a)).buckets[b]
                          && Follows(hash, a, b, e, e')) <==> !Reset(hash, a, b, e)
  {
    var key, c, es := KeyOf(a), a.p.control, mem.buckets[b];
    var left := ScanMem(hash, mem, key, c, Time(a)).buckets[b];
    if b == hash(key.port) {
      KeptMeaning(es, Tear(key, c), Touch(key, c, Time(a)));
      if Reset(hash, a, b, e) {
        forall e' | e' in left ensures !Follows(hash, a, b, e, e') {
          var f :| f in es && !Tear(key, c)(f) && e' == Touch(key, c, Time(a))(f);
        }
      } else {
        assert !Tear(key, c)(e) && Touch(key, c, Time(a))(e) in left;
        assert Follows(hash, a, b, e, Touch(key, c, Time(a))(e));
      }
    } else {
      assert e in left && Follows(hash, a, b, e, e);
    }
  }

  /** A packet takes a copy away exactly when it is a reset that meets the copy, and the FINs that met it since
      it was made together with the flags it started with (see its story) add up to two. */
  lemma PacketTakesIff(hash: Hash, externalIp: U32, states: seq<State>, actions: seq<Action>, i: nat, b: nat,
                       e: Entry)
    requires Steps(hash, externalIp, states, actions) && i < |actions| && b < BUCKETS && !actions[i].Sweep?
    requires Shaped(states[i].mem) && e in states[i].mem.buckets[b] && Shaped(states[i + 1].mem)
    ensures (exists e' :: e' in states[i + 1].mem.buckets[b] && Follows(hash, actions[i], b, e, e')) <==>
      !Reset(hash, actions[i], b, e)
  {
    assert StepAt(hash, externalIp, states, actions, i);
    var mem, a := states[i].mem, actions[i];
    match a
    case In(p, now) => ScanKeepsIff(hash, mem, a, b, e);
    case Out(p, r) => ScanKeepsIff(hash, GrownMem(hash, externalIp, mem, p, r), a, b, e);
  }

  // ---- what a sweep spares

  ghost predicate ClockRuns(actions: seq<Action>) {
    forall u, v | 0 <= u <= v < |actions| :: Time(actions[u]) <= Time(actions[v])
  }

  /** Before step i, a packet of m's flow looked into bucket b at most IDLE seconds before `now`. */
  ghost predicate MetLately(hash: Hash, actions: seq<Action>, i: nat, b: nat, m: Mapping, now: int)
    requires i <= |actions|
  {
    exists t: nat :: t < i && MeetsAt(hash, actions, t, b, m) && now - Time(actions[t]) <= IDLE
  }

  ghost predicate MadeLately(hash: Hash, externalIp: U32, states: seq<State>, actions: seq<Action>, i: nat, b: nat,
                             m: Mapping, now: int)
    requires HashOk(hash) && i <= |actions| && |states| == |actions| + 1
  {
    exists t: nat, f :: t < i && MakesAt(hash, externalIp, states, actions, t, b, m, f)
                        && now - Time(actions[t]) <= IDLE
  }

  /** A copy that a packet met lately is not idle; one that was neither met nor made lately is. */
  lemma IdleIsSilent(hash: Hash, externalIp: U32, states: seq<State>, actions: seq<Action>, i: nat, b: nat,
                     e: Entry, now: int)
    requires Steps(hash, externalIp, states, actions) && ClockRuns(actions) && i < |states| && b < BUCKETS
    requires Shaped(states[i].mem) && e in states[i].mem.buckets[b]
    ensures MetLately(hash, actions, i, b, e.m, now) ==> now - e.updated <= IDLE
    ensures now - e.updated <= IDLE ==>
      MetLately(hash, actions, i, b, e.m, now) || MadeLately(hash, externalIp, states, actions, i, b, e.m, now)
  {
    var k, f, t := CopyHasStory(hash, externalIp, states, actions, i, b, e);
    if u: nat :| u < i && MeetsAt(hash, actions, u, b, e.m) && now - Time(actions[u]) <= IDLE {
      assert u <= t;
    }
    assert t == k ==> MakesAt(hash, externalIp, states, actions, t, b, e.m, f);
  }

  /** A sweep leaves every copy that a packet met in the last IDLE seconds. */
  lemma SweepSparesTheMet(hash: Hash, externalIp: U32, states: seq<State>, actions: seq<Action>, i: nat, b: nat,
                          e: Entry)
    requires Steps(hash, externalIp, states, actions) && ClockRuns(actions) && i < |actions| && b < BUCKETS
    requires actions[i].Sweep? && Shaped(states[i].mem) && e in states[i].mem.buckets[b]
    requires MetLately(hash, actions, i, b, e.m, actions[i].now)
    ensures Shaped(states[i + 1].mem) && e in states[i + 1].mem.buckets[b]
  {
    assert StepAt(hash, externalIp, states, actions, i);
    IdleIsSilent(hash, externalIp, states, actions, i, b, e, actions[i].now);
    SweepDropsIff(hash, states[i].mem, actions[i].now, b, e);
  }

  /** It deletes every copy, neither met nor made in that time, of which it visits the bucket. */
  lemma SweepDropsTheSilent(hash: Hash, externalIp: U32, states: seq<State>, actions: seq<Action>, i: nat, b: nat,
                            e: Entry)
    requires Steps(hash, externalIp, states, actions) && ClockRuns(actions) && i < |actions| && b < BUCKETS
    requires actions[i].Sweep? && Shaped(states[i].mem) && e in states[i].mem.buckets[b]
    requires Visited(hash, states[i].mem, actions[i].now, b, PORTS)
    requires !MetLately(hash, actions, i, b, e.m, actions[i].now)
    requires !MadeLately(hash, externalIp, states, actions, i, b, e.m, actions[i].now)
    ensures Shaped(states[i + 1].mem) && e !in states[i + 1].mem.buckets[b]
  {
    assert StepAt(hash, externalIp, states, actions, i);
    IdleIsSilent(hash, externalIp, states, actions, i, b, e, actions[i].now);
    SweepDropsIff(hash, states[i].mem, actions[i].now, b, e);
  }

  /** So a sweep takes a mapping only if no packet for its external port came in the last IDLE seconds, and
      in a run that keeps the index, only if the flow sent none either. */
  lemma SweepTakesTheSilent(hash: Hash, externalIp: U32, states: seq<State>, actions: seq<Action>, i: nat, m: Mapping)
    requires Steps(hash, externalIp, states, actions) && ClockRuns(actions) && i < |actions|
    requires actions[i].Sweep? && TakesAt(hash, externalIp, states, actions, i, m)
    ensures !MetLately(hash, actions, i, hash(m.externalPort), m, actions[i].now)
    ensures Run(hash, externalIp, states, actions) && m in states[i].ms ==>
      !MetLately(hash, actions, i, hash(m.internalPort), m, actions[i].now)
  {
    assert StepAt(hash, externalIp, states, actions, i);
    var s, now := states[i], actions[i].now;
    var e :| e in s.mem.buckets[hash(m.externalPort)] && e.m == m && now - e.updated > IDLE;
    IdleIsSilent(hash, externalIp, states, actions, i, hash(m.externalPort), e, now);
    if Run(hash, externalIp, states, actions) && m in s.ms {
      assert KeepsAt(hash, externalIp, states, actions, i) && Agree(hash, s.mem, now, m);
      var g :| g in s.mem.buckets[hash(m.internalPort)] && g.m == m && now - g.updated > IDLE;
      IdleIsSilent(hash, externalIp, states, actions, i, hash(m.internalPort), g, now);
    }
  }

  // ---- whose packets are whose

  /** At some step before i, a packet from this internal endpoint had this port drawn for it. */
  ghost predicate Drew(hash: Hash, externalIp: U32, states: seq<State>, actions: seq<Action>, i: nat, ip: U32,
                       port: U16, drawn: U16)
    requires HashOk(hash) && i <= |actions| && |states| == |actions| + 1
  {
    exists k: nat :: k < i && actions[k].Out? && Shaped(states[k].mem) && Unmet(hash, states[k].mem, actions[k].p)
                     && actions[k].p.saddr == ip && actions[k].p.sport == port && actions[k].r.drawn == drawn
  }

  lemma CopyWasDrawn(hash: Hash, externalIp: U32, states: seq<State>, actions: seq<Action>, i: nat, b: nat, e: Entry)
    requires Steps(hash, externalIp, states, actions) && i < |states| && b < BUCKETS
    requires Shaped(states[i].mem) && e in states[i].mem.buckets[b]
    ensures e.m.externalIp == externalIp
    ensures Drew(hash, externalIp, states, actions, i, e.m.internalIp, e.m.internalPort, e.m.externalPort)
  {
    var k, f, t := CopyHasStory(hash, externalIp, states, actions, i, b, e);
  }

  /** A packet from outside reaches nobody but the endpoints for which its port was drawn; only where it is
      addressed to changes. */
  lemma InboundReachesItsMaker(hash: Hash, externalIp: U32, states: seq<State>, actions: seq<Action>, i: nat,
                               p: Packet, o: Packet)
    requires Steps(hash, externalIp, states, actions) && i < |states| && Shaped(states[i].mem)
    requires o in InSent(hash, states[i].mem, p)
    ensures p.daddr == externalIp && Drew(hash, externalIp, states, actions, i, o.daddr, o.dport, p.dport)
    ensures o.saddr == p.saddr && o.sport == p.sport && o.control == p.control
  {
    var key, es := Outside(p.daddr, p.dport), states[i].mem.buckets[hash(p.dport)];
    HitsMeaning(es, key);
    DestinationsMeaning(p, Hits(Maps(es), key));
    var m :| m in Hits(Maps(es), key) && o == DestinationRewritten(p, m);
    var e :| e in es && e.m == m;
    CopyWasDrawn(hash, externalIp, states, actions, i, hash(p.dport), e);
  }

  /** A packet from inside leaves from the external address, and from a port drawn for its endpoint now or
      before; where it goes to does not change. */
  lemma OutboundLeavesByADrawnPort(hash: Hash, externalIp: U32, states: seq<State>, actions: seq<Action>, i: nat,
                                   p: Packet, r: Chance, o: Packet)
    requires Steps(hash, externalIp, states, actions) && i < |states| && Shaped(states[i].mem)
    requires o in OutSent(hash, externalIp, states[i].mem, p, r)
    ensures o.saddr == externalIp && o.daddr == p.daddr && o.dport == p.dport && o.control == p.control
    ensures if Unmet(hash, states[i].mem, p) then o.sport == r.drawn
            else Drew(hash, externalIp, states, actions, i, p.saddr, p.sport, o.sport)
  {
    var key, mem := Inside(p.saddr, p.sport), GrownMem(hash, externalIp, states[i].mem, p, r);
    var es := mem.buckets[hash(p.sport)];
    KnownIffMet(hash, states[i].mem, p);
    HitsMeaning(es, key);
    SourcesMeaning(p, Hits(Maps(es), key));
    var m :| m in Hits(Maps(es), key) && o == SourceRewritten(p, m);
    var e :| e in es && e.m == m;
    GrownBucket(hash, externalIp, states[i].mem, p, r, hash(p.sport), e);
    if e in states[i].mem.buckets[hash(p.sport)] {
      CopyWasDrawn(hash, externalIp, states, actions, i, hash(p.sport), e);
    }
  }

  // ---- how many copies leave

  lemma TwiceRewritten(hash: Hash, p: Packet, m: Mapping)
    ensures var twice := hash(m.internalPort) == hash(m.externalPort);
      && Sources(p, Twice(hash, m)) == Copied(twice, p.(saddr := m.externalIp, sport := m.externalPort))
      && Destinations(p, Twice(hash, m)) == Copied(twice, p.(daddr := m.internalIp, dport := m.internalPort))
  {
    RewriteSnoc(p, [], m);
    RewriteSnoc(p, [m], m);
    assert [] + [m] == [m] && [m] + [m] == [m, m];
  }

  function Copied(twice: bool, o: Packet): seq<Packet> { if twice then [o, o] else [o] }

  /** The mapping of the table, or the new one, that a packet from inside leaves through. */
  ghost predicate LeavesThrough(externalIp: U32, ms: seq<Mapping>, p: Packet, drawn: U16, m: Mapping) {
    && m.internalIp == p.saddr && m.internalPort == p.sport
    && (m in ms || (m.externalIp == externalIp && m.externalPort == drawn
                    && forall x | x in ms :: x.internalIp != p.saddr || x.internalPort != p.sport))
  }

  /** In every run that keeps the index, a packet from inside leaves once through its mapping, or twice where
      the mapping's two ports share a bucket. */
  lemma OutboundCopies(hash: Hash, externalIp: U32, states: seq<State>, actions: seq<Action>, i: nat,
                       p: Packet, r: Chance, m: Mapping)
    requires Run(hash, externalIp, states, actions) && i < |states| && Shaped(states[i].mem)
    requires Enabled(hash, states[i], Out(p, r)) && LeavesThrough(externalIp, states[i].ms, p, r.drawn, m)
    ensures OutSent(hash, externalIp, states[i].mem, p, r) ==
      Copied(hash(p.sport) == hash(m.externalPort), Packet(m.externalIp, m.externalPort, p.daddr, p.dport, p.control))
  {
    var mem, ms, key := states[i].mem, states[i].ms, Inside(p.saddr, p.sport);
    RunKeepsIndex(hash, externalIp, states, actions, i);
    KnownIffFound(hash, externalIp, mem, ms, key);
    SourcesAreSent(hash, externalIp, mem, ms, p, r);
    GrownIsIndexed(hash, externalIp, mem, ms, p, r);
    FoundIsUnique(externalIp, Grown(externalIp, ms, p, r.drawn), m, key);
    TwiceRewritten(hash, p, m);
  }

  /** A packet from outside reaches the endpoint whose mapping names its port, once or twice, and nobody where
      there is no such mapping. */
  lemma InboundCopies(hash: Hash, externalIp: U32, states: seq<State>, actions: seq<Action>, i: nat, p: Packet)
    requires Run(hash, externalIp, states, actions) && i < |states| && Shaped(states[i].mem)
    ensures forall m | m in states[i].ms && m.externalIp == p.daddr && m.externalPort == p.dport ::
      InSent(hash, states[i].mem, p) == Copied(hash(m.internalPort) == hash(p.dport),
                                               Packet(p.saddr, p.sport, m.internalIp, m.internalPort, p.control))
    ensures (forall m | m in states[i].ms :: m.externalIp != p.daddr || m.externalPort != p.dport) ==>
      InSent(hash, states[i].mem, p) == []
  {
    var mem, ms, key := states[i].mem, states[i].ms, Outside(p.daddr, p.dport);
    RunKeepsIndex(hash, externalIp, states, actions, i);
    DestinationsAreSent(hash, externalIp, mem, ms, p);
    forall m | m in ms && m.externalIp == p.daddr && m.externalPort == p.dport
      ensures InSent(hash, mem, p) == Copied(hash(m.internalPort) == hash(p.dport),
                                             Packet(p.saddr, p.sport, m.internalIp, m.internalPort, p.control))
    {
      FoundIsUnique(externalIp, ms, m, key);
      TwiceRewritten(hash, p, m);
    }
  }
}
