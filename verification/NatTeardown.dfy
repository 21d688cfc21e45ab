/** Teardown on a reset: what the FIN flags of the two copies, and the flags they started with, let it
    remove. */
module NatTeardown {
  import opened Common
  import opened NatIndex

  // ---- copies that start without flags

  /** A flag is set only by packets scanned for in the copy's own bucket, and on all copies there. */
  ghost predicate Clean(hash: Hash, b: nat, es: seq<Entry>) {
    && (forall e | e in es :: CleanFins(hash, b, e))
    && (forall e, f | e in es && f in es && e.m == f.m :: e.fins == f.fins)
  }

  ghost predicate CleanFins(hash: Hash, b: nat, e: Entry) {
    && e.fins.inside <= 1 && e.fins.outside <= 1
    && (e.fins.inside == 1 ==> hash(e.m.internalPort) == b) && (e.fins.outside == 1 ==> hash(e.m.externalPort) == b)
  }

  ghost predicate AllClean(hash: Hash, mem: Memory) {
    Shaped(mem) && forall b | 0 <= b < BUCKETS :: Clean(hash, b, mem.buckets[b])
  }

  /** Then only a mapping whose two ports share a bucket is ever torn down, and never in part. */
  lemma CleanIsNotTornInPart(hash: Hash, externalIp: U32, mem: Memory, ms: seq<Mapping>, key: Key, c: Control)
    requires HashOk(hash) && Indexed(hash, externalIp, mem, ms) && AllClean(hash, mem)
    ensures !TearsInPart(hash, mem, ms, key, c)
  {
    var b := hash(key.port);
    assert Clean(hash, b, mem.buckets[b]);
    if e :| e in mem.buckets[b] && Torn(e, key, c) {
      assert CleanFins(hash, b, e);
      EntryIsMapped(hash, externalIp, mem, ms, b, e);
      FoundIsUnique(externalIp, ms, e.m, key);
      assert TearsDown(hash, mem, ms, key, c);
    }
  }

  lemma ScanKeepsClean(hash: Hash, mem: Memory, key: Key, c: Control, now: int)
    requires AllClean(hash, mem) && hash(key.port) < BUCKETS
    ensures AllClean(hash, ScanMem(hash, mem, key, c, now))
  {
    var b, mem' := hash(key.port), ScanMem(hash, mem, key, c, now);
    forall d | 0 <= d < BUCKETS ensures Clean(hash, d, mem'.buckets[d]) {
      assert Clean(hash, d, mem.buckets[d]);
      if d == b {
        TouchKeepsClean(hash, mem.buckets[b], key, c, now);
      }
    }
  }

  lemma TouchKeepsClean(hash: Hash, es: seq<Entry>, key: Key, c: Control, now: int)
    requires Clean(hash, hash(key.port), es)
    ensures Clean(hash, hash(key.port), Kept(es, Tear(key, c), Touch(key, c, now)))
  {
    var kept := Kept(es, Tear(key, c), Touch(key, c, now));
    KeptMeaning(es, Tear(key, c), Touch(key, c, now));
    forall f | f in kept ensures CleanFins(hash, hash(key.port), f) {
      var e :| e in es && f == Touched(e, key, c, now);
      assert CleanFins(hash, hash(key.port), e);
    }
  }

  const ZERO := Fins(0, 0)

  lemma AddKeepsClean(hash: Hash, externalIp: U32, mem: Memory, ms: seq<Mapping>, m: Mapping, now: int)
    requires Indexed(hash, externalIp, mem, ms) && AllClean(hash, mem) && m !in ms
    ensures AllClean(hash, AddMem(hash, mem, m, now, ZERO, ZERO))
  {
    forall b | 0 <= b < BUCKETS
      ensures Clean(hash, b, mem.buckets[b] + NewEntries(hash, m, b, now, ZERO, ZERO))
    {
      var es, more := mem.buckets[b], NewEntries(hash, m, b, now, ZERO, ZERO);
      assert Clean(hash, b, es);
      forall e | e in es ensures e.m != m {
        EntryIsMapped(hash, externalIp, mem, ms, b, e);
      }
      CleanConcat(hash, b, es, m, Entry(m, now, ZERO), more);
    }
  }

  lemma CleanConcat(hash: Hash, b: nat, es: seq<Entry>, m: Mapping, e: Entry, more: seq<Entry>)
    requires Clean(hash, b, es) && (forall f | f in es :: f.m != m)
    requires e.m == m && CleanFins(hash, b, e) && forall f | f in more :: f == e
    ensures Clean(hash, b, es + more)
  {
    assert forall f :: f in es + more ==> f in es || f == e;
  }

  /** An outbound packet keeps copies clean if new ones start without flags. */
  lemma OutKeepsClean(hash: Hash, externalIp: U32, mem: Memory, ms: seq<Mapping>, p: Packet, r: Chance)
    requires HashOk(hash) && Indexed(hash, externalIp, mem, ms) && AllClean(hash, mem)
    requires Find(ms, Inside(p.saddr, p.sport)).None? ==> !Assigned(ms, r.drawn)
    requires r.first == r.second == ZERO
    ensures AllClean(hash, OutMem(hash, externalIp, mem, p, r))
    ensures !OutTearsInPart(hash, externalIp, mem, ms, p, r)
  {
    var grown := GrownMem(hash, externalIp, mem, p, r);
    KnownIffFound(hash, externalIp, mem, ms, Inside(p.saddr, p.sport));
    GrownIsIndexed(hash, externalIp, mem, ms, p, r);
    if Find(ms, Inside(p.saddr, p.sport)).None? {
      var m := Mapping(p.saddr, p.sport, externalIp, r.drawn);
      assert Hit(m, Inside(p.saddr, p.sport)) && m !in ms;
      AddKeepsClean(hash, externalIp, mem, ms, m, r.now);
    }
    CleanIsNotTornInPart(hash, externalIp, grown, Grown(externalIp, ms, p, r.drawn), Inside(p.saddr, p.sport),
                         p.control);
    ScanKeepsClean(hash, grown, Inside(p.saddr, p.sport), p.control, r.now);
  }

  lemma {:induction false} SweepKeepsClean(hash: Hash, mem: Memory, now: int, i: nat)
    requires HashOk(hash) && AllClean(hash, mem) && i <= PORTS
    ensures AllClean(hash, Swept(hash, mem, now, i))
  {
    if i > 0 {
      SweepKeepsClean(hash, mem, now, i - 1);
      VisitKeepsClean(hash, Swept(hash, mem, now, i - 1), now, i - 1);
    }
  }

  lemma VisitKeepsClean(hash: Hash, mem: Memory, now: int, i: U16)
    requires HashOk(hash) && AllClean(hash, mem)
    ensures AllClean(hash, Visit(hash, mem, now, i))
  {
    var es := mem.buckets[hash(i)];
    KeptMeaning(es, Idle(now), Same());
    forall b | 0 <= b < BUCKETS ensures Clean(hash, b, Visit(hash, mem, now, i).buckets[b]) {
      assert Clean(hash, b, mem.buckets[b]);
    }
  }

  // ---- a FIN in either direction, then a reset

  lemma FinTearsNothing(hash: Hash, externalIp: U32, mem: Memory, ms: seq<Mapping>, key: Key, now: int)
    requires Indexed(hash, externalIp, mem, ms) && hash(key.port) < BUCKETS
    ensures Indexed(hash, externalIp, ScanMem(hash, mem, key, FinAck, now), ms)
  {
    ScanKeepsIndex(hash, externalIp, mem, ms, key, FinAck, now);
    TornOrSame(hash, mem, ms, key, FinAck);
  }

  /** The same copies, those of the key flagged. */
  ghost predicate FinRecorded(es: seq<Entry>, es': seq<Entry>, key: Key, now: int) {
    && (forall e | e in es :: Touched(e, key, FinAck, now) in es')
    && (forall f | f in es' :: exists e :: e in es && f == Touched(e, key, FinAck, now))
  }

  lemma FinIsRecorded(hash: Hash, mem: Memory, key: Key, now: int)
    requires Shaped(mem) && hash(key.port) < BUCKETS
    ensures var es, es' := mem.buckets[hash(key.port)], ScanMem(hash, mem, key, FinAck, now).buckets[hash(key.port)];
      FinRecorded(es, es', key, now)
  {
    var es := mem.buckets[hash(key.port)];
    KeptMeaning(es, Tear(key, FinAck), Touch(key, FinAck, now));
    forall e | e in es ensures Touched(e, key, FinAck, now) in Kept(es, Tear(key, FinAck), Touch(key, FinAck, now)) {
      assert !Tear(key, FinAck)(e) && Touch(key, FinAck, now)(e) == Touched(e, key, FinAck, now);
    }
  }

  function KeyIn(m: Mapping): Key { Inside(m.internalIp, m.internalPort) }

  function KeyOut(m: Mapping): Key { Outside(m.externalIp, m.externalPort) }

  /** The memory after a FIN in either direction. */
  function AfterFins(hash: Hash, mem: Memory, m: Mapping, t: int, t': int): (r: Memory)
    requires Shaped(mem) && HashOk(hash)
    ensures Shaped(r)
  {
    ScanMem(hash, ScanMem(hash, mem, KeyIn(m), FinAck, t), KeyOut(m), FinAck, t')
  }

  /** The flag that a packet with this key does not set. */
  function OtherFlag(e: Entry, key: Key): Byte { if key.Inside? then e.fins.outside else e.fins.inside }

  ghost predicate StartsFlagged(es: seq<Entry>, m: Mapping, key: Key) {
    exists e :: e in es && e.m == m && OtherFlag(e, key) == 1
  }

  ghost predicate SomeTorn(es: seq<Entry>, key: Key) { exists e :: e in es && Torn(e, key, Rst) }

  /** A bucket that has recorded the FIN of one direction only. */
  lemma OneFinTearsIff(es: seq<Entry>, es': seq<Entry>, m: Mapping, key: Key, now: int)
    requires FinRecorded(es, es', key, now) && forall e | e in es :: Hit(e.m, key) <==> e.m == m
    ensures SomeTorn(es', key) <==> StartsFlagged(es, m, key)
  {
    if e :| e in es && e.m == m && OtherFlag(e, key) == 1 {
      assert Torn(Touched(e, key, FinAck, now), key, Rst);
    }
  }

  lemma ApartTearsIff(hash: Hash, externalIp: U32, mem: Memory, ms: seq<Mapping>, m: Mapping, t: int, t': int, key: Key)
    requires HashOk(hash) && Indexed(hash, externalIp, mem, ms) && m in ms
    requires key == KeyIn(m) || key == KeyOut(m)
    requires hash(m.internalPort) != hash(m.externalPort)
    ensures SomeTorn(AfterFins(hash, mem, m, t, t').buckets[hash(key.port)], key) <==>
      StartsFlagged(mem.buckets[hash(key.port)], m, key)
  {
    var es := mem.buckets[hash(key.port)];
    var now, met := t', ScanMem(hash, mem, KeyIn(m), FinAck, t);
    if key.Inside? {
      now, met := t, mem;
    }
    FinIsRecorded(hash, met, key, now);
    forall e | e in es ensures Hit(e.m, key) <==> e.m == m {
      EntryIsMapped(hash, externalIp, mem, ms, hash(key.port), e);
      FoundIsUnique(externalIp, ms, m, key);
    }
    OneFinTearsIff(es, AfterFins(hash, mem, m, t, t').buckets[hash(key.port)], m, key, now);
  }

  /** A bucket that has recorded both FINs. */
  lemma TwoFinsMark(es: seq<Entry>, es': seq<Entry>, es'': seq<Entry>, m: Mapping, t: int, t': int, f: Entry)
    requires FinRecorded(es, es', KeyIn(m), t) && FinRecorded(es', es'', KeyOut(m), t')
    requires f in es'' && f.m == m
    ensures BothFins(f)
  {
    var e :| e in es' && f == Touched(e, KeyOut(m), FinAck, t');
    var d :| d in es && e == Touched(d, KeyIn(m), FinAck, t);
  }

  lemma SharedTearsAll(hash: Hash, externalIp: U32, mem: Memory, ms: seq<Mapping>, m: Mapping, t: int, t': int,
                       key: Key)
    requires HashOk(hash) && Indexed(hash, externalIp, mem, ms) && m in ms
    requires key == KeyIn(m) || key == KeyOut(m)
    requires hash(m.internalPort) == hash(m.externalPort)
    ensures TearsDown(hash, AfterFins(hash, mem, m, t, t'), ms, key, Rst)
  {
    var b, mem', mem'' := hash(key.port), ScanMem(hash, mem, KeyIn(m), FinAck, t), AfterFins(hash, mem, m, t, t');
    FinIsRecorded(hash, mem, KeyIn(m), t);
    FinIsRecorded(hash, mem', KeyOut(m), t');
    FoundIsUnique(externalIp, ms, m, key);
    forall f | f in mem''.buckets[b] && f.m == m ensures BothFins(f) {
      TwoFinsMark(mem.buckets[b], mem'.buckets[b], mem''.buckets[b], m, t, t', f);
    }
  }

  /** After a FIN in either direction, a reset removes the mapping exactly when its two ports share a
      bucket; where they do not, it removes the one copy it meets exactly when that copy started with the
      other direction's flag set. */
  lemma ResetTearsDownIff(hash: Hash, externalIp: U32, mem: Memory, ms: seq<Mapping>, m: Mapping,
                          t: int, t': int, key: Key)
    requires HashOk(hash) && Indexed(hash, externalIp, mem, ms) && m in ms
    requires key == KeyIn(m) || key == KeyOut(m)
    ensures var mem' := AfterFins(hash, mem, m, t, t');
      && Indexed(hash, externalIp, mem', ms)
      && (TearsDown(hash, mem', ms, key, Rst) <==> hash(m.internalPort) == hash(m.externalPort))
      && (TearsInPart(hash, mem', ms, key, Rst) <==>
            hash(m.internalPort) != hash(m.externalPort) && StartsFlagged(mem.buckets[hash(key.port)], m, key))
  {
    FinTearsNothing(hash, externalIp, mem, ms, KeyIn(m), t);
    FinTearsNothing(hash, externalIp, ScanMem(hash, mem, KeyIn(m), FinAck, t), ms, KeyOut(m), t');
    FoundIsUnique(externalIp, ms, m, key);
    if hash(m.internalPort) == hash(m.externalPort) {
      SharedTearsAll(hash, externalIp, mem, ms, m, t, t', key);
    } else {
      ApartTearsIff(hash, externalIp, mem, ms, m, t, t', key);
    }
  }
}
