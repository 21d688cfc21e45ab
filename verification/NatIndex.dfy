/** Address and port translation on values: one logical table of mappings, stored twice in a bucket
    array, under the hash of the internal port and under the hash of the external port.  Every copy
    keeps its own time stamp and its own pair of FIN flags. */
module NatIndex {
  import opened Common

  const BUCKETS := 256
  const PORTS := 0x1_0000
  /** Seconds of silence after which the sweep drops a copy. */
  const IDLE := 5

  datatype Mapping = Mapping(internalIp: U32, internalPort: U16, externalIp: U32, externalPort: U16)

  /** The TCP flags that translation looks at. */
  datatype Control = FinAck | Rst | Plain

  /** The header fields that translation reads or rewrites. */
  datatype Packet = Packet(saddr: U32, sport: U16, daddr: U32, dport: U16, control: Control)

  /** What a bucket scan looks for: an internal endpoint or an external one. */
  datatype Key = Inside(ip: U32, port: U16) | Outside(ip: U32, port: U16)

  type Hash = U16 -> nat

  ghost predicate HashOk(hash: Hash) { forall p: U16 :: hash(p) < BUCKETS }

  // ---- the logical table

  predicate Hit(m: Mapping, key: Key) {
    match key
    case Inside(ip, port) => m.internalIp == ip && m.internalPort == port
    case Outside(ip, port) => m.externalIp == ip && m.externalPort == port
  }

  /** The two mappings share neither an internal endpoint nor an external port. */
  ghost predicate Apart(m: Mapping, x: Mapping) {
    !Hit(m, Inside(x.internalIp, x.internalPort)) && m.externalPort != x.externalPort
  }

  ghost predicate Table(ms: seq<Mapping>, externalIp: U32) {
    && (forall m | m in ms :: m.externalIp == externalIp)
    && (forall i, j | 0 <= i < j < |ms| :: Apart(ms[i], ms[j]))
  }

  ghost predicate Assigned(ms: seq<Mapping>, port: int) { exists m :: m in ms && m.externalPort == port }

  function Find(ms: seq<Mapping>, key: Key): (o: Option<Mapping>)
    ensures o.Some? ==> o.value in ms && Hit(o.value, key)
    ensures o.None? ==> forall m | m in ms :: !Hit(m, key)
  {
    if ms == [] then None
    else if Hit(ms[|ms| - 1], key) then Some(ms[|ms| - 1])
    else Find(ms[..|ms| - 1], key)
  }

  lemma FoundIsUnique(externalIp: U32, ms: seq<Mapping>, m: Mapping, key: Key)
    requires Table(ms, externalIp) && m in ms && Hit(m, key)
    ensures Find(ms, key) == Some(m)
    ensures forall x | x in ms && x != m :: Apart(m, x) && !Hit(x, key)
  {
    var i :| 0 <= i < |ms| && ms[i] == m;
    forall x | x in ms && x != m ensures Apart(m, x) && !Hit(x, key) {
      var j :| 0 <= j < |ms| && ms[j] == x;
      assert if i < j then Apart(ms[i], ms[j]) else Apart(ms[j], ms[i]);
    }
  }

  /** The headers a packet leaves with through mapping m, outwards and inwards. */
  function SourceRewritten(p: Packet, m: Mapping): Packet { p.(saddr := m.externalIp, sport := m.externalPort) }

  function DestinationRewritten(p: Packet, m: Mapping): Packet { p.(daddr := m.internalIp, dport := m.internalPort) }

  function Outbound(ms: seq<Mapping>, p: Packet): Option<Packet> {
    match Find(ms, Inside(p.saddr, p.sport)) case Some(m) => Some(SourceRewritten(p, m)) case None => None
  }

  function Inbound(ms: seq<Mapping>, p: Packet): Option<Packet> {
    match Find(ms, Outside(p.daddr, p.dport)) case Some(m) => Some(DestinationRewritten(p, m)) case None => None
  }

  function Filtered(ms: seq<Mapping>, keep: Mapping -> bool): seq<Mapping> {
    if ms == [] then []
    else Filtered(ms[..|ms| - 1], keep) + if keep(ms[|ms| - 1]) then [ms[|ms| - 1]] else []
  }

  lemma {:induction false} FilteredMeaning(ms: seq<Mapping>, keep: Mapping -> bool)
    ensures forall x :: x in Filtered(ms, keep) <==> x in ms && keep(x)
  {
    if ms != [] {
      FilteredMeaning(ms[..|ms| - 1], keep);
      assert forall x :: x in ms <==> x in ms[..|ms| - 1] || x == ms[|ms| - 1];
    }
  }

  lemma {:induction false} FilteredConcat(a: seq<Mapping>, b: seq<Mapping>, keep: Mapping -> bool)
    ensures Filtered(a + b, keep) == Filtered(a, keep) + Filtered(b, keep)
  {
    if b == [] {
      assert a + b == a;
    } else {
      FilteredConcat(a, b[..|b| - 1], keep);
      assert (a + b)[..|a + b| - 1] == a + b[..|b| - 1];
    }
  }

  lemma {:induction false} FilteredAll(ms: seq<Mapping>, keep: Mapping -> bool)
    requires forall i | 0 <= i < |ms| :: keep(ms[i])
    ensures Filtered(ms, keep) == ms
  {
    if ms != [] {
      FilteredAll(ms[..|ms| - 1], keep);
    }
  }

  lemma {:induction false} FilteredKeepsTable(ms: seq<Mapping>, externalIp: U32, keep: Mapping -> bool)
    requires Table(ms, externalIp)
    ensures Table(Filtered(ms, keep), externalIp)
  {
    if ms != [] {
      var front, m := ms[..|ms| - 1], ms[|ms| - 1];
      FilteredKeepsTable(front, externalIp, keep);
      FilteredMeaning(front, keep);
      var f := Filtered(front, keep);
      forall i | 0 <= i < |f| ensures Apart(f[i], m) {
        assert f[i] in front;
        var j :| 0 <= j < |front| && front[j] == f[i];
        assert Apart(ms[j], ms[|front|]);
      }
    }
  }

  // ---- the two-fold index

  function Copies(hash: Hash, m: Mapping, b: nat): seq<Mapping> {
    (if hash(m.internalPort) == b then [m] else []) + (if hash(m.externalPort) == b then [m] else [])
  }

  /** What bucket b holds when every mapping was added to its two buckets in order. */
  function Bucket(hash: Hash, ms: seq<Mapping>, b: nat): seq<Mapping> {
    if ms == [] then [] else Bucket(hash, ms[..|ms| - 1], b) + Copies(hash, ms[|ms| - 1], b)
  }

  lemma {:induction false} BucketMeaning(hash: Hash, ms: seq<Mapping>, b: nat)
    ensures forall x :: x in Bucket(hash, ms, b) <==>
      x in ms && (hash(x.internalPort) == b || hash(x.externalPort) == b)
  {
    if ms != [] {
      BucketMeaning(hash, ms[..|ms| - 1], b);
      assert forall x :: x in ms <==> x in ms[..|ms| - 1] || x == ms[|ms| - 1];
    }
  }

  function Hits(bucket: seq<Mapping>, key: Key): (r: seq<Mapping>) { Filtered(bucket, m => Hit(m, key)) }

  /** Both copies of a mapping land in one bucket when its two ports collide. */
  function Twice(hash: Hash, m: Mapping): seq<Mapping> {
    if hash(m.internalPort) == hash(m.externalPort) then [m, m] else [m]
  }

  lemma HitsOfCopies(hash: Hash, m: Mapping, key: Key)
    ensures Hits(Copies(hash, m, hash(key.port)), key) == if Hit(m, key) then Twice(hash, m) else []
  {
    var keep := (x: Mapping) => Hit(x, key);
    FilteredConcat(if hash(m.internalPort) == hash(key.port) then [m] else [],
                   if hash(m.externalPort) == hash(key.port) then [m] else [], keep);
    assert [m][..0] == [];
  }

  /** Scanning the bucket of a key's port meets exactly the copies of the one mapping it names. */
  lemma {:induction false} ScanMeetsItsMapping(hash: Hash, ms: seq<Mapping>, externalIp: U32, key: Key)
    requires Table(ms, externalIp)
    ensures Hits(Bucket(hash, ms, hash(key.port)), key) ==
      var o := Find(ms, key); if o.Some? then Twice(hash, o.value) else []
  {
    if ms != [] {
      var front, m := ms[..|ms| - 1], ms[|ms| - 1];
      assert m in ms;
      if Hit(m, key) {
        FoundIsUnique(externalIp, ms, m, key);
        assert forall i | 0 <= i < |front| :: Apart(ms[i], ms[|front|]);
        assert m !in front;
      }
      ScanMeetsItsMapping(hash, front, externalIp, key);
      FilteredConcat(Bucket(hash, front, hash(key.port)), Copies(hash, m, hash(key.port)), x => Hit(x, key));
      HitsOfCopies(hash, m, key);
      assert Hit(m, key) ==> Find(front, key).None?;
    }
  }

  lemma {:induction false} BucketFiltered(hash: Hash, ms: seq<Mapping>, b: nat, keep: Mapping -> bool)
    ensures Bucket(hash, Filtered(ms, keep), b) == Filtered(Bucket(hash, ms, b), keep)
  {
    if ms != [] {
      var front, m := ms[..|ms| - 1], ms[|ms| - 1];
      BucketFiltered(hash, front, b, keep);
      FilteredConcat(Bucket(hash, front, b), Copies(hash, m, b), keep);
      CopiesFiltered(hash, m, b, keep);
      if keep(m) {
        assert Filtered(ms, keep) == Filtered(front, keep) + [m];
        assert (Filtered(front, keep) + [m])[..|Filtered(front, keep)|] == Filtered(front, keep);
      } else {
        assert Filtered(ms, keep) == Filtered(front, keep);
      }
    }
  }

  lemma CopiesFiltered(hash: Hash, m: Mapping, b: nat, keep: Mapping -> bool)
    ensures Filtered(Copies(hash, m, b), keep) == if keep(m) then Copies(hash, m, b) else []
  {
    FilteredConcat(if hash(m.internalPort) == b then [m] else [], if hash(m.externalPort) == b then [m] else [], keep);
    assert [m][..0] == [];
  }

  // ---- the table in memory

  /** The FIN flags of one copy; a new copy starts with whatever its memory held. */
  datatype Fins = Fins(inside: Byte, outside: Byte)

  /** One stored copy of a mapping, with the bookkeeping of the packets that met this copy. */
  datatype Entry = Entry(m: Mapping, updated: int, fins: Fins)

  datatype Memory = Memory(buckets: seq<seq<Entry>>, pool: seq<bool>)

  function Maps(es: seq<Entry>): (r: seq<Mapping>)
    ensures |r| == |es| && forall i | 0 <= i < |es| :: r[i] == es[i].m
  {
    if es == [] then [] else Maps(es[..|es| - 1]) + [es[|es| - 1].m]
  }

  /** Copies of one mapping in one bucket are stamped together. */
  ghost predicate SameStamps(es: seq<Entry>) {
    forall e, f | e in es && f in es && e.m == f.m :: e.updated == f.updated
  }

  ghost predicate BucketOk(hash: Hash, ms: seq<Mapping>, b: nat, es: seq<Entry>) {
    Maps(es) == Bucket(hash, ms, b) && SameStamps(es)
  }

  ghost predicate Shaped(mem: Memory) { |mem.buckets| == BUCKETS && |mem.pool| == PORTS }

  /** The memory is the index of the table ms. */
  ghost predicate Indexed(hash: Hash, externalIp: U32, mem: Memory, ms: seq<Mapping>) {
    && Shaped(mem) && Table(ms, externalIp)
    && (forall b | 0 <= b < BUCKETS :: BucketOk(hash, ms, b, mem.buckets[b]))
    && (forall p | 0 <= p < PORTS :: mem.pool[p] <==> Assigned(ms, p))
  }

  /** A list traversal that deletes some entries and updates the others. */
  function Kept(es: seq<Entry>, drop: Entry -> bool, touch: Entry -> Entry): seq<Entry> {
    if es == [] then []
    else
      var e := es[|es| - 1];
      Kept(es[..|es| - 1], drop, touch) + if drop(e) then [] else [touch(e)]
  }

  /** It hands the ports of the deleted entries back. */
  function Freed(pool: seq<bool>, es: seq<Entry>, drop: Entry -> bool): (r: seq<bool>)
    requires |pool| == PORTS
    ensures |r| == PORTS
  {
    if es == [] then pool
    else
      var e, r := es[|es| - 1], Freed(pool, es[..|es| - 1], drop);
      if drop(e) then r[e.m.externalPort := false] else r
  }

  ghost predicate Frees(es: seq<Entry>, drop: Entry -> bool, p: int) {
    exists e :: e in es && drop(e) && e.m.externalPort == p
  }

  lemma {:induction false} KeptMeaning(es: seq<Entry>, drop: Entry -> bool, touch: Entry -> Entry)
    ensures forall e | e in es && !drop(e) :: touch(e) in Kept(es, drop, touch)
    ensures forall f | f in Kept(es, drop, touch) :: exists e :: e in es && !drop(e) && f == touch(e)
  {
    if es != [] {
      var front, l := es[..|es| - 1], es[|es| - 1];
      KeptMeaning(front, drop, touch);
      assert forall e :: e in es <==> e in front || e == l;
      forall f | f in Kept(es, drop, touch) ensures exists e :: e in es && !drop(e) && f == touch(e) {
        if f in Kept(front, drop, touch) {
          var e :| e in front && !drop(e) && f == touch(e);
          assert e in es;
        }
      }
    }
  }

  lemma {:induction false} KeptMaps(es: seq<Entry>, drop: Entry -> bool, touch: Entry -> Entry, keep: Mapping -> bool)
    requires forall e | e in es :: (drop(e) <==> !keep(e.m)) && touch(e).m == e.m
    ensures Maps(Kept(es, drop, touch)) == Filtered(Maps(es), keep)
  {
    if es != [] {
      var front, e := es[..|es| - 1], es[|es| - 1];
      assert e in es;
      KeptMaps(front, drop, touch, keep);
      var k := Kept(front, drop, touch);
      assert Maps(es)[..|es| - 1] == Maps(front);
      assert (k + [touch(e)])[..|k|] == k;
    }
  }

  lemma {:induction false} FreedMeaning(pool: seq<bool>, es: seq<Entry>, drop: Entry -> bool, p: nat)
    requires |pool| == PORTS && p < PORTS
    ensures Freed(pool, es, drop)[p] <==> pool[p] && !Frees(es, drop, p)
  {
    if es != [] {
      var front, l := es[..|es| - 1], es[|es| - 1];
      FreedMeaning(pool, front, drop, p);
      assert forall e :: e in es <==> e in front || e == l;
    }
  }

  /** A traversal, one entry further. */
  lemma OneEntryMore(es: seq<Entry>, i: nat, pool: seq<bool>, drop: Entry -> bool, touch: Entry -> Entry)
    requires i < |es| && |pool| == PORTS
    ensures var k := Kept(es[..i], drop, touch);
      Kept(es[..i + 1], drop, touch) == if drop(es[i]) then k else k + [touch(es[i])]
    ensures var r := Freed(pool, es[..i], drop);
      Freed(pool, es[..i + 1], drop) == if drop(es[i]) then r[es[i].m.externalPort := false] else r
  {
    assert es[..i + 1][..i] == es[..i];
  }

  lemma OneHitMore(es: seq<Entry>, i: nat, key: Key)
    requires i < |es|
    ensures var met := Hits(Maps(es[..i]), key);
      Hits(Maps(es[..i + 1]), key) == if Hit(es[i].m, key) then met + [es[i].m] else met
  {
    assert Maps(es[..i + 1])[..i] == Maps(es[..i]);
  }

  lemma MapsMeaning(es: seq<Entry>)
    ensures forall e | e in es :: e.m in Maps(es)
    ensures forall m | m in Maps(es) :: exists e :: e in es && e.m == m
  {
    forall e | e in es ensures e.m in Maps(es) {
      var i :| 0 <= i < |es| && es[i] == e;
      assert Maps(es)[i] == e.m;
    }
    forall m | m in Maps(es) ensures exists e :: e in es && e.m == m {
      var i :| 0 <= i < |es| && Maps(es)[i] == m;
      assert es[i] in es;
    }
  }

  // ---- a scan for one packet

  function Flagged(f: Fins, key: Key): Fins { if key.Inside? then f.(inside := 1) else f.(outside := 1) }

  function Touched(e: Entry, key: Key, c: Control, now: int): Entry {
    if !Hit(e.m, key) then e else e.(updated := now, fins := if c == FinAck then Flagged(e.fins, key) else e.fins)
  }

  /** The two flags add up to two. */
  predicate BothFins(e: Entry) { e.fins.inside + e.fins.outside == 2 }

  predicate Torn(e: Entry, key: Key, c: Control) { Hit(e.m, key) && c == Rst && BothFins(e) }

  function Tear(key: Key, c: Control): Entry -> bool { (e: Entry) => Torn(e, key, c) }

  function Touch(key: Key, c: Control, now: int): Entry -> Entry { (e: Entry) => Touched(e, key, c, now) }

  function ScanMem(hash: Hash, mem: Memory, key: Key, c: Control, now: int): Memory
    requires Shaped(mem) && hash(key.port) < BUCKETS
  {
    var b := hash(key.port);
    Memory(mem.buckets[b := Kept(mem.buckets[b], Tear(key, c), Touch(key, c, now))],
           Freed(mem.pool, mem.buckets[b], Tear(key, c)))
  }

  /** Every copy of the mapping that the packet meets is in this bucket, and goes. */
  ghost predicate TearsDown(hash: Hash, mem: Memory, ms: seq<Mapping>, key: Key, c: Control)
    requires Shaped(mem) && hash(key.port) < BUCKETS
  {
    && c == Rst && Find(ms, key).Some?
    && var m := Find(ms, key).value;
       && hash(m.internalPort) == hash(m.externalPort)
       && forall e | e in mem.buckets[hash(key.port)] && e.m == m :: BothFins(e)
  }

  /** Some copy goes, but not all of them. */
  ghost predicate TearsInPart(hash: Hash, mem: Memory, ms: seq<Mapping>, key: Key, c: Control)
    requires Shaped(mem) && hash(key.port) < BUCKETS
  {
    !TearsDown(hash, mem, ms, key, c) && exists e :: e in mem.buckets[hash(key.port)] && Torn(e, key, c)
  }

  function Survives(torn: bool, o: Option<Mapping>): Mapping -> bool { (m: Mapping) => !(torn && o == Some(m)) }

  /** The table without the mapping that the packet tears down, if it does. */
  ghost function AfterScan(hash: Hash, mem: Memory, ms: seq<Mapping>, key: Key, c: Control): seq<Mapping>
    requires Shaped(mem) && hash(key.port) < BUCKETS
  {
    Filtered(ms, Survives(TearsDown(hash, mem, ms, key, c), Find(ms, key)))
  }

  /** What is in a bucket belongs to the table and hashes there. */
  lemma EntryIsMapped(hash: Hash, externalIp: U32, mem: Memory, ms: seq<Mapping>, b: nat, e: Entry)
    requires Indexed(hash, externalIp, mem, ms) && b < BUCKETS && e in mem.buckets[b]
    ensures e.m in ms && (hash(e.m.internalPort) == b || hash(e.m.externalPort) == b)
  {
    assert BucketOk(hash, ms, b, mem.buckets[b]);
    MapsMeaning(mem.buckets[b]);
    BucketMeaning(hash, ms, b);
  }

  lemma ScanDrops(hash: Hash, externalIp: U32, mem: Memory, ms: seq<Mapping>, key: Key, c: Control, e: Entry)
    requires Indexed(hash, externalIp, mem, ms) && hash(key.port) < BUCKETS && e in mem.buckets[hash(key.port)]
    requires !TearsInPart(hash, mem, ms, key, c)
    ensures Torn(e, key, c) <==> TearsDown(hash, mem, ms, key, c) && e.m == Find(ms, key).value
  {
    EntryIsMapped(hash, externalIp, mem, ms, hash(key.port), e);
    if Hit(e.m, key) {
      FoundIsUnique(externalIp, ms, e.m, key);
    }
  }

  lemma TouchKeepsStamps(es: seq<Entry>, key: Key, c: Control, now: int)
    requires SameStamps(es)
    ensures SameStamps(Kept(es, Tear(key, c), Touch(key, c, now)))
  {
    KeptMeaning(es, Tear(key, c), Touch(key, c, now));
  }

  ghost predicate Loses(ms: seq<Mapping>, keep: Mapping -> bool, p: int) {
    exists m :: m in ms && !keep(m) && m.externalPort == p
  }

  /** Removing mappings from every bucket and their ports from the pool leaves the index of the rest. */
  lemma RemovalKeepsIndex(hash: Hash, externalIp: U32, mem: Memory, mem': Memory, ms: seq<Mapping>,
                          keep: Mapping -> bool)
    requires Indexed(hash, externalIp, mem, ms) && Shaped(mem')
    requires forall b | 0 <= b < BUCKETS ::
      Maps(mem'.buckets[b]) == Filtered(Maps(mem.buckets[b]), keep) && SameStamps(mem'.buckets[b])
    requires forall p | 0 <= p < PORTS ::
      mem'.pool[p] <==> mem.pool[p] && !Loses(ms, keep, p)
    ensures Indexed(hash, externalIp, mem', Filtered(ms, keep))
  {
    FilteredKeepsTable(ms, externalIp, keep);
    FilteredMeaning(ms, keep);
    forall b | 0 <= b < BUCKETS ensures BucketOk(hash, Filtered(ms, keep), b, mem'.buckets[b]) {
      assert BucketOk(hash, ms, b, mem.buckets[b]);
      BucketFiltered(hash, ms, b, keep);
    }
    forall p | 0 <= p < PORTS ensures mem'.pool[p] <==> Assigned(Filtered(ms, keep), p) {
      RemovalFreesPort(externalIp, ms, keep, p);
    }
  }

  lemma RemovalFreesPort(externalIp: U32, ms: seq<Mapping>, keep: Mapping -> bool, p: int)
    requires Table(ms, externalIp)
    ensures Assigned(Filtered(ms, keep), p) <==> Assigned(ms, p) && !Loses(ms, keep, p)
  {
    FilteredMeaning(ms, keep);
    if m :| m in ms && m.externalPort == p {
      FoundIsUnique(externalIp, ms, m, Inside(m.internalIp, m.internalPort));
      assert forall x | x in ms && x.externalPort == p :: x == m;
    }
  }

  lemma ScanBuckets(hash: Hash, externalIp: U32, mem: Memory, ms: seq<Mapping>, key: Key, c: Control, now: int, d: nat)
    requires Indexed(hash, externalIp, mem, ms) && hash(key.port) < BUCKETS && d < BUCKETS
    requires !TearsInPart(hash, mem, ms, key, c)
    ensures var keep := Survives(TearsDown(hash, mem, ms, key, c), Find(ms, key));
      var es := ScanMem(hash, mem, key, c, now).buckets[d];
      Maps(es) == Filtered(Maps(mem.buckets[d]), keep) && SameStamps(es)
  {
    var keep := Survives(TearsDown(hash, mem, ms, key, c), Find(ms, key));
    var es := mem.buckets[d];
    assert BucketOk(hash, ms, d, es);
    if d == hash(key.port) {
      TouchKeepsStamps(es, key, c, now);
      forall e | e in es ensures Tear(key, c)(e) <==> !keep(e.m) {
        ScanDrops(hash, externalIp, mem, ms, key, c, e);
      }
      KeptMaps(es, Tear(key, c), Touch(key, c, now), keep);
    } else {
      OtherBucketsLackIt(hash, externalIp, mem, ms, key, c, d);
      FilteredAll(Maps(es), keep);
    }
  }

  lemma ScanPool(hash: Hash, externalIp: U32, mem: Memory, ms: seq<Mapping>, key: Key, c: Control, now: int, p: nat)
    requires Indexed(hash, externalIp, mem, ms) && hash(key.port) < BUCKETS && p < PORTS
    requires !TearsInPart(hash, mem, ms, key, c)
    ensures var keep := Survives(TearsDown(hash, mem, ms, key, c), Find(ms, key));
      ScanMem(hash, mem, key, c, now).pool[p] <==> mem.pool[p] && !Loses(ms, keep, p)
  {
    var es := mem.buckets[hash(key.port)];
    FreedMeaning(mem.pool, es, Tear(key, c), p);
    if TearsDown(hash, mem, ms, key, c) {
      var e := CopyOf(hash, externalIp, mem, ms, hash(key.port), Find(ms, key).value);
    }
    forall e | e in es
      ensures e.m in ms && (Torn(e, key, c) <==> TearsDown(hash, mem, ms, key, c) && e.m == Find(ms, key).value)
    {
      ScanDrops(hash, externalIp, mem, ms, key, c, e);
      EntryIsMapped(hash, externalIp, mem, ms, hash(key.port), e);
    }
  }

  /** A scan that does not tear a mapping down in part keeps the index. */
  lemma ScanKeepsIndex(hash: Hash, externalIp: U32, mem: Memory, ms: seq<Mapping>, key: Key, c: Control, now: int)
    requires Indexed(hash, externalIp, mem, ms) && hash(key.port) < BUCKETS && !TearsInPart(hash, mem, ms, key, c)
    ensures Indexed(hash, externalIp, ScanMem(hash, mem, key, c, now), AfterScan(hash, mem, ms, key, c))
  {
    forall d | 0 <= d < BUCKETS {
      ScanBuckets(hash, externalIp, mem, ms, key, c, now, d);
    }
    forall p | 0 <= p < PORTS {
      ScanPool(hash, externalIp, mem, ms, key, c, now, p);
    }
    RemovalKeepsIndex(hash, externalIp, mem, ScanMem(hash, mem, key, c, now), ms,
                      Survives(TearsDown(hash, mem, ms, key, c), Find(ms, key)));
  }

  lemma OtherBucketsLackIt(hash: Hash, externalIp: U32, mem: Memory, ms: seq<Mapping>, key: Key, c: Control, d: nat)
    requires Indexed(hash, externalIp, mem, ms) && hash(key.port) < BUCKETS && d < BUCKETS && d != hash(key.port)
    ensures TearsDown(hash, mem, ms, key, c) ==> Find(ms, key).value !in Maps(mem.buckets[d])
  {
    if TearsDown(hash, mem, ms, key, c) {
      assert BucketOk(hash, ms, d, mem.buckets[d]);
      BucketMeaning(hash, ms, d);
    }
  }

  // ---- a scan that tears in part

  ghost predicate IsIndex(hash: Hash, externalIp: U32, mem: Memory) { exists ms :: Indexed(hash, externalIp, mem, ms) }

  function HitCount(es: seq<Entry>, key: Key): nat {
    if es == [] then 0 else HitCount(es[..|es| - 1], key) + if Hit(es[|es| - 1].m, key) then 1 else 0
  }

  lemma {:induction false} HitCountIsLength(es: seq<Entry>, key: Key)
    ensures |Hits(Maps(es), key)| == HitCount(es, key)
  {
    if es != [] {
      HitCountIsLength(es[..|es| - 1], key);
      OneHitMore(es, |es| - 1, key);
      assert es[..|es|] == es;
    }
  }

  lemma HitCountSnoc(es: seq<Entry>, e: Entry, key: Key)
    ensures HitCount(es + [e], key) == HitCount(es, key) + if Hit(e.m, key) then 1 else 0
  {
    assert (es + [e])[..|es|] == es;
  }

  function TornCount(es: seq<Entry>, key: Key, c: Control): nat {
    if es == [] then 0 else TornCount(es[..|es| - 1], key, c) + if Torn(es[|es| - 1], key, c) then 1 else 0
  }

  lemma {:induction false} TornIsCounted(es: seq<Entry>, key: Key, c: Control, e: Entry)
    requires e in es && Torn(e, key, c)
    ensures TornCount(es, key, c) > 0
  {
    if e != es[|es| - 1] {
      TornIsCounted(es[..|es| - 1], key, c, e);
    }
  }

  /** A scan deletes as many hits as it tears copies. */
  lemma {:induction false} FewerHits(es: seq<Entry>, key: Key, c: Control, now: int)
    ensures HitCount(Kept(es, Tear(key, c), Touch(key, c, now)), key) + TornCount(es, key, c) == HitCount(es, key)
  {
    if es != [] {
      var front, l := es[..|es| - 1], es[|es| - 1];
      var left := Kept(front, Tear(key, c), Touch(key, c, now));
      FewerHits(front, key, c, now);
      HitCountSnoc(left, Touched(l, key, c, now), key);
      assert left + [] == left;
    }
  }

  /** A copy in the bucket scanned that stays. */
  lemma CopyStaysHere(hash: Hash, externalIp: U32, mem: Memory, key: Key, c: Control, now: int, ms': seq<Mapping>,
                      f: Entry)
    requires Shaped(mem) && hash(key.port) < BUCKETS && f in mem.buckets[hash(key.port)] && !Torn(f, key, c)
    requires Indexed(hash, externalIp, ScanMem(hash, mem, key, c, now), ms')
    ensures f.m in ms'
  {
    KeptMeaning(mem.buckets[hash(key.port)], Tear(key, c), Touch(key, c, now));
    assert Touch(key, c, now)(f) in ScanMem(hash, mem, key, c, now).buckets[hash(key.port)];
    EntryIsMapped(hash, externalIp, ScanMem(hash, mem, key, c, now), ms', hash(key.port), Touched(f, key, c, now));
  }

  /** A copy in the other bucket of its mapping. */
  lemma CopyStaysThere(hash: Hash, externalIp: U32, mem: Memory, ms: seq<Mapping>, key: Key, c: Control, now: int,
                       ms': seq<Mapping>, m: Mapping)
    requires HashOk(hash) && Indexed(hash, externalIp, mem, ms) && m in ms
    requires hash(m.internalPort) != hash(m.externalPort)
    requires Indexed(hash, externalIp, ScanMem(hash, mem, key, c, now), ms')
    ensures m in ms'
  {
    var b := hash(key.port);
    var d := if hash(m.internalPort) == b then hash(m.externalPort) else hash(m.internalPort);
    var f := CopyOf(hash, externalIp, mem, ms, d, m);
    EntryIsMapped(hash, externalIp, ScanMem(hash, mem, key, c, now), ms', d, f);
  }

  /** Where a mapping is torn down in part, it belongs to any table that the memory could be the index of. */
  lemma CopyStays(hash: Hash, externalIp: U32, mem: Memory, ms: seq<Mapping>, key: Key, c: Control, now: int,
                  ms': seq<Mapping>)
    requires HashOk(hash) && Indexed(hash, externalIp, mem, ms) && TearsInPart(hash, mem, ms, key, c)
    requires Indexed(hash, externalIp, ScanMem(hash, mem, key, c, now), ms')
    ensures Find(ms, key).Some? && Find(ms, key).value in ms'
  {
    var e :| e in mem.buckets[hash(key.port)] && Torn(e, key, c);
    EntryIsMapped(hash, externalIp, mem, ms, hash(key.port), e);
    FoundIsUnique(externalIp, ms, e.m, key);
    if hash(e.m.internalPort) == hash(e.m.externalPort) {
      var f :| f in mem.buckets[hash(key.port)] && f.m == e.m && !BothFins(f);
      CopyStaysHere(hash, externalIp, mem, key, c, now, ms', f);
    } else {
      CopyStaysThere(hash, externalIp, mem, ms, key, c, now, ms', e.m);
    }
  }

  /** After a scan the memory is still the index of some table exactly when no mapping was torn down in
      part. */
  lemma ScanKeepsIndexIff(hash: Hash, externalIp: U32, mem: Memory, ms: seq<Mapping>, key: Key, c: Control, now: int)
    requires HashOk(hash) && Indexed(hash, externalIp, mem, ms)
    ensures IsIndex(hash, externalIp, ScanMem(hash, mem, key, c, now)) <==> !TearsInPart(hash, mem, ms, key, c)
  {
    if !TearsInPart(hash, mem, ms, key, c) {
      ScanKeepsIndex(hash, externalIp, mem, ms, key, c, now);
    } else {
      forall ms' ensures !Indexed(hash, externalIp, ScanMem(hash, mem, key, c, now), ms') {
        TornInPartIsNoIndex(hash, externalIp, mem, ms, key, c, now, ms');
      }
    }
  }

  lemma ScanOutcome(hash: Hash, externalIp: U32, mem: Memory, ms: seq<Mapping>, key: Key, c: Control, now: int)
    requires HashOk(hash) && Indexed(hash, externalIp, mem, ms)
    ensures Indexed(hash, externalIp, ScanMem(hash, mem, key, c, now), AfterScan(hash, mem, ms, key, c))
      <==> !TearsInPart(hash, mem, ms, key, c)
  {
    if TearsInPart(hash, mem, ms, key, c) {
      TornInPartIsNoIndex(hash, externalIp, mem, ms, key, c, now, AfterScan(hash, mem, ms, key, c));
    } else {
      ScanKeepsIndex(hash, externalIp, mem, ms, key, c, now);
    }
  }

  lemma HitsInMemory(hash: Hash, externalIp: U32, mem: Memory, ms: seq<Mapping>, key: Key)
    requires Indexed(hash, externalIp, mem, ms) && hash(key.port) < BUCKETS
    ensures Hits(Maps(mem.buckets[hash(key.port)]), key) ==
      var o := Find(ms, key); if o.Some? then Twice(hash, o.value) else []
  {
    assert BucketOk(hash, ms, hash(key.port), mem.buckets[hash(key.port)]);
    ScanMeetsItsMapping(hash, ms, externalIp, key);
  }

  lemma TornInPartIsNoIndex(hash: Hash, externalIp: U32, mem: Memory, ms: seq<Mapping>, key: Key, c: Control, now: int,
                            ms': seq<Mapping>)
    requires HashOk(hash) && Indexed(hash, externalIp, mem, ms) && TearsInPart(hash, mem, ms, key, c)
    ensures !Indexed(hash, externalIp, ScanMem(hash, mem, key, c, now), ms')
  {
    var mem', es := ScanMem(hash, mem, key, c, now), mem.buckets[hash(key.port)];
    var e :| e in es && Torn(e, key, c);
    TornIsCounted(es, key, c, e);
    FewerHits(es, key, c, now);
    HitCountIsLength(es, key);
    HitCountIsLength(mem'.buckets[hash(key.port)], key);
    HitsInMemory(hash, externalIp, mem, ms, key);
    if Indexed(hash, externalIp, mem', ms') {
      CopyStays(hash, externalIp, mem, ms, key, c, now, ms');
      HitsInMemory(hash, externalIp, mem', ms', key);
      FoundIsUnique(externalIp, ms', Find(ms, key).value, key);
    }
  }

  // ---- a new mapping

  /** The copies of a new mapping in bucket b; `first` and `second` are their starting flags. */
  function NewEntries(hash: Hash, m: Mapping, b: nat, now: int, first: Fins, second: Fins): seq<Entry> {
    (if hash(m.internalPort) == b then [Entry(m, now, first)] else [])
    + (if hash(m.externalPort) == b then [Entry(m, now, second)] else [])
  }

  /** The new copies go to the ends of the two buckets; to the end of one, in order, if they coincide. */
  function AddMem(hash: Hash, mem: Memory, m: Mapping, now: int, first: Fins, second: Fins): Memory
    requires Shaped(mem)
  {
    Memory(seq(BUCKETS, b requires 0 <= b < BUCKETS => mem.buckets[b] + NewEntries(hash, m, b, now, first, second)),
           mem.pool[m.externalPort := true])
  }

  lemma StampsConcat(es: seq<Entry>, m: Mapping, now: int, more: seq<Entry>)
    requires SameStamps(es) && (forall e | e in es :: e.m != m)
    requires forall e | e in more :: e.m == m && e.updated == now
    ensures SameStamps(es + more)
  {
    assert forall e :: e in es + more ==> e in es || e in more;
  }

  lemma AddKeepsBucket(hash: Hash, externalIp: U32, mem: Memory, ms: seq<Mapping>, m: Mapping, now: int,
                       first: Fins, second: Fins, b: nat)
    requires Indexed(hash, externalIp, mem, ms) && b < BUCKETS && m !in ms
    ensures BucketOk(hash, ms + [m], b, mem.buckets[b] + NewEntries(hash, m, b, now, first, second))
  {
    var es, more := mem.buckets[b], NewEntries(hash, m, b, now, first, second);
    assert BucketOk(hash, ms, b, es);
    assert Maps(es + more) == Maps(es) + Copies(hash, m, b);
    assert (ms + [m])[..|ms|] == ms;
    forall e | e in es ensures e.m != m {
      EntryIsMapped(hash, externalIp, mem, ms, b, e);
    }
    StampsConcat(es, m, now, more);
  }

  lemma TableSnoc(externalIp: U32, ms: seq<Mapping>, m: Mapping)
    requires Table(ms, externalIp) && m.externalIp == externalIp
    requires Find(ms, Inside(m.internalIp, m.internalPort)).None? && !Assigned(ms, m.externalPort)
    ensures Table(ms + [m], externalIp) && m !in ms
    ensures forall p: int :: Assigned(ms + [m], p) <==> Assigned(ms, p) || p == m.externalPort
  {
    assert forall x :: x in ms + [m] <==> x in ms || x == m;
    forall i | 0 <= i < |ms| ensures Apart(ms[i], m) {
      assert ms[i] in ms;
    }
  }

  lemma AddKeepsIndex(hash: Hash, externalIp: U32, mem: Memory, ms: seq<Mapping>, m: Mapping, now: int,
                      first: Fins, second: Fins)
    requires Indexed(hash, externalIp, mem, ms) && m.externalIp == externalIp
    requires Find(ms, Inside(m.internalIp, m.internalPort)).None? && !Assigned(ms, m.externalPort)
    ensures Indexed(hash, externalIp, AddMem(hash, mem, m, now, first, second), ms + [m])
  {
    TableSnoc(externalIp, ms, m);
    forall b | 0 <= b < BUCKETS
      ensures BucketOk(hash, ms + [m], b, AddMem(hash, mem, m, now, first, second).buckets[b])
    {
      AddKeepsBucket(hash, externalIp, mem, ms, m, now, first, second, b);
    }
  }

  // ---- the timeout sweep

  function Idle(now: int): Entry -> bool { (e: Entry) => now - e.updated > IDLE }

  function Same(): Entry -> Entry { (e: Entry) => e }

  /** Port i's turn in the sweep: only if it is assigned by then is its bucket looked at. */
  function Visit(hash: Hash, mem: Memory, now: int, i: U16): Memory
    requires Shaped(mem) && HashOk(hash)
  {
    if !mem.pool[i] then mem
    else
      var es := mem.buckets[hash(i)];
      Memory(mem.buckets[hash(i) := Kept(es, Idle(now), Same())], Freed(mem.pool, es, Idle(now)))
  }

  function Swept(hash: Hash, mem: Memory, now: int, i: nat): (r: Memory)
    requires Shaped(mem) && HashOk(hash) && i <= PORTS
    ensures Shaped(r)
  {
    if i == 0 then mem else Visit(hash, Swept(hash, mem, now, i - 1), now, i - 1)
  }

  // ---- whole steps

  /** None of these draws is free, by the pool and by the table. */
  ghost predicate AllTaken(pool: seq<bool>, draws: seq<nat>)
    requires |pool| == PORTS
  {
    forall d | d in draws :: pool[d % PORTS]
  }

  ghost predicate AllAssigned(ms: seq<Mapping>, draws: seq<nat>) { forall d | d in draws :: Assigned(ms, d % PORTS) }

  lemma TakenIffAssigned(hash: Hash, externalIp: U32, mem: Memory, ms: seq<Mapping>, draws: seq<nat>)
    requires Indexed(hash, externalIp, mem, ms)
    ensures AllTaken(mem.pool, draws) <==> AllAssigned(ms, draws)
  {
    assert forall d | d in draws :: mem.pool[d % PORTS] <==> Assigned(ms, d % PORTS);
  }

  /** What the environment decides about an outbound packet: the clock and, for a new mapping, the port
      drawn and the flags its two copies happen to start with. */
  datatype Chance = Chance(now: int, drawn: U16, first: Fins, second: Fins)

  /** The scan of the key's bucket meets an entry. */
  predicate Known(hash: Hash, mem: Memory, key: Key)
    requires Shaped(mem) && hash(key.port) < BUCKETS
  {
    Hits(Maps(mem.buckets[hash(key.port)]), key) != []
  }

  lemma KnownIffFound(hash: Hash, externalIp: U32, mem: Memory, ms: seq<Mapping>, key: Key)
    requires Indexed(hash, externalIp, mem, ms) && hash(key.port) < BUCKETS
    ensures Known(hash, mem, key) <==> Find(ms, key).Some?
  {
    HitsInMemory(hash, externalIp, mem, ms, key);
  }

  /** The memory and the table once the flow of p has a mapping. */
  function GrownMem(hash: Hash, externalIp: U32, mem: Memory, p: Packet, r: Chance): (mem': Memory)
    requires Shaped(mem) && hash(p.sport) < BUCKETS
    ensures Shaped(mem')
  {
    if Known(hash, mem, Inside(p.saddr, p.sport)) then mem
    else AddMem(hash, mem, Mapping(p.saddr, p.sport, externalIp, r.drawn), r.now, r.first, r.second)
  }

  function Grown(externalIp: U32, ms: seq<Mapping>, p: Packet, drawn: U16): seq<Mapping> {
    if Find(ms, Inside(p.saddr, p.sport)).Some? then ms else ms + [Mapping(p.saddr, p.sport, externalIp, drawn)]
  }

  lemma GrownIsIndexed(hash: Hash, externalIp: U32, mem: Memory, ms: seq<Mapping>, p: Packet, r: Chance)
    requires Indexed(hash, externalIp, mem, ms) && hash(p.sport) < BUCKETS
    requires Find(ms, Inside(p.saddr, p.sport)).None? ==> !Assigned(ms, r.drawn)
    ensures Indexed(hash, externalIp, GrownMem(hash, externalIp, mem, p, r), Grown(externalIp, ms, p, r.drawn))
    ensures Find(Grown(externalIp, ms, p, r.drawn), Inside(p.saddr, p.sport)).Some?
  {
    KnownIffFound(hash, externalIp, mem, ms, Inside(p.saddr, p.sport));
    if Find(ms, Inside(p.saddr, p.sport)).None? {
      var m := Mapping(p.saddr, p.sport, externalIp, r.drawn);
      AddKeepsIndex(hash, externalIp, mem, ms, m, r.now, r.first, r.second);
      assert (ms + [m])[|ms|] == m;
    }
  }

  // ---- an outbound packet

  function OutMem(hash: Hash, externalIp: U32, mem: Memory, p: Packet, r: Chance): (mem': Memory)
    requires Shaped(mem) && hash(p.sport) < BUCKETS
    ensures Shaped(mem')
  {
    ScanMem(hash, GrownMem(hash, externalIp, mem, p, r), Inside(p.saddr, p.sport), p.control, r.now)
  }

  /** What leaves for p: a copy per entry of its flow in the bucket, also where the memory is no index. */
  function OutSent(hash: Hash, externalIp: U32, mem: Memory, p: Packet, r: Chance): seq<Packet>
    requires Shaped(mem) && hash(p.sport) < BUCKETS
  {
    Sources(p, Hits(Maps(GrownMem(hash, externalIp, mem, p, r).buckets[hash(p.sport)]), Inside(p.saddr, p.sport)))
  }

  function InSent(hash: Hash, mem: Memory, p: Packet): seq<Packet>
    requires Shaped(mem) && hash(p.dport) < BUCKETS
  {
    Destinations(p, Hits(Maps(mem.buckets[hash(p.dport)]), Outside(p.daddr, p.dport)))
  }

  ghost function OutTable(hash: Hash, externalIp: U32, mem: Memory, ms: seq<Mapping>, p: Packet, r: Chance)
    : seq<Mapping>
    requires Shaped(mem) && HashOk(hash)
  {
    AfterScan(hash, GrownMem(hash, externalIp, mem, p, r), Grown(externalIp, ms, p, r.drawn),
              Inside(p.saddr, p.sport), p.control)
  }

  ghost predicate OutTearsInPart(hash: Hash, externalIp: U32, mem: Memory, ms: seq<Mapping>, p: Packet, r: Chance)
    requires Shaped(mem) && HashOk(hash)
  {
    TearsInPart(hash, GrownMem(hash, externalIp, mem, p, r), Grown(externalIp, ms, p, r.drawn),
                Inside(p.saddr, p.sport), p.control)
  }

  // ---- what leaves

  /** A packet rewritten for each of the mappings met. */
  function Sources(p: Packet, met: seq<Mapping>): seq<Packet> {
    if met == [] then [] else Sources(p, met[..|met| - 1]) + [SourceRewritten(p, met[|met| - 1])]
  }

  function Destinations(p: Packet, met: seq<Mapping>): seq<Packet> {
    if met == [] then [] else Destinations(p, met[..|met| - 1]) + [DestinationRewritten(p, met[|met| - 1])]
  }

  lemma RewriteSnoc(p: Packet, met: seq<Mapping>, m: Mapping)
    ensures Sources(p, met + [m]) == Sources(p, met) + [SourceRewritten(p, m)]
    ensures Destinations(p, met + [m]) == Destinations(p, met) + [DestinationRewritten(p, m)]
  {
    assert (met + [m])[..|met|] == met;
  }

  /** The same in terms of the table: a copy per entry of the flow, or of the external port. */
  function SentOut(hash: Hash, ms: seq<Mapping>, p: Packet): seq<Packet> {
    match Find(ms, Inside(p.saddr, p.sport)) case Some(m) => Sources(p, Twice(hash, m)) case None => []
  }

  function SentIn(hash: Hash, ms: seq<Mapping>, p: Packet): seq<Packet> {
    match Find(ms, Outside(p.daddr, p.dport)) case Some(m) => Destinations(p, Twice(hash, m)) case None => []
  }

  lemma SourcesAreSent(hash: Hash, externalIp: U32, mem: Memory, ms: seq<Mapping>, p: Packet, r: Chance)
    requires Indexed(hash, externalIp, mem, ms) && hash(p.sport) < BUCKETS
    requires Find(ms, Inside(p.saddr, p.sport)).None? ==> !Assigned(ms, r.drawn)
    ensures OutSent(hash, externalIp, mem, p, r) == SentOut(hash, Grown(externalIp, ms, p, r.drawn), p)
  {
    GrownIsIndexed(hash, externalIp, mem, ms, p, r);
    HitsInMemory(hash, externalIp, GrownMem(hash, externalIp, mem, p, r), Grown(externalIp, ms, p, r.drawn),
                 Inside(p.saddr, p.sport));
  }

  lemma DestinationsAreSent(hash: Hash, externalIp: U32, mem: Memory, ms: seq<Mapping>, p: Packet)
    requires Indexed(hash, externalIp, mem, ms) && hash(p.dport) < BUCKETS
    ensures InSent(hash, mem, p) == SentIn(hash, ms, p)
  {
    HitsInMemory(hash, externalIp, mem, ms, Outside(p.daddr, p.dport));
  }

  lemma TornOrSame(hash: Hash, mem: Memory, ms: seq<Mapping>, key: Key, c: Control)
    requires Shaped(mem) && hash(key.port) < BUCKETS && !TearsDown(hash, mem, ms, key, c)
    ensures AfterScan(hash, mem, ms, key, c) == ms
  {
    FilteredAll(ms, Survives(false, Find(ms, key)));
  }

  lemma CopyOf(hash: Hash, externalIp: U32, mem: Memory, ms: seq<Mapping>, b: nat, m: Mapping) returns (e: Entry)
    requires Indexed(hash, externalIp, mem, ms) && m in ms && b < BUCKETS
    requires hash(m.internalPort) == b || hash(m.externalPort) == b
    ensures e in mem.buckets[b] && e.m == m && forall f | f in mem.buckets[b] && f.m == m :: f.updated == e.updated
  {
    assert BucketOk(hash, ms, b, mem.buckets[b]);
    BucketMeaning(hash, ms, b);
    MapsMeaning(mem.buckets[b]);
    assert m in Maps(mem.buckets[b]);
    e :| e in mem.buckets[b] && e.m == m;
  }
}
