/** Forwarding-table lookup: the scan that keeps the matching entry with the numerically largest mask. */
module LongestPrefix {
  import opened Common

  datatype Entry = Entry(dest: U32, mask: U32, gw: U32, iface: nat)

  /** Bitwise "and". */
  function And(a: nat, b: nat): nat
    decreases a
  {
    if a == 0 || b == 0 then 0
    else (if a % 2 == 1 && b % 2 == 1 then 1 else 0) + 2 * And(a / 2, b / 2)
  }

  predicate Matches(e: Entry, dst: U32) { And(dst, e.mask) == And(e.dest, e.mask) }

  /** r is the first entry of the table among those matching with the largest mask. */
  ghost predicate Selected(table: seq<Entry>, dst: U32, r: Option<nat>) {
    match r
    case None => forall j | 0 <= j < |table| :: !Matches(table[j], dst)
    case Some(i) =>
      && i < |table| && Matches(table[i], dst)
      && (forall j | 0 <= j < |table| && Matches(table[j], dst) :: table[j].mask <= table[i].mask)
      && (forall j | 0 <= j < i && Matches(table[j], dst) :: table[j].mask != table[i].mask)
  }

  method LongestPrefixMatch(table: seq<Entry>, dst: U32) returns (selected: Option<nat>)
    ensures Selected(table, dst, selected)
  {
    selected := None;
    for i := 0 to |table|
      invariant Selected(table[..i], dst, selected)
    {
      if Matches(table[i], dst) {
        if selected.None? || table[selected.value].mask < table[i].mask {
          selected := Some(i);
        }
      }
    }
    assert table[..|table|] == table;
  }

  /** The mask of a prefix of len bits, as a number. */
  function PrefixMask(len: nat): int
    requires len <= 32
  {
    Pow2(32) - Pow2(32 - len)
  }

  /** What is left of a number without its last k bits. */
  function Top(a: nat, k: nat): nat { if k == 0 then a else Top(a / 2, k - 1) }

  lemma {:induction false} AndAllOnes(a: nat, n: nat)
    requires a < Pow2(n)
    ensures And(a, Pow2(n) - 1) == a
  {
    if n > 0 && a > 0 {
      AndAllOnes(a / 2, n - 1);
    }
  }

  lemma {:induction false} AndIsTop(a: nat, b: nat, mask: nat, n: nat, k: nat)
    requires a < Pow2(n) && b < Pow2(n) && k <= n && mask == Pow2(n) - Pow2(k)
    ensures And(a, mask) == And(b, mask) <==> Top(a, k) == Top(b, k)
  {
    if k == 0 {
      AndAllOnes(a, n);
      AndAllOnes(b, n);
    } else {
      AndIsTop(a / 2, b / 2, mask / 2, n - 1, k - 1);
      assert And(a, mask) == 2 * And(a / 2, mask / 2) && And(b, mask) == 2 * And(b / 2, mask / 2);
    }
  }

  /** Under a mask of len leading ones an entry matches exactly when the first len of the 32 bits agree. */
  lemma MatchesIff(e: Entry, len: nat, dst: U32)
    requires len <= 32 && e.mask == PrefixMask(len)
    ensures Matches(e, dst) <==> Top(dst, 32 - len) == Top(e.dest, 32 - len)
  {
    assert Pow2(8) == 0x100;
    assert Pow2(16) == 0x1_0000;
    assert Pow2(24) == 0x100_0000;
    assert Pow2(32) == 0x1_0000_0000;
    AndIsTop(dst, e.dest, e.mask, 32, 32 - len);
  }

  lemma MaskOrderIsLengthOrder(a: nat, b: nat)
    requires a <= 32 && b <= 32
    ensures PrefixMask(a) <= PrefixMask(b) <==> a <= b
  {
    if a < b {
      Pow2Grows(32 - b, 32 - a);
    } else if b < a {
      Pow2Grows(32 - a, 32 - b);
    }
  }

  /** With contiguous masks the selected entry has the longest matching prefix. */
  lemma SelectedIsLongest(table: seq<Entry>, lens: seq<nat>, dst: U32, r: Option<nat>, j: nat)
    requires Selected(table, dst, r) && |lens| == |table| && j < |table| && Matches(table[j], dst)
    requires forall k | 0 <= k < |table| :: lens[k] <= 32 && table[k].mask == PrefixMask(lens[k])
    ensures r.Some? && lens[j] <= lens[r.value]
  {
    MaskOrderIsLengthOrder(lens[j], lens[r.value]);
  }

  // ---- independence of the order of the table

  ghost predicate Chosen(table: seq<Entry>, dst: U32, e: Option<Entry>) {
    exists r: Option<nat> :: Selected(table, dst, r) && e == if r.Some? then Some(table[r.value]) else None
  }

  ghost predicate OrderIrrelevant(table: seq<Entry>, dst: U32) {
    forall t, u, e, f |
      multiset(t) == multiset(u) == multiset(table) && Chosen(t, dst, e) && Chosen(u, dst, f) :: e == f
  }

  ghost predicate Widest(table: seq<Entry>, dst: U32, e: Entry) {
    e in table && Matches(e, dst) && forall x | x in table && Matches(x, dst) :: x.mask <= e.mask
  }

  /** No two different entries match with the same largest mask. */
  ghost predicate NoTie(table: seq<Entry>, dst: U32) {
    forall a, b | Widest(table, dst, a) && Widest(table, dst, b) && a.mask == b.mask :: a == b
  }

  lemma ChosenIsWidest(table: seq<Entry>, t: seq<Entry>, dst: U32, e: Option<Entry>)
    requires multiset(t) == multiset(table) && Chosen(t, dst, e)
    ensures e.Some? ==> Widest(table, dst, e.value)
    ensures e.None? ==> forall x | x in table :: !Matches(x, dst)
  {
    assert forall x :: x in table <==> x in multiset(table);
    assert forall x :: x in t <==> x in multiset(t);
    var r: Option<nat> :| Selected(t, dst, r) && e == if r.Some? then Some(t[r.value]) else None;
    forall x | x in table && Matches(x, dst) ensures r.Some? && x.mask <= t[r.value].mask {
      assert x in t;
      var j :| 0 <= j < |t| && t[j] == x;
    }
    assert r.Some? ==> t[r.value] in t;
  }

  lemma PutFirst(table: seq<Entry>, dst: U32, a: Entry) returns (t: seq<Entry>)
    requires Widest(table, dst, a)
    ensures multiset(t) == multiset(table) && Chosen(t, dst, Some(a))
  {
    var i :| 0 <= i < |table| && table[i] == a;
    t := [a] + (table[..i] + table[i + 1..]);
    MoveFirst(table, i);
    WidestFirstIsSelected(t, table, dst);
  }

  lemma MoveFirst(table: seq<Entry>, i: nat)
    requires i < |table|
    ensures multiset([table[i]] + (table[..i] + table[i + 1..])) == multiset(table)
  {
    assert table == table[..i] + ([table[i]] + table[i + 1..]);
  }

  lemma WidestFirstIsSelected(t: seq<Entry>, table: seq<Entry>, dst: U32)
    requires t != [] && Widest(table, dst, t[0]) && multiset(t) == multiset(table)
    ensures Chosen(t, dst, Some(t[0]))
  {
    forall j | 0 <= j < |t| && Matches(t[j], dst) ensures t[j].mask <= t[0].mask {
      assert t[j] in multiset(t);
      assert t[j] in table;
    }
    assert Selected(t, dst, Some(0));
  }

  lemma EqualMasks(table: seq<Entry>, dst: U32, a: Entry, b: Entry)
    requires Widest(table, dst, a) && Widest(table, dst, b)
    ensures a.mask == b.mask
  {
  }

  /** The lookup ignores the order of the table exactly when no two different entries tie. */
  lemma OrderIrrelevantIff(table: seq<Entry>, dst: U32)
    ensures OrderIrrelevant(table, dst) <==> NoTie(table, dst)
  {
    if NoTie(table, dst) {
      forall t, u, e, f | multiset(t) == multiset(u) == multiset(table) && Chosen(t, dst, e) && Chosen(u, dst, f)
        ensures e == f
      {
        ChosenIsWidest(table, t, dst, e);
        ChosenIsWidest(table, u, dst, f);
        if e.Some? && f.Some? {
          EqualMasks(table, dst, e.value, f.value);
        }
      }
    } else {
      var a, b :| Widest(table, dst, a) && Widest(table, dst, b) && a.mask == b.mask && a != b;
      var t := PutFirst(table, dst, a);
      var u := PutFirst(table, dst, b);
      assert Some(a) != Some(b);
    }
  }

  /** A table that has each network under each mask only once has no ties. */
  lemma DistinctNetworksNeverTie(table: seq<Entry>, dst: U32)
    requires forall i, j | 0 <= i < j < |table| ::
      And(table[i].dest, table[i].mask) != And(table[j].dest, table[j].mask) || table[i].mask != table[j].mask
    ensures OrderIrrelevant(table, dst)
  {
    forall a, b | Widest(table, dst, a) && Widest(table, dst, b) && a.mask == b.mask ensures a == b {
      var i :| 0 <= i < |table| && table[i] == a;
      var j :| 0 <= j < |table| && table[j] == b;
      assert And(table[i].dest, table[i].mask) == And(table[j].dest, table[j].mask);
    }
    OrderIrrelevantIff(table, dst);
  }
}
