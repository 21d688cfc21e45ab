/** The Internet checksum (RFC 1071): a 32-bit word sum, two folds and a complement, measured
    against end-around-carry addition one word at a time. */
module Checksum {
  import opened Common

  // ---- the reference

  /** Section 1 of RFC 1071: addition with the carry brought back in at the low end. */
  function OnesAdd(a: U16, b: U16): U16 { if a + b > 0xffff then a + b - 0xffff else a + b }

  function OnesSum(ws: seq<U16>): U16 {
    if ws == [] then 0 else OnesAdd(OnesSum(ws[..|ws| - 1]), ws[|ws| - 1])
  }

  function Sum(ws: seq<U16>): nat {
    if ws == [] then 0 else Sum(ws[..|ws| - 1]) + ws[|ws| - 1]
  }

  /** The 16-bit one's complement value of a sum. */
  function Reduce(s: nat): U16 { if s <= 0xffff then s else Reduce(s - 0xffff) }

  /** The low 16 bits of a sum that carries at most once. */
  function Low(x: nat): U16
    requires x < 0x2_0000
  {
    if x <= 0xffff then x else x - 0x1_0000
  }

  function Tail(last: seq<Byte>): Byte { if last == [] then 0 else last[0] }

  // ---- the computation

  method Checksum(buf: seq<U16>, last: seq<Byte>, init: U32) returns (c: U16)
    requires |last| <= 1
    ensures c == Returned(init, buf, last)
  {
    hide Sum, Reduce;
    var sum: U32 := SumWords(buf, init);
    TwoFoldsSuffice(sum);
    sum := sum / 0x1_0000 + sum % 0x1_0000;
    sum := sum + sum / 0x1_0000;
    OddByteAdded(sum, Tail(last));
    if last != [] {
      sum := sum + last[0];
    }
    c := Complement(sum);
  }

  method SumWords(buf: seq<U16>, init: U32) returns (sum: U32)
    ensures sum == (init + Sum(buf)) % 0x1_0000_0000
  {
    sum := init;
    for i := 0 to |buf|
      invariant sum == (init + Sum(buf[..i])) % 0x1_0000_0000
    {
      sum := (sum + buf[i]) % 0x1_0000_0000;
      assert buf[..i + 1][..i] == buf[..i];
      AddThenWrap(init + Sum(buf[..i]), buf[i]);
    }
    assert buf[..|buf|] == buf;
  }

  /** The bitwise complement, truncated to 16 bits. */
  function Complement(sum: U32): U16 { 0xffff - sum % 0x1_0000 }

  /** Truncation afterwards keeps the low 16 bits, whether or not the folded sum still carries. */
  lemma OddByteAdded(sum: nat, b: Byte)
    requires sum < 0x2_0000
    ensures Low(Low(sum) + b) == (sum + b) % 0x1_0000
  {
    assert (sum + b) % 0x1_0000 == (Low(sum) + b) % 0x1_0000;
  }

  lemma AddThenWrap(s: nat, w: nat)
    ensures (s % 0x1_0000_0000 + w) % 0x1_0000_0000 == (s + w) % 0x1_0000_0000
  {
  }

  /** Two folds of any 32-bit sum leave the one's complement value in the low 16 bits. */
  lemma TwoFoldsSuffice(s: U32)
    ensures var f := s / 0x1_0000 + s % 0x1_0000;
      f + f / 0x1_0000 < 0x2_0000 && Low(f + f / 0x1_0000) == Reduce(s)
  {
    var f := s / 0x1_0000 + s % 0x1_0000;
    assert s == f + (s / 0x1_0000) * 0xffff;
    ReduceShift(f, s / 0x1_0000);
  }

  lemma {:induction false} ReduceShift(f: nat, k: nat)
    requires f > 0 || k == 0
    ensures Reduce(f + k * 0xffff) == Reduce(f)
  {
    if k > 0 {
      ReduceShift(f, k - 1);
      assert f + k * 0xffff - 0xffff == f + (k - 1) * 0xffff;
    }
  }

  // ---- what it computes

  lemma {:induction false} ReferenceIsReduce(ws: seq<U16>)
    ensures OnesSum(ws) == Reduce(Sum(ws))
  {
    if ws != [] {
      ReferenceIsReduce(ws[..|ws| - 1]);
      ReduceAdd(Sum(ws[..|ws| - 1]), ws[|ws| - 1]);
    }
  }

  lemma {:induction false} ReduceAdd(s: nat, w: U16)
    ensures Reduce(s + w) == OnesAdd(Reduce(s), w)
  {
    if s > 0xffff {
      ReduceAdd(s - 0xffff, w);
    }
  }

  /** What the code returns for an initial sum, a buffer of words and at most one odd byte. */
  function Returned(init: U32, ws: seq<U16>, last: seq<Byte>): U16
    requires |last| <= 1
  {
    0xffff - Low(Reduce((init + Sum(ws)) % 0x1_0000_0000) + Tail(last))
  }

  /** An initial sum stands for its two halves. */
  function Halves(x: U32): seq<U16> { [x / 0x1_0000, x % 0x1_0000] }

  /** The complement of the one's complement sum of these words, an odd byte counting as a word of its own. */
  function Expected(ws: seq<U16>, last: seq<Byte>): U16
    requires |last| <= 1
  {
    0xffff - OnesAdd(OnesSum(ws), Tail(last))
  }

  lemma {:induction false} SumConcat(a: seq<U16>, b: seq<U16>)
    ensures Sum(a + b) == Sum(a) + Sum(b)
  {
    if b == [] {
      assert a + b == a;
    } else {
      SumConcat(a, b[..|b| - 1]);
      assert (a + b)[..|a + b| - 1] == a + b[..|b| - 1];
    }
  }

  lemma SumOfPair(a: U16, b: U16, ws: seq<U16>)
    ensures Sum([a, b] + ws) == a + b + Sum(ws)
  {
    SumConcat([a, b], ws);
    assert Sum([a]) == a;
    assert [a, b][..1] == [a];
  }

  /** Splitting an addend into its halves does not change the one's complement value. */
  lemma HalvesReduceAlike(x: U32, rest: nat)
    ensures Reduce(x / 0x1_0000 + x % 0x1_0000 + rest) == Reduce(x + rest)
  {
    var hi, lo := x / 0x1_0000, x % 0x1_0000;
    assert x == hi * 0x1_0000 + lo;
    ReduceShift(hi + lo + rest, hi);
  }

  lemma OnesSumWithInit(init: U32, ws: seq<U16>)
    ensures OnesSum(Halves(init) + ws) == Reduce(init + Sum(ws))
  {
    ReferenceIsReduce(Halves(init) + ws);
    SumOfPair(init / 0x1_0000, init % 0x1_0000, ws);
    HalvesReduceAlike(init, Sum(ws));
  }

  /** The words of the pseudo-header, before those of the segment. */
  function WithPseudoHeader(saddr: U32, daddr: U32, proto: U16, len: U16, ws: seq<U16>): seq<U16> {
    Halves(saddr) + (Halves(daddr) + ([proto, len] + ws))
  }

  lemma OnesSumWithPseudoHeader(saddr: U32, daddr: U32, proto: U16, len: U16, ws: seq<U16>)
    ensures OnesSum(WithPseudoHeader(saddr, daddr, proto, len, ws)) == Reduce(saddr + daddr + proto + len + Sum(ws))
  {
    var rest := [proto, len] + ws;
    SumOfPair(proto, len, ws);
    SumOfPair(daddr / 0x1_0000, daddr % 0x1_0000, rest);
    OnesSumWithInit(saddr, Halves(daddr) + rest);
    var tail: nat := saddr + Sum(rest);
    HalvesReduceAlike(daddr, tail);
    assert saddr + Sum(Halves(daddr) + rest) == daddr / 0x1_0000 + daddr % 0x1_0000 + tail;
  }

  lemma {:induction false} SumBound(ws: seq<U16>)
    ensures Sum(ws) <= |ws| * 0xffff
  {
    if ws != [] {
      SumBound(ws[..|ws| - 1]);
    }
  }

  /** On whole words (their number of bytes is an int) the code agrees with the reference exactly
      when the 32-bit sum does not wrap. */
  lemma WholeWordsAreRightIff(init: U32, ws: seq<U16>)
    requires 2 * |ws| <= 0x7fff_ffff
    ensures Returned(init, ws, []) == Expected(Halves(init) + ws, []) <==> init + Sum(ws) < 0x1_0000_0000
  {
    OnesSumWithInit(init, ws);
    SumBound(ws);
    WrapIsWrongIff(init + Sum(ws));
  }

  lemma WrapIsWrongIff(s: nat)
    requires s < 0xffff * 0x1_0000_0000
    ensures Reduce(s % 0x1_0000_0000) == Reduce(s) <==> s < 0x1_0000_0000
  {
    var k, t := s / 0x1_0000_0000, s % 0x1_0000_0000;
    if k > 0 {
      assert s == t + k * 0x1_0000_0000;
      WrapShows(t, k);
    }
  }

  /** The initial sum that tcp_checksum passes: the pseudo-header, added up in 32 bits. */
  function PseudoSum(saddr: U32, daddr: U32, proto: U16, len: U16): U32 {
    (saddr + daddr + proto + len) % 0x1_0000_0000
  }

  /** A segment of whole words is checksummed right exactly when the two addresses, the protocol, the
      length and the segment add up to less than 32 bits hold. */
  lemma TcpChecksumIsRightIff(saddr: U32, daddr: U32, proto: U16, len: U16, ws: seq<U16>)
    requires 2 * |ws| <= 0xffff
    ensures Returned(PseudoSum(saddr, daddr, proto, len), ws, []) ==
        Expected(WithPseudoHeader(saddr, daddr, proto, len, ws), [])
      <==> saddr + daddr + proto + len + Sum(ws) < 0x1_0000_0000
  {
    PseudoExpected(saddr, daddr, proto, len, ws);
    PseudoReturned(saddr, daddr, proto, len, ws);
    SumBound(ws);
    WrapIsWrongIff(saddr + daddr + proto + len + Sum(ws));
  }

  lemma PseudoExpected(saddr: U32, daddr: U32, proto: U16, len: U16, ws: seq<U16>)
    ensures Expected(WithPseudoHeader(saddr, daddr, proto, len, ws), [])
      == 0xffff - Reduce(saddr + daddr + proto + len + Sum(ws))
  {
    OnesSumWithPseudoHeader(saddr, daddr, proto, len, ws);
  }

  lemma PseudoReturned(saddr: U32, daddr: U32, proto: U16, len: U16, ws: seq<U16>)
    ensures Returned(PseudoSum(saddr, daddr, proto, len), ws, [])
      == 0xffff - Reduce((saddr + daddr + proto + len + Sum(ws)) % 0x1_0000_0000)
  {
    AddThenWrap(saddr + daddr + proto + len, Sum(ws));
  }

  lemma WrapShows(t: nat, k: nat)
    requires 0 < k < 0xffff
    ensures Reduce(t) != Reduce(t + k * 0x1_0000_0000)
  {
    assert k * 0x1_0000_0000 == k + (k * 0x1_0001) * 0xffff;
    ReduceShift(t + k, k * 0x1_0001);
    CloseSumsDiffer(t, k);
  }

  /** Sums less than a full cycle apart reduce differently. */
  lemma {:induction false} CloseSumsDiffer(t: nat, k: nat)
    requires 0 < k < 0xffff
    ensures Reduce(t) != Reduce(t + k)
  {
    if t > 0xffff {
      CloseSumsDiffer(t - 0xffff, k);
    }
  }

  /** An odd byte is added after folding, without its carry: right exactly when there is none. */
  lemma OddByteIsRightIff(init: U32, ws: seq<U16>, b: Byte)
    requires init + Sum(ws) < 0x1_0000_0000
    ensures Returned(init, ws, [b]) == Expected(Halves(init) + ws, [b]) <==> OnesSum(Halves(init) + ws) + b <= 0xffff
  {
    OnesSumWithInit(init, ws);
    OddByteArithmetic(Reduce(init + Sum(ws)), b);
  }

  lemma OddByteArithmetic(r: U16, b: Byte)
    ensures Low(r + b) == OnesAdd(r, b) <==> r + b <= 0xffff
  {
  }

  lemma {:induction false} SumUpdate(ws: seq<U16>, k: nat, w: U16)
    requires k < |ws|
    ensures Sum(ws[k := w]) == Sum(ws) - ws[k] + w
  {
    var ws' := ws[k := w];
    if k < |ws| - 1 {
      SumUpdate(ws[..|ws| - 1], k, w);
      assert ws'[..|ws| - 1] == ws[..|ws| - 1][k := w];
    } else {
      assert ws'[..k] == ws[..k];
    }
  }

  /** Filling the zeroed checksum field with the result makes the block sum to zero. */
  lemma FilledBlockVerifies(init: U32, ws: seq<U16>, k: nat)
    requires k < |ws| && ws[k] == 0 && init + Sum(ws) + 0xffff < 0x1_0000_0000
    ensures Returned(init, ws[k := Returned(init, ws, [])], []) == 0
  {
    var s, c := init + Sum(ws), Returned(init, ws, []);
    SumUpdate(ws, k, c);
    ReduceFills(s);
  }

  lemma {:induction false} ReduceFills(s: nat)
    ensures Reduce(s + (0xffff - Reduce(s))) == 0xffff
  {
    if s > 0xffff {
      ReduceFills(s - 0xffff);
    }
  }

  /** A change of one word by less than a full cycle, such as any single bit, is always noticed. */
  lemma ChangedWordIsNoticed(init: U32, ws: seq<U16>, k: nat, w: U16)
    requires k < |ws| && w != ws[k] && -0xffff < w - ws[k] < 0xffff
    requires init + Sum(ws) + 0xffff < 0x1_0000_0000
    ensures Returned(init, ws[k := w], []) != Returned(init, ws, [])
  {
    SumUpdate(ws, k, w);
    if w > ws[k] {
      CloseSumsDiffer(init + Sum(ws), w - ws[k]);
    } else {
      CloseSumsDiffer(init + Sum(ws[k := w]), ws[k] - w);
    }
  }

  lemma Pow2Small(j: nat)
    requires j < 16
    ensures 0 < Pow2(j) <= 0x8000
  {
    assert Pow2(15) == 0x8000;
    if j < 15 {
      Pow2Grows(j, 15);
    }
  }

  lemma SingleBitIsNoticed(init: U32, ws: seq<U16>, k: nat, w: U16, j: nat)
    requires k < |ws| && j < 16 && (w == ws[k] + Pow2(j) || ws[k] == w + Pow2(j))
    requires init + Sum(ws) + 0xffff < 0x1_0000_0000
    ensures Returned(init, ws[k := w], []) != Returned(init, ws, [])
  {
    Pow2Small(j);
    ChangedWordIsNoticed(init, ws, k, w);
  }

  /** The order of the words does not matter. */
  lemma WordOrderIsIrrelevant(init: U32, ws: seq<U16>, vs: seq<U16>)
    requires multiset(ws) == multiset(vs)
    ensures Returned(init, ws, []) == Returned(init, vs, []) && OnesSum(ws) == OnesSum(vs)
  {
    SumOfPermutation(ws, vs);
    ReferenceIsReduce(ws);
    ReferenceIsReduce(vs);
  }

  lemma {:induction false} SumOfPermutation(ws: seq<U16>, vs: seq<U16>)
    requires multiset(ws) == multiset(vs)
    ensures Sum(ws) == Sum(vs)
    decreases |ws|
  {
    if ws == [] {
      assert |multiset(vs)| == 0;
    } else {
      var w, front := ws[|ws| - 1], ws[..|ws| - 1];
      assert ws == front + [w];
      assert w in multiset(ws) && w in multiset(vs);
      var i :| 0 <= i < |vs| && vs[i] == w;
      var rest := vs[..i] + vs[i + 1..];
      assert vs == vs[..i] + [w] + vs[i + 1..];
      SameWithout(multiset(front), multiset(rest), w);
      SumOfPermutation(front, rest);
      SumRemove(vs, i);
    }
  }

  lemma SameWithout(a: multiset<U16>, b: multiset<U16>, w: U16)
    requires a + multiset{w} == b + multiset{w}
    ensures a == b
  {
    assert a == (a + multiset{w}) - multiset{w};
  }

  lemma {:induction false} SumRemove(vs: seq<U16>, i: nat)
    requires i < |vs|
    ensures Sum(vs) == Sum(vs[..i] + vs[i + 1..]) + vs[i]
  {
    var rest := vs[..i] + vs[i + 1..];
    if i < |vs| - 1 {
      SumRemove(vs[..|vs| - 1], i);
      assert rest[..|rest| - 1] == vs[..|vs| - 1][..i] + vs[..|vs| - 1][i + 1..];
    } else {
      assert rest == vs[..i];
    }
  }
}
