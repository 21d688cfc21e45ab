/** The machine integers, the one wrapper type and the powers of two that the modules share. */
module Common {
  type Byte = x: int | 0 <= x < 0x100
  type U16 = x: int | 0 <= x < 0x1_0000
  type U32 = x: int | 0 <= x < 0x1_0000_0000

  datatype Option<+T> = None | Some(value: T)

  function Pow2(j: nat): (r: nat)
    ensures r > 0
  {
    if j == 0 then 1 else 2 * Pow2(j - 1)
  }

  lemma {:induction false} Pow2Grows(i: nat, j: nat)
    requires i < j
    ensures Pow2(i) < Pow2(j)
    decreases j
  {
    if i < j - 1 {
      Pow2Grows(i, j - 1);
    }
  }
}
