/** The machine words of the 64-bit targets, and the saturating arithmetic on them. */
module Machine {

  const U64_MAX: nat := 0xFFFF_FFFF_FFFF_FFFF
  const I64_MAX: nat := 0x7FFF_FFFF_FFFF_FFFF

  /** `usize` is 64 bits wide on the targets whose vector code the repository carries. */
  const USIZE_MAX: nat := U64_MAX

  datatype Option<+T> = None | Some(value: T)

  /** The value a chain of saturating additions ends at when the exact sum is `n`. */
  function Capped(n: nat): nat {
    if n <= U64_MAX then n else U64_MAX
  }

  /** A number halved `k` times, each time rounded down. */
  function ShiftedRight(n: nat, k: nat): nat {
    if k == 0 then n else ShiftedRight(n / 2, k - 1)
  }

  function PowerOf2(n: nat): (power: nat)
    ensures power > 0
  {
    if n == 0 then 1 else 2 * PowerOf2(n - 1)
  }

  lemma {:induction false} PowersMultiply(a: nat, b: nat)
    ensures PowerOf2(a + b) == PowerOf2(a) * PowerOf2(b)
  {
    if a == 0 {
    } else {
      PowersMultiply(a - 1, b);
      assert PowerOf2(a + b) == 2 * (PowerOf2(a - 1) * PowerOf2(b)) == (2 * PowerOf2(a - 1)) * PowerOf2(b);
    }
  }

  lemma WordsHold64Bits()
    ensures PowerOf2(64) == U64_MAX + 1
    ensures PowerOf2(63) == I64_MAX + 1
  {
    assert PowerOf2(4) == 2 * PowerOf2(3) == 16;
    hide PowerOf2;
    PowersMultiply(4, 4);
    assert PowerOf2(8) == 256;
    PowersMultiply(8, 8);
    assert PowerOf2(16) == 0x1_0000;
    PowersMultiply(16, 16);
    assert PowerOf2(32) == 0x1_0000_0000;
    PowersMultiply(32, 32);
  }

  /** `u64::saturating_add`, and `usize::saturating_add`. */
  function SatAdd(a: nat, b: nat): nat {
    Capped(a + b)
  }
}
