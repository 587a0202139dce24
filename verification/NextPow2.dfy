/** The table size macro of the embedded file index and the masking it allows
    (VFS_NEXT_POW2 in src/vfs_hash.c). */
module NextPow2 {
  import opened Division

  function Smear1(x: bv32): bv32 { x | (x >> 1) }
  function Smear2(x: bv32): bv32 { Smear1(x) | (Smear1(x) >> 2) }
  function Smear4(x: bv32): bv32 { Smear2(x) | (Smear2(x) >> 4) }
  function Smear8(x: bv32): bv32 { Smear4(x) | (Smear4(x) >> 8) }
  function Smear16(x: bv32): bv32 { Smear8(x) | (Smear8(x) >> 16) }

  function NextPow2(x: bv32): bv32 { Smear16(x - 1) + 1 }

  predicate IsPow2(x: bv32) { x != 0 && x & (x - 1) == 0 }

  /** Bit smearing yields the least power of two at or above its argument. */
  lemma NextPow2IsLeast(x: bv32, q: bv32)
    requires 1 <= x <= 0x8000_0000
    ensures IsPow2(NextPow2(x)) && x <= NextPow2(x)
    ensures IsPow2(q) && x <= q ==> NextPow2(x) <= q
  {
  }

  function Pow2(k: nat): (p: nat)
    ensures p > 0
  {
    if k == 0 then 1 else 2 * Pow2(k - 1)
  }

  /** One bit less. */
  lemma Halve(x: bv32)
    requires x > 1 && IsPow2(x)
    ensures IsPow2(x >> 1) && x as int == 2 * ((x >> 1) as int)
  {
  }

  /** A word with a single bit set is a power of two as a number. */
  lemma {:induction false} IsPower(x: bv32) returns (k: nat)
    requires IsPow2(x)
    ensures x as int == Pow2(k)
    decreases x
  {
    if x == 1 {
      k := 0;
    } else {
      Halve(x);
      k := IsPower(x >> 1);
      k := k + 1;
    }
  }

  /** The macro's value as a number is a power of two. */
  lemma NextPow2IsPower(x: bv32) returns (k: nat)
    requires 1 <= x <= 0x8000_0000
    ensures NextPow2(x) as int == Pow2(k) && x <= NextPow2(x)
  {
    var y := NextPow2Of(x);
    k := IsPower(y);
  }

  lemma NextPow2Of(x: bv32) returns (y: bv32)
    requires 1 <= x <= 0x8000_0000
    ensures y == NextPow2(x) && IsPow2(y) && x <= y
  {
    y := NextPow2(x);
    NextPow2IsLeast(x, y);
  }

  /** Bitwise and of two unsigned numbers. */
  function And(x: nat, y: nat): nat
  {
    if x == 0 || y == 0 then 0 else 2 * And(x / 2, y / 2) + (x % 2) * (y % 2)
  }

  /** One more bit of the mask. */
  lemma MaskStep(x: nat, m: nat)
    requires m > 0
    ensures And(x, 2 * m - 1) == 2 * And(x / 2, m - 1) + x % 2
  {
    if x > 0 {
      assert (2 * m - 1) / 2 == m - 1 && (2 * m - 1) % 2 == 1;
    }
  }

  lemma Regroup(q: nat, m: nat)
    ensures q * (2 * m) == 2 * (q * m)
  {
  }

  /** What masking with the low k bits removes is a multiple of the k-th power of two. */
  lemma {:induction false} MaskRemovesMultiple(x: nat, k: nat) returns (q: nat)
    ensures And(x, Pow2(k) - 1) < Pow2(k) && x == q * Pow2(k) + And(x, Pow2(k) - 1)
  {
    if k == 0 {
      q := x;
    } else {
      q := MaskRemovesMultiple(x / 2, k - 1);
      MaskStep(x, Pow2(k - 1));
      Regroup(q, Pow2(k - 1));
    }
  }

  /** Masking with a power of two less one is taking the remainder. */
  lemma MaskIsModulo(x: nat, k: nat)
    ensures And(x, Pow2(k) - 1) == x % Pow2(k)
  {
    var q := MaskRemovesMultiple(x, k);
    RemainderIs(x, Pow2(k), q, And(x, Pow2(k) - 1));
  }
}
