/** Single bits of a byte: x | 1 << i, x & !(1 << i) and testing a bit. */
module Bits {
  import opened Bytes

  predicate HasBit(m: nat, i: nat) {
    if i == 0 then m % 2 == 1 else HasBit(m / 2, i - 1)
  }

  function WithBit(m: nat, i: nat, on: bool): nat {
    if i == 0 then m - m % 2 + (if on then 1 else 0)
    else 2 * WithBit(m / 2, i - 1, on) + m % 2
  }

  lemma {:induction false} HasWithBit(m: nat, i: nat, on: bool, j: nat)
    ensures HasBit(WithBit(m, i, on), j) == if i == j then on else HasBit(m, j)
  {
    if i > 0 {
      if j > 0 {
        HasWithBit(m / 2, i - 1, on, j - 1);
      }
      assert WithBit(m, i, on) / 2 == WithBit(m / 2, i - 1, on);
    } else if j > 0 {
      assert WithBit(m, i, on) / 2 == m / 2;
    }
  }

  function Pow2(k: nat): nat { if k == 0 then 1 else 2 * Pow2(k - 1) }

  lemma {:induction false} WithBitFits(m: nat, i: nat, on: bool, k: nat)
    requires i < k && m < Pow2(k)
    ensures WithBit(m, i, on) < Pow2(k)
  {
    var half := Pow2(k - 1);
    assert Pow2(k) == 2 * half && m / 2 < half;
    if i > 0 {
      WithBitFits(m / 2, i - 1, on, k - 1);
      var r := WithBit(m / 2, i - 1, on);
      assert r + 1 <= half && WithBit(m, i, on) == 2 * r + m % 2;
    }
  }

  /** Setting or clearing one of the bits of a byte. */
  function ByteWith(m: u8, i: nat, on: bool): (r: u8)
    requires i < 8
    ensures forall j: nat :: HasBit(r, j) == if i == j then on else HasBit(m, j)
  {
    assert Pow2(8) == 256;
    WithBitFits(m, i, on, 8);
    assert forall j: nat :: HasBit(WithBit(m, i, on), j) == (if i == j then on else HasBit(m, j)) by {
      forall j: nat { HasWithBit(m, i, on, j); }
    }
    WithBit(m, i, on)
  }

  /** A byte without set bits is zero. */
  lemma {:induction false} NoBits(m: nat, k: nat)
    requires m < Pow2(k) && forall j: nat :: j < k ==> !HasBit(m, j)
    ensures m == 0
  {
    if k > 0 {
      forall j: nat | j < k - 1 ensures !HasBit(m / 2, j) {
        assert !HasBit(m, j + 1);
      }
      assert !HasBit(m, 0);
      NoBits(m / 2, k - 1);
    }
  }

  lemma {:induction false} ZeroHasNoBits(j: nat)
    ensures !HasBit(0, j)
  {
    if j > 0 {
      ZeroHasNoBits(j - 1);
    }
  }
}
