/** Bytes, 128-byte pages and the bit operations of the C source, on unbounded naturals.
    Bit 0 is the lowest bit, which is also how the bitfield structures are laid out. */
module Bits {

  type byte = b: int | 0 <= b < 256

  /** A serial-ID page (A0h for SFP+, upper page 00h for QSFP) or a diagnostics page. */
  type Page = p: seq<byte> | |p| == 128 witness seq(128, i => 0)

  function Pow2(k: nat): (r: nat)
    ensures r >= 1
  {
    if k == 0 then 1 else 2 * Pow2(k - 1)
  }

  /** Bit k of x. */
  predicate Bit(x: nat, k: nat)
    decreases k
  {
    if k == 0 then x % 2 == 1 else Bit(x / 2, k - 1)
  }

  /** The bits of a byte as quotients. */
  lemma BitOfByte(b: byte)
    ensures Bit(b, 0) <==> b % 2 == 1
    ensures Bit(b, 1) <==> b / 2 % 2 == 1
    ensures Bit(b, 2) <==> b / 4 % 2 == 1
    ensures Bit(b, 3) <==> b / 8 % 2 == 1
    ensures Bit(b, 4) <==> b / 16 % 2 == 1
    ensures Bit(b, 5) <==> b / 32 % 2 == 1
    ensures Bit(b, 6) <==> b / 64 % 2 == 1
    ensures Bit(b, 7) <==> b / 128 % 2 == 1
  {
    assert b / 2 / 2 == b / 4 && b / 4 / 2 == b / 8 && b / 8 / 2 == b / 16;
    assert b / 16 / 2 == b / 32 && b / 32 / 2 == b / 64 && b / 64 / 2 == b / 128;
  }

  /** The C operator `|`. */
  function Or(x: nat, y: nat): nat
    decreases x + y
  {
    if x == 0 && y == 0 then 0
    else (if x % 2 == 1 || y % 2 == 1 then 1 else 0) + 2 * Or(x / 2, y / 2)
  }

  lemma {:induction false} BitOfZero(k: nat)
    ensures !Bit(0, k)
  {
    if k > 0 { BitOfZero(k - 1); }
  }

  /** `|` is bitwise disjunction. */
  lemma {:induction false} BitOfOr(x: nat, y: nat, k: nat)
    ensures Bit(Or(x, y), k) <==> Bit(x, k) || Bit(y, k)
    decreases k
  {
    if x == 0 && y == 0 {
      BitOfZero(k);
    } else if k > 0 {
      BitOfOr(x / 2, y / 2, k - 1);
    }
  }

  lemma {:induction false} BitOfPow2(i: nat, k: nat)
    ensures Bit(Pow2(i), k) <==> i == k
    decreases k
  {
    if i == 0 {
      if k > 0 { BitOfZero(k - 1); }
    } else if k > 0 {
      BitOfPow2(i - 1, k - 1);
    }
  }

  /** A number is determined by its bits. */
  lemma {:induction false} SameBits(x: nat, y: nat)
    requires forall k: nat :: Bit(x, k) <==> Bit(y, k)
    ensures x == y
    decreases x + y
  {
    if x > 0 || y > 0 {
      assert Bit(x, 0) <==> Bit(y, 0);
      forall k: nat ensures Bit(x / 2, k) <==> Bit(y / 2, k) {
        assert Bit(x, k + 1) <==> Bit(y, k + 1);
      }
      SameBits(x / 2, y / 2);
    }
  }

  lemma {:induction false} OrZero(x: nat)
    ensures Or(x, 0) == x
  {
    if x > 0 { OrZero(x / 2); }
  }

  /** The C operator `<<`. */
  function Shl(x: nat, k: nat): nat
  {
    if k == 0 then x else 2 * Shl(x, k - 1)
  }

  lemma Shl8(x: nat)
    ensures Shl(x, 8) == 256 * x
  {
    assert Shl(x, 0) == x;
    assert Shl(x, 1) == 2 * x;
    assert Shl(x, 2) == 4 * x;
    assert Shl(x, 4) == 16 * x;
    assert Shl(x, 6) == 64 * x;
  }

  lemma OrEven(a: nat, y: nat)
    ensures Or(2 * a, y) == y % 2 + 2 * Or(a, y / 2)
  {
  }

  /** Two operands without a common place: `|` is addition. */
  lemma {:induction false} OrIsSum(k: nat, high: nat, low: nat)
    requires low < Pow2(k)
    ensures Or(Shl(high, k), low) == Shl(high, k) + low
    decreases k
  {
    if k == 0 {
      OrZero(high);
    } else {
      OrIsSum(k - 1, high, low / 2);
      OrEven(Shl(high, k - 1), low);
    }
  }

  /** Setting one bit adds its place value, unless the bit was set already. */
  lemma {:induction false} OrPow2(x: nat, i: nat)
    ensures Or(x, Pow2(i)) == if Bit(x, i) then x else x + Pow2(i)
    decreases i
  {
    if i == 0 {
      OrZero(x / 2);
    } else {
      OrPow2(x / 2, i - 1);
    }
  }

  lemma {:induction false} OrBound(x: nat, y: nat, k: nat)
    requires x < Pow2(k) && y < Pow2(k)
    ensures Or(x, y) < Pow2(k)
    decreases k
  {
    if k > 0 { OrBound(x / 2, y / 2, k - 1); }
  }

  /** `b |= 1 << i` on an unsigned char. */
  function SetBit(b: byte, i: nat): (r: byte)
    requires i < 8
    ensures r == if Bit(b, i) then b else b + Pow2(i)
    ensures forall k: nat :: Bit(r, k) <==> Bit(b, k) || k == i
  {
    OrPow2(b, i);
    ByteBound(b, i);
    assert forall k: nat :: Bit(Or(b, Pow2(i)), k) <==> Bit(b, k) || k == i by {
      forall k: nat ensures Bit(Or(b, Pow2(i)), k) <==> Bit(b, k) || k == i {
        BitOfOr(b, Pow2(i), k);
        BitOfPow2(i, k);
      }
    }
    Or(b, Pow2(i))
  }

  lemma ByteBound(b: byte, i: nat)
    requires i < 8
    ensures Or(b, Pow2(i)) < 256
  {
    Pow2Grows(i, 7);
    assert Pow2(7) == 128 && Pow2(8) == 256;
    OrBound(b, Pow2(i), 8);
  }

  lemma {:induction false} Pow2Grows(i: nat, j: nat)
    requires i <= j
    ensures Pow2(i) <= Pow2(j)
    decreases j
  {
    if i < j { Pow2Grows(i, j - 1); }
  }
}
