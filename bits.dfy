/**
 * JavaScript's bitwise operators as the record decoders use them, on
 * non-negative operands that fit comfortably in 32 bits, and the ordinary
 * arithmetic each mask, shift and union amounts to.
 */
module Bits {

  function Pow2(n: nat): (p: nat)
    ensures p >= 1
  {
    if n == 0 then 1 else 2 * Pow2(n - 1)
  }

  /** `x & m`, bit by bit from the least significant bit. */
  function And(x: nat, m: nat): (r: nat)
    ensures r <= x && r <= m
    decreases x
  {
    if x == 0 || m == 0 then 0
    else 2 * And(x / 2, m / 2) + (if x % 2 == 1 && m % 2 == 1 then 1 else 0)
  }

  /** `x | y`, bit by bit from the least significant bit. */
  function Or(x: nat, y: nat): (r: nat)
    ensures r <= x + y
    decreases x + y
  {
    if x == 0 then y
    else if y == 0 then x
    else 2 * Or(x / 2, y / 2) + (if x % 2 == 1 || y % 2 == 1 then 1 else 0)
  }

  /** `x >> n` on a non-negative operand: n halvings. */
  function Shr(x: nat, n: nat): nat
    decreases n
  {
    if n == 0 then x else Shr(x / 2, n - 1)
  }

  /** `x << n` for operands small enough that the 32-bit result does not wrap: n doublings. */
  function Shl(x: nat, n: nat): nat
    decreases n
  {
    if n == 0 then x else Shl(2 * x, n - 1)
  }

  /** Shifting right by n divides by 2^n. */
  lemma {:induction false} ShrIsDiv(x: nat, n: nat)
    ensures Shr(x, n) == x / Pow2(n)
  {
    if n > 0 {
      ShrIsDiv(x / 2, n - 1);
      ModSplit(x, Pow2(n - 1));
    }
  }

  /** Shifting left by n multiplies by 2^n. */
  lemma {:induction false} ShlIsMul(x: nat, n: nat)
    ensures Shl(x, n) == x * Pow2(n)
    decreases n
  {
    if n > 0 {
      ShlIsMul(2 * x, n - 1);
      assert Pow2(n) == 2 * Pow2(n - 1);
      Twice(x, Pow2(n - 1));
    }
  }

  lemma DivModUnique(x: nat, d: nat, q: nat, r: nat)
    requires d >= 1 && x == d * q + r && r < d
    ensures x / d == q && x % d == r
  {
    var q', r' := x / d, x % d;
    assert d * q' + r' == x;
    if q > q' {
      MulGap(d, q, q');
      assert false;
    } else if q < q' {
      MulGap(d, q', q);
      assert false;
    }
  }

  lemma MulGap(d: nat, a: nat, b: nat)
    requires a > b
    ensures d * a >= d * b + d
  {
    var g: nat := a - b - 1;
    assert d * a == d * (b + g + 1);
    Distribute(d, b, g);
    assert d * g >= 0;
  }

  lemma Distribute(d: nat, b: nat, g: nat)
    ensures d * (b + g + 1) == d * b + d * g + d
  {
  }

  /** Splitting off the lowest bit of a division or remainder by an even number. */
  lemma ModSplit(x: nat, p: nat)
    requires p >= 1
    ensures x % (2 * p) == 2 * ((x / 2) % p) + x % 2
    ensures x / (2 * p) == (x / 2) / p
  {
    var q, r := (x / 2) / p, (x / 2) % p;
    assert x / 2 == p * q + r;
    assert x == (2 * p) * q + (2 * r + x % 2);
    DivModUnique(x, 2 * p, q, 2 * r + x % 2);
  }

  /** A mask of the w lowest bits takes the remainder by 2^w. */
  lemma {:induction false} AndLow(x: nat, w: nat)
    ensures And(x, Pow2(w) - 1) == x % Pow2(w)
    decreases w
  {
    if w > 0 && x > 0 {
      var p := Pow2(w - 1);
      assert And(x, Pow2(w) - 1) == 2 * And(x / 2, p - 1) + x % 2 by {
        var m := Pow2(w) - 1;
        assert m == 2 * (p - 1) + 1;
        DivModUnique(m, 2, p - 1, 1);
      }
      assert And(x / 2, p - 1) == (x / 2) % p by {
        AndLow(x / 2, w - 1);
      }
      assert x % Pow2(w) == 2 * ((x / 2) % p) + x % 2 by {
        ModSplit(x, p);
      }
    } else if w == 0 {
      assert Pow2(w) == 1;
    } else {
      DivModUnique(x, Pow2(w), 0, 0);
    }
  }

  /** w one-bits starting at bit k. */
  function FieldMask(k: nat, w: nat): nat
  {
    Pow2(k) * (Pow2(w) - 1)
  }

  /** The w-bit field of x that starts at bit k, left in place. */
  function Field(x: nat, k: nat, w: nat): nat
  {
    (x / Pow2(k)) % Pow2(w) * Pow2(k)
  }

  /** A mask of w one-bits starting at bit k keeps exactly that field of x, in place. */
  lemma {:induction false} AndField(x: nat, k: nat, w: nat)
    ensures And(x, FieldMask(k, w)) == Field(x, k, w)
    decreases k
  {
    if k == 0 {
      AndFieldBase(x, w);
    } else if x > 0 && w > 0 {
      AndField(x / 2, k - 1, w);
      AndFieldStep(x, k, w);
    } else {
      AndFieldZero(x, k, w);
    }
  }

  lemma AndFieldBase(x: nat, w: nat)
    ensures And(x, FieldMask(0, w)) == Field(x, 0, w)
  {
    assert Pow2(0) == 1;
    AndLow(x, w);
  }

  lemma AndFieldZero(x: nat, k: nat, w: nat)
    requires x == 0 || w == 0
    ensures And(x, FieldMask(k, w)) == Field(x, k, w)
  {
    if x == 0 {
      DivModUnique(x, Pow2(k), 0, 0);
    } else {
      assert Pow2(w) == 1;
      assert FieldMask(k, w) == 0;
    }
  }

  lemma AndFieldStep(x: nat, k: nat, w: nat)
    requires k > 0 && x > 0 && w > 0
    requires And(x / 2, FieldMask(k - 1, w)) == Field(x / 2, k - 1, w)
    ensures And(x, FieldMask(k, w)) == Field(x, k, w)
  {
    FieldMaskHalves(k, w);
    assert And(x, FieldMask(k, w)) == 2 * And(x / 2, FieldMask(k - 1, w));
    FieldStep(x, k, w, And(x / 2, FieldMask(k - 1, w)));
  }

  /** A field mask above bit 0 is even and halves to the mask one bit lower. */
  lemma FieldMaskHalves(k: nat, w: nat)
    requires k > 0 && w > 0
    ensures var m := FieldMask(k, w);
      m > 0 && m % 2 == 0 && m / 2 == FieldMask(k - 1, w)
  {
    var ones, p := Pow2(w) - 1, Pow2(k - 1);
    assert Pow2(k) == 2 * p;
    Twice(ones, p);
    assert Pow2(k) * ones == 2 * (p * ones);
    DivModUnique(Pow2(k) * ones, 2, p * ones, 0);
    MulGap(p, ones, 0);
  }

  /** The inductive step of AndField in plain arithmetic. */
  lemma FieldStep(x: nat, k: nat, w: nat, a: nat)
    requires k > 0
    requires a == Field(x / 2, k - 1, w)
    ensures 2 * a == Field(x, k, w)
  {
    var p := Pow2(k - 1);
    ModSplit(x, p);
    assert Pow2(k) == 2 * p;
    Twice((x / Pow2(k)) % Pow2(w), p);
  }

  lemma Twice(f: nat, p: nat)
    ensures f * (2 * p) == 2 * (f * p)
    ensures (2 * f) * p == 2 * (f * p)
  {
  }

  /** The union of a shifted high part and a low part that fits below it is their sum. */
  lemma {:induction false} OrDisjoint(high: nat, low: nat, k: nat)
    requires low < Pow2(k)
    ensures Or(high * Pow2(k), low) == high * Pow2(k) + low
    decreases k
  {
    if k > 0 && high > 0 && low > 0 {
      var a := high * Pow2(k);
      assert a == 2 * (high * Pow2(k - 1));
      assert a / 2 == high * Pow2(k - 1) && a % 2 == 0;
      OrDisjoint(high, low / 2, k - 1);
    }
  }

  /** The low-bit masks of the history decoders take remainders. */
  lemma LowMasks(x: nat)
    ensures And(x, 0x7F) == x % 128 && And(x, 0x3F) == x % 64 && And(x, 0x1F) == x % 32
    ensures And(x, 0x0F) == x % 16 && And(x, 0x07) == x % 8 && And(x, 0x03) == x % 4
  {
    assert Pow2(2) == 4 && Pow2(3) == 8 && Pow2(4) == 16;
    assert Pow2(5) == 32 && Pow2(6) == 64 && Pow2(7) == 128;
    AndLow(x, 7);
    AndLow(x, 6);
    AndLow(x, 5);
    AndLow(x, 4);
    AndLow(x, 3);
    AndLow(x, 2);
  }

  /** The masks of the two, three and four lowest bits, one at a time. */
  lemma LowTwo(x: nat)
    ensures And(x, 0x03) == x % 4
  {
    assert Pow2(2) == 4;
    AndLow(x, 2);
  }

  lemma LowThree(x: nat)
    ensures And(x, 0x07) == x % 8
  {
    assert Pow2(3) == 8;
    AndLow(x, 3);
  }

  lemma LowFour(x: nat)
    ensures And(x, 0x0F) == x % 16
  {
    assert Pow2(4) == 16;
    AndLow(x, 4);
  }

  /** The two top bits of a byte, shifted down by four and by six. */
  lemma TopTwoBits(x: nat)
    requires x < 256
    ensures Shr(And(x, 0xC0), 4) == (x / 64) * 4
    ensures Shr(And(x, 0xC0), 6) == x / 64
  {
    assert Pow2(2) == 4 && Pow2(4) == 16 && Pow2(6) == 64;
    AndField(x, 6, 2);
    var top := x / 64;
    assert top < 4;
    assert And(x, 0xC0) == top * 64;
    DivModUnique(top * 64, 16, top * 4, 0);
    DivModUnique(top * 64, 64, top, 0);
  }

  /** Bits 2 and 3 of a byte, shifted down by two. */
  lemma BitsTwoThree(x: nat)
    ensures Shr(And(x, 0x0C), 2) == (x / 4) % 4
  {
    assert Pow2(2) == 4;
    AndField(x, 2, 2);
    var f := (x / 4) % 4;
    assert And(x, 0x0C) == f * 4;
    DivModUnique(f * 4, 4, f, 0);
  }

  /** Bits 3 to 5 of a byte, shifted down by three. */
  lemma BitsThreeToFive(x: nat)
    ensures Shr(And(x, 0x38), 3) == (x / 8) % 8
  {
    assert Pow2(3) == 8;
    AndField(x, 3, 3);
    var f := (x / 8) % 8;
    assert And(x, 0x38) == f * 8;
    DivModUnique(f * 8, 8, f, 0);
  }

  /** The sign bit of a byte is set exactly for the values from 128 on. */
  lemma SignBit(x: nat)
    requires x < 256
    ensures (And(x, 128) != 0) <==> x >= 128
  {
    assert Pow2(1) == 2 && Pow2(7) == 128;
    AndField(x, 7, 1);
    var top := x / 128;
    assert top < 2 && top % 2 == top;
    assert And(x, 128) == top * 128;
  }
}
