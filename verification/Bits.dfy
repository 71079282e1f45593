/** Shifts, masks and or on unsigned numbers, by their bits. */
module Bits {
  import opened Arithmetic
  import opened Bytes

  function Bit(x: nat, i: nat): (b: bool)
  {
    if i == 0 then x % 2 == 1 else Bit(x / 2, i - 1)
  }

  function Shl(x: nat, k: nat): (r: nat) {
    if k == 0 then x else 2 * Shl(x, k - 1)
  }

  function Shr(x: nat, k: nat): (r: nat) {
    if k == 0 then x else Shr(x / 2, k - 1)
  }

  function Or(x: nat, y: nat): (r: nat)
    decreases x + y
  {
    if x == 0 then y else if y == 0 then x
    else (if x % 2 == 1 || y % 2 == 1 then 1 else 0) + 2 * Or(x / 2, y / 2)
  }

  /** The w low bits of x. */
  function Low(x: nat, w: nat): (r: nat) {
    if w == 0 then 0 else x % 2 + 2 * Low(x / 2, w - 1)
  }

  function Ones(w: nat): (r: nat) {
    if w == 0 then 0 else 1 + 2 * Ones(w - 1)
  }

  /** 2 to the w. */
  function Pow2(w: nat): (p: nat)
    ensures p > 0
  {
    if w == 0 then 1 else 2 * Pow2(w - 1)
  }

  /** Bit i of x is the remainder by 2 of what is left when x is divided by 2 to the i. */
  lemma {:induction false} BitIs(x: nat, i: nat)
    ensures Bit(x, i) <==> x / Pow2(i) % 2 == 1
    decreases i
  {
    if i > 0 {
      BitIs(x / 2, i - 1);
      HalveThenDivide(x, Pow2(i - 1));
    }
  }

  lemma HalveThenDivide(x: nat, d: nat)
    requires d > 0
    ensures x / 2 / d == x / (2 * d)
  {
    var q := x / 2 / d;
    assert x / 2 == q * d + x / 2 % d;
    assert x == q * (2 * d) + (2 * (x / 2 % d) + x % 2);
    QuotientIs(x, 2 * d, q, 2 * (x / 2 % d) + x % 2);
  }

  lemma QuotientIs(x: nat, d: nat, q: nat, r: nat)
    requires x == q * d + r && r < d
    ensures x / d == q
  {
    var p := x / d;
    assert x == p * d + x % d && (p + 1) * d == p * d + d && (q + 1) * d == q * d + d;
    if p < q { MulOrder(p + 1, q, d); }
    if q < p { MulOrder(q + 1, p, d); }
  }

  lemma {:induction false} BitZero(i: nat)
    ensures !Bit(0, i)
  {
    if i > 0 { BitZero(i - 1); }
  }

  lemma {:induction false} BitShl(x: nat, k: nat, i: nat)
    ensures Bit(Shl(x, k), i) == (k <= i && Bit(x, i - k))
    decreases k
  {
    if k > 0 && i > 0 {
      assert Shl(x, k) / 2 == Shl(x, k - 1);
      BitShl(x, k - 1, i - 1);
    }
  }

  lemma {:induction false} BitShr(x: nat, k: nat, i: nat)
    ensures Bit(Shr(x, k), i) == Bit(x, i + k)
    decreases k
  {
    if k > 0 { BitShr(x / 2, k - 1, i); }
  }

  lemma {:induction false} BitOr(x: nat, y: nat, i: nat)
    ensures Bit(Or(x, y), i) == (Bit(x, i) || Bit(y, i))
    decreases x + y
  {
    if x == 0 || y == 0 {
      BitZero(i);
    } else if i > 0 {
      BitOr(x / 2, y / 2, i - 1);
    }
  }

  lemma {:induction false} BitLow(x: nat, w: nat, i: nat)
    ensures Bit(Low(x, w), i) == (i < w && Bit(x, i))
    decreases w
  {
    if w == 0 {
      BitZero(i);
    } else if i > 0 {
      BitLow(x / 2, w - 1, i - 1);
    }
  }

  lemma {:induction false} BitOnes(w: nat, i: nat)
    ensures Bit(Ones(w), i) == (i < w)
    decreases w
  {
    if w == 0 {
      BitZero(i);
    } else if i > 0 {
      BitOnes(w - 1, i - 1);
    }
  }

  lemma {:induction false} LowBound(x: nat, w: nat)
    ensures Low(x, w) < Pow2(w)
  {
    if w > 0 { LowBound(x / 2, w - 1); }
  }

  lemma {:induction false} Pow2Order(i: nat, j: nat)
    requires i <= j
    ensures Pow2(i) <= Pow2(j)
    decreases j
  {
    if i < j { Pow2Order(i, j - 1); }
  }

  lemma {:induction false} OnesIsPow2(k: nat)
    ensures Ones(k) + 1 == Pow2(k)
  {
    if k > 0 { OnesIsPow2(k - 1); }
  }

  /** Or makes no number longer. */
  lemma {:induction false} OrBound(x: nat, y: nat, w: nat)
    requires x < Pow2(w) && y < Pow2(w)
    ensures Or(x, y) < Pow2(w)
    decreases w
  {
    if w > 0 && x > 0 && y > 0 { OrBound(x / 2, y / 2, w - 1); }
  }

  lemma {:induction false} ShrBound(x: nat, s: nat, w: nat)
    requires x < Pow2(w)
    ensures Shr(x, s) < Pow2(w)
    decreases s
  {
    if s > 0 { ShrBound(x / 2, s - 1, w); }
  }

  lemma Powers()
    ensures Pow2(16) == 0x1_0000 && Pow2(31) == 0x8000_0000 && Pow2(32) == 0x1_0000_0000
  {
    assert Pow2(8) == 0x100 && Pow2(16) == 0x1_0000 && Pow2(24) == 0x100_0000;
  }

  /** A number below 2 to the w is its w low bits. */
  lemma {:induction false} LowExact(x: nat, w: nat)
    requires x < Pow2(w)
    ensures Low(x, w) == x
  {
    if w > 0 { LowExact(x / 2, w - 1); }
  }

  /** Numbers with the same bits are the same. */
  lemma {:induction false} SameBits(x: nat, y: nat, w: nat)
    requires x < Pow2(w) && y < Pow2(w) && forall i :: 0 <= i < w ==> Bit(x, i) == Bit(y, i)
    ensures x == y
    decreases w
  {
    if w > 0 {
      assert Bit(x, 0) == Bit(y, 0);
      forall i | 0 <= i < w - 1 ensures Bit(x / 2, i) == Bit(y / 2, i) {
        assert Bit(x, i + 1) == Bit(y, i + 1);
      }
      SameBits(x / 2, y / 2, w - 1);
    }
  }

  /** The highest of w bits says whether the upper half is reached. */
  lemma {:induction false} TopBit(x: nat, w: nat)
    requires w > 0 && x < Pow2(w)
    ensures Bit(x, w - 1) <==> Pow2(w - 1) <= x
  {
    if w > 1 { TopBit(x / 2, w - 1); }
  }

  /** A number is its w low bits and what is above them. */
  lemma {:induction false} SplitAt(x: nat, w: nat)
    ensures x == Low(x, w) + Shl(Shr(x, w), w)
  {
    if w > 0 { SplitAt(x / 2, w - 1); }
  }

  lemma Shl8(y: nat)
    ensures Shl(y, 8) == 0x100 * y
  {
    var a := Shl(y, 2);
    assert a == 2 * Shl(y, 1) == 4 * y;
    var b := Shl(y, 4);
    assert b == 2 * Shl(y, 3) == 4 * a;
    var c := Shl(y, 6);
    assert c == 2 * Shl(y, 5) == 4 * b;
    assert Shl(y, 8) == 2 * Shl(y, 7) == 4 * c;
  }

  /** A byte has the eight low bits of what is stored in it. */
  lemma ByteIsLow(x: nat)
    ensures x % 0x100 == Low(x, 8)
  {
    SplitAt(x, 8);
    Shl8(Shr(x, 8));
    LowBound(x, 8);
    assert Pow2(8) == 2 * Pow2(7) == 4 * Pow2(6) == 8 * Pow2(5) == 16 * Pow2(4) && Pow2(4) == 16;
  }

  /** The bytes of a number hold its bits, the lowest first. */
  lemma {:induction false} BitOfDigits(v: nat, n: nat, j: nat, i: nat, at: nat)
    requires j < n && i < 8 && at == 8 * j + i
    ensures Bit(Digits(v, n)[j], i) == Bit(v, at)
    decreases n
  {
    if j == 0 {
      ByteIsLow(v);
      BitLow(v, 8, i);
    } else {
      BitOfDigits(v / 0x100, n - 1, j - 1, i, at - 8);
      Bit8(v, at - 8, at);
    }
  }

  lemma Bit8(v: nat, a: nat, at: nat)
    requires at == a + 8
    ensures Bit(v, at) == Bit(v / 0x100, a)
  {
    assert Bit(v, at) == Bit(v / 2, a + 7) == Bit(v / 2 / 2, a + 6) == Bit(v / 2 / 2 / 2, a + 5) == Bit(v / 2 / 2 / 2 / 2, a + 4);
    assert Bit(v / 2 / 2 / 2 / 2, a + 4) == Bit(v / 2 / 2 / 2 / 2 / 2, a + 3) == Bit(v / 2 / 2 / 2 / 2 / 2 / 2, a + 2) == Bit(v / 0x100, a);
  }
}
