/** getPow2Pad of driver/common.c: the bits of a number smeared downwards. */
module PowersOfTwo {
  import opened Bits

  /** One of the s bits from i on is set. */
  predicate AnyBit(x: nat, i: nat, s: nat)
    decreases s
  {
    s > 0 && (Bit(x, i) || AnyBit(x, i + 1, s - 1))
  }

  lemma {:induction false} AnyBitSplits(x: nat, i: nat, s: nat, t: nat)
    ensures AnyBit(x, i, s + t) == (AnyBit(x, i, s) || AnyBit(x, i + s, t))
    decreases s
  {
    if s > 0 { AnyBitSplits(x, i + 1, s - 1, t); }
  }

  lemma {:induction false} AnyBitOf(x: nat, i: nat, s: nat)
    requires x < Pow2(i + s)
    ensures AnyBit(x, i, s) <==> Pow2(i) <= x
    decreases s
  {
    if s > 0 {
      AnyBitOf(x, i + 1, s - 1);
      if x < Pow2(i + 1) { TopBit(x, i + 1); }
    }
  }

  /** Every bit of y says whether x has a bit among the s from there on. */
  ghost predicate Smeared(x: nat, y: nat, s: nat) {
    forall i :: i >= 0 ==> Bit(y, i) == AnyBit(x, i, s)
  }

  function SmearStep(y: nat, s: nat): (r: nat) { Or(y, Shr(y, s)) }

  lemma SmearDoubles(x: nat, y: nat, s: nat, twice: nat)
    requires Smeared(x, y, s) && twice == s + s && y < Pow2(32)
    ensures Smeared(x, SmearStep(y, s), twice) && SmearStep(y, s) < Pow2(32)
  {
    StepBound(y, s);
    forall i: nat ensures Bit(SmearStep(y, s), i) == AnyBit(x, i, twice) {
      BitOr(y, Shr(y, s), i);
      BitShr(y, s, i);
      AnyBitSplits(x, i, s, s);
    }
  }

  /** How many bits x takes. */
  function Width(x: nat): (k: nat)
    ensures x < Pow2(k) && (k > 0 ==> Pow2(k - 1) <= x)
  {
    if x == 0 then 0 else 1 + Width(x / 2)
  }

  lemma SmearedIsOnes(x: nat, y: nat)
    requires x < Pow2(32) && y < Pow2(32) && Smeared(x, y, 32)
    ensures y == Ones(Width(x))
  {
    hide Pow2, Bit, AnyBit, Ones, Width;
    var k := Width(x);
    if k > 32 { Pow2Order(32, k - 1); }
    OnesIsPow2(k);
    Pow2Order(k, 32);
    forall i | 0 <= i < 32 ensures Bit(y, i) == Bit(Ones(k), i) {
      Pow2Order(32, i + 32);
      AnyBitOf(x, i, 32);
      BitOnes(k, i);
      if i < k { Pow2Order(i, k - 1); } else { Pow2Order(k, i); }
    }
    SameBits(y, Ones(k), 32);
  }

  /** The least power of two that is not below n. */
  function Pow2Pad(n: nat): (p: nat)
    requires n > 0
  {
    Pow2(Width(n - 1))
  }

  lemma Pow2PadIsLeast(n: nat, k: nat)
    requires n > 0
    ensures n <= Pow2Pad(n) && (n <= Pow2(k) ==> Pow2Pad(n) <= Pow2(k))
  {
    var w := Width(n - 1);
    if k < w { Pow2Order(k, w - 1); } else { Pow2Order(w, k); }
  }

  method GetPow2Pad(n: nat) returns (r: nat)
    requires n < 0x1_0000_0000
    ensures r == if n == 0 || n > 0x8000_0000 then 0 else Pow2Pad(n)
  {
    hide Smeared, SmearStep, Pow2, Pow2Pad;
    Powers();
    var x := (n - 1) % 0x1_0000_0000;
    Unsmeared(x);
    var x1 := SmearStep(x, 1);
    SmearDoubles(x, x, 1, 2);
    var x2 := SmearStep(x1, 2);
    SmearDoubles(x, x1, 2, 4);
    var x4 := SmearStep(x2, 4);
    SmearDoubles(x, x2, 4, 8);
    var x8 := SmearStep(x4, 8);
    SmearDoubles(x, x4, 8, 16);
    var x16 := SmearStep(x8, 16);
    SmearDoubles(x, x8, 16, 32);
    PadOf(x, x16);
    r := (x16 + 1) % 0x1_0000_0000;
  }

  lemma PadOf(x: nat, y: nat)
    requires x < Pow2(32) && y < Pow2(32) && Smeared(x, y, 32)
    ensures y + 1 == Pow2Pad(x + 1)
    ensures if x < Pow2(31) then y + 1 <= Pow2(31) else y + 1 == Pow2(32)
  {
    hide Pow2, Width, Smeared;
    SmearedIsOnes(x, y);
    OnesIsPow2(Width(x));
    var k := Width(x);
    if k > 31 { Pow2Order(31, k - 1); } else { Pow2Order(k, 31); }
    if k > 32 { Pow2Order(32, k - 1); }
  }

  lemma Unsmeared(x: nat)
    ensures Smeared(x, x, 1)
  {
  }

  lemma StepBound(y: nat, s: nat)
    requires y < Pow2(32)
    ensures SmearStep(y, s) < Pow2(32)
  {
    ShrBound(y, s, 32);
    OrBound(y, Shr(y, s), 32);
  }
}
