/** The sides and tiles of mip levels against what the hardware's documentation says of
    its texture formats (quoted in driver/common.c): T textures are made of 4 KB
    tiles, LT textures of 64-byte microtiles, and a texture narrower or lower than a
    1 KB subtile is LT. */
module MipSides {
  import opened Arithmetic
  import opened Bits
  import opened PowersOfTwo
  import opened MipLevels

  /** The sides of a 4 KB tile, in pixels: documented up to 64 bits, carried on by the
      driver for the intermediate formats of multisampling, and for 24 bits as for 32. */
  function Tile(bpp: nat): (sides: (nat, nat)) {
    if bpp == 256 then (8, 16)
    else if bpp == 128 then (16, 16)
    else if bpp == 64 then (16, 32)
    else if bpp == 32 || bpp == 24 then (32, 32)
    else if bpp == 16 then (64, 32)
    else if bpp == 8 then (64, 64)
    else if bpp == 4 then (128, 64)
    else (256, 128)
  }

  predicate LeastMultiple(r: nat, n: nat, m: nat) {
    m > 0 && r % m == 0 && n <= r < n + m
  }

  /** A level that fits into half a tile, which is a subtile, on one side is LT and rounded
      up to whole microtiles, an eighth of a tile on each side; others are
      rounded up to whole tiles. */
  lemma AsDocumented(s: Shape, c: nat)
    requires Valid(s) && !s.tiling.Linear?
    ensures var (tw, th) := Tile(s.bpp);
      var small := 2 * W(s, c) <= tw || 2 * H(s, c) <= th;
      && LevelTiling(s, c) == (if small then LT else s.tiling)
      && (if small then LeastMultiple(PaddedW(s, c), W(s, c), tw / 8) else LeastMultiple(PaddedW(s, c), W(s, c), tw))
      && (if small then LeastMultiple(PaddedH(s, c), H(s, c), th / 8) else LeastMultiple(PaddedH(s, c), H(s, c), th))
      && (s.bpp != 24 ==> tw * th * s.bpp == 8 * 4096)
  {
    hide W, H, RoundUp;
    RoundUpIsLeast(W(s, c), GrainW(s, c));
    RoundUpIsLeast(H(s, c), GrainH(s, c));
  }

  /** Linear images are padded in width to a microtile, multisampled ones to 32 pixels
      on both sides. */
  lemma LinearPadded(s: Shape, c: nat)
    requires Valid(s) && s.tiling.Linear?
    ensures if s.samples > 1 then LeastMultiple(PaddedW(s, c), W(s, c), 32) && LeastMultiple(PaddedH(s, c), H(s, c), 32)
      else LeastMultiple(PaddedW(s, c), W(s, c), Tile(s.bpp).0 / 8) && PaddedH(s, c) == H(s, c)
    ensures LevelTiling(s, c) == Linear
  {
    hide W, H;
    RoundUpIsLeast(W(s, c), GrainW(s, c));
    if s.samples > 1 { RoundUpIsLeast(H(s, c), 32); }
  }

  /** Level 0 has the image's own sides, in 4x4 blocks if it is compressed; behind it the
      sides are powers of two that halve from level to level down to 1, from the
      least power that holds the image. */
  lemma SidesHalve(x: nat, c: nat)
    requires x > 0
    ensures LevelSide(x, 0) == x
    ensures LevelSide(x, c + 1) > 1 ==>
      LevelSide(x, c + 1) * Pow2(c + 1) < 2 * x <= 2 * (LevelSide(x, c + 1) * Pow2(c + 1))
    ensures LevelSide(x, c + 1) == 1 ==> x <= Pow2(c + 1)
    ensures LevelSide(x, c + 1) >= 1 && LevelSide(x, c + 2) == if LevelSide(x, c + 1) == 1 then 1 else LevelSide(x, c + 1) / 2
  {
    hide Shr, Width;
    var k, d := Width(x - 1), c + 1;
    ShrPow2(k, d);
    ShrPow2(k, c + 2);
    Pow2PadIsLeast(x, d);
    if d <= k { Pow2Sum(k - d, d); } else { Pow2Order(k, d); }
  }

  lemma {:induction false} Pow2Sum(i: nat, j: nat)
    ensures Pow2(i) * Pow2(j) == Pow2(i + j)
  {
    if i > 0 { Pow2Sum(i - 1, j); }
  }

  /** As many 4x4 blocks as cover the image. */
  lemma BlocksCover(x: nat)
    ensures Base(x, false) == x && x <= 4 * Base(x, true) < x + 4
  {
  }
}
