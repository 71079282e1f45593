/** Where the mip levels of an image lie: vkGetImageMemoryRequirements of
    driver/resource.c with roundUp, isLTformat and getUTileDimensions of
    driver/common.c. */
module MipLevels {
  import opened Arithmetic
  import opened Bits
  import opened PowersOfTwo

  datatype Tiling = Linear | T | LT

  /** What vkCreateImage records. blocks: the format is ETC2, in 4x4 blocks. */
  datatype Shape = Shape(width: nat, height: nat, blocks: bool, bpp: nat, samples: nat, layers: nat, tiling: Tiling, levels: nat)

  const PAGE := 4096
  const MAX_LEVELS := 12

  /** The formats getUTileDimensions knows. */
  predicate Supported(bpp: nat) { bpp in {1, 4, 8, 16, 24, 32, 64, 128, 256} }

  function TileW(bpp: nat): (w: nat)
    requires Supported(bpp)
    ensures w > 0
  {
    match bpp
    case 256 => 1
    case 128 => 2
    case 64 => 2
    case 32 => 4
    case 24 => 4
    case 16 => 8
    case 8 => 8
    case 4 => 16
    case _ => 32
  }

  function TileH(bpp: nat): (h: nat)
    requires Supported(bpp)
    ensures h > 0
  {
    match bpp
    case 256 => 2
    case 128 => 2
    case 64 => 4
    case 32 => 4
    case 24 => 4
    case 16 => 4
    case 8 => 8
    case 4 => 8
    case _ => 16
  }

  /** The bytes in a row of a microtile, and in all of it. */
  function TileRow(bpp: nat): (b: nat)
    requires Supported(bpp)
    ensures b > 0 && TileW(bpp) * bpp == 8 * b
  {
    TileW(bpp) * bpp / 8
  }

  function TileBytes(bpp: nat): (b: nat)
    requires Supported(bpp)
    ensures b == if bpp == 24 then 48 else 64
  {
    TileH(bpp) * TileRow(bpp)
  }

  /** Too small for the 4 KB tiles of the T format. */
  predicate IsLT(bpp: nat, w: nat, h: nat)
    requires Supported(bpp)
  {
    w <= 4 * TileW(bpp) || h <= 4 * TileH(bpp)
  }

  function RoundUp(n: nat, m: nat): (r: nat) {
    if m == 0 || n % m == 0 then n else n + m - n % m
  }

  function Max(a: nat, b: nat): (r: nat) { if a > b then a else b }

  function Base(x: nat, blocks: bool): (r: nat) { if blocks then (x + 3) / 4 else x }

  function LevelSide(x: nat, c: nat): (r: nat)
    requires x > 0
  {
    if c == 0 then x else Max(Shr(Pow2Pad(x), c), 1)
  }

  predicate Valid(s: Shape) {
    Supported(s.bpp) && s.width > 0 && s.height > 0 && 1 <= s.levels <= MAX_LEVELS
  }

  function W(s: Shape, c: nat): (w: nat)
    requires Valid(s)
  {
    LevelSide(Base(s.width, s.blocks), c)
  }

  function H(s: Shape, c: nat): (h: nat)
    requires Valid(s)
  {
    LevelSide(Base(s.height, s.blocks), c)
  }

  function LevelTiling(s: Shape, c: nat): (t: Tiling)
    requires Valid(s)
  {
    if s.tiling.Linear? then Linear else if IsLT(s.bpp, W(s, c), H(s, c)) then LT else s.tiling
  }

  /** What the sides of a level are rounded up to. */
  function GrainW(s: Shape, c: nat): (g: nat)
    requires Valid(s)
    ensures g > 0
  {
    if s.tiling.Linear? then if s.samples > 1 then 32 else TileW(s.bpp)
    else if IsLT(s.bpp, W(s, c), H(s, c)) then TileW(s.bpp) else TileW(s.bpp) * 8
  }

  function GrainH(s: Shape, c: nat): (g: nat)
    requires Valid(s)
  {
    if s.tiling.Linear? then if s.samples > 1 then 32 else 0
    else if IsLT(s.bpp, W(s, c), H(s, c)) then TileH(s.bpp) else TileH(s.bpp) * 8
  }

  function PaddedW(s: Shape, c: nat): (w: nat)
    requires Valid(s)
  {
    RoundUp(W(s, c), GrainW(s, c))
  }

  function PaddedH(s: Shape, c: nat): (h: nat)
    requires Valid(s)
  {
    RoundUp(H(s, c), GrainH(s, c))
  }

  function RowBits(s: Shape, c: nat): (b: nat)
    requires Valid(s)
  {
    Times(Times(PaddedW(s, c), s.bpp), Max(s.samples, 1))
  }

  function Stride(s: Shape, c: nat): (b: nat)
    requires Valid(s)
  {
    RowBits(s, c) / 8
  }

  function Size(s: Shape, c: nat): (b: nat)
    requires Valid(s)
  {
    Times(PaddedH(s, c), Stride(s, c))
  }

  /** The bytes of the levels smaller than c. */
  function Smaller(s: Shape, c: nat): (b: nat)
    requires Valid(s)
    decreases s.levels - c
  {
    if c + 1 >= s.levels then 0 else Size(s, c + 1) + Smaller(s, c + 1)
  }

  function Offset(s: Shape, c: nat): (o: nat)
    requires Valid(s)
  {
    Smaller(s, c) + (RoundUp(Smaller(s, 0), PAGE) - Smaller(s, 0))
  }

  function LayerSize(s: Shape): (b: nat)
    requires Valid(s)
  {
    RoundUp(Size(s, 0) + Offset(s, 0), PAGE)
  }

  /** Nothing on the way exceeds 32 bits. */
  ghost predicate Fits(s: Shape)
    requires Valid(s)
  {
    && s.width <= 0x8000_0000 && s.height <= 0x8000_0000 && LayerSize(s) < 0x1_0000_0000
    && (forall c :: 0 <= c < s.levels ==> RowBits(s, c) < 0x1_0000_0000 && PaddedH(s, c) < 0x1_0000_0000)
  }

  /** What vkCreateImage chooses for an image that need not be linear. */
  predicate Created(s: Shape)
    requires Valid(s)
  {
    !s.tiling.Linear? && (s.tiling.LT? <==> IsLT(s.bpp, s.width, s.height))
  }

  // -------------------------------------------------------------- rounding

  lemma RoundUpIsLeast(n: nat, m: nat)
    requires m > 0
    ensures n <= RoundUp(n, m) < n + m && RoundUp(n, m) % m == 0
    ensures RoundUp(n, m) == RoundUp(n, m) / m * m
  {
    var q, x := n / m, n % m;
    assert n == q * m + x;
    if x > 0 {
      assert (q + 1) * m == q * m + m;
      Multiples(q + 1, m);
    }
  }

  /** Among the multiples of m. */
  lemma RoundUpBelow(n: nat, m: nat, q: nat)
    requires m > 0 && n <= Times(q, m)
    ensures RoundUp(n, m) <= Times(q, m)
  {
    RoundUpIsLeast(n, m);
    var x := RoundUp(n, m) / m;
    assert (q + 1) * m == q * m + m;
    if q < x { MulOrder(q + 1, x, m); }
  }

  lemma RoundUpOrder(a: nat, b: nat, m: nat, f: nat)
    requires a <= b && m > 0 && f > 0
    ensures RoundUp(a, m) <= RoundUp(b, Times(m, f))
  {
    Multiples(f, m);
    RoundUpIsLeast(b, Times(m, f));
    var y := RoundUp(b, Times(m, f)) / Times(m, f);
    Associate(y, f, m);
    RoundUpBelow(a, m, Times(y, f));
  }

  // ------------------------------------------------------- sides of levels

  lemma {:induction false} ShrPow2(k: nat, c: nat)
    ensures Shr(Pow2(k), c) == if c <= k then Pow2(k - c) else 0
    decreases c
  {
    if c > 0 {
      if k > 0 { ShrPow2(k - 1, c - 1); assert Pow2(k) / 2 == Pow2(k - 1); }
      else { ShrZero(c - 1); }
    }
  }

  lemma {:induction false} ShrZero(c: nat)
    ensures Shr(0, c) == 0
  {
    if c > 0 { ShrZero(c - 1); }
  }

  /** Each level is at most as large as the one before, though level 0 has the
      image's own size and the others halve the next power of two. */
  lemma SidesShrink(x: nat, c: nat)
    requires x > 0
    ensures 1 <= LevelSide(x, c + 1) <= LevelSide(x, c)
  {
    var k := Width(x - 1);
    ShrPow2(k, c);
    ShrPow2(k, c + 1);
    if c < k { Pow2Order(k - c - 1, k - c); }
  }

  lemma BaseShrinks(x: nat, blocks: bool)
    requires x > 0
    ensures 0 < Base(x, blocks) <= x
  {
  }

  lemma SmallStaysSmall(s: Shape, c: nat)
    requires Valid(s) && IsLT(s.bpp, W(s, c), H(s, c))
    ensures IsLT(s.bpp, W(s, c + 1), H(s, c + 1))
  {
    SidesShrink(Base(s.width, s.blocks), c);
    SidesShrink(Base(s.height, s.blocks), c);
  }

  lemma {:induction false} AllSmall(s: Shape, c: nat)
    requires Valid(s) && Created(s) && s.tiling.LT?
    ensures IsLT(s.bpp, W(s, c), H(s, c))
    decreases c
  {
    if c == 0 {
      BaseShrinks(s.width, s.blocks);
      BaseShrinks(s.height, s.blocks);
    } else {
      AllSmall(s, c - 1);
      SmallStaysSmall(s, c - 1);
    }
  }

  /** Every level has the tiling its size asks for, and the levels in T format come
      first: below one that is not, none is. */
  lemma TilingIsPrefix(s: Shape, c: nat)
    requires Valid(s) && Created(s)
    ensures LevelTiling(s, c) == if IsLT(s.bpp, W(s, c), H(s, c)) then LT else T
    ensures LevelTiling(s, c) == LT ==> LevelTiling(s, c + 1) == LT
  {
    if s.tiling.LT? { AllSmall(s, c); AllSmall(s, c + 1); }
    if IsLT(s.bpp, W(s, c), H(s, c)) { SmallStaysSmall(s, c); }
  }

  // -------------------------------------------------------- sizes of levels

  /** How many microtiles a tile has on each side. */
  function Factor(s: Shape, c: nat): (f: nat)
    requires Valid(s)
  {
    if IsLT(s.bpp, W(s, c), H(s, c)) then 1 else 8
  }

  /** The microtiles or tiles in a row and in a column. */
  function Columns(s: Shape, c: nat): (x: nat)
    requires Valid(s)
  {
    Over(PaddedW(s, c), GrainW(s, c))
  }

  function Rows(s: Shape, c: nat): (y: nat)
    requires Valid(s)
  {
    Over(PaddedH(s, c), Max(GrainH(s, c), 1))
  }

  /** A level is a whole number of microtiles; a T level of 4 KB tiles. */
  lemma SizeIsWhole(s: Shape, c: nat)
    requires Valid(s) && !s.tiling.Linear?
    ensures Size(s, c) == Times(Times(Columns(s, c), Times(Rows(s, c), Max(s.samples, 1))), Times(Times(Factor(s, c), Factor(s, c)), TileBytes(s.bpp)))
  {
    hide RoundUp, Times, TileW, TileH, W, H, IsLT, TileBytes, TileRow, Columns, Rows, Factor, PaddedW, PaddedH, Max;
    var f, tw, th, r, n := Factor(s, c), TileW(s.bpp), TileH(s.bpp), TileRow(s.bpp), Max(s.samples, 1);
    Sides(s, c, tw, th, f);
    TileIs(s.bpp);
    RowIsWhole(Columns(s, c), f, tw, s.bpp, n, r);
    WholeProduct(Rows(s, c), th, f, Columns(s, c), n, r);
  }

  lemma TileIs(bpp: nat)
    requires Supported(bpp)
    ensures TileBytes(bpp) == Times(TileH(bpp), TileRow(bpp)) && Times(TileW(bpp), bpp) == 8 * TileRow(bpp)
  {
  }

  lemma Sides(s: Shape, c: nat, tw: nat, th: nat, f: nat)
    requires Valid(s) && !s.tiling.Linear? && tw == TileW(s.bpp) && th == TileH(s.bpp) && f == Factor(s, c)
    ensures PaddedW(s, c) == Times(Columns(s, c), Times(tw, f)) && PaddedH(s, c) == Times(Rows(s, c), Times(th, f))
  {
    hide RoundUp, TileW, TileH, W, H, IsLT;
    RoundUpIsLeast(W(s, c), Times(tw, f));
    RoundUpIsLeast(H(s, c), Times(th, f));
  }

  lemma RowIsWhole(x: nat, f: nat, tw: nat, bpp: nat, samples: nat, r: nat)
    requires Times(tw, bpp) == 8 * r
    ensures Times(Times(Times(x, Times(tw, f)), bpp), samples) / 8 == Times(Times(Times(x, f), samples), r)
  {
    assert x * (tw * f) * bpp * samples == (x * f * samples) * (tw * bpp);
    assert (x * f * samples) * (8 * r) == 8 * (x * f * samples * r);
  }

  lemma WholeProduct(y: nat, th: nat, f: nat, x: nat, samples: nat, r: nat)
    ensures Times(Times(y, Times(th, f)), Times(Times(Times(x, f), samples), r))
         == Times(Times(x, Times(y, samples)), Times(Times(f, f), Times(th, r)))
  {
    assert y * (th * f) * (x * f * samples * r) == (y * f * (x * f * samples)) * (th * r);
    assert y * f * (x * f * samples) == x * (y * samples) * (f * f);
    assert x * (y * samples) * (f * f) * (th * r) == x * (y * samples) * (f * f * (th * r));
  }

  lemma WholeTiles(s: Shape, c: nat)
    requires Valid(s) && !s.tiling.Linear? && s.bpp != 24
    ensures Size(s, c) % 64 == 0 && (!IsLT(s.bpp, W(s, c), H(s, c)) ==> Size(s, c) % PAGE == 0)
  {
    hide Times, IsLT, W, H, TileBytes, Size, Columns, Rows, Max;
    SizeIsWhole(s, c);
    var n := Times(Columns(s, c), Times(Rows(s, c), Max(s.samples, 1)));
    InTiles(s.bpp);
    IsMultiple(n, 64);
    IsMultiple(n, PAGE);
  }

  lemma InTiles(bpp: nat)
    requires Supported(bpp) && bpp != 24
    ensures Times(Times(1, 1), TileBytes(bpp)) == 64 && Times(Times(8, 8), TileBytes(bpp)) == PAGE
  {
  }

  lemma IsMultiple(n: nat, d: nat)
    requires d > 0
    ensures Times(n, d) % d == 0
  {
    if n > 0 { Multiples(n, d); }
  }

  /** A smaller level takes no more room. */
  lemma SmallestFirst(s: Shape, c: nat)
    requires Valid(s) && Created(s)
    ensures Size(s, c + 1) <= Size(s, c)
  {
    hide IsLT, Times, LevelSide, RoundUp, TileW, TileH, Base, Max;
    var next := c + 1;
    SidesShrink(Base(s.width, s.blocks), c) by { BaseShrinks(s.width, s.blocks); }
    SidesShrink(Base(s.height, s.blocks), c) by { BaseShrinks(s.height, s.blocks); }
    if IsLT(s.bpp, W(s, c), H(s, c)) { SmallStaysSmall(s, c); }
    SidesOrder(s, c, next);
    var n := Max(s.samples, 1);
    TimesOrder(PaddedW(s, next), PaddedW(s, c), s.bpp, s.bpp);
    TimesOrder(Times(PaddedW(s, next), s.bpp), Times(PaddedW(s, c), s.bpp), n, n);
    TimesOrder(PaddedH(s, next), PaddedH(s, c), Stride(s, next), Stride(s, c));
  }

  lemma SidesOrder(s: Shape, c: nat, next: nat)
    requires Valid(s) && !s.tiling.Linear? && W(s, next) <= W(s, c) && H(s, next) <= H(s, c)
    requires IsLT(s.bpp, W(s, c), H(s, c)) ==> IsLT(s.bpp, W(s, next), H(s, next))
    ensures PaddedW(s, next) <= PaddedW(s, c) && PaddedH(s, next) <= PaddedH(s, c)
  {
    hide IsLT, RoundUp, TileW, TileH, W, H;
    RoundUpOrder(W(s, next), W(s, c), TileW(s.bpp), 1);
    RoundUpOrder(W(s, next), W(s, c), TileW(s.bpp), 8);
    RoundUpOrder(W(s, next), W(s, c), TileW(s.bpp) * 8, 1);
    RoundUpOrder(H(s, next), H(s, c), TileH(s.bpp), 1);
    RoundUpOrder(H(s, next), H(s, c), TileH(s.bpp), 8);
    RoundUpOrder(H(s, next), H(s, c), TileH(s.bpp) * 8, 1);
  }

  lemma TimesOrder(a: nat, b: nat, x: nat, y: nat)
    requires a <= b && x <= y
    ensures Times(a, x) <= Times(b, y)
  {
    MulOrder(a, b, x);
    MulOrder(x, y, b);
    assert x * b == b * x && y * b == b * y;
  }

  // ---------------------------------------------------- where the levels lie

  /** Two levels do not overlap: the smaller one ends before the larger one starts,
      and right there if they are neighbours. */
  lemma {:induction false} LevelsApart(s: Shape, c: nat, d: nat)
    requires Valid(s) && c < d < s.levels
    ensures Offset(s, d) + Size(s, d) <= Offset(s, c)
    ensures d == c + 1 ==> Offset(s, d) + Size(s, d) == Offset(s, c)
    decreases d - c
  {
    hide Size;
    if c + 1 < d { LevelsApart(s, c + 1, d); }
  }

  /** All levels lie in one layer, level 0 at the start of a page; a layer is as many
      pages as it takes. */
  lemma {:induction false} LevelsInLayer(s: Shape, c: nat)
    requires Valid(s) && c < s.levels
    ensures Offset(s, c) + Size(s, c) <= LayerSize(s)
    ensures Offset(s, 0) % 4096 == 0 && LayerSize(s) % 4096 == 0 && LayerSize(s) < Offset(s, 0) + Size(s, 0) + 4096
  {
    hide Size;
    RoundUpIsLeast(Smaller(s, 0), PAGE);
    RoundUpIsLeast(Size(s, 0) + Offset(s, 0), PAGE);
    if c > 0 {
      LevelsApart(s, c - 1, c);
      LevelsInLayer(s, c - 1);
    }
  }

  /** Levels in T format start at a page, as the hardware wants it, though only
      level 0 is put there on purpose; every level starts at a microtile. */
  lemma {:induction false} LevelsAligned(s: Shape, c: nat)
    requires Valid(s) && Created(s) && s.bpp != 24 && c < s.levels
    ensures Offset(s, c) % 64 == 0 && (LevelTiling(s, c) == T ==> Offset(s, c) % 4096 == 0)
    decreases c
  {
    hide Valid, Supported, Offset, LevelTiling, Size, IsLT, W, H;
    TilingIsPrefix(s, c);
    if c == 0 {
      LevelsInLayer(s, 0);
      PageOfTiles(Offset(s, c));
    } else {
      TilingIsPrefix(s, c - 1);
      LevelsAligned(s, c - 1);
      LevelsApart(s, c - 1, c);
      WholeTiles(s, c);
      AlignedBefore(Offset(s, c), Size(s, c), 64);
      AlignedBefore(Offset(s, c), Size(s, c), PAGE);
    }
  }

  lemma PageOfTiles(x: nat)
    ensures x % PAGE == 0 ==> x % 64 == 0
  {
  }

  lemma AlignedBefore(x: nat, y: nat, d: nat)
    requires d == 64 || d == PAGE
    ensures (x + y) % d == 0 && y % d == 0 ==> x % d == 0
  {
  }
}
