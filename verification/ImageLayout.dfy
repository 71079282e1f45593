/** vkGetImageMemoryRequirements of driver/resource.c, on the fields of an image,
    in 32-bit arithmetic. */
module ImageLayout {
  import opened Arithmetic
  import opened Bits
  import opened PowersOfTwo
  import opened MipLevels

  const WRAP := 0x1_0000_0000

  method GetUTileDimensions(bpp: nat) returns (w: nat, h: nat)
    requires Supported(bpp)
    ensures w == TileW(bpp) && h == TileH(bpp)
  {
    match bpp
    case 256 => w, h := 1, 2;
    case 128 => w, h := 2, 2;
    case 64 => w, h := 2, 4;
    case 32 => w, h := 4, 4;
    case 24 => w, h := 4, 4;
    case 16 => w, h := 8, 4;
    case 8 => w, h := 8, 8;
    case 4 => w, h := 16, 8;
    case _ => w, h := 32, 16;
  }

  method IsLTFormat(bpp: nat, width: nat, height: nat) returns (lt: bool)
    requires Supported(bpp)
    ensures lt == IsLT(bpp, width, height)
  {
    var w, h := GetUTileDimensions(bpp);
    lt := width <= 4 * w || height <= 4 * h;
  }

  /** roundUp; align is the same for a multiple that is not zero. */
  method RoundUpTo(n: nat, m: nat) returns (r: nat)
    ensures RoundUp(n, m) < WRAP ==> r == RoundUp(n, m)
  {
    if m == 0 { return n; }
    var remainder := n % m;
    if remainder == 0 { return n; }
    r := (n + m - remainder) % WRAP;
  }

  function Product(a: nat, b: nat): (p: nat) { Times(a, b) % WRAP }

  lemma ProductExact(a: nat, b: nat, n: nat)
    requires n > 0 && Times(Times(a, b), n) < WRAP
    ensures Product(a, b) == Times(a, b) && Product(Product(a, b), n) == Times(Times(a, b), n)
  {
    MulOrder(1, n, Times(a, b));
    assert n * Times(a, b) == Times(Times(a, b), n);
  }

  /** getPow2Pad wraps above this; the driver's own limit is far below. */
  predicate Sized(s: Shape) {
    MipLevels.Valid(s) && s.width <= 0x8000_0000 && s.height <= 0x8000_0000
  }

  class Image {
    const shape: Shape
    const levelOffsets: array<nat>
    const levelTiling: array<Tiling>
    var size: nat
    var stride: nat

    predicate Ready()
      reads this
    {
      Sized(shape) && levelOffsets.Length == MAX_LEVELS && levelTiling.Length == MAX_LEVELS
    }

    constructor (shape: Shape)
      requires Sized(shape)
      ensures Ready() && levelOffsets.Length == levelTiling.Length == 12 && this.shape == shape && fresh(levelOffsets) && fresh(levelTiling)
    {
      this.shape := shape;
      levelOffsets := new nat[MAX_LEVELS];
      levelTiling := new Tiling[MAX_LEVELS];
      size, stride := 0, 0;
    }

    /** The rounded sides of a level and its tiling. */
    method LevelExtent(c: nat, w: nat, h: nat, utileW: nat, utileH: nat) returns (mipW: nat, mipH: nat, tiling: Tiling)
      requires Ready() && w == W(shape, c) && h == H(shape, c) && utileW == TileW(shape.bpp) && utileH == TileH(shape.bpp)
      ensures PaddedW(shape, c) < WRAP ==> mipW == PaddedW(shape, c)
      ensures PaddedH(shape, c) < WRAP ==> mipH == PaddedH(shape, c)
      ensures tiling == LevelTiling(shape, c)
    {
      hide RoundUp, TileW, TileH, W, H;
      mipW, mipH, tiling := w, h, shape.tiling;
      if shape.tiling.Linear? {
        if shape.samples > 1 {
          mipW := RoundUpTo(w, 32);
          mipH := RoundUpTo(h, 32);
        } else {
          mipW := RoundUpTo(w, utileW);
          NoGrain(h);
        }
      } else {
        var isMipLT := IsLTFormat(shape.bpp, w, h);
        if isMipLT {
          tiling := LT;
          mipW := RoundUpTo(w, utileW);
          mipH := RoundUpTo(h, utileH);
        } else {
          mipW := RoundUpTo(w, utileW * 8);
          mipH := RoundUpTo(h, utileH * 8);
        }
      }
    }

    lemma NoGrain(h: nat)
      ensures RoundUp(h, 0) == h
    {
    }

    /** The unrounded sides of a level. */
    method LevelSides(c: nat, x: nat, pot: nat) returns (side: nat)
      requires x > 0 && pot == Pow2Pad(x)
      ensures side == LevelSide(x, c)
    {
      side := if c == 0 then x else Max(Shr(pot, c), 1);
    }

    /** The bytes of a level and of one of its rows. */
    method LevelSize(c: nat, w: nat, h: nat, utileW: nat, utileH: nat) returns (bytes: nat, stride: nat)
      requires Ready() && c < shape.levels && w == W(shape, c) && h == H(shape, c)
      requires utileW == TileW(shape.bpp) && utileH == TileH(shape.bpp)
      modifies levelTiling
      ensures levelTiling[..] == old(levelTiling[..])[c := LevelTiling(shape, c)]
      ensures Fits(shape) && Size(shape, c) < WRAP ==> bytes == Size(shape, c) && stride == Stride(shape, c)
    {
      hide PaddedW, PaddedH, W, H, TileW, TileH, Times, LevelTiling, LayerSize;
      var mipW, mipH, tiling := LevelExtent(c, w, h, utileW, utileH);
      levelTiling[c] := tiling;
      stride := Product(Product(mipW, shape.bpp), Max(shape.samples, 1)) / 8;
      bytes := Product(mipH, stride);
      if Fits(shape) {
        RowFits(shape, c);
        ProductExact(PaddedW(shape, c), shape.bpp, Max(shape.samples, 1));
      }
    }

    /** One turn of the loop. */
    method PlaceLevel(c: nat, w: nat, h: nat, potW: nat, potH: nat, utileW: nat, utileH: nat, offset: nat) returns (bytes: nat, stride: nat)
      requires Ready() && c < shape.levels && w == Base(shape.width, shape.blocks) > 0 && h == Base(shape.height, shape.blocks) > 0
      requires potW == Pow2Pad(w) && potH == Pow2Pad(h) && utileW == TileW(shape.bpp) && utileH == TileH(shape.bpp)
      modifies levelOffsets, levelTiling
      ensures levelTiling[..] == old(levelTiling[..])[c := LevelTiling(shape, c)]
      ensures levelOffsets[..] == old(levelOffsets[..])[c := offset]
      ensures Fits(shape) ==> bytes == Size(shape, c) && stride == Stride(shape, c)
    {
      hide TileW, TileH, LevelTiling, Size, Stride, Fits, LevelSide;
      var mipW := LevelSides(c, w, potW);
      var mipH := LevelSides(c, h, potH);
      levelOffsets[c] := offset;
      bytes, stride := LevelSize(c, mipW, mipH, utileW, utileH);
      if Fits(shape) { SizesFit(shape, c); }
    }

    /** The descending loop: sizes, strides and offsets from the smallest level on. */
    method PlaceLevels() returns (sizes: seq<nat>, strides: seq<nat>)
      requires Ready()
      modifies levelOffsets, levelTiling
      ensures forall c :: 0 <= c < shape.levels ==> levelTiling[c] == LevelTiling(shape, c)
      ensures |sizes| == |strides| == MAX_LEVELS
      ensures Fits(shape) ==> sizes[0] == Size(shape, 0) && strides[0] == Stride(shape, 0)
      ensures Fits(shape) ==> forall c :: 0 <= c < shape.levels ==> levelOffsets[c] == Smaller(shape, c)
    {
      hide TileW, TileH, LevelTiling, Size, Stride, Fits, Smaller, Base, Pow2Pad, From;
      var utileW, utileH := GetUTileDimensions(shape.bpp);
      var w, h := Base(shape.width, shape.blocks), Base(shape.height, shape.blocks);
      BaseShrinks(shape.width, shape.blocks);
      BaseShrinks(shape.height, shape.blocks);
      var potW := GetPow2Pad(w);
      var potH := GetPow2Pad(h);
      var offset: nat := 0;
      sizes, strides := seq(MAX_LEVELS, _ => 0), seq(MAX_LEVELS, _ => 0);
      var c := shape.levels;
      NothingFrom(shape, c);
      while c > 0
        invariant 0 <= c <= shape.levels && |sizes| == |strides| == MAX_LEVELS
        invariant forall d :: c <= d < shape.levels ==> levelTiling[d] == LevelTiling(shape, d)
        invariant Fits(shape) ==> offset == From(shape, c)
        invariant Fits(shape) ==> forall d :: c <= d < shape.levels ==> levelOffsets[d] == Smaller(shape, d)
        invariant Fits(shape) && c == 0 ==> sizes[0] == Size(shape, 0) && strides[0] == Stride(shape, 0)
      {
        ghost var next := c;
        c := c - 1;
        var bytes, stride := PlaceLevel(c, w, h, potW, potH, utileW, utileH, offset);
        sizes, strides := sizes[c := bytes], strides[c := stride];
        if Fits(shape) { OneMore(shape, c, next); }
        offset := (offset + bytes) % WRAP;
      }
    }

    /** Level 0 moves to the start of a page, and the others with it. */
    method AlignLevels()
      requires Ready()
      requires Fits(shape) ==> forall c :: 0 <= c < shape.levels ==> levelOffsets[c] == Smaller(shape, c)
      modifies levelOffsets
      ensures Fits(shape) ==> forall c :: 0 <= c < shape.levels ==> levelOffsets[c] == Offset(shape, c)
    {
      hide LayerSize, Size, Smaller, Fits, RoundUp;
      if Fits(shape) { AllFit(shape); RoundUpIsLeast(Smaller(shape, 0), PAGE); }
      var rounded := RoundUpTo(levelOffsets[0], PAGE);
      var levelZeroOffset := (rounded - levelOffsets[0]) % WRAP;
      if levelZeroOffset != 0 {
        ShiftLevels(levelZeroOffset);
      }
    }

    method GetMemoryRequirements() returns (alignment: nat, bytes: nat)
      requires Ready()
      modifies this, levelOffsets, levelTiling
      ensures Ready() && alignment == 4096 && bytes == size
      ensures forall c :: 0 <= c < shape.levels ==> levelTiling[c] == LevelTiling(shape, c)
      ensures Fits(shape) ==> forall c :: 0 <= c < shape.levels ==> levelOffsets[c] == Offset(shape, c)
      ensures Fits(shape) ==> size == LayerSize(shape) * shape.layers % 0x1_0000_0000 && stride == Stride(shape, 0)
    {
      hide LevelTiling, Size, Stride, Offset, RoundUp;
      var sizes, strides := PlaceLevels();
      AlignLevels();
      var layer := RoundUpTo((sizes[0] + levelOffsets[0]) % WRAP, PAGE);
      if Fits(shape) {
        LevelsInLayer(shape, 0);
        assert layer == LayerSize(shape);
      }
      size := Product(layer, shape.layers);
      stride := strides[0];
      alignment, bytes := PAGE, size;
    }

    method ShiftLevels(delta: nat)
      requires Ready()
      modifies levelOffsets
      ensures forall c :: 0 <= c < shape.levels ==> levelOffsets[c] == (old(levelOffsets[c]) + delta) % WRAP
    {
      for c := 0 to shape.levels
        invariant forall d :: 0 <= d < c ==> levelOffsets[d] == (old(levelOffsets[d]) + delta) % WRAP
        invariant forall d :: c <= d < shape.levels ==> levelOffsets[d] == old(levelOffsets[d])
      {
        levelOffsets[c] := (levelOffsets[c] + delta) % WRAP;
      }
    }
  }

  /** The bytes of level c and all smaller ones. */
  ghost function From(s: Shape, c: nat): (b: nat)
    requires MipLevels.Valid(s)
  {
    if c >= s.levels then 0 else Smaller(s, c) + Size(s, c)
  }

  lemma NothingFrom(s: Shape, c: nat)
    requires MipLevels.Valid(s) && c >= s.levels
    ensures From(s, c) == 0
  {
  }

  lemma OneMore(s: Shape, c: nat, next: nat)
    requires MipLevels.Valid(s) && Fits(s) && c < s.levels && next == c + 1
    ensures From(s, next) == Smaller(s, c) && (From(s, next) + Size(s, c)) % WRAP == From(s, c)
  {
    hide Size, Fits;
    SizesFit(s, c);
  }

  lemma AllFit(s: Shape)
    requires MipLevels.Valid(s) && Fits(s)
    ensures RoundUp(Smaller(s, 0), PAGE) < WRAP && forall c :: 0 <= c < s.levels ==> Offset(s, c) < WRAP
  {
    OffsetsFit(s, 0);
    forall c | 0 <= c < s.levels ensures Offset(s, c) < WRAP { OffsetsFit(s, c); }
  }

  lemma SizesFit(s: Shape, c: nat)
    requires MipLevels.Valid(s) && Fits(s) && c < s.levels
    ensures Size(s, c) < WRAP && From(s, c) < WRAP && From(s, c + 1) == Smaller(s, c) && Offset(s, c) < WRAP
  {
    hide Size;
    OffsetsFit(s, c);
  }

  /** Partial sums of sizes do not wrap either. */
  lemma {:induction false} OffsetsFit(s: Shape, c: nat)
    requires MipLevels.Valid(s) && LayerSize(s) < WRAP && c < s.levels
    ensures Smaller(s, c) + Size(s, c) < WRAP && Offset(s, c) < WRAP && RoundUp(Smaller(s, 0), PAGE) < WRAP
  {
    hide Size, RoundUp;
    LevelsInLayer(s, c);
    LevelsInLayer(s, 0);
    RoundUpIsLeast(Smaller(s, 0), PAGE);
  }

  /** A row's pixels are fewer than its bits. */
  lemma RowFits(s: Shape, c: nat)
    requires MipLevels.Valid(s) && RowBits(s, c) < WRAP
    ensures PaddedW(s, c) < WRAP
  {
    var p, n := PaddedW(s, c), Max(s.samples, 1);
    MulOrder(1, s.bpp, p);
    MulOrder(1, n, Times(p, s.bpp));
    assert s.bpp * p == Times(p, s.bpp) && n * Times(p, s.bpp) == Times(Times(p, s.bpp), n);
  }
}
