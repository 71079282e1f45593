/** Words put together from fields by shifting and or-ing, and taken apart again. */
module BitFields {
  import opened Bits

  datatype Part = Part(shift: nat, width: nat)

  /** (word & mask) >> shift, for a mask of ones. */
  function Get(p: Part, w: nat): (v: nat) { Low(Shr(w, p.shift), p.width) }

  function Put(p: Part, v: nat): (w: nat) { Shl(Low(v, p.width), p.shift) }

  /** What the first n parts make. */
  function Assemble(parts: seq<Part>, vs: seq<nat>, n: nat): (w: nat)
    requires n <= |parts| == |vs|
  {
    if n == 0 then 0 else Or(Assemble(parts, vs, n - 1), Put(parts[n - 1], vs[n - 1]))
  }

  function Extract(parts: seq<Part>, w: nat): (vs: seq<nat>)
    ensures |vs| == |parts| && forall k :: 0 <= k < |vs| ==> vs[k] == Get(parts[k], w)
  {
    seq(|parts|, k requires 0 <= k < |parts| => Get(parts[k], w))
  }

  predicate Covers(p: Part, i: nat) { p.shift <= i < p.shift + p.width }

  /** From the highest bits down, without gap or overlap. */
  predicate Tiles(parts: seq<Part>, top: nat)
    decreases |parts|
  {
    if parts == [] then top == 0 else parts[0].shift + parts[0].width == top && Tiles(parts[1..], parts[0].shift)
  }

  lemma {:induction false} TilesOf(parts: seq<Part>, top: nat)
    requires parts != [] && parts[0].shift + parts[0].width == top && parts[|parts| - 1].shift == 0
    requires forall k :: 0 < k < |parts| ==> parts[k].shift + parts[k].width == parts[k - 1].shift
    ensures Tiles(parts, top)
  {
    if |parts| > 1 { TilesOf(parts[1..], parts[0].shift); }
  }

  lemma {:induction false} TilesApart(parts: seq<Part>, top: nat, j: nat, k: nat, i: nat)
    requires Tiles(parts, top) && j < k < |parts| && Covers(parts[k], i)
    ensures !Covers(parts[j], i)
    decreases j
  {
    if j > 0 {
      TilesApart(parts[1..], parts[0].shift, j - 1, k - 1, i);
    } else {
      TilesBelow(parts[1..], parts[0].shift, k - 1);
    }
  }

  lemma {:induction false} TilesBelow(parts: seq<Part>, top: nat, k: nat)
    requires Tiles(parts, top) && k < |parts|
    ensures parts[k].shift + parts[k].width <= top
    decreases k
  {
    if k > 0 { TilesBelow(parts[1..], parts[0].shift, k - 1); }
  }

  lemma OneCovers(parts: seq<Part>, top: nat, j: nat, k: nat, i: nat)
    requires Tiles(parts, top) && j < |parts| && k < |parts| && j != k && Covers(parts[k], i)
    ensures !Covers(parts[j], i)
  {
    if j < k { TilesApart(parts, top, j, k, i); }
    else if Covers(parts[j], i) { TilesApart(parts, top, k, j, i); }
  }

  function Covering(parts: seq<Part>, top: nat, i: nat): (k: nat)
    requires Tiles(parts, top) && i < top
    ensures k < |parts| && Covers(parts[k], i)
    decreases |parts|
  {
    if i >= parts[0].shift then 0 else 1 + Covering(parts[1..], parts[0].shift, i)
  }

  lemma PutBit(p: Part, v: nat, i: nat)
    ensures Covers(p, i) ==> Bit(Put(p, v), i) == Bit(v, i - p.shift)
    ensures !Covers(p, i) ==> !Bit(Put(p, v), i)
  {
    BitShl(Low(v, p.width), p.shift, i);
    if i >= p.shift { BitLow(v, p.width, i - p.shift); }
  }

  /** Bits under no part are zero; a bit under part k comes from there. */
  lemma {:induction false} AssembledBit(parts: seq<Part>, top: nat, vs: seq<nat>, n: nat, k: nat, i: nat)
    requires Tiles(parts, top) && n <= |parts| == |vs| && k < |parts| && Covers(parts[k], i)
    ensures Bit(Assemble(parts, vs, n), i) == (k < n && Bit(vs[k], i - parts[k].shift))
    decreases n
  {
    if n == 0 {
      BitZero(i);
    } else {
      AssembledBit(parts, top, vs, n - 1, k, i);
      BitOr(Assemble(parts, vs, n - 1), Put(parts[n - 1], vs[n - 1]), i);
      PutBit(parts[n - 1], vs[n - 1], i);
      if k != n - 1 { OneCovers(parts, top, n - 1, k, i); }
    }
  }

  lemma {:induction false} AssembledBound(parts: seq<Part>, top: nat, vs: seq<nat>, n: nat)
    requires Tiles(parts, top) && n <= |parts| == |vs|
    ensures Assemble(parts, vs, n) < Pow2(top)
    decreases n
  {
    if n > 0 {
      AssembledBound(parts, top, vs, n - 1);
      var p := parts[n - 1];
      TilesBelow(parts, top, n - 1);
      LowBound(vs[n - 1], p.width);
      ShlBound(Low(vs[n - 1], p.width), p.width, p.shift);
      Pow2Order(p.shift + p.width, top);
      OrBound(Assemble(parts, vs, n - 1), Put(p, vs[n - 1]), top);
    }
  }

  lemma {:induction false} ShlBound(x: nat, w: nat, k: nat)
    requires x < Pow2(w)
    ensures Shl(x, k) < Pow2(k + w)
  {
    if k > 0 { ShlBound(x, w, k - 1); }
  }

  /** Taking apart gives back every field, as far as its mask goes. */
  lemma ExtractAssembled(parts: seq<Part>, top: nat, vs: seq<nat>)
    requires Tiles(parts, top) && |parts| == |vs|
    ensures forall k :: 0 <= k < |vs| ==> Get(parts[k], Assemble(parts, vs, |vs|)) == Low(vs[k], parts[k].width)
  {
    forall k | 0 <= k < |vs| ensures Get(parts[k], Assemble(parts, vs, |vs|)) == Low(vs[k], parts[k].width) {
      FieldAssembled(parts, top, vs, k);
    }
  }

  lemma FieldAssembled(parts: seq<Part>, top: nat, vs: seq<nat>, k: nat)
    requires Tiles(parts, top) && k < |parts| == |vs|
    ensures Get(parts[k], Assemble(parts, vs, |vs|)) == Low(vs[k], parts[k].width)
  {
    hide Bit, Low, Assemble;
    var w, p := Assemble(parts, vs, |vs|), parts[k];
    forall i | 0 <= i < p.width ensures Bit(Get(p, w), i) == Bit(Low(vs[k], p.width), i) {
      BitLow(Shr(w, p.shift), p.width, i);
      BitShr(w, p.shift, i);
      BitLow(vs[k], p.width, i);
      AssembledBit(parts, top, vs, |vs|, k, i + p.shift);
    }
    LowBound(Shr(w, p.shift), p.width);
    LowBound(vs[k], p.width);
    SameBits(Get(p, w), Low(vs[k], p.width), p.width);
  }

  /** Putting together what has been taken apart gives the word again. */
  lemma AssembleExtracted(parts: seq<Part>, top: nat, w: nat)
    requires Tiles(parts, top) && w < Pow2(top)
    ensures Assemble(parts, Extract(parts, w), |parts|) == w
  {
    hide Bit, Low, Assemble, Get;
    var vs := Extract(parts, w);
    var r := Assemble(parts, vs, |parts|);
    forall i | 0 <= i < top ensures Bit(r, i) == Bit(w, i) {
      var k := Covering(parts, top, i);
      var p := parts[k];
      AssembledBit(parts, top, vs, |parts|, k, i);
      GetBit(p, w, i - p.shift);
    }
    AssembledBound(parts, top, vs, |parts|);
    SameBits(r, w, top);
  }

  lemma GetBit(p: Part, w: nat, i: nat)
    requires i < p.width
    ensures Bit(Get(p, w), i) == Bit(w, i + p.shift)
  {
    BitLow(Shr(w, p.shift), p.width, i);
    BitShr(w, p.shift, i);
  }
}
