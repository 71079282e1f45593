/** Where the fields of QPU instructions stand in their words, bit by bit, with the
    shifts and widths of QPUassembler/vc4_qpu_defines.h. */
module QpuFields {
  import opened Bits
  import opened BitFields
  import opened QpuCodec

  /** The width bits of w from shift on are the lowest of v. */
  ghost predicate Stands(w: nat, shift: nat, width: nat, v: nat) {
    forall j :: 0 <= j < width ==> Bit(w, shift + j) == Bit(v, j)
  }

  ghost predicate ControlStands(w: nat, c: Control) {
    && Stands(w, 56, 1, c.pm) && Stands(w, 52, 4, c.pack) && Stands(w, 49, 3, c.condAdd) && Stands(w, 46, 3, c.condMul)
    && Stands(w, 45, 1, c.setFlags) && Stands(w, 44, 1, c.writeSwap) && Stands(w, 38, 6, c.waddrAdd) && Stands(w, 32, 6, c.waddrMul)
  }

  ghost predicate AluStands(w: nat, sig: nat, unpack: nat, c: Control, opMul: nat, opAdd: nat, raddrA: nat, raddrB: nat,
      addA: nat, addB: nat, mulA: nat, mulB: nat) {
    && Stands(w, 60, 4, sig) && Stands(w, 57, 3, unpack) && ControlStands(w, c)
    && Stands(w, 29, 3, opMul) && Stands(w, 24, 5, opAdd) && Stands(w, 18, 6, raddrA) && Stands(w, 12, 6, raddrB)
    && Stands(w, 9, 3, addA) && Stands(w, 6, 3, addB) && Stands(w, 3, 3, mulA) && Stands(w, 0, 3, mulB)
  }

  ghost predicate SemaphoreStands(w: nat, c: Control, imm: nat, increment: nat, number: nat) {
    Stands(w, 57, 7, 0x74) && ControlStands(w, c) && Stands(w, 5, 27, imm) && Stands(w, 4, 1, increment) && Stands(w, 0, 4, number)
  }

  ghost predicate Load32Stands(w: nat, c: Control, word: nat) {
    Stands(w, 57, 7, 0x70) && ControlStands(w, c) && Stands(w, 0, 32, word)
  }

  ghost predicate Load16Stands(w: nat, signed: bool, c: Control, high: nat, low: nat) {
    Stands(w, 57, 7, if signed then 0x71 else 0x73) && ControlStands(w, c) && Stands(w, 16, 16, high) && Stands(w, 0, 16, low)
  }

  ghost predicate BranchStands(w: nat, cond: nat, relative: nat, useReg: nat, reg: nat, swap: nat, add: nat, mul: nat, target: nat) {
    && Stands(w, 60, 4, 15) && Stands(w, 56, 4, 0) && Stands(w, 52, 4, cond) && Stands(w, 51, 1, relative) && Stands(w, 50, 1, useReg)
    && Stands(w, 45, 5, reg) && Stands(w, 44, 1, swap) && Stands(w, 38, 6, add) && Stands(w, 32, 6, mul) && Stands(w, 0, 32, target)
  }

  /** Every field of the instruction is where the word's bits say. */
  ghost predicate Placed(w: nat, i: Instruction) {
    match i
    case Alu(sig, unpack, c, opMul, opAdd, raddrA, raddrB, addA, addB, mulA, mulB) =>
      AluStands(w, sig, unpack, c, opMul, opAdd, raddrA, raddrB, addA, addB, mulA, mulB)
    case Semaphore(c, imm, increment, number) => SemaphoreStands(w, c, imm, increment, number)
    case Load32(c, word) => Load32Stands(w, c, word)
    case Load16(signed, c, high, low) => Load16Stands(w, signed, c, high, low)
    case Branch(cond, relative, useReg, reg, swap, add, mul, target) =>
      BranchStands(w, cond, relative, useReg, reg, swap, add, mul, target)
  }

  lemma FieldStands(parts: seq<Part>, vs: seq<nat>, k: nat)
    requires Tiles(parts, 64) && k < |parts| == |vs|
    ensures Stands(Assemble(parts, vs, |vs|), parts[k].shift, parts[k].width, vs[k])
  {
    hide Bit, Assemble, Tiles;
    var p := parts[k];
    forall j | 0 <= j < p.width ensures Bit(Assemble(parts, vs, |vs|), p.shift + j) == Bit(vs[k], j) {
      AssembledBit(parts, 64, vs, |vs|, k, p.shift + j);
    }
  }

  ghost predicate Nth(w: nat, ps: seq<Part>, vs: seq<nat>, k: nat)
    requires k < |ps| == |vs|
  {
    Stands(w, ps[k].shift, ps[k].width, vs[k])
  }

  lemma AllStand(i: Instruction)
    ensures forall k :: 0 <= k < |Values(i)| ==> Nth(Encode(i), Layout(KindOf(i)), Values(i), k)
  {
    hide Stands, Layout, Values, Assemble;
    LayoutTiles(KindOf(i));
    forall k | 0 <= k < |Values(i)| ensures Nth(Encode(i), Layout(KindOf(i)), Values(i), k) {
      FieldStands(Layout(KindOf(i)), Values(i), k);
    }
  }

  /** The encoders put every bit of every field where the hardware looks for it, and
      nothing above bit 63. */
  lemma EncodedPlaced(i: Instruction)
    ensures Placed(Encode(i), i) && Encode(i) < Pow2(64)
  {
    hide Stands, Encode, Pow2;
    AllStand(i);
    EncodedBound(i);
    var vs, ps, w := Values(i), Layout(KindOf(i)), Encode(i);
    match i {
      case Alu(_, _, _, _, _, _, _, _, _, _, _) =>
        assert Nth(w, ps, vs, 0) && Nth(w, ps, vs, 1) && Nth(w, ps, vs, 2) && Nth(w, ps, vs, 3) && Nth(w, ps, vs, 4) && Nth(w, ps, vs, 5);
        assert Nth(w, ps, vs, 6) && Nth(w, ps, vs, 7) && Nth(w, ps, vs, 8) && Nth(w, ps, vs, 9) && Nth(w, ps, vs, 10) && Nth(w, ps, vs, 11);
        assert Nth(w, ps, vs, 12) && Nth(w, ps, vs, 13) && Nth(w, ps, vs, 14) && Nth(w, ps, vs, 15) && Nth(w, ps, vs, 16) && Nth(w, ps, vs, 17);
      case Semaphore(_, _, _, _) =>
        assert Nth(w, ps, vs, 0) && Nth(w, ps, vs, 1) && Nth(w, ps, vs, 2) && Nth(w, ps, vs, 3) && Nth(w, ps, vs, 4) && Nth(w, ps, vs, 5);
        assert Nth(w, ps, vs, 6) && Nth(w, ps, vs, 7) && Nth(w, ps, vs, 8) && Nth(w, ps, vs, 9) && Nth(w, ps, vs, 10) && Nth(w, ps, vs, 11);
      case Load32(_, _) =>
        assert Nth(w, ps, vs, 0) && Nth(w, ps, vs, 1) && Nth(w, ps, vs, 2) && Nth(w, ps, vs, 3) && Nth(w, ps, vs, 4) && Nth(w, ps, vs, 5);
        assert Nth(w, ps, vs, 6) && Nth(w, ps, vs, 7) && Nth(w, ps, vs, 8) && Nth(w, ps, vs, 9);
      case Load16(_, _, _, _) =>
        assert Nth(w, ps, vs, 0) && Nth(w, ps, vs, 1) && Nth(w, ps, vs, 2) && Nth(w, ps, vs, 3) && Nth(w, ps, vs, 4) && Nth(w, ps, vs, 5);
        assert Nth(w, ps, vs, 6) && Nth(w, ps, vs, 7) && Nth(w, ps, vs, 8) && Nth(w, ps, vs, 9) && Nth(w, ps, vs, 10);
      case Branch(_, _, _, _, _, _, _, _) =>
        assert Nth(w, ps, vs, 0) && Nth(w, ps, vs, 1) && Nth(w, ps, vs, 2) && Nth(w, ps, vs, 3) && Nth(w, ps, vs, 4) && Nth(w, ps, vs, 5);
        assert Nth(w, ps, vs, 6) && Nth(w, ps, vs, 7) && Nth(w, ps, vs, 8) && Nth(w, ps, vs, 9);
    }
  }

  lemma EncodedBound(i: Instruction)
    ensures Encode(i) < Pow2(64)
  {
    hide Pow2, Assemble, Tiles, Layout, Values;
    LayoutTiles(KindOf(i));
    AssembledBound(Layout(KindOf(i)), 64, Values(i), |Values(i)|);
  }

  // ------------------------------------------------------------ reading them

  /** v is what stands in those bits, and nothing more. */
  ghost predicate Reads(w: nat, shift: nat, width: nat, v: nat) {
    v < Pow2(width) && Stands(w, shift, width, v)
  }

  lemma GetReads(p: Part, w: nat)
    ensures Reads(w, p.shift, p.width, Get(p, w))
  {
    hide Bit, Get;
    GetBound(p, w);
    forall j | 0 <= j < p.width ensures Bit(w, p.shift + j) == Bit(Get(p, w), j) { GetBit(p, w, j); }
  }

  lemma GetBound(p: Part, w: nat)
    ensures Get(p, w) < Pow2(p.width)
  {
    LowBound(Shr(w, p.shift), p.width);
  }

  lemma GetIs(p: Part, w: nat, v: nat)
    requires v < Pow2(p.width)
    ensures Get(p, w) == v <==> Stands(w, p.shift, p.width, v)
  {
    hide Bit, Get;
    GetReads(p, w);
    if Stands(w, p.shift, p.width, v) { SameBits(Get(p, w), v, p.width); }
  }

  /** The bits that decide what the disassembler takes a word for. */
  lemma KindsByBits(w: nat)
    ensures var i := Decode(w);
      && (i.Semaphore? <==> Stands(w, 57, 7, 0x74))
      && (i.Load32? <==> Stands(w, 57, 7, 0x70))
      && (i.Branch? <==> Stands(w, 60, 4, 15))
      && (i.Load16? <==> Stands(w, 60, 4, 14) && !Stands(w, 57, 7, 0x70) && !Stands(w, 57, 7, 0x74))
      && (i.Load16? ==> (i.signed <==> !Bit(w, 58)))
  {
    hide Get, Stands, Bit, Shr, Pow2;
    assert Pow2(7) == 128 && Pow2(4) == 16 by { SmallPowers(); }
    GetIs(MODE, w, 0x74);
    GetIs(MODE, w, 0x70);
    GetIs(SIG, w, 15);
    GetIs(SIG, w, 14);
    SigInMode(w);
    ShrThree(Get(MODE, w));
    SignBit(w);
  }

  lemma SmallPowers()
    ensures Pow2(7) == 128 && Pow2(4) == 16
  {
  }

  lemma SignBit(w: nat)
    ensures Get(MODE, w) / 2 % 2 == 1 <==> Bit(w, 58)
  {
    hide Get;
    GetBit(MODE, w, 1);
    assert Bit(Get(MODE, w), 1) == Bit(Get(MODE, w) / 2, 0);
  }

  /** The disassembler reads every field from where it stands, exactly for the words
      that are encoded again to themselves. */
  lemma DecodedPlaced(w: nat)
    requires w < Pow2(64)
    ensures Placed(w, Decode(w)) <==> Encode(Decode(w)) == w
  {
    hide Stands, Encode, Decode, Pow2, Get, Canonical, ControlStands;
    EncodeDecoded(w);
    if Canonical(w) {
      EncodedPlaced(Decode(w));
    }
    if Placed(w, Decode(w)) {
      PlacedIsCanonical(w);
    }
  }

  lemma PlacedIsCanonical(w: nat)
    requires Placed(w, Decode(w))
    ensures Canonical(w)
  {
    hide Stands, Decode, Pow2, Get, ControlStands;
    SmallPowers();
    KindsByBits(w);
    GetIs(MODE, w, 0x70);
    GetIs(MODE, w, 0x71);
    GetIs(MODE, w, 0x73);
    GetIs(MODE, w, 0x74);
    GetIs(SIG, w, 14);
    GetIs(SIG, w, 15);
    GetIs(Part(56, 4), w, 0);
  }
}
