/** The 64-bit instructions of the QPU: the encoders and the disassembler's field
    extraction of QPUassembler/qpu_assembler.c, with the shifts of
    QPUassembler/vc4_qpu_defines.h. */
module QpuCodec {
  import opened Bits
  import opened BitFields

  /** What all instructions but branches have above the write addresses. */
  datatype Control = Control(pm: nat, pack: nat, condAdd: nat, condMul: nat, setFlags: nat, writeSwap: nat, waddrAdd: nat, waddrMul: nat)

  datatype Instruction =
    | Alu(sig: nat, unpack: nat, alu: Control, opMul: nat, opAdd: nat, raddrA: nat, raddrB: nat,
          addA: nat, addB: nat, mulA: nat, mulB: nat)
    | Semaphore(sem: Control, imm: nat, increment: nat, number: nat)
    | Load32(load32: Control, word: nat)
    | Load16(signed: bool, load16: Control, high: nat, low: nat)
    | Branch(cond: nat, relative: nat, useReg: nat, reg: nat, swap: nat, add: nat, mul: nat, target: nat)

  const SIG_SMALL_IMM := 13
  const SIG_LOAD_IMM := 14
  const SIG_BRANCH := 15

  /** The mode, in the seven highest bits, of instructions with immediates. */
  const LOAD32 := 0x70
  const LOAD16_SIGNED := 0x71
  const LOAD16_UNSIGNED := 0x73
  const SEMAPHORE := 0x74

  const SIG := Part(60, 4)
  const MODE := Part(57, 7)
  const PM := Part(56, 1)
  const PACK := Part(52, 4)
  const COND_ADD := Part(49, 3)
  const COND_MUL := Part(46, 3)
  const SF := Part(45, 1)
  const WS := Part(44, 1)
  const WADDR_ADD := Part(38, 6)
  const WADDR_MUL := Part(32, 6)
  const IMMEDIATE := Part(0, 32)

  const ALU: seq<Part> := [SIG, Part(57, 3), PM, PACK, COND_ADD, COND_MUL, SF, WS, WADDR_ADD, WADDR_MUL,
    Part(29, 3), Part(24, 5), Part(18, 6), Part(12, 6), Part(9, 3), Part(6, 3), Part(3, 3), Part(0, 3)]
  const SEM: seq<Part> := [MODE, PM, PACK, COND_ADD, COND_MUL, SF, WS, WADDR_ADD, WADDR_MUL, Part(5, 27), Part(4, 1), Part(0, 4)]
  const LOAD: seq<Part> := [MODE, PM, PACK, COND_ADD, COND_MUL, SF, WS, WADDR_ADD, WADDR_MUL, IMMEDIATE]
  const LOADS: seq<Part> := [MODE, PM, PACK, COND_ADD, COND_MUL, SF, WS, WADDR_ADD, WADDR_MUL, Part(16, 16), Part(0, 16)]
  /** Nothing is ever written to bits 56 to 59. */
  const BRANCH: seq<Part> := [SIG, Part(56, 4), PACK, Part(51, 1), Part(50, 1), Part(45, 5), WS, WADDR_ADD, WADDR_MUL, IMMEDIATE]

  datatype Kind = AluKind | SemaphoreKind | Load32Kind | Load16Kind | BranchKind

  function Layout(k: Kind): (ps: seq<Part>) {
    match k
    case AluKind => ALU
    case SemaphoreKind => SEM
    case Load32Kind => LOAD
    case Load16Kind => LOADS
    case BranchKind => BRANCH
  }

  function KindOf(i: Instruction): (k: Kind) {
    match i
    case Alu(_, _, _, _, _, _, _, _, _, _, _) => AluKind
    case Semaphore(_, _, _, _) => SemaphoreKind
    case Load32(_, _) => Load32Kind
    case Load16(_, _, _, _) => Load16Kind
    case Branch(_, _, _, _, _, _, _, _) => BranchKind
  }

  /** The fields in the order in which they are put into the word. */
  function Values(i: Instruction): (vs: seq<nat>)
    ensures |vs| == |Layout(KindOf(i))|
  {
    match i
    case Alu(sig, unpack, c, opMul, opAdd, raddrA, raddrB, addA, addB, mulA, mulB) =>
      [sig, unpack, c.pm, c.pack, c.condAdd, c.condMul, c.setFlags, c.writeSwap, c.waddrAdd, c.waddrMul,
       opMul, opAdd, raddrA, raddrB, addA, addB, mulA, mulB]
    case Semaphore(c, imm, increment, number) =>
      [SEMAPHORE, c.pm, c.pack, c.condAdd, c.condMul, c.setFlags, c.writeSwap, c.waddrAdd, c.waddrMul, imm, increment, number]
    case Load32(c, word) =>
      [LOAD32, c.pm, c.pack, c.condAdd, c.condMul, c.setFlags, c.writeSwap, c.waddrAdd, c.waddrMul, word]
    case Load16(signed, c, high, low) =>
      [if signed then LOAD16_SIGNED else LOAD16_UNSIGNED,
       c.pm, c.pack, c.condAdd, c.condMul, c.setFlags, c.writeSwap, c.waddrAdd, c.waddrMul, high, low]
    case Branch(cond, relative, useReg, reg, swap, add, mul, target) =>
      [SIG_BRANCH, 0, cond, relative, useReg, reg, swap, add, mul, target]
  }

  /** The word of an instruction. */
  function Encode(i: Instruction): (w: nat) {
    Assemble(Layout(KindOf(i)), Values(i), |Values(i)|)
  }

  /** Which branch disassemble_qpu_asm takes. */
  function Classify(w: nat): (k: Kind) {
    if Get(MODE, w) == SEMAPHORE then SemaphoreKind
    else if Get(SIG, w) == SIG_LOAD_IMM then
      if Get(MODE, w) == LOAD32 then Load32Kind else Load16Kind
    else if Get(SIG, w) == SIG_BRANCH then BranchKind
    else AluKind
  }

  /** The fields it reads there; bit 58, the middle one of the mode, says whether a
      load is signed. */
  function Rebuild(k: Kind, vs: seq<nat>): (i: Instruction)
    requires |vs| == |Layout(k)|
    ensures KindOf(i) == k
  {
    match k
    case AluKind =>
      Alu(vs[0], vs[1], Control(vs[2], vs[3], vs[4], vs[5], vs[6], vs[7], vs[8], vs[9]),
        vs[10], vs[11], vs[12], vs[13], vs[14], vs[15], vs[16], vs[17])
    case SemaphoreKind => Semaphore(ControlAt1(vs), vs[9], vs[10], vs[11])
    case Load32Kind => Load32(ControlAt1(vs), vs[9])
    case Load16Kind => Load16(vs[0] / 2 % 2 == 0, ControlAt1(vs), vs[9], vs[10])
    case BranchKind => Branch(vs[2], vs[3], vs[4], vs[5], vs[6], vs[7], vs[8], vs[9])
  }

  function ControlAt1(vs: seq<nat>): (c: Control)
    requires |vs| > 8
  {
    Control(vs[1], vs[2], vs[3], vs[4], vs[5], vs[6], vs[7], vs[8])
  }

  function Decode(w: nat): (i: Instruction) {
    Rebuild(Classify(w), Extract(Layout(Classify(w)), w))
  }

  /** Every field cut to the width of its mask. */
  function MaskedValues(i: Instruction): (vs: seq<nat>)
    ensures |vs| == |Values(i)|
    ensures forall k :: 0 <= k < |vs| ==> vs[k] == Low(Values(i)[k], Layout(KindOf(i))[k].width)
  {
    seq(|Values(i)|, k requires 0 <= k < |Values(i)| => Low(Values(i)[k], Layout(KindOf(i))[k].width))
  }

  predicate InRange(i: Instruction) {
    forall k :: 0 <= k < |Values(i)| ==> Values(i)[k] < Pow2(Layout(KindOf(i))[k].width)
  }

  // ------------------------------------------------------------- the words

  lemma LayoutTiles(k: Kind)
    ensures Tiles(Layout(k), 64)
  {
    var parts := Layout(k);
    assert parts[0].shift + parts[0].width == 64 && parts[|parts| - 1].shift == 0;
    TilesOf(parts, 64);
  }

  lemma {:induction false} ShrTwice(w: nat, a: nat, b: nat)
    ensures Shr(w, a + b) == Shr(Shr(w, a), b)
    decreases a
  {
    if a > 0 { ShrTwice(w / 2, a - 1, b); }
  }

  lemma {:induction false} LowTwice(x: nat, a: nat, b: nat)
    ensures Low(Shr(x, a), b) == Shr(Low(x, a + b), a)
    decreases a
  {
    if a > 0 { LowTwice(x / 2, a - 1, b); }
  }

  /** The signal is the upper half of the mode. */
  lemma SigInMode(w: nat)
    ensures Get(SIG, w) == Shr(Get(MODE, w), 3)
  {
    ShrTwice(w, 57, 3);
    LowTwice(Shr(w, 57), 3, 4);
  }

  /** Encoding and reading the fields of the same kind masks them. */
  lemma FieldsRead(i: Instruction)
    ensures Extract(Layout(KindOf(i)), Encode(i)) == MaskedValues(i)
  {
    hide Get, Assemble, Low, Tiles, Values, Layout;
    LayoutTiles(KindOf(i));
    ExtractAssembled(Layout(KindOf(i)), 64, Values(i));
  }

  lemma InRangeMasked(i: Instruction)
    requires InRange(i)
    ensures MaskedValues(i) == Values(i)
  {
    hide Low, Values, Layout;
    forall k | 0 <= k < |Values(i)| ensures MaskedValues(i)[k] == Values(i)[k] {
      LowExact(Values(i)[k], Layout(KindOf(i))[k].width);
    }
  }

  lemma Header(i: Instruction)
    ensures i.Alu? ==> Get(SIG, Encode(i)) == Low(i.sig, 4) < 16
    ensures i.Branch? ==> Get(SIG, Encode(i)) == SIG_BRANCH
    ensures !i.Alu? && !i.Branch? ==> Get(MODE, Encode(i)) == Values(i)[0]
  {
    hide Get, Encode, Low;
    var k := KindOf(i);
    FieldsRead(i);
    assert Extract(Layout(k), Encode(i))[0] == Get(Layout(k)[0], Encode(i)) == MaskedValues(i)[0];
    assert Pow2(4) == 16 && Pow2(7) == 128;
    if i.Alu? { LowBound(i.sig, 4); }
    else { LowExact(Values(i)[0], Layout(k)[0].width); }
  }

  lemma ShrThree(m: nat)
    ensures Shr(m, 3) == m / 2 / 2 / 2
  {
    assert Shr(m, 3) == Shr(m / 2, 2) == Shr(m / 2 / 2, 1) == Shr(m / 2 / 2 / 2, 0);
  }

  /** The disassembler takes a word for what it was built as, unless an ALU
      instruction was given the signal of a load or a branch. */
  lemma Classified(i: Instruction)
    ensures Classify(Encode(i)) == KindOf(i) <==> !(i.Alu? && Low(i.sig, 4) >= SIG_LOAD_IMM)
  {
    hide Get, Encode, Low, Shr;
    Header(i);
    SigInMode(Encode(i));
    ShrThree(Get(MODE, Encode(i)));
  }

  lemma RebuildValues(i: Instruction)
    ensures Rebuild(KindOf(i), Values(i)) == i
  {
  }

  /** Every instruction with fields in range is read back as it was built, but for
      the ALU instructions that are taken for loads and branches. */
  lemma DecodeEncoded(i: Instruction)
    requires InRange(i)
    ensures Decode(Encode(i)) == i <==> !(i.Alu? && i.sig >= SIG_LOAD_IMM)
  {
    hide Get, Encode, Low, Values, Layout, Classify, Rebuild, MaskedValues;
    SignalExact(i);
    Classified(i);
    FieldsRead(i);
    InRangeMasked(i);
    RebuildValues(i);
  }

  lemma SignalExact(i: Instruction)
    requires InRange(i)
    ensures i.Alu? ==> Low(i.sig, 4) == i.sig
  {
    hide Low;
    if i.Alu? {
      assert Values(i)[0] == i.sig && Layout(KindOf(i))[0].width == 4;
      LowExact(i.sig, 4);
    }
  }

  // ------------------------------------------------------------ and back again

  /** The modes that are instructions, and no bits where branches have none. */
  predicate Canonical(w: nat) {
    && (Get(SIG, w) == SIG_LOAD_IMM ==> Get(MODE, w) in {LOAD32, LOAD16_SIGNED, LOAD16_UNSIGNED, SEMAPHORE})
    && (Get(SIG, w) == SIG_BRANCH ==> Get(Part(56, 4), w) == 0)
  }

  lemma ValuesOfDecoded(w: nat)
    ensures Values(Decode(w)) == Extract(Layout(Classify(w)), w) <==> Canonical(w)
  {
    hide Get, Shr;
    SigInMode(w);
    ShrThree(Get(MODE, w));
    var k := Classify(w);
    var vs, us := Extract(Layout(k), w), Values(Decode(w));
    assert |vs| == |us| && vs[0] == Get(Layout(k)[0], w) && vs[1] == Get(Layout(k)[1], w);
    if Canonical(w) {
      assert us == vs;
    } else {
      assert us[0] != vs[0] || us[1] != vs[1];
    }
  }

  /** Every word is encoded again to itself exactly if it is canonical. */
  lemma EncodeDecoded(w: nat)
    requires w < Pow2(64)
    ensures Encode(Decode(w)) == w <==> Canonical(w)
  {
    hide Get, Low, Values, Layout, Assemble, Pow2, Tiles, Canonical, Extract, Rebuild;
    var k := Classify(w);
    ValuesOfDecoded(w);
    LayoutTiles(k);
    AssembleExtracted(Layout(k), 64, w);
    if Encode(Decode(w)) == w { EncodedIsCanonical(Decode(w)); }
  }

  lemma EncodedIsCanonical(i: Instruction)
    requires Classify(Encode(i)) == KindOf(i)
    ensures Canonical(Encode(i))
  {
    hide Get, Low, Encode, Shr;
    var k := KindOf(i);
    Header(i);
    FieldsRead(i);
    SigInMode(Encode(i));
    ShrThree(Get(MODE, Encode(i)));
    assert Extract(Layout(k), Encode(i))[1] == Get(Layout(k)[1], Encode(i)) == MaskedValues(i)[1];
    LowZero(4);
  }

  lemma {:induction false} LowZero(w: nat)
    ensures Low(0, w) == 0
  {
    if w > 0 { LowZero(w - 1); }
  }

  lemma {:induction false} ShrShl(x: nat, k: nat)
    ensures Shr(Shl(x, k), k) == x
  {
    if k > 0 {
      assert Shl(x, k) / 2 == Shl(x, k - 1);
      ShrShl(x, k - 1);
    }
  }

  /** Not every word comes back: this one is read as an unsigned load. */
  lemma UnknownModeIsLost()
    ensures Encode(Decode(Shl(0x72, 57))) != Shl(0x72, 57)
  {
    hide Shl, Low, Shr, Encode, Decode, Pow2;
    var w := Shl(0x72, 57);
    ShlBound(0x72, 7, 57) by { ModeSmall(0x72); }
    ShrShl(0x72, 57);
    LowExact(0x72, 7) by { ModeSmall(0x72); }
    SigInMode(w);
    ShrThree(0x72);
    EncodeDecoded(w);
  }

  lemma ModeSmall(m: nat)
    requires m < 128
    ensures m < Pow2(7)
  {
  }
}
