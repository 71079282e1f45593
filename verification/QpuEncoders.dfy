/** The encoders of QPUassembler/qpu_assembler.c, statement by statement, and the
    small immediates of QPUassembler/vc4_qpu_defines.h. */
module QpuEncoders {
  import opened Bits
  import opened BitFields
  import opened QpuCodec
  import opened QpuFields

  /** The eight statements that all encoders but one have in common. */
  method PutControl(before: nat, c: Control, ghost parts: seq<Part>, ghost vs: seq<nat>, ghost n: nat) returns (res: nat)
    requires n + 8 <= |parts| == |vs| && before == Assemble(parts, vs, n)
    requires parts[n] == PM && parts[n + 1] == PACK && parts[n + 2] == COND_ADD && parts[n + 3] == COND_MUL
    requires parts[n + 4] == SF && parts[n + 5] == WS && parts[n + 6] == WADDR_ADD && parts[n + 7] == WADDR_MUL
    requires vs[n] == c.pm && vs[n + 1] == c.pack && vs[n + 2] == c.condAdd && vs[n + 3] == c.condMul
    requires vs[n + 4] == c.setFlags && vs[n + 5] == c.writeSwap && vs[n + 6] == c.waddrAdd && vs[n + 7] == c.waddrMul
    ensures res == Assemble(parts, vs, n + 8)
  {
    hide Put, Or, Shl;
    res := Or(before, Put(PM, c.pm));
    res := Or(res, Put(PACK, c.pack));
    assert res == Assemble(parts, vs, n + 2);
    res := Or(res, Put(COND_ADD, c.condAdd));
    res := Or(res, Put(COND_MUL, c.condMul));
    assert res == Assemble(parts, vs, n + 4);
    res := Or(res, Put(SF, c.setFlags));
    res := Or(res, Put(WS, c.writeSwap));
    assert res == Assemble(parts, vs, n + 6);
    res := Or(res, Put(WADDR_ADD, c.waddrAdd));
    res := Or(res, Put(WADDR_MUL, c.waddrMul));
  }

  /** What the encoders of loads and semaphores start with. */
  method PutMode(mode: nat, c: Control, ghost i: Instruction) returns (res: nat)
    requires !i.Alu? && !i.Branch?
    requires mode == Values(i)[0] && c == ControlAt1(Values(i))
    ensures res == Assemble(Layout(KindOf(i)), Values(i), 9)
  {
    hide Put, Or, Shl;
    ModeSmall(mode);
    PutSmall(mode, 57, 7);
    res := 0;
    res := Or(res, Shl(mode, 57));
    res := PutControl(res, c, Layout(KindOf(i)), Values(i), 1);
  }

  method EncodeAlu(sig: nat, unpack: nat, c: Control, opMul: nat, opAdd: nat, raddrA: nat, raddrB: nat,
      addA: nat, addB: nat, mulA: nat, mulB: nat) returns (res: nat)
    ensures res == Encode(Alu(sig, unpack, c, opMul, opAdd, raddrA, raddrB, addA, addB, mulA, mulB))
    ensures AluStands(res, sig, unpack, c, opMul, opAdd, raddrA, raddrB, addA, addB, mulA, mulB) && res < Pow2(64)
  {
    hide Put, Or, Shl, AluStands, Pow2;
    ghost var i := Alu(sig, unpack, c, opMul, opAdd, raddrA, raddrB, addA, addB, mulA, mulB);
    ghost var vs := Values(i);
    res := 0;
    res := Or(res, Put(SIG, sig));
    assert res == Assemble(ALU, vs, 1);
    res := Or(res, Put(Part(57, 3), unpack));
    assert res == Assemble(ALU, vs, 2);
    res := PutControl(res, c, ALU, vs, 2);
    res := Or(res, Put(Part(29, 3), opMul));
    res := Or(res, Put(Part(24, 5), opAdd));
    assert res == Assemble(ALU, vs, 12);
    res := Or(res, Put(Part(18, 6), raddrA));
    res := Or(res, Put(Part(12, 6), raddrB));
    assert res == Assemble(ALU, vs, 14);
    res := Or(res, Put(Part(9, 3), addA));
    res := Or(res, Put(Part(6, 3), addB));
    assert res == Assemble(ALU, vs, 16);
    res := Or(res, Put(Part(3, 3), mulA));
    assert res == Assemble(ALU, vs, 17);
    res := Or(res, Put(Part(0, 3), mulB));
    assert res == Assemble(ALU, vs, 18);
    EncodedPlaced(i);
  }

  method EncodeAluSmallImm(unpack: nat, c: Control, opMul: nat, opAdd: nat, raddrA: nat, smallImm: nat,
      addA: nat, addB: nat, mulA: nat, mulB: nat) returns (res: nat)
    ensures res == Encode(Alu(SIG_SMALL_IMM, unpack, c, opMul, opAdd, raddrA, smallImm, addA, addB, mulA, mulB))
    ensures AluStands(res, 13, unpack, c, opMul, opAdd, raddrA, smallImm, addA, addB, mulA, mulB) && res < Pow2(64)
  {
    hide AluStands, Pow2;
    res := EncodeAlu(SIG_SMALL_IMM, unpack, c, opMul, opAdd, raddrA, smallImm, addA, addB, mulA, mulB);
  }

  /** imm, a uint32_t, goes into the word as it is. */
  method EncodeBranch(cond: nat, relative: nat, useReg: nat, reg: nat, swap: nat, add: nat, mul: nat, imm: nat) returns (res: nat)
    requires imm < 0x1_0000_0000
    ensures res == Encode(Branch(cond, relative, useReg, reg, swap, add, mul, imm))
    ensures BranchStands(res, cond, relative, useReg, reg, swap, add, mul, imm) && res < Pow2(64)
  {
    hide Put, Or, Shl, BranchStands;
    EncodedPlaced(Branch(cond, relative, useReg, reg, swap, add, mul, imm));
    ghost var vs := Values(Branch(cond, relative, useReg, reg, swap, add, mul, imm));
    PutSmall(15, 60, 4);
    res := 0;
    res := Or(res, Shl(15, 60));
    assert res == Assemble(BRANCH, vs, 1);
    NothingPut(res, 56, 4);
    assert res == Assemble(BRANCH, vs, 2);
    res := Or(res, Put(PACK, cond));
    res := Or(res, Put(Part(51, 1), relative));
    assert res == Assemble(BRANCH, vs, 4);
    res := Or(res, Put(Part(50, 1), useReg));
    res := Or(res, Put(Part(45, 5), reg));
    assert res == Assemble(BRANCH, vs, 6);
    res := Or(res, Put(WS, swap));
    res := Or(res, Put(WADDR_ADD, add));
    assert res == Assemble(BRANCH, vs, 8);
    res := Or(res, Put(WADDR_MUL, mul));
    assert res == Assemble(BRANCH, vs, 9);
    PutWord(imm);
    res := Or(res, imm);
    assert res == Assemble(BRANCH, vs, 10);
  }

  method EncodeSemaphore(c: Control, increment: nat, number: nat, imm: nat) returns (res: nat)
    ensures res == Encode(Semaphore(c, imm, increment, number))
    ensures SemaphoreStands(res, c, imm, increment, number) && res < Pow2(64)
  {
    hide Put, Or, Shl, SemaphoreStands, Pow2;
    EncodedPlaced(Semaphore(c, imm, increment, number));
    ghost var i := Semaphore(c, imm, increment, number);
    ghost var vs := Values(i);
    res := PutMode(SEMAPHORE, c, i);
    res := Or(res, Put(Part(5, 27), imm));
    assert res == Assemble(SEM, vs, 10);
    res := Or(res, Put(Part(4, 1), increment));
    assert res == Assemble(SEM, vs, 11);
    res := Or(res, Put(Part(0, 4), number));
    assert res == Assemble(SEM, vs, 12);
  }

  method EncodeLoadImm(c: Control, imm: nat) returns (res: nat)
    requires imm < 0x1_0000_0000
    ensures res == Encode(Load32(c, imm))
    ensures Load32Stands(res, c, imm) && res < Pow2(64)
  {
    hide Put, Or, Shl, Load32Stands, Pow2;
    EncodedPlaced(Load32(c, imm));
    ghost var i := Load32(c, imm);
    ghost var vs := Values(i);
    res := PutMode(LOAD32, c, i);
    PutWord(imm);
    res := Or(res, imm);
    assert res == Assemble(LOAD, vs, 10);
  }

  method EncodeLoadImmPerElem(signed: bool, c: Control, msBit: nat, lsBit: nat) returns (res: nat)
    requires msBit < 0x1_0000 && lsBit < 0x1_0000
    ensures res == Encode(Load16(signed, c, msBit, lsBit))
    ensures Load16Stands(res, signed, c, msBit, lsBit) && res < Pow2(64)
  {
    hide Put, Or, Shl, Load16Stands;
    EncodedPlaced(Load16(signed, c, msBit, lsBit));
    ghost var i := Load16(signed, c, msBit, lsBit);
    ghost var vs := Values(i);
    var tmp := 0x71;
    UnsignedMode();
    tmp := Or(tmp, Shl(if signed then 0 else 1, 1));
    res := PutMode(tmp, c, i);
    PutHalf(msBit, 16);
    res := Or(res, Shl(msBit, 16));
    assert res == Assemble(LOADS, vs, 10);
    PutHalf(lsBit, 0);
    res := Or(res, lsBit);
    assert res == Assemble(LOADS, vs, 11);
  }

  lemma UnsignedMode()
    ensures Or(0x71, Shl(1, 1)) == LOAD16_UNSIGNED && Or(0x71, Shl(0, 1)) == LOAD16_SIGNED
  {
  }

  /** A value that fits needs no mask. */
  lemma PutSmall(v: nat, shift: nat, width: nat)
    requires v < Pow2(width)
    ensures Put(Part(shift, width), v) == Shl(v, shift) && Shl(v, 0) == v
  {
    LowExact(v, width);
  }

  lemma PutWord(v: nat)
    requires v < 0x1_0000_0000
    ensures Put(IMMEDIATE, v) == v
  {
    Powers();
    PutSmall(v, 0, 32);
  }

  lemma PutHalf(v: nat, shift: nat)
    requires v < 0x1_0000
    ensures Put(Part(shift, 16), v) == Shl(v, shift) && Shl(v, 0) == v
  {
    Powers();
    PutSmall(v, shift, 16);
  }

  lemma NothingPut(w: nat, shift: nat, width: nat)
    ensures Or(w, Put(Part(shift, width), 0)) == w
  {
    LowZero(width);
    ShlZero(shift);
  }

  lemma {:induction false} ShlZero(k: nat)
    ensures Shl(0, k) == 0
  {
    if k > 0 { ShlZero(k - 1); }
  }

  // ------------------------------------------------------- small immediates

  const NO_IMMEDIATE := 0xff

  /** The bits of the float 2 to the e. */
  function FloatBits(e: int): (b: nat)
    requires -127 <= e
  {
    (127 + e) * 0x80_0000
  }

  /** qpu_encode_small_immediate */
  function SmallImmediateOf(i: nat): (r: nat)
    requires i < 0x1_0000_0000
    ensures r < 0x100
  {
    if i <= 15 then i
    else if i >= 0xffff_fff0 then (i + 32) % 0x100
    else match i
      case 0x3f80_0000 => 32
      case 0x4000_0000 => 33
      case 0x4080_0000 => 34
      case 0x4100_0000 => 35
      case 0x4180_0000 => 36
      case 0x4200_0000 => 37
      case 0x4280_0000 => 38
      case 0x4300_0000 => 39
      case 0x3b80_0000 => 40
      case 0x3c00_0000 => 41
      case 0x3c80_0000 => 42
      case 0x3d00_0000 => 43
      case 0x3d80_0000 => 44
      case 0x3e00_0000 => 45
      case 0x3e80_0000 => 46
      case 0x3f00_0000 => 47
      case _ => NO_IMMEDIATE
  }

  /** What the disassembler takes a small immediate for, as 32 bits. */
  function ImmediateMeant(r: nat): (i: nat)
    requires r < 48
    ensures i < 0x1_0000_0000
  {
    if r < 16 then r
    else if r < 32 then 0x1_0000_0000 + r - 32
    else if r < 40 then FloatBits(r - 32)
    else FloatBits(r - 48)
  }

  /** The small immediates: the integers from -16 to 15 by their five low bits, and the
      powers of two from 2 to the -8 to 2 to the 7 as floats, from 32 on. */
  lemma ImmediatesAre(i: int, e: int)
    requires -16 <= i < 16 && -8 <= e < 8
    ensures SmallImmediateOf(i % 0x1_0000_0000) == i % 32
    ensures SmallImmediateOf((127 + e) * 0x80_0000) == 32 + e % 16
  {
  }

  /** Small immediates and the values that have one are the same thing. */
  lemma SmallImmediatesAgree(i: nat, r: nat)
    requires i < 0x1_0000_0000 && r < 0x100
    ensures SmallImmediateOf(i) == r && r != NO_IMMEDIATE <==> r < 48 && ImmediateMeant(r) == i
  {
  }
}
