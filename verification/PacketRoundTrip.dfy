/** The unpackers of brcm/cle/v3d_packet_helpers.h, and what becomes of a value
    that is packed and unpacked. */
module PacketRoundTrip {
  import opened Arithmetic
  import opened Bits
  import opened Bytes
  import opened Packets

  /** cl[byte] << sh: the byte is an int, so with its top bit shifted to bit 31 the
      upper half of the 64-bit result is all ones. */
  function Promoted(x: byte, sh: nat): (r: nat) {
    if sh == 24 && x >= 0x80 then Or(Shl(x, 24), Shl(Ones(32), 32)) else Shl(x, sh)
  }

  /** The loop of __gen_unpack_uint over bytes first to last. */
  function Gathered(cl: seq<byte>, first: nat, n: nat): (val: nat)
    requires first + n <= |cl|
  {
    if n == 0 then 0 else Or(Gathered(cl, first, n - 1), Promoted(cl[first + n - 1], 8 * (n - 1)))
  }

  /** __gen_unpack_uint */
  function UnpackUInt(cl: seq<byte>, start: nat, end: nat): (v: nat)
    requires start <= end && end / 8 < |cl|
  {
    Low(Shr(Gathered(cl, start / 8, end / 8 - start / 8 + 1), start % 8), end - start + 1)
  }

  /** __gen_unpack_sint: two shifts by 64 - size, the second one arithmetic. */
  function UnpackSInt(cl: seq<byte>, start: nat, end: nat): (v: int)
    requires start <= end && end / 8 < |cl|
  {
    var val := UnpackUInt(cl, start, end);
    if Bit(val, end - start) then val - Pow2(end - start + 1) else val
  }

  /** The line that emit_unpack_function writes for a field. */
  function Unpack(cl: seq<byte>, f: Field): (v: int)
    requires FieldOk(f) && f.end / 8 < |cl|
  {
    (if f.kind == Int then UnpackSInt(cl, f.start, f.end) else UnpackUInt(cl, f.start, f.end)) + (if f.minusOne then 1 else 0)
  }

  lemma BitPromoted(x: byte, sh: nat, p: nat)
    requires p < 32
    ensures Bit(Promoted(x, sh), p) == (sh <= p && Bit(x, p - sh))
  {
    BitShl(x, sh, p);
    if sh == 24 && x >= 0x80 {
      BitOr(Shl(x, 24), Shl(Ones(32), 32), p);
      BitShl(Ones(32), 32, p);
    }
  }

  /** Bit p of the gathered value is bit r of byte q. */
  lemma {:induction false} BitGathered(cl: seq<byte>, first: nat, n: nat, p: nat, q: nat, r: nat)
    requires first + n <= |cl| && p < 32 && p == 8 * q + r && r < 8
    ensures q < n ==> Bit(Gathered(cl, first, n), p) == Bit(cl[first + q], r)
    ensures n <= q ==> !Bit(Gathered(cl, first, n), p)
    decreases n
  {
    hide Bit, Or, Promoted;
    if n == 0 {
      BitZero(p);
    } else {
      var x, sh := cl[first + n - 1], 8 * (n - 1);
      BitGathered(cl, first, n - 1, p, q, r);
      BitOr(Gathered(cl, first, n - 1), Promoted(x, sh), p);
      BitPromoted(x, sh, p);
      if sh <= p && q > n - 1 {
        ByteBits(x, p - sh);
      }
    }
  }

  /** A byte has eight bits. */
  lemma ByteBits(x: byte, i: nat)
    requires 8 <= i
    ensures !Bit(x, i)
  {
    assert Pow2(8) == 2 * Pow2(7) == 4 * Pow2(6) == 8 * Pow2(5) == 16 * Pow2(4) && Pow2(4) == 16;
    HighBits(x, 8, i);
  }

  /** Bit i of an unpacked field is bit start + i of the packet. */
  lemma BitUnpacked(cl: seq<byte>, start: nat, end: nat, i: nat, a: nat)
    requires start <= end && end / 8 < |cl| && start % 8 + (end - start + 1) <= 32 && i <= end - start && a == start + i
    ensures Bit(UnpackUInt(cl, start, end), i) == Bit(cl[a / 8], a % 8)
  {
    hide Bit, Low, Shr, Gathered;
    var first, n := start / 8, end / 8 - start / 8 + 1;
    var g, p := Gathered(cl, first, n), i + start % 8;
    BitLow(Shr(g, start % 8), end - start + 1, i);
    BitShr(g, start % 8, i);
    BitGathered(cl, first, n, p, a / 8 - first, a % 8);
  }

  /** A field unpacks to its bits. */
  lemma UnpackedRaw(fields: seq<Field>, values: seq<int>, cl: seq<byte>, k: nat)
    requires LayoutOk(fields) && Ready(fields, values) && k < |fields| && Length(fields) <= |cl|
    requires forall b :: 0 <= b < Length(fields) ==> ByteRight(fields, values, cl, b)
    ensures UnpackUInt(cl, fields[k].start, fields[k].end) == Raw(fields[k], values[k])
  {
    hide Bit, Low, Lit, Raw, UnpackUInt, Pow2;
    var f := fields[k];
    var w := Width(f);
    var u, raw := UnpackUInt(cl, f.start, f.end), Raw(f, values[k]);
    UnpackedBound(cl, f.start, f.end);
    forall i | 0 <= i < w ensures Bit(u, i) == Bit(raw, i) {
      BitComesBack(fields, values, cl, k, i, f.start + i);
    }
    SameBits(u, raw, w);
  }

  lemma UnpackedBound(cl: seq<byte>, start: nat, end: nat)
    requires start <= end && end / 8 < |cl|
    ensures UnpackUInt(cl, start, end) < Pow2(end - start + 1)
  {
    hide Low, Shr, Gathered, Pow2;
    LowBound(Shr(Gathered(cl, start / 8, end / 8 - start / 8 + 1), start % 8), end - start + 1);
  }

  lemma BitComesBack(fields: seq<Field>, values: seq<int>, cl: seq<byte>, k: nat, i: nat, a: nat)
    requires LayoutOk(fields) && Ready(fields, values) && k < |fields| && Length(fields) <= |cl| && i < Width(fields[k]) && a == fields[k].start + i
    requires forall b :: 0 <= b < Length(fields) ==> ByteRight(fields, values, cl, b)
    ensures Bit(UnpackUInt(cl, fields[k].start, fields[k].end), i) == Bit(Raw(fields[k], values[k]), i)
  {
    hide Bit, Low, Lit, Raw, UnpackUInt, Pow2;
    var f := fields[k];
    BitUnpacked(cl, f.start, f.end, i, a);
    assert ByteRight(fields, values, cl, a / 8);
    assert BitRight(fields, values, cl, a / 8, a % 8, a);
    forall j | 0 <= j < |fields| && j != k ensures !Covers(fields[j], a) {
      if j < k { assert !Overlaps(fields[j], fields[k]); } else { assert !Overlaps(fields[k], fields[j]); }
    }
    LitOne(fields, values, |fields|, k, a);
  }

  /** The sign comes back with the highest bit. */
  lemma SignComesBack(f: Field, v: int)
    requires FieldOk(f) && f.kind == Int && InRange(f, v)
    ensures Stored(f, v) == if Bit(Raw(f, v), f.end - f.start) then Raw(f, v) - Pow2(f.end - f.start + 1) else Raw(f, v)
  {
    hide Bit;
    TopBit(Raw(f, v), Width(f));
    assert Pow2(Width(f)) == 2 * Pow2(Width(f) - 1);
  }

  /** Packing and unpacking. For every layout of fields that do not overlap, each
      within 32 bits of its first byte, and all values in range: whatever the
      buffer held, every field unpacks to the value it was packed from. */
  lemma PackThenUnpack(fields: seq<Field>, values: seq<int>, buffer: seq<byte>, k: nat)
    requires LayoutOk(fields) && Ready(fields, values) && Length(fields) <= |buffer|
    requires k < |fields| && fields[k].kind != Mbo
    ensures forall i :: 0 <= i < |Code(fields, Length(fields))| ==> StmtOk(fields, |buffer|, Code(fields, Length(fields))[i])
    ensures Unpack(Run(fields, values, buffer, Code(fields, Length(fields))), fields[k]) == values[k]
  {
    hide Bit, Raw, ByteRight, Code, StmtOk, Run, UnpackUInt;
    var n := Length(fields);
    CodePacks(fields, values, buffer, n);
    var cl := Run(fields, values, buffer, Code(fields, n));
    forall b | 0 <= b < n ensures ByteRight(fields, values, cl, b) {
      assert Due(fields, b, n);
    }
    UnpackedRaw(fields, values, cl, k);
    if fields[k].kind == Int {
      SignComesBack(fields[k], values[k]);
    } else {
      RawIsStored(fields[k], values[k]);
    }
  }

  lemma RawIsStored(f: Field, v: int)
    requires FieldOk(f) && (f.kind == UInt || f.kind == Bool) && InRange(f, v)
    ensures Raw(f, v) == Stored(f, v)
  {
  }

  /** What is stored for a value of a field, in numbers: the value, or one less, in two's
      complement of the field's width. */
  lemma RawIs(f: Field, v: int)
    requires FieldOk(f) && InRange(f, v) && f.kind != Mbo
    ensures Raw(f, v) == (if f.minusOne then v - 1 else v) % Pow2(f.end - f.start + 1)
  {
    hide Pow2;
    var w := f.end - f.start + 1;
    assert Pow2(w) == 2 * Pow2(w - 1) by { Doubled(w); }
    if Stored(f, v) < 0 { OnceRound(Stored(f, v), Pow2(w)); } else { Unchanged(Stored(f, v), Pow2(w)); }
  }

  lemma Doubled(w: nat)
    requires w > 0
    ensures Pow2(w) == 2 * Pow2(w - 1)
  {
  }

  /** Where the bits of a packet are: bit i of what is stored for a field stands start + i bits
      into the packet, lowest bits and bytes first; a must-be-one field is all
      ones, and a bit of no field is 0. */
  lemma FieldStands(fields: seq<Field>, values: seq<int>, buffer: seq<byte>, k: nat, i: nat, a: nat)
    requires LayoutOk(fields) && Ready(fields, values) && Length(fields) <= |buffer|
    requires k < |fields| && i <= fields[k].end - fields[k].start && a == fields[k].start + i
    ensures forall j :: 0 <= j < |Code(fields, Length(fields))| ==> StmtOk(fields, |buffer|, Code(fields, Length(fields))[j])
    ensures var cl, f := Run(fields, values, buffer, Code(fields, Length(fields))), fields[k];
      && a / 8 < |cl|
      && (f.kind == Mbo ==> Bit(cl[a / 8], a % 8))
      && (f.kind != Mbo ==>
        Bit(cl[a / 8], a % 8) == Bit((if f.minusOne then values[k] - 1 else values[k]) % Pow2(f.end - f.start + 1), i))
  {
    hide Bit, Raw, ByteRight, Code, StmtOk, Run, UnpackUInt, Pow2;
    var n := Length(fields);
    CodePacks(fields, values, buffer, n);
    var cl := Run(fields, values, buffer, Code(fields, n));
    forall b | 0 <= b < n ensures ByteRight(fields, values, cl, b) { assert Due(fields, b, n); }
    BitComesBack(fields, values, cl, k, i, a);
    BitUnpacked(cl, fields[k].start, fields[k].end, i, a);
    if fields[k].kind == Mbo { OnesRaw(fields[k], values[k], i); } else { RawIs(fields[k], values[k]); }
  }

  lemma OnesRaw(f: Field, v: int, i: nat)
    requires FieldOk(f) && InRange(f, v) && f.kind == Mbo && i <= f.end - f.start
    ensures Bit(Raw(f, v), i)
  {
    BitOnes(Width(f), i);
  }

  lemma ByteSays(fields: seq<Field>, values: seq<int>, cl: seq<byte>, b: nat, i: nat, a: nat)
    requires Ready(fields, values) && b < |cl| && ByteRight(fields, values, cl, b) && i < 8 && a == 8 * b + i
    ensures Bit(cl[b], i) == Lit(fields, values, |fields|, a)
  {
    hide Bit, Lit;
    assert BitRight(fields, values, cl, b, i, a);
  }

  lemma RestIsZero(fields: seq<Field>, values: seq<int>, buffer: seq<byte>, a: nat)
    requires LayoutOk(fields) && Ready(fields, values) && Length(fields) <= |buffer| && a / 8 < Length(fields)
    requires forall k :: 0 <= k < |fields| ==> !(fields[k].start <= a <= fields[k].end)
    ensures forall j :: 0 <= j < |Code(fields, Length(fields))| ==> StmtOk(fields, |buffer|, Code(fields, Length(fields))[j])
    ensures !Bit(Run(fields, values, buffer, Code(fields, Length(fields)))[a / 8], a % 8)
  {
    hide Bit, Raw, ByteRight, Code, StmtOk, Run;
    var n := Length(fields);
    CodePacks(fields, values, buffer, n);
    var cl := Run(fields, values, buffer, Code(fields, n));
    assert Due(fields, a / 8, n);
    assert ByteRight(fields, values, cl, a / 8);
    ByteSays(fields, values, cl, a / 8, a % 8, a);
    LitNever(fields, values, |fields|, a);
  }

  /** Every bit of the packet is the fields', whatever the buffer held; a bit of no
      field is 0. */
  lemma PackedBits(fields: seq<Field>, values: seq<int>, buffer: seq<byte>)
    requires LayoutOk(fields) && Ready(fields, values) && Length(fields) <= |buffer|
    ensures forall i :: 0 <= i < |Code(fields, Length(fields))| ==> StmtOk(fields, |buffer|, Code(fields, Length(fields))[i])
    ensures var cl := Run(fields, values, buffer, Code(fields, Length(fields)));
      forall b :: 0 <= b < Length(fields) ==> ByteRight(fields, values, cl, b)
  {
    hide Bit, Raw, ByteRight, Code, StmtOk, Run;
    var n := Length(fields);
    CodePacks(fields, values, buffer, n);
    forall b | 0 <= b < n ensures ByteRight(fields, values, Run(fields, values, buffer, Code(fields, n)), b) {
      assert Due(fields, b, n);
    }
  }
}
