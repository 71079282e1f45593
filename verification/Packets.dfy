/** The packet packers that brcm/cle/gen_pack_header.py generates, and the
    unpackers of brcm/cle/v3d_packet_helpers.h.

    The generator writes C statements; here it writes values of type Stmt, which
    Run executes on a buffer. */
module Packets {
  import opened Bits
  import opened Bytes

  datatype Kind = UInt | Int | Bool | Mbo

  /** Bits start to end of a packet, both included. */
  datatype Field = Field(start: nat, end: nat, kind: Kind, minusOne: bool)

  predicate FieldOk(f: Field) {
    f.start <= f.end && f.start % 8 + Width(f) <= 32
  }

  function Width(f: Field): (w: int) {
    f.end - f.start + 1
  }

  predicate Overlaps(f: Field, g: Field) {
    f.start <= g.end && g.start <= f.end
  }

  predicate LayoutOk(fields: seq<Field>) {
    && fields != [] && (forall k :: 0 <= k < |fields| ==> FieldOk(fields[k]))
    && (forall j, k :: 0 <= j < k < |fields| ==> !Overlaps(fields[j], fields[k]))
  }

  /** What is stored for the value v. */
  function Stored(f: Field, v: int): (u: int) {
    if f.minusOne then v - 1 else v
  }

  /** The value is one of the packer's 32-bit argument type, and fits the field. */
  predicate InRange(f: Field, v: int)
    requires FieldOk(f)
  {
    match f.kind
    case UInt => v < 0x1_0000_0000 && 0 <= Stored(f, v) < Pow2(Width(f))
    case Bool => 0 <= v < 2 && 0 <= Stored(f, v) < Pow2(Width(f))
    case Int => v < 0x8000_0000 && 0 <= Stored(f, v) + Pow2(Width(f) - 1) && Stored(f, v) < Pow2(Width(f) - 1)
    case Mbo => true
  }

  /** The field's bits: the argument of __gen_uint, the masked argument of
      __gen_sint, or the ones of __gen_mbo. */
  function Raw(f: Field, v: int): (r: nat)
    requires FieldOk(f) && InRange(f, v)
    ensures r < Pow2(Width(f))
  {
    match f.kind
    case Mbo => OnesBound(Width(f)); Ones(Width(f))
    case Int => if Stored(f, v) < 0 then Stored(f, v) + Pow2(Width(f)) else Stored(f, v)
    case _ => Stored(f, v)
  }

  lemma {:induction false} OnesBound(w: nat)
    ensures Ones(w) < Pow2(w)
  {
    if w > 0 { OnesBound(w - 1); }
  }

  /** __gen_x(value, start, ...) >> shift */
  datatype Term = Term(field: nat, start: nat, shift: nat)

  datatype Stmt =
    | Zero(at: nat)                          // cl[at] = 0;
    | Memcpy(at: nat, field: nat)            // memcpy(&cl[at], &values->field, 4);
    | Assign(at: nat, terms: seq<Term>)      // cl[at] = t | t | ...;

  // -------------------------------------------------------- the generator

  predicate InByte(f: Field, b: nat) {
    f.start / 8 <= b <= f.end / 8
  }

  /** The fields, among the first n, with bits in byte b. */
  function Covering(fields: seq<Field>, n: nat, b: nat): (ks: seq<nat>)
    requires n <= |fields|
    ensures forall i :: 0 <= i < |ks| ==> ks[i] < n && InByte(fields[ks[i]], b)
    ensures forall k :: 0 <= k < n && InByte(fields[k], b) ==> k in ks
  {
    if n == 0 then []
    else Covering(fields, n - 1, b) + (if InByte(fields[n - 1], b) then [n - 1] else [])
  }

  function TermFor(fields: seq<Field>, k: nat, b: nat): (t: Term)
    requires k < |fields| && InByte(fields[k], b)
    ensures t.field == k
  {
    var first := fields[k].start / 8 * 8;
    Term(k, fields[k].start - first, 8 * b - first)
  }

  function Terms(fields: seq<Field>, n: nat, b: nat): (ts: seq<Term>)
    requires n <= |fields|
  {
    if n == 0 then []
    else Terms(fields, n - 1, b) + (if InByte(fields[n - 1], b) then [TermFor(fields, n - 1, b)] else [])
  }

  /** A whole aligned word that is copied. */
  predicate Copied(fields: seq<Field>, k: nat)
    requires k < |fields|
  {
    var f := fields[k];
    && (f.kind == UInt || f.kind == Int) && f.start % 8 == 0 && f.end - f.start == 31 && !f.minusOne
    && forall j :: 0 <= j < |fields| && fields[j] != f ==> !Overlaps(f, fields[j])
  }

  /** What is written for byte b: nothing, if it has been copied with others. */
  function Emitted(fields: seq<Field>, b: nat): (code: seq<Stmt>) {
    var ks := Covering(fields, |fields|, b);
    if ks == [] then [Zero(b)]
    else if |ks| == 1 && Copied(fields, ks[0]) then
      if fields[ks[0]].start == 8 * b then [Memcpy(b, ks[0])] else []
    else [Assign(b, Terms(fields, |fields|, b))]
  }

  function Code(fields: seq<Field>, n: nat): (code: seq<Stmt>) {
    if n == 0 then [] else Code(fields, n - 1) + Emitted(fields, n - 1)
  }

  /** How many bytes a packet has. */
  function Length(fields: seq<Field>): (n: nat)
    ensures forall k :: 0 <= k < |fields| ==> fields[k].end / 8 < n
  {
    if fields == [] then 0
    else
      var l, n := Length(fields[..|fields| - 1]), fields[|fields| - 1].end / 8 + 1;
      if l < n then n else l
  }

  /** A packet ends with the byte that some field ends in. */
  lemma {:induction false} LengthIsReached(fields: seq<Field>) returns (k: nat)
    requires fields != []
    ensures k < |fields| && fields[k].end / 8 + 1 == Length(fields)
    decreases |fields|
  {
    k := |fields| - 1;
    var most := fields[..|fields| - 1];
    if most != [] && fields[k].end / 8 + 1 < Length(most) {
      k := LengthIsReached(most);
      assert most[k] == fields[k];
    }
  }

  // ------------------------------------------------------- what it means

  function ValueOf(fields: seq<Field>, values: seq<int>, t: Term): (x: nat)
    requires Ready(fields, values) && t.field < |fields|
  {
    Shr(Shl(Raw(fields[t.field], values[t.field]), t.start), t.shift)
  }

  predicate Ready(fields: seq<Field>, values: seq<int>) {
    |fields| == |values| && forall k :: 0 <= k < |fields| ==> FieldOk(fields[k]) && InRange(fields[k], values[k])
  }

  function OrAll(fields: seq<Field>, values: seq<int>, ts: seq<Term>): (x: nat)
    requires Ready(fields, values) && forall i :: 0 <= i < |ts| ==> ts[i].field < |fields|
  {
    if ts == [] then 0 else Or(OrAll(fields, values, ts[..|ts| - 1]), ValueOf(fields, values, ts[|ts| - 1]))
  }

  predicate StmtOk(fields: seq<Field>, n: nat, s: Stmt) {
    match s
    case Zero(b) => b < n
    case Memcpy(b, k) => b + 4 <= n && k < |fields| && Width(fields[k]) == 32
    case Assign(b, ts) => b < n && forall i :: 0 <= i < |ts| ==> ts[i].field < |fields|
  }

  function Step(fields: seq<Field>, values: seq<int>, m: seq<byte>, s: Stmt): (r: seq<byte>)
    requires Ready(fields, values) && StmtOk(fields, |m|, s)
    ensures |r| == |m|
  {
    match s
    case Zero(b) => m[b := 0]
    case Memcpy(b, k) => Splice(m, b, Digits(Raw(fields[k], values[k]), 4))
    case Assign(b, ts) => m[b := OrAll(fields, values, ts) % 0x100]
  }

  function Run(fields: seq<Field>, values: seq<int>, m: seq<byte>, code: seq<Stmt>): (r: seq<byte>)
    requires Ready(fields, values) && forall i :: 0 <= i < |code| ==> StmtOk(fields, |m|, code[i])
    ensures |r| == |m|
  {
    if code == [] then m else Step(fields, values, Run(fields, values, m, code[..|code| - 1]), code[|code| - 1])
  }

  // ------------------------------------------------------------ bit by bit

  predicate Covers(f: Field, a: nat) {
    f.start <= a <= f.end
  }

  /** Is bit a of the packet set, as far as the first n fields go? */
  predicate Lit(fields: seq<Field>, values: seq<int>, n: nat, a: nat)
    requires Ready(fields, values) && n <= |fields|
  {
    n > 0 && (Lit(fields, values, n - 1, a) || (Covers(fields[n - 1], a) && Bit(Raw(fields[n - 1], values[n - 1]), a - fields[n - 1].start)))
  }

  lemma {:induction false} HighBits(x: nat, w: nat, i: nat)
    requires x < Pow2(w) && w <= i
    ensures !Bit(x, i)
    decreases w
  {
    if w == 0 { BitZero(i); } else { HighBits(x / 2, w - 1, i - 1); }
  }

  /** A term puts the field's bits where they belong. */
  lemma TermBit(fields: seq<Field>, values: seq<int>, k: nat, b: nat, i: nat, a: nat)
    requires Ready(fields, values) && k < |fields| && InByte(fields[k], b) && i < 8 && a == 8 * b + i
    ensures Bit(ValueOf(fields, values, TermFor(fields, k, b)), i) == (Covers(fields[k], a) && Bit(Raw(fields[k], values[k]), a - fields[k].start))
  {
    var f, t := fields[k], TermFor(fields, k, b);
    var raw := Raw(f, values[k]);
    var p := i + t.shift;
    BitShr(Shl(raw, t.start), t.shift, i);
    BitShl(raw, t.start, p);
    assert p - t.start == a - f.start;
    if f.end < a { HighBits(raw, Width(f), a - f.start); }
  }

  lemma {:induction false} TermsOk(fields: seq<Field>, n: nat, b: nat)
    requires n <= |fields|
    ensures forall j :: 0 <= j < |Terms(fields, n, b)| ==> Terms(fields, n, b)[j].field < |fields|
  {
    if n > 0 { TermsOk(fields, n - 1, b); }
  }

  lemma OrLast(fields: seq<Field>, values: seq<int>, ts: seq<Term>, t: Term)
    requires Ready(fields, values) && (forall i :: 0 <= i < |ts| ==> ts[i].field < |fields|) && t.field < |fields|
    ensures OrAll(fields, values, ts + [t]) == Or(OrAll(fields, values, ts), ValueOf(fields, values, t))
  {
    assert (ts + [t])[..|ts|] == ts;
  }

  lemma {:induction false} TermsBit(fields: seq<Field>, values: seq<int>, n: nat, b: nat, i: nat, a: nat)
    requires Ready(fields, values) && n <= |fields| && i < 8 && a == 8 * b + i
    ensures forall j :: 0 <= j < |Terms(fields, n, b)| ==> Terms(fields, n, b)[j].field < |fields|
    ensures Bit(OrAll(fields, values, Terms(fields, n, b)), i) == Lit(fields, values, n, a)
  {
    hide Bit, Or, ValueOf, Raw, TermFor, Pow2, InRange;
    TermsOk(fields, n, b);
    if n == 0 {
      BitZero(i);
    } else {
      hide OrAll;
      var pre := Terms(fields, n - 1, b);
      TermsBit(fields, values, n - 1, b, i, a);
      if InByte(fields[n - 1], b) {
        var t := TermFor(fields, n - 1, b);
        OrLast(fields, values, pre, t);
        BitOr(OrAll(fields, values, pre), ValueOf(fields, values, t), i);
        TermBit(fields, values, n - 1, b, i, a);
      } else {
        assert Terms(fields, n, b) == pre;
      }
    }
  }

  // ------------------------------------------------------- byte by byte

  predicate BitRight(fields: seq<Field>, values: seq<int>, m: seq<byte>, b: nat, i: nat, a: nat)
    requires Ready(fields, values) && b < |m|
  {
    Bit(m[b], i) == Lit(fields, values, |fields|, a)
  }

  /** Byte b of m has the bits the fields give it. */
  ghost predicate ByteRight(fields: seq<Field>, values: seq<int>, m: seq<byte>, b: nat)
    requires Ready(fields, values) && b < |m|
  {
    forall i, a :: 0 <= i < 8 && a == 8 * b + i ==> BitRight(fields, values, m, b, i, a)
  }

  lemma {:induction false} LitNone(fields: seq<Field>, values: seq<int>, n: nat, b: nat, a: nat)
    requires Ready(fields, values) && n <= |fields| && 8 * b <= a < 8 * b + 8
    requires forall k :: 0 <= k < n ==> !InByte(fields[k], b)
    ensures !Lit(fields, values, n, a)
  {
    if n > 0 {
      assert !InByte(fields[n - 1], b);
      LitNone(fields, values, n - 1, b, a);
    }
  }

  /** A bit that only field k can reach. */
  lemma {:induction false} LitOne(fields: seq<Field>, values: seq<int>, n: nat, k: nat, a: nat)
    requires Ready(fields, values) && k < n <= |fields| && Covers(fields[k], a)
    requires forall j :: 0 <= j < n && j != k ==> !Covers(fields[j], a)
    ensures Lit(fields, values, n, a) == Bit(Raw(fields[k], values[k]), a - fields[k].start)
  {
    hide Bit, Raw;
    if k < n - 1 {
      LitOne(fields, values, n - 1, k, a);
    } else {
      LitNever(fields, values, n - 1, a);
    }
  }

  lemma {:induction false} LitNever(fields: seq<Field>, values: seq<int>, n: nat, a: nat)
    requires Ready(fields, values) && n <= |fields| && forall j :: 0 <= j < n ==> !Covers(fields[j], a)
    ensures !Lit(fields, values, n, a)
  {
    if n > 0 { LitNever(fields, values, n - 1, a); }
  }

  lemma ZeroRight(fields: seq<Field>, values: seq<int>, m: seq<byte>, b: nat)
    requires Ready(fields, values) && b < |m| && Covering(fields, |fields|, b) == [] && m[b] == 0
    ensures ByteRight(fields, values, m, b)
  {
    hide Bit;
    forall i, a | 0 <= i < 8 && a == 8 * b + i ensures BitRight(fields, values, m, b, i, a) {
      BitZero(i);
      LitNone(fields, values, |fields|, b, a);
    }
  }

  lemma AssignRight(fields: seq<Field>, values: seq<int>, m: seq<byte>, b: nat)
    requires Ready(fields, values) && b < |m|
    requires forall j :: 0 <= j < |Terms(fields, |fields|, b)| ==> Terms(fields, |fields|, b)[j].field < |fields|
    requires m[b] == OrAll(fields, values, Terms(fields, |fields|, b)) % 0x100
    ensures ByteRight(fields, values, m, b)
  {
    hide Bit, OrAll, Terms;
    var x := OrAll(fields, values, Terms(fields, |fields|, b));
    ByteIsLow(x);
    forall i, a | 0 <= i < 8 && a == 8 * b + i ensures BitRight(fields, values, m, b, i, a) {
      BitLow(x, 8, i);
      TermsBit(fields, values, |fields|, b, i, a);
    }
  }

  /** A copied field is alone in its bytes. */
  lemma CopiedAlone(fields: seq<Field>, k: nat, j: nat, b: nat)
    requires LayoutOk(fields) && k < |fields| && j < |fields| && Copied(fields, k) && InByte(fields[k], b) && InByte(fields[j], b)
    ensures j == k
  {
    CopiedOverlaps(fields[k], fields[j], b);
  }

  lemma CopiedOverlaps(f: Field, g: Field, b: nat)
    requires f.start % 8 == 0 && f.end - f.start == 31 && InByte(f, b) && InByte(g, b)
    ensures Overlaps(f, g) && Overlaps(g, f)
  {
  }

  lemma CopyRight(fields: seq<Field>, values: seq<int>, m: seq<byte>, k: nat, b: nat, j: nat)
    requires Ready(fields, values) && LayoutOk(fields) && k < |fields| && Copied(fields, k)
    requires fields[k].start == 8 * b && j < 4 && b + j < |m| && m[b + j] == Digits(Raw(fields[k], values[k]), 4)[j]
    ensures ByteRight(fields, values, m, b + j)
  {
    hide Bit, Raw, Digits;
    var c := b + j;
    forall i, a | 0 <= i < 8 && a == 8 * c + i ensures BitRight(fields, values, m, c, i, a) {
      BitOfDigits(Raw(fields[k], values[k]), 4, j, i, a - 8 * b);
      forall h | 0 <= h < |fields| && Covers(fields[h], a) ensures h == k {
        CopiedAlone(fields, k, h, c);
      }
      LitOne(fields, values, |fields|, k, a);
    }
  }

  // ---------------------------------------------------------- the whole code

  /** After the statements for the bytes before n, byte b has been written. */
  ghost predicate Due(fields: seq<Field>, b: nat, n: nat) {
    b < n || exists k :: 0 <= k < |fields| && CopiedBefore(fields, k, b, n)
  }

  ghost predicate CopiedBefore(fields: seq<Field>, k: nat, b: nat, n: nat)
    requires k < |fields|
  {
    Copied(fields, k) && InByte(fields[k], b) && fields[k].start < 8 * n
  }

  ghost predicate Packed(fields: seq<Field>, values: seq<int>, m: seq<byte>, n: nat)
    requires Ready(fields, values)
  {
    forall b :: 0 <= b < |m| && Due(fields, b, n) ==> ByteRight(fields, values, m, b)
  }

  lemma {:induction false} CodeOk(fields: seq<Field>, n: nat, size: nat)
    requires LayoutOk(fields) && n <= size && Length(fields) <= size
    ensures forall i :: 0 <= i < |Code(fields, n)| ==> StmtOk(fields, size, Code(fields, n)[i])
  {
    if n > 0 {
      CodeOk(fields, n - 1, size);
      TermsOk(fields, |fields|, n - 1);
    }
  }

  /** Where no copied field starts, only byte n itself becomes due. */
  lemma DueBefore(fields: seq<Field>, b: nat, n: nat)
    requires Due(fields, b, n + 1) && b != n
    requires forall k :: 0 <= k < |fields| && Copied(fields, k) ==> fields[k].start != 8 * n
    ensures Due(fields, b, n)
  {
    if n < b {
      var k :| 0 <= k < |fields| && CopiedBefore(fields, k, b, n + 1);
      assert CopiedBefore(fields, k, b, n);
    }
  }

  /** No copied field that has begun reaches four bytes on. */
  lemma NotYetDue(fields: seq<Field>, n: nat, next: nat)
    requires next == n + 1
    ensures forall b :: n + 4 <= b ==> !Due(fields, b, next)
  {
    forall b, k | n + 4 <= b && 0 <= k < |fields| ensures !CopiedBefore(fields, k, b, next) {
    }
  }

  lemma OneStmt(fields: seq<Field>, values: seq<int>, m: seq<byte>, code: seq<Stmt>, s: Stmt)
    requires Ready(fields, values) && (forall i :: 0 <= i < |code| ==> StmtOk(fields, |m|, code[i])) && StmtOk(fields, |m|, s)
    ensures Run(fields, values, m, code + [s]) == Step(fields, values, Run(fields, values, m, code), s)
  {
    hide StmtOk;
    assert (code + [s])[..|code|] == code;
  }

  lemma Kept(fields: seq<Field>, values: seq<int>, m: seq<byte>, r: seq<byte>, b: nat)
    requires Ready(fields, values) && b < |m| == |r| && m[b] == r[b] && ByteRight(fields, values, m, b)
    ensures ByteRight(fields, values, r, b)
  {
    hide Bit, Lit;
    forall i, a | 0 <= i < 8 && a == 8 * b + i ensures BitRight(fields, values, r, b, i, a) {
      assert BitRight(fields, values, m, b, i, a);
    }
  }

  lemma ZeroPacks(fields: seq<Field>, values: seq<int>, m: seq<byte>, n: nat)
    requires LayoutOk(fields) && Ready(fields, values) && n < |m| && Packed(fields, values, m, n) && Covering(fields, |fields|, n) == []
    ensures Packed(fields, values, m[n := 0], n + 1)
  {
    hide Bit, Lit, ByteRight;
    var r := m[n := 0];
    forall b | 0 <= b < |r| && Due(fields, b, n + 1) ensures ByteRight(fields, values, r, b) {
      if b == n {
        ZeroRight(fields, values, r, n);
      } else {
        DueBefore(fields, b, n);
        Kept(fields, values, m, r, b);
      }
    }
  }

  lemma AssignPacks(fields: seq<Field>, values: seq<int>, m: seq<byte>, n: nat)
    requires LayoutOk(fields) && Ready(fields, values) && n < |m| && Packed(fields, values, m, n)
    requires forall j :: 0 <= j < |Terms(fields, |fields|, n)| ==> Terms(fields, |fields|, n)[j].field < |fields|
    requires var ks := Covering(fields, |fields|, n); ks != [] && !(|ks| == 1 && Copied(fields, ks[0]))
    ensures Packed(fields, values, m[n := OrAll(fields, values, Terms(fields, |fields|, n)) % 0x100], n + 1)
  {
    hide Bit, Lit, ByteRight, OrAll, Terms;
    var r := m[n := OrAll(fields, values, Terms(fields, |fields|, n)) % 0x100];
    forall b | 0 <= b < |r| && Due(fields, b, n + 1) ensures ByteRight(fields, values, r, b) {
      if b == n {
        AssignRight(fields, values, r, n);
      } else {
        NoCopyHere(fields, n);
        DueBefore(fields, b, n);
        Kept(fields, values, m, r, b);
      }
    }
  }

  /** Where a byte is assigned, no copied field lies. */
  lemma NoCopyHere(fields: seq<Field>, n: nat)
    requires LayoutOk(fields)
    requires var ks := Covering(fields, |fields|, n); ks != [] && !(|ks| == 1 && Copied(fields, ks[0]))
    ensures forall k :: 0 <= k < |fields| && Copied(fields, k) ==> !InByte(fields[k], n)
  {
    hide Covering, Copied, InByte;
    forall k | 0 <= k < |fields| && Copied(fields, k) ensures !InByte(fields[k], n) {
      if InByte(fields[k], n) { CopyIsAlone(fields, k, n); }
    }
  }

  /** A copied field is all there is in its bytes. */
  lemma CopyIsAlone(fields: seq<Field>, k: nat, n: nat)
    requires LayoutOk(fields) && k < |fields| && Copied(fields, k) && InByte(fields[k], n)
    ensures Covering(fields, |fields|, n) == [k]
  {
    hide Copied, InByte;
    var ks := Covering(fields, |fields|, n);
    forall i | 0 <= i < |ks| ensures ks[i] == k { CopiedAlone(fields, k, ks[i], n); }
    CoveringRises(fields, |fields|, n);
    RisingLength(ks, k, k + 1);
  }

  lemma {:induction false} RisingLength(ks: seq<nat>, lo: nat, hi: nat)
    requires lo <= hi && (forall i :: 0 <= i < |ks| ==> lo <= ks[i] < hi) && forall i, j :: 0 <= i < j < |ks| ==> ks[i] < ks[j]
    ensures |ks| <= hi - lo
  {
    if ks != [] { RisingLength(ks[..|ks| - 1], lo, ks[|ks| - 1]); }
  }

  lemma {:induction false} CoveringRises(fields: seq<Field>, n: nat, b: nat)
    requires n <= |fields|
    ensures forall i, j :: 0 <= i < j < |Covering(fields, n, b)| ==> Covering(fields, n, b)[i] < Covering(fields, n, b)[j]
  {
    if n > 0 { CoveringRises(fields, n - 1, b); }
  }

  lemma CopyPacks(fields: seq<Field>, values: seq<int>, m: seq<byte>, n: nat, k: nat)
    requires LayoutOk(fields) && Ready(fields, values) && n + 4 <= |m| && Packed(fields, values, m, n)
    requires k < |fields| && Copied(fields, k) && fields[k].start == 8 * n
    ensures Packed(fields, values, Splice(m, n, Digits(Raw(fields[k], values[k]), 4)), n + 1)
  {
    hide Bit, Lit, ByteRight, Raw, Digits;
    var d := Digits(Raw(fields[k], values[k]), 4);
    var r := Splice(m, n, d);
    NotYetDue(fields, n, n + 1);
    forall b | 0 <= b < |r| && Due(fields, b, n + 1) ensures ByteRight(fields, values, r, b) {
      if n <= b < n + 4 {
        assert r[n..n + 4][b - n] == d[b - n];
        CopyRight(fields, values, r, k, n, b - n);
      } else {
        Kept(fields, values, m, r, b);
      }
    }
  }

  /** A byte that is skipped was copied with the bytes before it. */
  lemma SkipPacks(fields: seq<Field>, values: seq<int>, m: seq<byte>, n: nat, k: nat)
    requires LayoutOk(fields) && Ready(fields, values) && n < |m| && Packed(fields, values, m, n)
    requires k < |fields| && Copied(fields, k) && InByte(fields[k], n) && fields[k].start != 8 * n
    ensures Packed(fields, values, m, n + 1)
  {
    hide Bit, Lit, ByteRight;
    assert CopiedBefore(fields, k, n, n);
    forall h | 0 <= h < |fields| && Copied(fields, h) ensures fields[h].start != 8 * n {
      if InByte(fields[h], n) { CopiedAlone(fields, k, h, n); }
    }
    forall b | 0 <= b < |m| && Due(fields, b, n + 1) ensures Due(fields, b, n) {
      if b != n { DueBefore(fields, b, n); }
    }
  }

  /** The statements for byte n write what is due with it. */
  lemma {:induction false} CodePacks(fields: seq<Field>, values: seq<int>, m: seq<byte>, n: nat)
    requires LayoutOk(fields) && Ready(fields, values) && Length(fields) <= |m| && n <= |m|
    ensures forall i :: 0 <= i < |Code(fields, n)| ==> StmtOk(fields, |m|, Code(fields, n)[i])
    ensures Packed(fields, values, Run(fields, values, m, Code(fields, n)), n)
  {
    hide ByteRight, StmtOk, Emitted, LayoutOk, Ready, Covering;
    CodeOk(fields, n, |m|);
    if n > 0 {
      CodePacks(fields, values, m, n - 1);
      assert Code(fields, n) == Code(fields, n - 1) + Emitted(fields, n - 1);
      EmittedPacks(fields, values, m, Code(fields, n - 1), n - 1);
    }
  }

  lemma EmittedPacks(fields: seq<Field>, values: seq<int>, m: seq<byte>, c: seq<Stmt>, b: nat)
    requires LayoutOk(fields) && Ready(fields, values) && Length(fields) <= |m| && b < |m|
    requires forall i :: 0 <= i < |c + Emitted(fields, b)| ==> StmtOk(fields, |m|, (c + Emitted(fields, b))[i])
    requires (forall i :: 0 <= i < |c| ==> StmtOk(fields, |m|, c[i])) && Packed(fields, values, Run(fields, values, m, c), b)
    ensures Packed(fields, values, Run(fields, values, m, c + Emitted(fields, b)), b + 1)
  {
    hide Bit, Lit, ByteRight, Raw, Digits, StmtOk, Terms, OrAll, Copied, InByte, LayoutOk, Ready, Packed;
    var r, e := Run(fields, values, m, c), Emitted(fields, b);
    if e == [] {
      assert c + e == c;
      SkipPacks(fields, values, r, b, Covering(fields, |fields|, b)[0]);
    } else {
      var s := e[0];
      assert e == [s] && (c + e)[|c|] == s && StmtOk(fields, |m|, s);
      OneStmt(fields, values, m, c, s);
      StmtPacks(fields, values, r, b, s);
    }
  }

  lemma StmtPacks(fields: seq<Field>, values: seq<int>, m: seq<byte>, n: nat, s: Stmt)
    requires LayoutOk(fields) && Ready(fields, values) && n < |m| && Packed(fields, values, m, n)
    requires Emitted(fields, n) == [s] && StmtOk(fields, |m|, s)
    ensures Packed(fields, values, Step(fields, values, m, s), n + 1)
  {
    hide Bit, Lit, ByteRight, Raw, Digits, Terms, OrAll, Copied, Packed;
    var ks := Covering(fields, |fields|, n);
    match s
    case Zero(b) => ZeroPacks(fields, values, m, n);
    case Memcpy(b, k) => CopyPacks(fields, values, m, n, k);
    case Assign(b, ts) => AssignPacks(fields, values, m, n);
  }
}
