/** Group.collect_bytes and Group.emit_pack_function of
    brcm/cle/gen_pack_header.py with their dictionary and loops, the execution of
    what they emit, and the loop of __gen_unpack_uint. */
module PacketGenerator {
  import opened Bits
  import opened Bytes
  import opened Packets
  import opened PacketRoundTrip

  /** The dictionary from bytes to the fields in them. */
  ghost predicate Collected(fields: seq<Field>, bytes: map<nat, seq<nat>>) {
    forall b :: b >= 0 ==> Entry(fields, |fields|, bytes, b)
  }

  ghost predicate Entry(fields: seq<Field>, n: nat, bytes: map<nat, seq<nat>>, b: nat)
    requires n <= |fields|
  {
    (if b in bytes then bytes[b] else []) == Covering(fields, n, b) && (b in bytes ==> bytes[b] != [])
  }

  /** One step of the inner loop: byte b lists the field, the others stay. */
  method AddToByte(fields: seq<Field>, k: nat, before: map<nat, seq<nat>>, b: nat, ghost next: nat) returns (bytes: map<nat, seq<nat>>)
    requires next == k + 1 <= |fields| && InByte(fields[k], b) && Entry(fields, k, before, b)
    ensures Entry(fields, next, bytes, b)
    ensures forall n: nat, c: nat :: n <= |fields| && c != b ==> Entry(fields, n, bytes, c) == Entry(fields, n, before, c)
  {
    hide InByte;
    bytes := before[b := (if b in before then before[b] else []) + [k]];
  }

  /** The inner loop: one field goes into each of its bytes. */
  method AddField(fields: seq<Field>, k: nat, before: map<nat, seq<nat>>, ghost next: nat) returns (bytes: map<nat, seq<nat>>)
    requires next == k + 1 <= |fields| && FieldOk(fields[k]) && forall b :: b >= 0 ==> Entry(fields, k, before, b)
    ensures forall b :: b >= 0 ==> Entry(fields, next, bytes, b)
  {
    hide Covering, Entry;
    bytes := before;
    var first, last := fields[k].start / 8, fields[k].end / 8;
    var b := first;
    while b <= last
      invariant first <= b <= last + 1
      invariant forall c: nat :: first <= c < b ==> Entry(fields, next, bytes, c)
      invariant forall c: nat :: !(first <= c < b) ==> Entry(fields, k, bytes, c)
      decreases last - b
    {
      bytes := AddToByte(fields, k, bytes, b, next);
      b := b + 1;
    }
    forall c: nat ensures Entry(fields, next, bytes, c) {
      if c < first || last < c { NotInByte(fields, k, c, bytes); }
    }
  }

  lemma NotInByte(fields: seq<Field>, k: nat, b: nat, bytes: map<nat, seq<nat>>)
    requires k < |fields| && !InByte(fields[k], b) && Entry(fields, k, bytes, b)
    ensures Entry(fields, k + 1, bytes, b)
  {
  }

  method CollectBytes(fields: seq<Field>) returns (bytes: map<nat, seq<nat>>)
    requires forall k :: 0 <= k < |fields| ==> FieldOk(fields[k])
    ensures Collected(fields, bytes)
  {
    bytes := map[];
    var k := 0;
    while k < |fields|
      invariant 0 <= k <= |fields|
      invariant forall b :: b >= 0 ==> Entry(fields, k, bytes, b)
    {
      bytes := AddField(fields, k, bytes, k + 1);
      k := k + 1;
    }
  }

  /** The terms of one assignment, in the order of the fields. */
  method EmitTerms(fields: seq<Field>, ks: seq<nat>, b: nat) returns (ts: seq<Term>)
    requires ks == Covering(fields, |fields|, b)
    ensures ts == Terms(fields, |fields|, b)
  {
    ts := [];
    var i := 0;
    while i < |ks|
      invariant 0 <= i <= |ks|
      invariant ts == TermsOf(fields, ks[..i], b)
    {
      ts := ts + [TermFor(fields, ks[i], b)];
      i := i + 1;
      assert ks[..i] == ks[..i - 1] + [ks[i - 1]];
    }
    assert ks[..i] == ks;
    TermsAgree(fields, |fields|, b);
  }

  ghost function TermsOf(fields: seq<Field>, ks: seq<nat>, b: nat): (ts: seq<Term>)
    requires forall i :: 0 <= i < |ks| ==> ks[i] < |fields| && InByte(fields[ks[i]], b)
  {
    if ks == [] then [] else TermsOf(fields, ks[..|ks| - 1], b) + [TermFor(fields, ks[|ks| - 1], b)]
  }

  lemma TermsOfLast(fields: seq<Field>, ks: seq<nat>, k: nat, b: nat)
    requires forall i :: 0 <= i < |ks| ==> ks[i] < |fields| && InByte(fields[ks[i]], b)
    requires k < |fields| && InByte(fields[k], b)
    ensures TermsOf(fields, ks + [k], b) == TermsOf(fields, ks, b) + [TermFor(fields, k, b)]
  {
    assert (ks + [k])[..|ks|] == ks;
  }

  lemma {:induction false} TermsAgree(fields: seq<Field>, n: nat, b: nat)
    requires n <= |fields|
    ensures TermsOf(fields, Covering(fields, n, b), b) == Terms(fields, n, b)
  {
    hide InByte, TermFor;
    if n > 0 {
      TermsAgree(fields, n - 1, b);
      var pre := Covering(fields, n - 1, b);
      if InByte(fields[n - 1], b) {
        TermsOfLast(fields, pre, n - 1, b);
      } else {
        assert Covering(fields, n, b) == pre;
      }
    }
  }

  /** max(field.end // 8) + 1 */
  method GroupLength(fields: seq<Field>) returns (n: nat)
    ensures n == Length(fields)
  {
    n := 0;
    var k := 0;
    while k < |fields|
      invariant 0 <= k <= |fields| && n == Length(fields[..k])
    {
      if n < fields[k].end / 8 + 1 {
        n := fields[k].end / 8 + 1;
      }
      k := k + 1;
      assert fields[..k][..k - 1] == fields[..k - 1];
    }
    assert fields[..k] == fields;
  }

  /** Which fields have been copied before byte n. */
  ghost predicate CopiedSoFar(fields: seq<Field>, memcpyFields: set<nat>, n: nat) {
    && (forall k :: k in memcpyFields ==> k < |fields|)
    && (forall k :: 0 <= k < |fields| && Copied(fields, k) ==> (k in memcpyFields <==> fields[k].start < 8 * n))
  }

  /** The statement for byte b, if any; the set keeps a copied field from being
      emitted again for its other bytes. */
  method EmitByte(fields: seq<Field>, bytes: map<nat, seq<nat>>, b: nat, memcpyFields: set<nat>) returns (code: seq<Stmt>, copied: set<nat>)
    requires LayoutOk(fields) && Collected(fields, bytes) && CopiedSoFar(fields, memcpyFields, b)
    ensures code == Emitted(fields, b) && CopiedSoFar(fields, copied, b + 1)
  {
    hide Covering, Copied, InByte, Terms, TermFor, Overlaps;
    assert Entry(fields, |fields|, bytes, b);
    copied := memcpyFields;
    if b !in bytes {
      code := [Zero(b)];
      NothingCovers(fields, b);
      NoneStartsHere(fields, b);
    } else {
      var ks := bytes[b];
      if |ks| == 1 && Copied(fields, ks[0]) {
        StartsAt(fields, ks[0], b);
        OnlyOneStarts(fields, ks[0], b);
        if ks[0] in memcpyFields {
          code := [];
        } else {
          code := [Memcpy(b, ks[0])];
          copied := copied + {ks[0]};
        }
      } else {
        var ts := EmitTerms(fields, ks, b);
        code := [Assign(b, ts)];
        NoCopyHere(fields, b);
        NoneStartsHere(fields, b);
      }
    }
  }

  lemma NothingCovers(fields: seq<Field>, b: nat)
    requires Covering(fields, |fields|, b) == []
    ensures forall k :: 0 <= k < |fields| ==> !InByte(fields[k], b)
  {
  }

  /** emit_pack_function */
  method EmitPackFunction(fields: seq<Field>) returns (code: seq<Stmt>)
    requires LayoutOk(fields)
    ensures code == Code(fields, Length(fields))
  {
    hide Emitted, Copied, Covering;
    var length := GroupLength(fields);
    var bytes := CollectBytes(fields);
    var memcpyFields: set<nat> := {};
    code := [];
    var index := 0;
    while index < length
      invariant 0 <= index <= length && code == Code(fields, index)
      invariant CopiedSoFar(fields, memcpyFields, index)
    {
      var emitted;
      emitted, memcpyFields := EmitByte(fields, bytes, index, memcpyFields);
      code := code + emitted;
      index := index + 1;
    }
  }

  /** A copied field that is not in byte b does not start there. */
  lemma NoneStartsHere(fields: seq<Field>, b: nat)
    requires forall k :: 0 <= k < |fields| && Copied(fields, k) ==> !InByte(fields[k], b)
    ensures forall k :: 0 <= k < |fields| && Copied(fields, k) ==> (fields[k].start < 8 * b <==> fields[k].start < 8 * (b + 1))
  {
  }

  lemma StartsAt(fields: seq<Field>, k: nat, b: nat)
    requires k < |fields| && Copied(fields, k) && InByte(fields[k], b)
    ensures fields[k].start == 8 * b <==> !(fields[k].start < 8 * b)
  {
  }

  lemma OnlyOneStarts(fields: seq<Field>, k: nat, b: nat)
    requires LayoutOk(fields) && k < |fields| && Copied(fields, k) && InByte(fields[k], b)
    ensures fields[k].start < 8 * (b + 1)
    ensures forall j :: 0 <= j < |fields| && Copied(fields, j) && j != k ==> (fields[j].start < 8 * b <==> fields[j].start < 8 * (b + 1))
  {
    forall j | 0 <= j < |fields| && Copied(fields, j) && j != k ensures fields[j].start < 8 * b <==> fields[j].start < 8 * (b + 1) {
      if InByte(fields[j], b) { CopiedAlone(fields, k, j, b); }
    }
  }

  /** The emitted statements, executed on a buffer. */
  method Pack(fields: seq<Field>, values: seq<int>, code: seq<Stmt>, cl: array<byte>)
    requires Ready(fields, values) && forall i :: 0 <= i < |code| ==> StmtOk(fields, cl.Length, code[i])
    modifies cl
    ensures cl[..] == Run(fields, values, old(cl[..]), code)
  {
    hide StmtOk, Raw, OrAll;
    ghost var m := cl[..];
    var i := 0;
    while i < |code|
      invariant 0 <= i <= |code| && cl[..] == Run(fields, values, m, code[..i])
    {
      assert code[..i + 1] == code[..i] + [code[i]];
      OneStmt(fields, values, m, code[..i], code[i]);
      Execute(fields, values, code[i], cl);
      i := i + 1;
    }
    assert code[..i] == code;
  }

  method Execute(fields: seq<Field>, values: seq<int>, s: Stmt, cl: array<byte>)
    requires Ready(fields, values) && StmtOk(fields, cl.Length, s)
    modifies cl
    ensures cl[..] == Step(fields, values, old(cl[..]), s)
  {
    hide Raw, OrAll, InRange;
    match s
    case Zero(b) => cl[b] := 0;
    case Memcpy(b, k) => Store(cl, b, Digits(Raw(fields[k], values[k]), 4));
    case Assign(b, ts) =>
      var v: byte := OrAll(fields, values, ts) % 0x100;
      cl[b] := v;
  }

  /** __gen_unpack_uint */
  method GenUnpackUInt(cl: array<byte>, start: nat, end: nat) returns (v: nat)
    requires start <= end && end / 8 < cl.Length
    ensures v == UnpackUInt(cl[..], start, end)
  {
    var val := 0;
    var b := start / 8;
    while b <= end / 8
      invariant start / 8 <= b <= end / 8 + 1
      invariant val == Gathered(cl[..], start / 8, b - start / 8)
      decreases end / 8 - b
    {
      val := Or(val, Promoted(cl[b], (b - start / 8) * 8));
      b := b + 1;
    }
    v := Low(Shr(val, start % 8), end - start + 1);
  }
}
