/** The linked list of markers that lives inside a binning control list.

    A marker is a 164-byte CLMarker struct in the list's bytes; the binning
    commands it governs follow it. Links and buffer offsets are relative to the
    start of a control list, so they survive the list being moved. Everything
    here is stated on the bytes of the list, counted from its start. */
module Markers {
  import opened Bytes

  // 32-bit layout of struct CLMarker
  const MARKER_SIZE := 164
  const MEM_GUARD := 0
  const NEXT_MARKER := 4
  const SIZE := 8
  const NUM_DRAW_CALLS := 108
  const HANDLES_OFFSET := 112
  const HANDLES_SIZE := 116
  const SHADER_REC_OFFSET := 120
  const SHADER_REC_SIZE := 124
  const SHADER_REC_COUNT := 128
  const UNIFORMS_OFFSET := 132
  const UNIFORMS_SIZE := 136

  const GUARD: uint32 := 0xDDDD_DDDD

  /** The fields of a marker that recording and submission work with. */
  datatype Marker = Marker(
    guard: uint32, next: uint32, size: uint32,
    handles: uint32, handlesSize: uint32,
    shaderRec: uint32, shaderRecSize: uint32, shaderRecCount: uint32,
    uniforms: uint32, uniformsSize: uint32)

  /** The fields of a marker struct. */
  function Fields(s: seq<byte>): (k: Marker)
    requires |s| == MARKER_SIZE
  {
    Marker(Word(s, MEM_GUARD), Word(s, NEXT_MARKER), Word(s, SIZE),
      Word(s, HANDLES_OFFSET), Word(s, HANDLES_SIZE),
      Word(s, SHADER_REC_OFFSET), Word(s, SHADER_REC_SIZE), Word(s, SHADER_REC_COUNT),
      Word(s, UNIFORMS_OFFSET), Word(s, UNIFORMS_SIZE))
  }

  /** The marker at position at of a list. */
  function MarkerAt(m: seq<byte>, at: nat): (k: Marker)
    requires at + MARKER_SIZE <= |m|
  {
    Fields(m[at..at + MARKER_SIZE])
  }

  function Zeros(n: nat): (s: seq<byte>)
    ensures |s| == n && forall i :: 0 <= i < n ==> s[i] == 0
  {
    seq(n, _ => 0)
  }

  lemma {:induction false} ValueOfZeros(s: seq<byte>)
    requires forall i :: 0 <= i < |s| ==> s[i] == 0
    ensures Value(s) == 0
  {
    if |s| > 0 { ValueOfZeros(s[1..]); }
  }

  lemma ZeroWords(n: nat)
    ensures forall a :: 0 <= a && a + 4 <= n ==> Word(Zeros(n), a) == 0
  {
    forall a | 0 <= a && a + 4 <= n ensures Word(Zeros(n), a) == 0 {
      ValueOfZeros(Zeros(n)[a..a + 4]);
    }
  }

  /** A write of one word leaves every word beside it alone. */
  lemma SetWordKeeps(m: seq<byte>, at: nat, w: uint32)
    requires at + 4 <= |m|
    ensures forall a: nat :: a + 4 <= |m| && (a + 4 <= at || at + 4 <= a) ==>
      Word(SetWord(m, at, w), a) == Word(m, a)
  {
    var r := SetWord(m, at, w);
    forall a: nat | a + 4 <= |m| && (a + 4 <= at || at + 4 <= a) ensures Word(r, a) == Word(m, a) {
      WordFrame(m, r, a);
    }
  }

  /** Storing to a field of the struct at cur is storing to that struct. */
  lemma SetInside(m: seq<byte>, cur: nat, f: nat, w: uint32)
    requires cur + MARKER_SIZE <= |m| && f + 4 <= MARKER_SIZE
    ensures SetWord(m, cur + f, w) == Splice(m, cur, SetWord(m[cur..cur + MARKER_SIZE], f, w))
  {
    var l, r := SetWord(m, cur + f, w), Splice(m, cur, SetWord(m[cur..cur + MARKER_SIZE], f, w));
    var s := m[cur..cur + MARKER_SIZE];
    assert SetWord(s, f, w) == s[..f] + WordBytes(w) + s[f + 4..];
    assert l == m[..cur + f] + WordBytes(w) + m[cur + f + 4..];
    assert forall i :: 0 <= i < |m| ==> l[i] == r[i];
  }

  /** The bytes of a fresh marker: zero but for the guard, the missing next link
      and what it takes over from the marker before it. */
  function FreshMarker(handles: uint32, shaderRec: uint32, shaderRecCount: uint32, uniforms: uint32): (s: seq<byte>)
    ensures |s| == MARKER_SIZE
    ensures Fields(s) == Marker(GUARD, NONE, 0, handles, 0, shaderRec, 0, shaderRecCount, uniforms, 0)
  {
    var s0 := SetWord(Zeros(MARKER_SIZE), MEM_GUARD, GUARD);
    var s1 := SetWord(s0, NEXT_MARKER, NONE);
    var s2 := SetWord(s1, HANDLES_OFFSET, handles);
    var s3 := SetWord(s2, SHADER_REC_OFFSET, shaderRec);
    var s4 := SetWord(s3, SHADER_REC_COUNT, shaderRecCount);
    var s5 := SetWord(s4, UNIFORMS_OFFSET, uniforms);
    StoredFields(s0, s1, s2, s3, s4, s5, handles, shaderRec, shaderRecCount, uniforms);
    s5
  }

  lemma StoredFields(s0: seq<byte>, s1: seq<byte>, s2: seq<byte>, s3: seq<byte>, s4: seq<byte>, s5: seq<byte>,
      handles: uint32, shaderRec: uint32, shaderRecCount: uint32, uniforms: uint32)
    requires |s0| == |s1| == |s2| == |s3| == |s4| == MARKER_SIZE
    requires s0 == SetWord(Zeros(MARKER_SIZE), MEM_GUARD, GUARD) && s1 == SetWord(s0, NEXT_MARKER, NONE)
    requires s2 == SetWord(s1, HANDLES_OFFSET, handles) && s3 == SetWord(s2, SHADER_REC_OFFSET, shaderRec)
    requires s4 == SetWord(s3, SHADER_REC_COUNT, shaderRecCount) && s5 == SetWord(s4, UNIFORMS_OFFSET, uniforms)
    ensures |s5| == MARKER_SIZE && Fields(s5) == Marker(GUARD, NONE, 0, handles, 0, shaderRec, 0, shaderRecCount, uniforms, 0)
  {
    hide Word, SetWord, Zeros;
    ZeroWords(MARKER_SIZE);
    SetWordKeeps(Zeros(MARKER_SIZE), MEM_GUARD, GUARD);
    SetWordKeeps(s0, NEXT_MARKER, NONE);
    SetWordKeeps(s1, HANDLES_OFFSET, handles);
    SetWordKeeps(s2, SHADER_REC_OFFSET, shaderRec);
    SetWordKeeps(s3, SHADER_REC_COUNT, shaderRecCount);
    SetWordKeeps(s4, UNIFORMS_OFFSET, uniforms);
  }

  /** s is a marker of which nothing has been stored yet but the guard, the end of the
      list, and where its ranges start: all other bytes are 0, so no draw has been
      counted, there is nothing to clear or to resolve, and no image. */
  predicate NewStruct(s: seq<byte>, handles: uint32, shaderRec: uint32, count: uint32, uniforms: uint32) {
    && |s| == 164
    && Word(s, 0) == 0xDDDD_DDDD && Word(s, 4) == 0xFFFF_FFFF
    && Word(s, 112) == handles && Word(s, 120) == shaderRec && Word(s, 128) == count && Word(s, 132) == uniforms
    && forall i :: 8 <= i < 164 && i / 4 !in {28, 30, 32, 33} ==> s[i] == 0
  }

  lemma FreshIsNew(handles: uint32, shaderRec: uint32, count: uint32, uniforms: uint32)
    ensures NewStruct(FreshMarker(handles, shaderRec, count, uniforms), handles, shaderRec, count, uniforms)
  {
    hide Word, SetWord;
    var s0 := SetWord(Zeros(MARKER_SIZE), MEM_GUARD, GUARD);
    var s1 := SetWord(s0, NEXT_MARKER, NONE);
    var s2 := SetWord(s1, HANDLES_OFFSET, handles);
    var s3 := SetWord(s2, SHADER_REC_OFFSET, shaderRec);
    var s4 := SetWord(s3, SHADER_REC_COUNT, count);
    var s := FreshMarker(handles, shaderRec, count, uniforms);
    assert s == SetWord(s4, UNIFORMS_OFFSET, uniforms);
    assert Fields(s) == Marker(GUARD, NONE, 0, handles, 0, shaderRec, 0, count, uniforms, 0);
  }

  predicate IsNew(s: seq<byte>) {
    |s| == 164 && NewStruct(s, Word(s, 112), Word(s, 120), Word(s, 128), Word(s, 132))
  }

  /** A word of a new marker that nothing is stored to is 0. */
  lemma NewWord(s: seq<byte>, handles: uint32, shaderRec: uint32, count: uint32, uniforms: uint32, f: nat)
    requires NewStruct(s, handles, shaderRec, count, uniforms) && (8 <= f <= 108 || 136 <= f <= 160)
    ensures Word(s, f) == 0
  {
    ValueOfZeros(s[f..f + 4]);
  }

  /** How long the lists of a command buffer are, and how many shader records
      it has counted. */
  datatype Extent = Extent(bin: uint32, handles: uint32, shaderRec: uint32, count: uint32, uniforms: uint32)

  function Minus(a: uint32, b: uint32): (r: uint32) { (a - b) % 0x1_0000_0000 }

  /** The struct of the marker at cur once clCloseCurrentMarker has stored sizes. */
  function SizedStruct(s: seq<byte>, cur: nat, e: Extent): (r: seq<byte>)
    requires |s| == MARKER_SIZE && cur + MARKER_SIZE <= e.bin
    ensures |r| == MARKER_SIZE
    ensures var k := Fields(s);
      Fields(r) == k.(size := e.bin - cur - MARKER_SIZE,
        handlesSize := Minus(e.handles, k.handles),
        shaderRecSize := Minus(e.shaderRec, k.shaderRec),
        uniformsSize := Minus(e.uniforms, k.uniforms))
  {
    var k := Fields(s);
    var s1 := SetWord(s, SIZE, e.bin - cur - MARKER_SIZE);
    var s2 := SetWord(s1, HANDLES_SIZE, Minus(e.handles, k.handles));
    var s3 := SetWord(s2, SHADER_REC_SIZE, Minus(e.shaderRec, k.shaderRec));
    SetWordKeeps(s, SIZE, e.bin - cur - MARKER_SIZE);
    SetWordKeeps(s1, HANDLES_SIZE, Minus(e.handles, k.handles));
    SetWordKeeps(s2, SHADER_REC_SIZE, Minus(e.shaderRec, k.shaderRec));
    SetWordKeeps(s3, UNIFORMS_SIZE, Minus(e.uniforms, k.uniforms));
    SetWord(s3, UNIFORMS_SIZE, Minus(e.uniforms, k.uniforms))
  }

  /** clCloseCurrentMarker on the struct of the marker at cur. */
  function CloseStruct(s: seq<byte>, cur: nat, e: Extent): (r: seq<byte>)
    requires |s| == MARKER_SIZE && cur + MARKER_SIZE <= e.bin
    ensures |r| == MARKER_SIZE
    ensures var k := Fields(s);
      Fields(r) == k.(size := e.bin - cur - MARKER_SIZE,
        handlesSize := Minus(e.handles, k.handles),
        shaderRecSize := Minus(e.shaderRec, k.shaderRec),
        uniformsSize := Minus(e.uniforms, k.uniforms),
        shaderRecCount := Minus(e.count, k.shaderRecCount))
  {
    var sized := SizedStruct(s, cur, e);
    var count := Minus(e.count, Fields(s).shaderRecCount);
    SetWordKeeps(sized, SHADER_REC_COUNT, count);
    SetWord(sized, SHADER_REC_COUNT, count)
  }

  /** What closing leaves in each word: the sizes are how far the lists have come since the
      ranges started, the record count is how far the counter has come since what
      was seeded, and no other byte changes. */
  lemma ClosedWords(s: seq<byte>, cur: nat, e: Extent)
    requires |s| == MARKER_SIZE && cur + MARKER_SIZE <= e.bin
    ensures var r := CloseStruct(s, cur, e);
      && Word(r, 8) == e.bin - cur - 164
      && Word(r, 116) == (e.handles - Word(s, 112)) % 0x1_0000_0000
      && Word(r, 124) == (e.shaderRec - Word(s, 120)) % 0x1_0000_0000
      && Word(r, 128) == (e.count - Word(s, 128)) % 0x1_0000_0000
      && Word(r, 136) == (e.uniforms - Word(s, 132)) % 0x1_0000_0000
      && forall i :: 0 <= i < 164 && i / 4 !in {2, 29, 31, 32, 34} ==> r[i] == s[i]
  {
    hide Word, SetWord;
    var k, r := Fields(s), CloseStruct(s, cur, e);
    assert Fields(r) == k.(size := e.bin - cur - MARKER_SIZE, handlesSize := Minus(e.handles, k.handles),
      shaderRecSize := Minus(e.shaderRec, k.shaderRec), uniformsSize := Minus(e.uniforms, k.uniforms),
      shaderRecCount := Minus(e.count, k.shaderRecCount));
  }

  /** Closing writes the five sizes of clCloseCurrentMarker and no other field. */
  lemma CloseStructKeeps(s: seq<byte>, cur: nat, e: Extent, f: nat)
    requires |s| == MARKER_SIZE && cur + MARKER_SIZE <= e.bin
    requires f + 4 <= MARKER_SIZE && ((SIZE + 4 <= f && f + 4 <= HANDLES_SIZE) || UNIFORMS_SIZE + 4 <= f)
    ensures Word(CloseStruct(s, cur, e), f) == Word(s, f)
  {
    hide Word, SetWord, Minus;
    var k := Fields(s);
    var s1 := SetWord(s, SIZE, e.bin - cur - MARKER_SIZE);
    var s2 := SetWord(s1, HANDLES_SIZE, Minus(e.handles, k.handles));
    var s3 := SetWord(s2, SHADER_REC_SIZE, Minus(e.shaderRec, k.shaderRec));
    var s4 := SetWord(s3, UNIFORMS_SIZE, Minus(e.uniforms, k.uniforms));
    SetWordKeeps(s, SIZE, e.bin - cur - MARKER_SIZE);
    SetWordKeeps(s1, HANDLES_SIZE, Minus(e.handles, k.handles));
    SetWordKeeps(s2, SHADER_REC_SIZE, Minus(e.shaderRec, k.shaderRec));
    SetWordKeeps(s3, UNIFORMS_SIZE, Minus(e.uniforms, k.uniforms));
    var count := Minus(e.count, Fields(s4).shaderRecCount);
    SetWordKeeps(s4, SHADER_REC_COUNT, count);
  }

  function Close(bin: seq<byte>, cur: nat, e: Extent): (r: seq<byte>)
    requires cur + MARKER_SIZE <= |bin| == e.bin
    ensures |r| == |bin|
  {
    Splice(bin, cur, CloseStruct(bin[cur..cur + MARKER_SIZE], cur, e))
  }

  /** clInsertNewCLMarker: the current marker is closed unless it already has a
      size, a fresh marker that continues its ranges is appended, and the old
      one is linked to it. */
  function InsertMarker(bin: seq<byte>, cur: nat, first: bool, e: Extent): (r: seq<byte>)
    requires |bin| == e.bin && |bin| + MARKER_SIZE < NONE
    requires !first ==> cur + MARKER_SIZE <= |bin|
  {
    if first then bin + FreshMarker(0, 0, 0, 0)
    else
      var closed := if MarkerAt(bin, cur).size == 0 then Close(bin, cur, e) else bin;
      var k := MarkerAt(closed, cur);
      var next := FreshMarker(Plus(k.handles, k.handlesSize), Plus(k.shaderRec, k.shaderRecSize),
        k.shaderRecCount, Plus(k.uniforms, k.uniformsSize));
      SetWord(closed + next, cur + NEXT_MARKER, |bin|)
  }

  /** What is appended is a new marker, and the first one's ranges start at 0. */
  lemma InsertedIsNew(bin: seq<byte>, cur: nat, first: bool, e: Extent)
    requires |bin| == e.bin && |bin| + MARKER_SIZE < NONE
    requires !first ==> cur + MARKER_SIZE <= |bin|
    ensures var r := InsertMarker(bin, cur, first, e);
      |r| == |bin| + 164 && IsNew(r[|bin|..|bin| + 164]) && (first ==> NewStruct(r[|bin|..|bin| + 164], 0, 0, 0, 0))
  {
    hide FreshMarker, NewStruct, Word, SetWord, MarkerAt, Close;
    var r, n := InsertMarker(bin, cur, first, e), |bin|;
    if first {
      FreshIsNew(0, 0, 0, 0);
      NewIsNew(FreshMarker(0, 0, 0, 0), 0, 0, 0, 0);
      assert r[n..n + 164] == FreshMarker(0, 0, 0, 0);
    } else {
      var closed := if MarkerAt(bin, cur).size == 0 then Close(bin, cur, e) else bin;
      var k := MarkerAt(closed, cur);
      var h, s, u := Plus(k.handles, k.handlesSize), Plus(k.shaderRec, k.shaderRecSize), Plus(k.uniforms, k.uniformsSize);
      FreshIsNew(h, s, k.shaderRecCount, u);
      NewIsNew(FreshMarker(h, s, k.shaderRecCount, u), h, s, k.shaderRecCount, u);
      assert r[n..n + 164] == FreshMarker(h, s, k.shaderRecCount, u);
    }
  }

  lemma NewIsNew(s: seq<byte>, handles: uint32, shaderRec: uint32, count: uint32, uniforms: uint32)
    requires NewStruct(s, handles, shaderRec, count, uniforms)
    ensures IsNew(s)
  {
    hide Word;
  }

  function Plus(a: uint32, b: uint32): (r: uint32) { (a + b) % 0x1_0000_0000 }

  lemma PlusMinus(a: uint32, b: uint32)
    ensures Plus(b, Minus(a, b)) == a
    ensures b <= a ==> Minus(a, b) == a - b
  {
  }
}
