/** vkCmdExecuteCommands of driver/command.c: a secondary command buffer is
    closed, its index words are rewritten, and its lists are appended to the
    primary's.

    Command buffers here hold one marker, all their lists live in one command
    pool, and a secondary is executed once. What the methods compute is the
    function Execute of module Relocation, which is where its meaning is proved. */
module CommandBuffers {
  import opened Bytes
  import opened Seqs
  import opened ConsecutivePool
  import opened Markers
  import opened ControlLists
  import opened ListViews
  import opened RelocationLoops
  import R = Relocation

  const UNIFORM_RELOC_OFFSET := 140
  const UNIFORM_RELOC_SIZE := 144
  const GEM_RELOC_OFFSET := 148
  const GEM_RELOC_SIZE := 152
  const SHADER_REC_RELOC_OFFSET := 156
  const SHADER_REC_RELOC_SIZE := 160

  class CommandBuffer {
    const binCl: ControlList
    const handlesCl: ControlList
    const shaderRecCl: ControlList
    const uniformsCl: ControlList
    const uniformRelocCl: ControlList
    const gemRelocCl: ControlList
    const shaderRecRelocCl: ControlList
    var shaderRecCount: uint32

    constructor (bin: ControlList, handles: ControlList, shaderRec: ControlList, uniforms: ControlList,
        uniformReloc: ControlList, gemReloc: ControlList, shaderRecReloc: ControlList)
      ensures binCl == bin && handlesCl == handles && shaderRecCl == shaderRec && uniformsCl == uniforms
      ensures uniformRelocCl == uniformReloc && gemRelocCl == gemReloc && shaderRecRelocCl == shaderRecReloc
      ensures shaderRecCount == 0
    {
      binCl, handlesCl, shaderRecCl, uniformsCl := bin, handles, shaderRec, uniforms;
      uniformRelocCl, gemRelocCl, shaderRecRelocCl := uniformReloc, gemReloc, shaderRecReloc;
      shaderRecCount := 0;
    }

    ghost function Lists(): (ls: set<ControlList>) {
      {binCl, handlesCl, shaderRecCl, uniformsCl, uniformRelocCl, gemRelocCl, shaderRecRelocCl}
    }

    /** The seven lists are seven. */
    ghost predicate Separate() {
      && binCl !in {handlesCl, shaderRecCl, uniformsCl, uniformRelocCl, gemRelocCl, shaderRecRelocCl}
      && handlesCl !in {shaderRecCl, uniformsCl, uniformRelocCl, gemRelocCl, shaderRecRelocCl}
      && shaderRecCl !in {uniformsCl, uniformRelocCl, gemRelocCl, shaderRecRelocCl}
      && uniformsCl !in {uniformRelocCl, gemRelocCl, shaderRecRelocCl}
      && uniformRelocCl !in {gemRelocCl, shaderRecRelocCl} && gemRelocCl != shaderRecRelocCl
    }
  }

  // ------------------------------------------------ closing a secondary

  /** How long a secondary's lists are. */
  datatype Lengths = Lengths(bin: nat, handles: nat, shaderRec: nat, uniforms: nat, uniformReloc: nat, gemReloc: nat, shaderRecReloc: nat)

  /** The marker of a single-marker command buffer: all its ranges start at 0. */
  ghost predicate FirstMarker(s: seq<byte>)
    requires |s| == MARKER_SIZE
  {
    && Word(s, HANDLES_OFFSET) == 0 && Word(s, SHADER_REC_OFFSET) == 0 && Word(s, UNIFORMS_OFFSET) == 0
    && Word(s, UNIFORM_RELOC_OFFSET) == 0 && Word(s, GEM_RELOC_OFFSET) == 0 && Word(s, SHADER_REC_RELOC_OFFSET) == 0
  }

  /** The sizes in a closed marker are how long the lists are. */
  ghost predicate Closed(s: seq<byte>, n: Lengths)
    requires |s| == MARKER_SIZE
  {
    && Word(s, SIZE) + MARKER_SIZE == n.bin
    && Word(s, SHADER_REC_SIZE) == n.shaderRec && Word(s, UNIFORMS_SIZE) == n.uniforms
    && Word(s, UNIFORM_RELOC_SIZE) == n.uniformReloc && Word(s, GEM_RELOC_SIZE) == n.gemReloc
    && Word(s, SHADER_REC_RELOC_SIZE) == n.shaderRecReloc
  }

  /** clCloseCurrentMarker and the three stores behind it leave a closed marker. */
  lemma ClosedSecondary(s: seq<byte>, e: Extent, n: Lengths, s1: seq<byte>, s2: seq<byte>, s3: seq<byte>, s4: seq<byte>)
    requires |s| == |s1| == |s2| == |s3| == MARKER_SIZE <= e.bin && FirstMarker(s)
    requires n.uniformReloc < 0x1_0000_0000 && n.gemReloc < 0x1_0000_0000 && n.shaderRecReloc < 0x1_0000_0000
    requires n.bin == e.bin && n.handles == e.handles && n.shaderRec == e.shaderRec && n.uniforms == e.uniforms
    requires s1 == CloseStruct(s, 0, e)
    requires s2 == SetWord(s1, UNIFORM_RELOC_SIZE, n.uniformReloc)
    requires s3 == SetWord(s2, GEM_RELOC_SIZE, n.gemReloc)
    requires s4 == SetWord(s3, SHADER_REC_RELOC_SIZE, n.shaderRecReloc)
    ensures |s4| == MARKER_SIZE && FirstMarker(s4) && Closed(s4, n)
    ensures Word(s4, NUM_DRAW_CALLS) == Word(s, NUM_DRAW_CALLS)
  {
    hide Word, SetWord, CloseStruct, Minus;
    CloseStructKeeps(s, 0, e, NUM_DRAW_CALLS);
    CloseStructKeeps(s, 0, e, UNIFORM_RELOC_OFFSET);
    CloseStructKeeps(s, 0, e, GEM_RELOC_OFFSET);
    CloseStructKeeps(s, 0, e, SHADER_REC_RELOC_OFFSET);
    SizesFromZero(s, s1, e);
    SetWordKeeps(s1, UNIFORM_RELOC_SIZE, n.uniformReloc);
    SetWordKeeps(s2, GEM_RELOC_SIZE, n.gemReloc);
    SetWordKeeps(s3, SHADER_REC_RELOC_SIZE, n.shaderRecReloc);
  }

  /** Ranges that start at 0 are as long as their lists. */
  lemma SizesFromZero(s: seq<byte>, r: seq<byte>, e: Extent)
    requires |s| == MARKER_SIZE <= e.bin && FirstMarker(s) && r == CloseStruct(s, 0, e)
    ensures |r| == MARKER_SIZE
    ensures Word(r, HANDLES_OFFSET) == 0 && Word(r, SHADER_REC_OFFSET) == 0 && Word(r, UNIFORMS_OFFSET) == 0
    ensures Word(r, SIZE) == e.bin - MARKER_SIZE && Word(r, SHADER_REC_SIZE) == e.shaderRec && Word(r, UNIFORMS_SIZE) == e.uniforms
  {
    hide Word, SetWord, CloseStruct;
    var k := Fields(s);
    assert Fields(r) == k.(size := e.bin - MARKER_SIZE, handlesSize := Minus(e.handles, 0), shaderRecSize := Minus(e.shaderRec, 0),
      uniformsSize := Minus(e.uniforms, 0), shaderRecCount := Minus(e.count, k.shaderRecCount));
  }

  /** The bytes of a command buffer's lists. */
  datatype Image = Image(bin: seq<byte>, handles: seq<byte>, shaderRec: seq<byte>, uniforms: seq<byte>,
    uniformReloc: seq<byte>, gemReloc: seq<byte>, shaderRecReloc: seq<byte>)

  function LengthsOf(i: Image): (n: Lengths) {
    Lengths(|i.bin|, |i.handles|, |i.shaderRec|, |i.uniforms|, |i.uniformReloc|, |i.gemReloc|, |i.shaderRecReloc|)
  }

  /** A command buffer with one marker, open or closed, at the start. */
  ghost predicate Single(i: Image) {
    && MARKER_SIZE <= |i.bin| && FirstMarker(i.bin[..MARKER_SIZE])
    && (Word(i.bin[..MARKER_SIZE], SIZE) == 0 || Closed(i.bin[..MARKER_SIZE], LengthsOf(i)))
  }

  /** What such a command buffer is to vkCmdExecuteCommands; the marker is not
      copied and counts as blank. */
  function SecondaryOf(i: Image, count: uint32): (s: R.Secondary)
    requires MARKER_SIZE <= |i.bin|
  {
    R.Secondary(Zeros(MARKER_SIZE) + i.bin[MARKER_SIZE..], i.uniforms, i.shaderRec, Table(i.handles),
      Table(i.gemReloc), Table(i.uniformReloc), Table(i.shaderRecReloc), Word(i.bin[..MARKER_SIZE], NUM_DRAW_CALLS), count)
  }

  /** The command buffer's lists hold the bytes i, and its marker is the first. */
  ghost predicate Holds(cb: CommandBuffer, i: Image, cpa: ConsecutivePool)
    reads cb.Lists(), cpa.buf
  {
    && cb.Separate() && (forall d :: d in cb.Lists() ==> d.CPA == cpa && d.Placed())
    && cb.binCl.Cursor() == Some(0)
    && i == Image(cb.binCl.Contents(), cb.handlesCl.Contents(), cb.shaderRecCl.Contents(), cb.uniformsCl.Contents(),
      cb.uniformRelocCl.Contents(), cb.gemRelocCl.Contents(), cb.shaderRecRelocCl.Contents())
  }

  twostate lemma HoldsKept(new cb: CommandBuffer, new i: Image, new ls: set<ControlList>, new cpa: ConsecutivePool)
    requires old(allocated(cb)) && old(allocated(ls)) && old(allocated(cpa))
    requires old(Holds(cb, i, cpa)) && Views(ls, cpa) == old(Views(ls, cpa)) && cb.Lists() <= ls
    requires forall d :: d in cb.Lists() ==> d.Placed()
    ensures Holds(cb, i, cpa)
  {
    hide ControlList.Contents, ControlList.Cursor, ControlList.Room, Views, ControlList.Placed;
    ViewKept(cb.binCl, ls, cpa);
    ViewKept(cb.handlesCl, ls, cpa);
    ViewKept(cb.shaderRecCl, ls, cpa);
    ViewKept(cb.uniformsCl, ls, cpa);
    ViewKept(cb.uniformRelocCl, ls, cpa);
    ViewKept(cb.gemRelocCl, ls, cpa);
    ViewKept(cb.shaderRecRelocCl, ls, cpa);
  }

  /** The same when one of the lists with index words has changed. */
  twostate lemma HoldsExcept(new cb: CommandBuffer, new i: Image, new d: ControlList,
        new j: Image, new others: set<ControlList>, new cpa: ConsecutivePool)
    requires old(allocated(cb)) && old(allocated(d)) && old(allocated(others)) && old(allocated(cpa))
    requires old(Holds(cb, i, cpa)) && Views(others, cpa) == old(Views(others, cpa)) && cb.Lists() - {d} <= others
    requires (forall d :: d in cb.Lists() ==> d.Placed()) && d in {cb.binCl, cb.uniformsCl, cb.shaderRecCl}
    requires cb.binCl.Cursor() == Some(0)
    requires j == if d == cb.binCl then i.(bin := d.Contents()) else if d == cb.uniformsCl then i.(uniforms := d.Contents())
      else i.(shaderRec := d.Contents())
    ensures Holds(cb, j, cpa)
  {
    hide ControlList.Contents, ControlList.Cursor, ControlList.Room, Views, ControlList.Placed;
    if d != cb.binCl { ViewKept(cb.binCl, others, cpa); }
    if d != cb.shaderRecCl { ViewKept(cb.shaderRecCl, others, cpa); }
    if d != cb.uniformsCl { ViewKept(cb.uniformsCl, others, cpa); }
    ViewKept(cb.handlesCl, others, cpa);
    ViewKept(cb.uniformRelocCl, others, cpa);
    ViewKept(cb.gemRelocCl, others, cpa);
    ViewKept(cb.shaderRecRelocCl, others, cpa);
  }

  /** A marker without a size is closed before the secondary is read. */
  method CloseSecondary(cb: CommandBuffer, ghost i: Image, ghost lists: set<ControlList>, ghost cpa: ConsecutivePool) returns (ghost j: Image)
    requires Apart(lists, cpa) && cb.Lists() <= lists && Holds(cb, i, cpa) && Single(i)
    modifies cpa.buf
    ensures Apart(lists, cpa) && Holds(cb, j, cpa)
    ensures Single(j) && Closed(j.bin[..MARKER_SIZE], LengthsOf(j))
    ensures SecondaryOf(j, cb.shaderRecCount) == SecondaryOf(i, cb.shaderRecCount)
    ensures Views(lists - {cb.binCl}, cpa) == old(Views(lists - {cb.binCl}, cpa))
  {
    hide Apart, Word, Table, FirstMarker, Closed, Views, ControlList.Contents;
    j := i;
    cb.binCl.StructInContents(0);
    var size := cb.binCl.LoadField(SIZE);
    if size == 0 {
      j := StoreClosed(cb, i, lists, cpa);
    }
  }

  /** m with the struct s at its start. */
  function WithStruct(m: seq<byte>, s: seq<byte>): (r: seq<byte>)
    requires |s| == MARKER_SIZE <= |m|
    ensures |r| == |m| && r[..MARKER_SIZE] == s && r[MARKER_SIZE..] == m[MARKER_SIZE..]
  {
    s + m[MARKER_SIZE..]
  }

  lemma SpliceStruct(m: seq<byte>, s: seq<byte>)
    requires |s| == MARKER_SIZE <= |m|
    ensures Splice(m, 0, s) == WithStruct(m, s)
  {
  }

  /** xRelocSize of the first marker becomes the length of the list relocs. */
  method StoreRelocSize(bin: ControlList, relocs: ControlList, from: nat, to: nat, ghost m: seq<byte>, ghost n: nat,
      ghost lists: set<ControlList>, ghost cpa: ConsecutivePool)
    requires Apart(lists, cpa) && bin in lists && relocs in lists && bin.CPA == cpa && relocs.CPA == cpa && bin.Placed() && relocs.Placed()
    requires bin.Cursor() == Some(0) && m == bin.Contents() && MARKER_SIZE <= |m| && n == |relocs.Contents()| < 0x1_0000_0000
    requires from + 4 <= MARKER_SIZE && to + 4 <= MARKER_SIZE && Word(m[..MARKER_SIZE], from) == 0
    modifies cpa.buf
    ensures Apart(lists, cpa) && bin.Contents() == WithStruct(m, SetWord(m[..MARKER_SIZE], to, n))
    ensures Views(lists - {bin}, cpa) == old(Views(lists - {bin}, cpa))
  {
    hide Apart, Word, Views, ControlList.Contents, WithStruct, Splice, SetWord;
    bin.StructInContents(0);
    SpliceStruct(m, bin.Struct());
    SameStruct(m, bin.Struct());
    bin.StoreSize(from, to, relocs, n, m, 0, lists);
    SpliceStruct(m, bin.Struct());
    AllPlaced(lists, cpa);
    ViewsKept(lists - {bin}, cpa);
  }

  lemma SameStruct(m: seq<byte>, s: seq<byte>)
    requires MARKER_SIZE <= |m| && s == m[..MARKER_SIZE]
    ensures WithStruct(m, s) == m
  {
  }

  method CloseFirst(cb: CommandBuffer, ghost m: seq<byte>, ghost e: Extent, ghost lists: set<ControlList>, ghost cpa: ConsecutivePool)
    requires Apart(lists, cpa) && cb.Lists() <= lists && (forall d :: d in cb.Lists() ==> d.CPA == cpa && d.Placed())
    requires cb.binCl.Cursor() == Some(0) && m == cb.binCl.Contents() && MARKER_SIZE <= |m|
    requires e == ControlList.ExtentOf(cb.binCl, cb.handlesCl, cb.shaderRecCl, cb.shaderRecCount, cb.uniformsCl)
    modifies cpa.buf
    ensures Apart(lists, cpa) && cb.binCl.Contents() == WithStruct(m, CloseStruct(m[..MARKER_SIZE], 0, e))
    ensures Views(lists - {cb.binCl}, cpa) == old(Views(lists - {cb.binCl}, cpa))
  {
    hide Apart, Word, Views, ControlList.Contents, WithStruct, Splice, CloseStruct, Close;
    var bin := cb.binCl;
    bin.CloseCurrentMarker(cb.handlesCl, cb.shaderRecCl, cb.shaderRecCount, cb.uniformsCl, 0, e, lists);
    CloseIsWithStruct(m, e);
    AllPlaced(lists, cpa);
    ViewsKept(lists - {bin}, cpa);
  }

  lemma CloseIsWithStruct(m: seq<byte>, e: Extent)
    requires MARKER_SIZE <= |m| == e.bin
    ensures Close(m, 0, e) == WithStruct(m, CloseStruct(m[..MARKER_SIZE], 0, e))
  {
    hide CloseStruct, WithStruct, Splice;
    assert m[0..0 + MARKER_SIZE] == m[..MARKER_SIZE];
    SpliceStruct(m, CloseStruct(m[..MARKER_SIZE], 0, e));
  }

  lemma StartsStayZero(s: seq<byte>, e: Extent)
    requires |s| == MARKER_SIZE <= e.bin && FirstMarker(s)
    ensures FirstMarker(CloseStruct(s, 0, e))
  {
    hide Word, CloseStruct;
    SizesFromZero(s, CloseStruct(s, 0, e), e);
    CloseStructKeeps(s, 0, e, UNIFORM_RELOC_OFFSET);
    CloseStructKeeps(s, 0, e, GEM_RELOC_OFFSET);
    CloseStructKeeps(s, 0, e, SHADER_REC_RELOC_OFFSET);
  }

  lemma SizeKeepsStarts(s: seq<byte>, to: nat, w: uint32)
    requires |s| == MARKER_SIZE && FirstMarker(s) && to in {UNIFORM_RELOC_SIZE, GEM_RELOC_SIZE, SHADER_REC_RELOC_SIZE}
    ensures FirstMarker(SetWord(s, to, w))
  {
    hide Word, SetWord;
    SetWordKeeps(s, to, w);
  }

  method StoreClosed(cb: CommandBuffer, ghost i: Image, ghost lists: set<ControlList>, ghost cpa: ConsecutivePool) returns (ghost j: Image)
    requires Apart(lists, cpa) && cb.Lists() <= lists && Holds(cb, i, cpa) && Single(i)
    modifies cpa.buf
    ensures Apart(lists, cpa) && Holds(cb, j, cpa)
    ensures Single(j) && Closed(j.bin[..MARKER_SIZE], LengthsOf(j))
    ensures SecondaryOf(j, cb.shaderRecCount) == SecondaryOf(i, cb.shaderRecCount)
    ensures Views(lists - {cb.binCl}, cpa) == old(Views(lists - {cb.binCl}, cpa))
  {
    hide Apart, Word, Table, Closed, Views, ControlList.Contents, CloseStruct, SetWord, WithStruct;
    var bin := cb.binCl;
    ghost var e := ControlList.ExtentOf(bin, cb.handlesCl, cb.shaderRecCl, cb.shaderRecCount, cb.uniformsCl);
    ghost var n, m0 := LengthsOf(i), i.bin;
    CloseFirst(cb, m0, e, lists, cpa);
    AllPlaced(lists, cpa);
    ghost var m1 := bin.Contents();
    StartsStayZero(m0[..MARKER_SIZE], e);
    StoreRelocSize(bin, cb.uniformRelocCl, UNIFORM_RELOC_OFFSET, UNIFORM_RELOC_SIZE, m1, n.uniformReloc, lists, cpa);
    ghost var m2 := bin.Contents();
    SizeKeepsStarts(m1[..MARKER_SIZE], UNIFORM_RELOC_SIZE, n.uniformReloc);
    StoreRelocSize(bin, cb.gemRelocCl, GEM_RELOC_OFFSET, GEM_RELOC_SIZE, m2, n.gemReloc, lists, cpa);
    ghost var m3 := bin.Contents();
    SizeKeepsStarts(m2[..MARKER_SIZE], GEM_RELOC_SIZE, n.gemReloc);
    StoreRelocSize(bin, cb.shaderRecRelocCl, SHADER_REC_RELOC_OFFSET, SHADER_REC_RELOC_SIZE, m3, n.shaderRecReloc, lists, cpa);
    ghost var m4 := bin.Contents();
    j := i.(bin := m4);
    AllPlaced(lists, cpa);
    HoldsExcept(cb, i, bin, j, lists - {bin}, cpa);
    ClosedSecondary(m0[..MARKER_SIZE], e, n, m1[..MARKER_SIZE], m2[..MARKER_SIZE], m3[..MARKER_SIZE], m4[..MARKER_SIZE]);
  }
}
