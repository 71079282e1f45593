/** The parts of drawCommon and vkCmdDrawIndexed of driver/draw.c that write
    handle indices and record relocation offsets, store by store; DrawSpec says
    what they amount to.

    The driver reserves room with clFit and does not look whether it got any; the
    methods stop where it did not. */
module Drawing {
  import opened Bytes
  import opened Seqs
  import opened FreeList
  import opened ConsecutivePool
  import opened Markers
  import opened ControlLists
  import opened ListViews
  import opened Places
  import opened RelocationLoops
  import opened CommandBuffers
  import opened ExecuteCommands
  import R = Relocation
  import D = DrawSpec

  /** The bytes of one of the lists, in an image of all of them. */
  ghost function Get(cb: CommandBuffer, i: Image, list: ControlList): (b: seq<byte>)
    requires list in cb.Lists()
  {
    if list == cb.binCl then i.bin
    else if list == cb.handlesCl then i.handles
    else if list == cb.shaderRecCl then i.shaderRec
    else if list == cb.uniformsCl then i.uniforms
    else if list == cb.uniformRelocCl then i.uniformReloc
    else if list == cb.gemRelocCl then i.gemReloc
    else i.shaderRecReloc
  }

  ghost function Put(cb: CommandBuffer, i: Image, list: ControlList, b: seq<byte>): (j: Image)
    requires list in cb.Lists()
  {
    if list == cb.binCl then i.(bin := b)
    else if list == cb.handlesCl then i.(handles := b)
    else if list == cb.shaderRecCl then i.(shaderRec := b)
    else if list == cb.uniformsCl then i.(uniforms := b)
    else if list == cb.uniformRelocCl then i.(uniformReloc := b)
    else if list == cb.gemRelocCl then i.(gemReloc := b)
    else i.(shaderRecReloc := b)
  }

  /** A secondary that is being recorded: its lists hold i, and table is the handle
      table of its one, open marker. */
  ghost predicate Recording(cb: CommandBuffer, i: Image, table: seq<uint32>, lists: set<ControlList>, cpa: ConsecutivePool)
    reads lists, cpa, cpa.buf, cb.Lists()
  {
    cb.Lists() <= lists && Holds(cb, i, cpa) && Target(cb.handlesCl, cb.binCl, [], table, lists, cpa)
  }

  lemma ListHolds(cb: CommandBuffer, i: Image, list: ControlList, cpa: ConsecutivePool)
    requires Holds(cb, i, cpa) && list in cb.Lists()
    ensures list.CPA == cpa && list.Placed() && list.Contents() == Get(cb, i, list)
  {
    hide ControlList.Contents, ControlList.Placed;
  }

  twostate lemma HoldsPut(new cb: CommandBuffer, new i: Image,
        new list: ControlList, new others: set<ControlList>, new cpa: ConsecutivePool)
    requires old(allocated(cb)) && old(allocated(list)) && old(allocated(others)) && old(allocated(cpa))
    requires old(Holds(cb, i, cpa)) && Views(others, cpa) == old(Views(others, cpa)) && list in cb.Lists() && cb.Lists() - {list} <= others
    requires (forall d :: d in cb.Lists() ==> d.Placed()) && cb.binCl.Cursor() == Some(0)
    ensures Holds(cb, Put(cb, i, list, list.Contents()), cpa)
  {
    hide ControlList.Contents, ControlList.Cursor, ControlList.Room, Views, ControlList.Placed;
    if list != cb.binCl { ViewKept(cb.binCl, others, cpa); }
    if list != cb.handlesCl { ViewKept(cb.handlesCl, others, cpa); }
    if list != cb.shaderRecCl { ViewKept(cb.shaderRecCl, others, cpa); }
    if list != cb.uniformsCl { ViewKept(cb.uniformsCl, others, cpa); }
    if list != cb.uniformRelocCl { ViewKept(cb.uniformRelocCl, others, cpa); }
    if list != cb.gemRelocCl { ViewKept(cb.gemRelocCl, others, cpa); }
    if list != cb.shaderRecRelocCl { ViewKept(cb.shaderRecRelocCl, others, cpa); }
  }

  /** Recording goes on when one list has grown, if it is not the handle list. */
  twostate lemma RecordingStays(new cb: CommandBuffer, new i: Image, new table: seq<uint32>,
        new list: ControlList, new lists: set<ControlList>, new cpa: ConsecutivePool)
    requires old(allocated(cb)) && old(allocated(list)) && old(allocated(lists)) && old(allocated(cpa))
    requires old(Recording(cb, i, table, lists, cpa)) && Apart(lists, cpa) && list in cb.Lists()
    requires Views(lists - {list}, cpa) == old(Views(lists - {list}, cpa))
    requires old(list.Placed()) && list.Placed() && list.Cursor() == old(list.Cursor())
    requires list == cb.binCl ==> old(list.Contents()) <= list.Contents()
    requires list == cb.handlesCl ==> list.Contents() == old(list.Contents())
    ensures Recording(cb, Put(cb, i, list, list.Contents()), table, lists, cpa)
  {
    hide Apart, Target, ControlList.Contents, ControlList.Cursor, ControlList.Room, Views, ControlList.Placed;
    AllPlaced(lists, cpa);
    if list != cb.binCl { ViewKept(cb.binCl, lists - {list}, cpa); }
    if list != cb.handlesCl { ViewKept(cb.handlesCl, lists - {list}, cpa); }
    TargetStays(cb.handlesCl, cb.binCl, [], table, lists, cpa);
    HoldsPut(cb, i, list, lists - {list}, cpa);
  }

  lemma PutGet(cb: CommandBuffer, i: Image, list: ControlList)
    requires list in cb.Lists()
    ensures Put(cb, i, list, Get(cb, i, list)) == i
  {
  }

  /** clFit on a list of the command buffer. */
  method Reserve(cb: CommandBuffer, list: ControlList, size: uint32,
      ghost i: Image, ghost table: seq<uint32>, ghost lists: set<ControlList>, ghost cpa: ConsecutivePool)
      returns (ok: bool)
    requires Recording(cb, i, table, lists, cpa) && list in cb.Lists() && list.CPA == cpa && size < 0x4000_0000
    modifies list, cpa, cpa.buf
    ensures ok ==> Recording(cb, i, table, lists, cpa) && list.Placed() && size <= list.Room()
    ensures ok ==> Views(lists - {list}, cpa) == old(Views(lists - {list}, cpa))
    ensures old(list.Placed()) && size <= old(list.Room()) ==> ok
    ensures FitsAs(cpa.layout, old(cpa.State()), old(list.At()), size, ok, cpa.State(), PlaceOf(list))
  {
    hide FitsAs, Target, Holds, Views, ControlList.CanFit, ControlList.Contents, ControlList.Room, ControlList.Cursor, Get, Put, Apart, SmallPool;
    ListHolds(cb, i, list, cpa);
    TargetApart(cb.handlesCl, cb.binCl, [], table, lists, cpa);
    ok := FitTo(list, size, lists, cpa);
    if ok {
      RecordingStays(cb, i, table, list, lists, cpa);
      PutGet(cb, i, list);
    }
  }

  /** A list's blocks, whatever it holds. */
  ghost function PlaceOf(list: ControlList): (p: Place)
    reads list
  {
    Place(list.first, list.numBlocks, 0)
  }

  lemma NothingAsked(L: Layout)
    requires L.blockSize > 0
    ensures forall s :: ServeAll(L, s, []) == Some(s)
  {
  }

  /** clInsertData and its like, where there is room. */
  method Append(cb: CommandBuffer, list: ControlList, data: seq<byte>,
      ghost i: Image, ghost table: seq<uint32>, ghost lists: set<ControlList>, ghost cpa: ConsecutivePool)
    requires Recording(cb, i, table, lists, cpa) && list in cb.Lists() && list != cb.handlesCl && list.CPA == cpa && list.Placed() && |data| <= list.Room()
    modifies list`nextFreeByteOffset, cpa.buf
    ensures Recording(cb, Put(cb, i, list, Get(cb, i, list) + data), table, lists, cpa)
    ensures Views(lists - {list}, cpa) == old(Views(lists - {list}, cpa))
    ensures list.Placed() && list.Room() == old(list.Room()) - |data|
    ensures list.At() == old(list.At()).(used := old(list.At().used) + |data|)
  {
    hide Target, Holds, Views, ControlList.CanFit, ControlList.Contents, ControlList.Room, ControlList.Cursor, ControlList.Placed, Get, Put, Apart, SmallPool;
    ListHolds(cb, i, list, cpa);
    TargetApart(cb.handlesCl, cb.binCl, [], table, lists, cpa);
    list.RoomIsSpace();
    Insert(list, data, lists, cpa);
    list.RoomIsSpace();
    RecordingStays(cb, i, table, list, lists, cpa);
  }

  /** clFit and clInsertData. */
  method FitAndInsert(cb: CommandBuffer, list: ControlList, data: seq<byte>,
      ghost i: Image, ghost table: seq<uint32>, ghost lists: set<ControlList>, ghost cpa: ConsecutivePool)
      returns (ok: bool)
    requires Recording(cb, i, table, lists, cpa) && list in cb.Lists() && list != cb.handlesCl && |data| < 0x4000_0000
    modifies list, cpa, cpa.buf
    ensures FitsAs(cpa.layout, old(cpa.State()), old(list.At()), |data|, ok, cpa.State(), PlaceOf(list))
    ensures ok ==> Recording(cb, Put(cb, i, list, Get(cb, i, list) + data), table, lists, cpa)
  {
    hide FitsAs, Recording, ControlList.Placed, ControlList.Room, ControlList.At, Get, Put;
    RecordingList(cb, i, table, list, lists, cpa);
    ok := Reserve(cb, list, |data|, i, table, lists, cpa);
    if ok { Append(cb, list, data, i, table, lists, cpa); }
  }

  /** clGetHandleIndex on the handle list, where there is room for one more. */
  method EnterTarget(handles: ControlList, bin: ControlList, handle: uint32,
      ghost table: seq<uint32>, ghost lists: set<ControlList>, ghost cpa: ConsecutivePool)
      returns (idx: uint32)
    requires Target(handles, bin, [], table, lists, cpa) && handles.CPA == cpa && 4 <= handles.Room()
    modifies handles`nextFreeByteOffset, cpa.buf
    ensures idx == IndexOf(table, handle) && Target(handles, bin, [], R.WithHandle(table, handle), lists, cpa)
    ensures Views(lists - {handles}, cpa) == old(Views(lists - {handles}, cpa))
    ensures handles.Room() >= old(handles.Room()) - 4
  {
    hide Apart, ControlList.Owned, Word, Table, R.WithHandle, IndexOf, ControlList.Contents, WholeWords, Views, SmallPool;
    AllPlaced(lists, cpa);
    ListIn(handles, lists, cpa);
    idx := EnterFitted(handles, bin, handle, 0, lists);
    AllPlaced(lists, cpa);
    ViewsKept(lists - {handles}, cpa);
  }

  method EnterIndex(cb: CommandBuffer, handle: uint32, ghost i: Image, ghost table: seq<uint32>, ghost lists: set<ControlList>, ghost cpa: ConsecutivePool)
      returns (idx: uint32, ghost j: Image)
    requires Recording(cb, i, table, lists, cpa) && cb.handlesCl.CPA == cpa && cb.handlesCl.Placed() && 4 <= cb.handlesCl.Room()
    modifies cb.handlesCl`nextFreeByteOffset, cpa.buf
    ensures idx == IndexOf(table, handle) && j == i.(handles := j.handles)
    ensures Recording(cb, j, R.WithHandle(table, handle), lists, cpa)
    ensures Views(lists - {cb.handlesCl}, cpa) == old(Views(lists - {cb.handlesCl}, cpa))
    ensures cb.handlesCl.Placed() && cb.handlesCl.Room() >= old(cb.handlesCl.Room()) - 4
  {
    hide Target, Views, ControlList.Contents, ControlList.Cursor, ControlList.Room, ControlList.Placed, Apart, SmallPool, R.WithHandle, IndexOf;
    ghost var handles := cb.handlesCl;
    idx := EnterTarget(cb.handlesCl, cb.binCl, handle, table, lists, cpa);
    TargetApart(handles, cb.binCl, [], R.WithHandle(table, handle), lists, cpa);
    AllPlaced(lists, cpa);
    ViewKept(cb.binCl, lists - {handles}, cpa);
    j := i.(handles := handles.Contents());
    HoldsPut(cb, i, handles, lists - {handles}, cpa);
  }

  lemma RecordingList(cb: CommandBuffer, i: Image, table: seq<uint32>, list: ControlList, lists: set<ControlList>, cpa: ConsecutivePool)
    requires Recording(cb, i, table, lists, cpa) && list in cb.Lists()
    ensures list.CPA == cpa && list.Placed() && list.Contents() == Get(cb, i, list) && cb.Separate()
  {
    hide Target, ControlList.Contents, ControlList.Placed, Get;
    ListHolds(cb, i, list, cpa);
  }

  // ---------------------------------------------------------- what is drawn

  /** m holds the words offs. */
  ghost predicate Offsets(m: seq<byte>, offs: seq<uint32>) {
    |m| % 4 == 0 && Table(m) == offs
  }

  /** The lists hold what is on the sheet. */
  ghost predicate Matches(i: Image, s: D.Sheet) {
    && i.bin == s.bin.bytes && i.uniforms == s.uniforms.bytes && i.shaderRec == s.shaderRec.bytes
    && Offsets(i.gemReloc, s.bin.offs) && Offsets(i.uniformReloc, s.uniforms.offs) && Offsets(i.shaderRecReloc, s.shaderRec.offs)
  }

  /** No list is near the end of the 32-bit offsets. */
  lemma RecordingFits(cb: CommandBuffer, i: Image, s: D.Sheet, e: D.Emit, lists: set<ControlList>, cpa: ConsecutivePool)
    requires Recording(cb, i, s.handles, lists, cpa) && Matches(i, s)
    requires D.WellFormed(e) && D.Longest(e) < 0x4000_0000 && D.HandleCount(e) < 0x4000_0000
    ensures D.Fits(s, e)
  {
    hide Apart, Word, ControlList.Contents, WholeWords, Offsets;
  }

  lemma OffsetAppended(m: seq<byte>, offs: seq<uint32>, o: uint32)
    requires Offsets(m, offs)
    ensures Offsets(m + WordBytes(o), offs + [o])
  {
    hide Table, WordBytes;
    TableAppend(m, 0, o);
    assert m[0..] == m && (m + WordBytes(o))[0..] == m + WordBytes(o);
  }

  /** How many bytes a list holds. */
  method Position(list: ControlList) returns (n: uint32)
    requires list.Placed()
    ensures n == |list.Contents()|
  {
    n := list.nextFreeByteOffset - list.offset;
  }

  lemma UniformMatches(i: Image, s: D.Sheet, h: uint32, j: Image)
    requires Matches(i, s) && D.Fits(s, D.UniformHandle(h))
    requires j == i.(handles := j.handles, uniforms := i.uniforms + WordBytes(IndexOf(s.handles, h)),
      uniformReloc := i.uniformReloc + WordBytes(|i.uniforms|))
    ensures Matches(j, D.Apply(s, D.UniformHandle(h)))
  {
    hide Table, WordBytes, D.IndexBytes;
    D.OneIndex(s.handles, h);
    OffsetAppended(i.uniformReloc, s.uniforms.offs, |i.uniforms|);
    var e, r := D.UniformHandle(h), D.Apply(s, D.UniformHandle(h));
    assert r.uniforms.bytes == i.uniforms + [] + WordBytes(IndexOf(s.handles, h)) + [];
    assert r.uniforms.offs == s.uniforms.offs + [|i.uniforms|];
  }

  /** What a uniform handle asks of the lists, in the order of the clFits. */
  ghost function UniformAsks(cb: CommandBuffer): (asks: seq<Ask>)
    requires cb.handlesCl.Placed() && cb.uniformsCl.Placed() && cb.uniformRelocCl.Placed()
    reads cb.handlesCl, cb.uniformsCl, cb.uniformRelocCl
  {
    [Ask(cb.handlesCl.At(), [4]), Ask(cb.uniformsCl.At(), [4]), Ask(cb.uniformRelocCl.At(), [4])]
  }

  /** A texture or buffer that a shader reads: clFit, clGetHandleIndex, the index
      into the uniforms, its offset into the relocations. */
  method DrawUniformHandle(cb: CommandBuffer, handle: uint32, ghost i: Image, ghost s: D.Sheet, ghost lists: set<ControlList>, ghost cpa: ConsecutivePool)
      returns (ok: bool, ghost j: Image)
    requires Recording(cb, i, s.handles, lists, cpa) && Matches(i, s)
    modifies cb.handlesCl, cb.uniformsCl, cb.uniformRelocCl, cpa, cpa.buf
    ensures ok <==> ServeAll(cpa.layout, old(cpa.State()), old(UniformAsks(cb))).Some?
    ensures D.Fits(s, D.UniformHandle(handle))
    ensures ok ==> Recording(cb, j, D.Apply(s, D.UniformHandle(handle)).handles, lists, cpa) && Matches(j, D.Apply(s, D.UniformHandle(handle)))
  {
    hide Recording, ControlList.Placed, ControlList.Room, ControlList.Contents, Views, D.WithWords, R.WithHandle, IndexOf, WordBytes, Offsets, Table,
      FitsAs, ServeAll, ControlList.At;
    j := i;
    RecordingFits(cb, i, s, D.UniformHandle(handle), lists, cpa);
    RecordingList(cb, i, s.handles, cb.handlesCl, lists, cpa);
    RecordingList(cb, i, s.handles, cb.uniformsCl, lists, cpa);
    RecordingList(cb, i, s.handles, cb.uniformRelocCl, lists, cpa);
    ghost var L, asks, s0 := cpa.layout, UniformAsks(cb), cpa.State();
    assert asks[1..][1..] == asks[2..] && asks[2..][1..] == [];
    NothingAsked(L);
    ok := Reserve(cb, cb.handlesCl, 4, i, s.handles, lists, cpa);
    ghost var s1 := cpa.State();
    AskLast(L, s0, asks[0].place, 4, ok, s1, PlaceOf(cb.handlesCl), asks);
    if !ok { return; }
    var idx;
    idx, j := EnterIndex(cb, handle, i, s.handles, lists, cpa);
    ghost var t := R.WithHandle(s.handles, handle);
    ok := FitAndInsert(cb, cb.uniformsCl, WordBytes(idx), j, t, lists, cpa);
    ghost var s2 := cpa.State();
    AskLast(L, s1, asks[1].place, 4, ok, s2, PlaceOf(cb.uniformsCl), asks[1..]);
    if !ok { return; }
    j := j.(uniforms := j.uniforms + WordBytes(idx));
    RecordingList(cb, j, t, cb.uniformsCl, lists, cpa);
    var end := Position(cb.uniformsCl);
    var offset := end - 4;
    ok := FitAndInsert(cb, cb.uniformRelocCl, WordBytes(offset), j, t, lists, cpa);
    AskLast(L, s2, asks[2].place, 4, ok, cpa.State(), PlaceOf(cb.uniformRelocCl), asks[2..]);
    if !ok { return; }
    j := j.(uniformReloc := j.uniformReloc + WordBytes(offset));
    UniformMatches(i, s, handle, j);
  }

  lemma IndexBufferMatches(i: Image, s: D.Sheet, h: uint32, j: Image)
    requires Matches(i, s) && D.Fits(s, D.IndexBuffer(h))
    requires j == i.(handles := j.handles, bin := i.bin + ([D.GEM_RELOCATIONS] + WordBytes(IndexOf(s.handles, h)) + WordBytes(0)),
      gemReloc := i.gemReloc + WordBytes(|i.bin| + 1))
    ensures Matches(j, D.Apply(s, D.IndexBuffer(h)))
  {
    hide Table, WordBytes, D.IndexBytes;
    D.OneIndex(s.handles, h);
    OffsetAppended(i.gemReloc, s.bin.offs, |i.bin| + 1);
    var r := D.Apply(s, D.IndexBuffer(h));
    assert r.bin.bytes == i.bin + [D.GEM_RELOCATIONS] + WordBytes(IndexOf(s.handles, h)) + WordBytes(0);
    assert r.bin.offs == s.bin.offs + [|i.bin| + 1];
  }

  /** What an index buffer asks of the lists with clFit: nothing of the binning list. */
  ghost function IndexBufferAsks(cb: CommandBuffer): (asks: seq<Ask>)
    requires cb.handlesCl.Placed() && cb.gemRelocCl.Placed()
    reads cb.handlesCl, cb.gemRelocCl
  {
    [Ask(cb.handlesCl.At(), [4]), Ask(cb.gemRelocCl.At(), [4])]
  }

  /** The index buffer of vkCmdDrawIndexed. Its nine bytes are written without a
      clFit of their own; the method stops where they would not fit. */
  method DrawIndexBuffer(cb: CommandBuffer, handle: uint32, ghost i: Image, ghost s: D.Sheet, ghost lists: set<ControlList>, ghost cpa: ConsecutivePool)
      returns (ok: bool, ghost j: Image)
    requires Recording(cb, i, s.handles, lists, cpa) && Matches(i, s)
    modifies cb.handlesCl, cb.binCl, cb.gemRelocCl, cpa, cpa.buf
    ensures ok <==> 9 <= old(cb.binCl.Room()) && ServeAll(cpa.layout, old(cpa.State()), old(IndexBufferAsks(cb))).Some?
    ensures D.Fits(s, D.IndexBuffer(handle))
    ensures ok ==> Recording(cb, j, D.Apply(s, D.IndexBuffer(handle)).handles, lists, cpa) && Matches(j, D.Apply(s, D.IndexBuffer(handle)))
  {
    hide Recording, ControlList.Placed, ControlList.Room, ControlList.Contents, Views, D.WithWords, R.WithHandle, IndexOf, WordBytes, Offsets, Table,
      FitsAs, ServeAll, ControlList.At;
    j := i;
    RecordingFits(cb, i, s, D.IndexBuffer(handle), lists, cpa);
    RecordingList(cb, i, s.handles, cb.handlesCl, lists, cpa);
    RecordingList(cb, i, s.handles, cb.gemRelocCl, lists, cpa);
    ghost var L, asks, s0 := cpa.layout, IndexBufferAsks(cb), cpa.State();
    assert asks[1..][1..] == [];
    NothingAsked(L);
    ok := Reserve(cb, cb.handlesCl, 4, i, s.handles, lists, cpa);
    ghost var s1 := cpa.State();
    AskLast(L, s0, asks[0].place, 4, ok, s1, PlaceOf(cb.handlesCl), asks);
    if !ok { return; }
    var idx;
    idx, j := EnterIndex(cb, handle, i, s.handles, lists, cpa);
    ghost var t := R.WithHandle(s.handles, handle);
    RecordingList(cb, j, t, cb.binCl, lists, cpa);
    ok, j := AppendGem(cb, idx, j, t, lists, cpa);
    if !ok { return; }
    RecordingList(cb, j, t, cb.binCl, lists, cpa);
    var end := Position(cb.binCl);
    ok := FitAndInsert(cb, cb.gemRelocCl, WordBytes(end - 8), j, t, lists, cpa);
    AskLast(L, s1, asks[1].place, 4, ok, cpa.State(), PlaceOf(cb.gemRelocCl), asks[1..]);
    if !ok { return; }
    j := j.(gemReloc := j.gemReloc + WordBytes(end - 8));
    IndexBufferMatches(i, s, handle, j);
  }

  /** clInsertGEMRelocations, where its nine bytes fit. */
  method AppendGem(cb: CommandBuffer, idx: uint32, ghost i: Image, ghost table: seq<uint32>, ghost lists: set<ControlList>, ghost cpa: ConsecutivePool)
      returns (ok: bool, ghost j: Image)
    requires Recording(cb, i, table, lists, cpa) && cb.binCl.Placed()
    modifies cb.binCl`nextFreeByteOffset, cpa.buf
    ensures ok <==> 9 <= old(cb.binCl.Room())
    ensures ok ==> Recording(cb, j, table, lists, cpa) && j == i.(bin := i.bin + ([D.GEM_RELOCATIONS] + WordBytes(idx) + WordBytes(0)))
  {
    hide Recording, ControlList.Placed, ControlList.Room, ControlList.Contents, Views, WordBytes;
    j := i;
    RecordingList(cb, i, table, cb.binCl, lists, cpa);
    var room := RoomOf(cb.binCl);
    ok := room >= 9;
    if ok {
      var data := [D.GEM_RELOCATIONS] + WordBytes(idx) + WordBytes(0);
      Append(cb, cb.binCl, data, i, table, lists, cpa);
      j := i.(bin := i.bin + data);
    }
  }

  method RoomOf(list: ControlList) returns (n: nat)
    requires list.Placed()
    ensures n == list.Room()
  {
    list.CPA.layout.OffAdd(list.first, list.numBlocks);
    list.CPA.layout.OffIsProduct(list.numBlocks);
    n := list.offset + list.numBlocks * list.blockSize - list.nextFreeByteOffset;
  }

  /** What has been drawn can be executed: the secondary that ExecuteCommands finds
      in these lists is recorded as it must be. */
  lemma DrawnCanBeExecuted(cb: CommandBuffer, i: Image, s: D.Sheet, count: uint32, lists: set<ControlList>, cpa: ConsecutivePool)
    requires Recording(cb, i, s.handles, lists, cpa) && Matches(i, s) && MARKER_SIZE <= |i.bin|
    requires D.AllNoted(s) && forall k :: 0 <= k < |s.bin.sites| ==> MARKER_SIZE <= s.bin.sites[k].pos
    requires |s.handles| + |s.bin.offs| < 0x1_0000_0000
    ensures R.Recorded(SecondaryOf(i, count)) && SecondaryOf(i, count).handles == s.handles
  {
    hide Word, Apart, Table, ControlList.Contents, WholeWords, R.IndexWords, SmallPool;
    D.NotedIsIndexWords(s.bin, s.handles);
    D.NotedIsIndexWords(s.uniforms, s.handles);
    D.NotedIsIndexWords(s.shaderRec, s.handles);
    assert i.handles[0..] == i.handles;
    assert s.handles == Table(i.handles);
    var blank := Zeros(MARKER_SIZE) + i.bin[MARKER_SIZE..];
    assert blank[MARKER_SIZE..] == i.bin[MARKER_SIZE..];
    R.RewriteBehind(i.bin, blank, MARKER_SIZE, s.bin.offs, s.handles, s.handles);
  }
}
