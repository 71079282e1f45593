/** The shader record of drawCommon in driver/draw.c, with clInsertShaderRecord,
    clInsertAttributeRecord and clEmitShaderRelocation of
    driver/ControlListUtil.c.

    Room for the index words is filled with NOPs first. The words are then written
    through a copy of the list's cursor, while the record itself is appended
    behind them. */
module ShaderRecords {
  import opened Bytes
  import opened Seqs
  import opened FreeList
  import opened ConsecutivePool
  import opened Markers
  import opened ControlLists
  import opened ListViews
  import opened Places
  import opened RelocationLoops
  import opened CommandBuffers
  import opened ExecuteCommands
  import opened Drawing
  import CS = ConsecutiveSpec
  import R = Relocation
  import D = DrawSpec

  const NOP: byte := 1
  const RESERVED := 12 * 4 + 104 + 8 * 32
  const MAX_ATTRIBUTES := 8

  function Nops(n: nat): (s: seq<byte>)
    ensures |s| == n && forall k :: 0 <= k < n ==> s[k] == 1
  {
    seq(n, _ => NOP)
  }

  /** The list in the middle: front, the index words of hs, room for left more, and
      what has been appended behind. */
  ghost predicate Filling(m: seq<byte>, front: seq<byte>, table: seq<uint32>, hs: seq<uint32>, left: nat, data: seq<byte>) {
    |table| + |hs| < 0x1_0000_0000 && m == front + D.IndexBytes(table, hs).0 + Nops(4 * left) + data
  }

  lemma {:induction false} IndexBytesSnoc(table: seq<uint32>, hs: seq<uint32>, h: uint32)
    requires |table| + |hs| + 1 < 0x1_0000_0000
    ensures var (b, t) := D.IndexBytes(table, hs);
      D.IndexBytes(table, hs + [h]) == (b + WordBytes(IndexOf(t, h)), R.WithHandle(t, h))
    decreases |hs|
  {
    hide WordBytes;
    if hs == [] {
      D.OneIndex(table, h);
      assert hs + [h] == [h] && [] + WordBytes(IndexOf(table, h)) == WordBytes(IndexOf(table, h));
    } else {
      IndexBytesSnoc(R.WithHandle(table, hs[0]), hs[1..], h);
      assert (hs + [h])[1..] == hs[1..] + [h];
      var (b, t) := D.IndexBytes(R.WithHandle(table, hs[0]), hs[1..]);
      assert WordBytes(IndexOf(table, hs[0])) + (b + WordBytes(IndexOf(t, h))) == WordBytes(IndexOf(table, hs[0])) + b + WordBytes(IndexOf(t, h));
    }
  }

  lemma StoreBetween(a: seq<byte>, b: seq<byte>, pos: nat, w: uint32)
    requires pos == |a| && 4 <= |b|
    ensures SetWord(a + b, pos, w) == a + (WordBytes(w) + b[4..])
  {
    hide Word, WordBytes;
    var l, r := SetWord(a + b, pos, w), a + (WordBytes(w) + b[4..]);
    assert l == (a + b)[..pos] + WordBytes(w) + (a + b)[pos + 4..];
    assert (a + b)[..pos] == a && (a + b)[pos + 4..] == b[4..];
  }

  lemma NopsDrop(n: nat, data: seq<byte>)
    requires 4 <= n
    ensures (Nops(n) + data)[4..] == Nops(n - 4) + data
  {
  }

  lemma Reassociate(a: seq<byte>, b: seq<byte>, w: seq<byte>, n: seq<byte>, d: seq<byte>)
    ensures a + b + n + d == (a + b) + (n + d)
    ensures (a + b) + (w + (n + d)) == a + (b + w) + n + d
  {
  }

  lemma WordFilled(m: seq<byte>, front: seq<byte>, table: seq<uint32>, hs: seq<uint32>, left: nat, data: seq<byte>, h: uint32, pos: nat, r: seq<byte>)
    requires Filling(m, front, table, hs, left, data) && left > 0 && |table| + |hs| + 1 < 0x1_0000_0000
    requires pos == |front| + 4 * |hs| && pos + 4 <= |m| && r == SetWord(m, pos, IndexOf(D.IndexBytes(table, hs).1, h))
    ensures Filling(r, front, table, hs + [h], left - 1, data)
  {
    hide WordBytes, Word, D.IndexBytes, SetWord, Nops;
    IndexBytesSnoc(table, hs, h);
    var (b, t) := D.IndexBytes(table, hs);
    var idx, n := IndexOf(t, h), 4 * left;
    Reassociate(front, b, WordBytes(idx), Nops(n), data);
    StoreBetween(front + b, Nops(n) + data, pos, idx);
    NopsDrop(n, data);
    Reassociate(front, b, WordBytes(idx), Nops(n - 4), data);
    assert 4 * (left - 1) == n - 4;
  }

  lemma DataFilled(m: seq<byte>, front: seq<byte>, table: seq<uint32>, hs: seq<uint32>, left: nat, data: seq<byte>, more: seq<byte>)
    requires Filling(m, front, table, hs, left, data)
    ensures Filling(m + more, front, table, hs, left, data + more)
  {
    hide D.IndexBytes, Nops;
    var b, n := D.IndexBytes(table, hs).0, Nops(4 * left);
    assert front + b + n + data + more == front + b + n + (data + more);
  }

  /** A word of a list that is neither the handle nor the binning list. */
  method StoreIn(cb: CommandBuffer, list: ControlList, pos: uint32, w: uint32,
      ghost i: Image, ghost table: seq<uint32>, ghost lists: set<ControlList>, ghost cpa: ConsecutivePool)
    requires Recording(cb, i, table, lists, cpa) && list in cb.Lists() && list != cb.handlesCl && list != cb.binCl
    requires list.CPA == cpa && list.Placed() && pos + 4 <= |Get(cb, i, list)|
    modifies cpa.buf
    ensures Recording(cb, Put(cb, i, list, SetWord(Get(cb, i, list), pos, w)), table, lists, cpa)
    ensures Views(lists - {list}, cpa) == old(Views(lists - {list}, cpa))
  {
    hide Target, Holds, Views, ControlList.Contents, ControlList.Room, ControlList.Cursor, ControlList.Placed, Get, Put, Apart, SmallPool, SetWord;
    ListHolds(cb, i, list, cpa);
    TargetStore(list, pos, w, cb.handlesCl, cb.binCl, [], table, lists, cpa);
    TargetApart(cb.handlesCl, cb.binCl, [], table, lists, cpa);
    AllPlaced(lists, cpa);
    RecordingStays(cb, i, table, list, lists, cpa);
  }

  /** clEmitShaderRelocation: the handle's index goes where the copied cursor
      stands, pos bytes into the list. */
  method EmitShaderRelocation(cb: CommandBuffer, pos: uint32, handle: uint32, ghost i: Image,
      ghost front: seq<byte>, ghost table: seq<uint32>, ghost hs: seq<uint32>, ghost left: nat, ghost data: seq<byte>,
      ghost lists: set<ControlList>, ghost cpa: ConsecutivePool)
      returns (ghost j: Image)
    requires |table| + |hs| + 1 < 0x1_0000_0000 && Recording(cb, i, D.IndexBytes(table, hs).1, lists, cpa)
    requires Filling(i.shaderRec, front, table, hs, left, data) && left > 0 && pos == |front| + 4 * |hs|
    requires cb.handlesCl.CPA == cpa && cb.handlesCl.Placed() && 4 <= cb.handlesCl.Room()
    modifies cb.handlesCl`nextFreeByteOffset, cpa.buf
    ensures Recording(cb, j, D.IndexBytes(table, hs + [handle]).1, lists, cpa)
    ensures j == i.(handles := j.handles, shaderRec := j.shaderRec) && Filling(j.shaderRec, front, table, hs + [handle], left - 1, data)
    ensures cb.handlesCl.Placed() && cb.handlesCl.Room() >= old(cb.handlesCl.Room()) - 4
  {
    hide Recording, ControlList.Placed, ControlList.Room, ControlList.Contents, Views, R.WithHandle, IndexOf, WordBytes, D.IndexBytes, SetWord, Nops;
    ghost var t := D.IndexBytes(table, hs).1;
    var idx;
    idx, j := EnterIndex(cb, handle, i, t, lists, cpa);
    RecordingList(cb, j, R.WithHandle(t, handle), cb.shaderRecCl, lists, cpa);
    RecordingList(cb, j, R.WithHandle(t, handle), cb.handlesCl, lists, cpa);
    ghost var m := j.shaderRec;
    assert pos + 4 <= |m|;
    StoreIn(cb, cb.shaderRecCl, pos, idx, j, R.WithHandle(t, handle), lists, cpa);
    j := j.(shaderRec := SetWord(m, pos, idx));
    WordFilled(m, front, table, hs, left, data, handle, pos, j.shaderRec);
    IndexBytesSnoc(table, hs, handle);
  }

  /** One offset goes onto the relocations of the shader records. */
  method NoteOffset(cb: CommandBuffer, offset: uint32, ghost i: Image, ghost table: seq<uint32>, ghost offs: seq<uint32>,
      ghost lists: set<ControlList>, ghost cpa: ConsecutivePool)
      returns (ghost j: Image)
    requires Recording(cb, i, table, lists, cpa) && Offsets(i.shaderRecReloc, offs)
    requires cb.shaderRecRelocCl.CPA == cpa && cb.shaderRecRelocCl.Placed() && 4 <= cb.shaderRecRelocCl.Room()
    modifies cb.shaderRecRelocCl`nextFreeByteOffset, cpa.buf
    ensures Recording(cb, j, table, lists, cpa) && j == i.(shaderRecReloc := j.shaderRecReloc) && Offsets(j.shaderRecReloc, offs + [offset])
    ensures cb.shaderRecRelocCl.Placed() && cb.shaderRecRelocCl.Room() == old(cb.shaderRecRelocCl.Room()) - 4
    ensures cb.shaderRecRelocCl.At() == old(cb.shaderRecRelocCl.At()).(used := old(cb.shaderRecRelocCl.At().used) + 4)
  {
    hide Recording, ControlList.Placed, ControlList.Room, ControlList.Contents, Views, WordBytes, Offsets;
    RecordingList(cb, i, table, cb.shaderRecRelocCl, lists, cpa);
    Append(cb, cb.shaderRecRelocCl, WordBytes(offset), i, table, lists, cpa);
    j := i.(shaderRecReloc := i.shaderRecReloc + WordBytes(offset));
    OffsetAppended(i.shaderRecReloc, offs, offset);
  }

  /** The offsets of the three code addresses and of n attributes. */
  method NoteOffsets(cb: CommandBuffer, start: uint32, n: nat, ghost i: Image, ghost table: seq<uint32>, ghost offs: seq<uint32>,
      ghost lists: set<ControlList>, ghost cpa: ConsecutivePool)
      returns (ok: bool, ghost j: Image)
    requires Recording(cb, i, table, lists, cpa) && Offsets(i.shaderRecReloc, offs)
    requires n <= MAX_ATTRIBUTES && start + 4 * (3 + n) < 0x1_0000_0000
    modifies cb.shaderRecRelocCl, cpa, cpa.buf
    ensures var r := Serve(cpa.layout, old(cpa.State()), Ask(old(cb.shaderRecRelocCl.At()), [12, 4 * n]));
      if ok then r == Some(cpa.State()) else r == None
    ensures ok ==>
      Recording(cb, j, table, lists, cpa) && j == i.(shaderRecReloc := j.shaderRecReloc)
      && Offsets(j.shaderRecReloc, offs + D.OffsetsFrom(start, 3 + n))
  {
    hide Recording, ControlList.Placed, ControlList.Room, ControlList.Contents, Views, WordBytes, Offsets, D.OffsetsFrom, FitsAs, Serve;
    var list := cb.shaderRecRelocCl;
    j := i;
    RecordingList(cb, i, table, list, lists, cpa);
    list.RoomIsSpace();
    ghost var L, ask, s0 := cpa.layout, Ask(list.At(), [12, 4 * n]), cpa.State();
    ok := Reserve(cb, list, 12, i, table, lists, cpa);
    AskNext(L, s0, ask, ok, cpa.State(), PlaceOf(list));
    if !ok { return; }
    RecordingList(cb, i, table, list, lists, cpa);
    list.RoomIsSpace();
    ghost var rest, s1 := Ask(PlaceOf(list).(used := ask.place.used + 12), ask.sizes[1..]), cpa.State();
    j := NoteThree(cb, start, j, table, offs, lists, cpa);
    ok := Reserve(cb, list, 4 * n, j, table, lists, cpa);
    AskNext(L, s1, rest, ok, cpa.State(), PlaceOf(list));
    if !ok { return; }
    ServedUp(L, cpa.State(), Ask(PlaceOf(list).(used := rest.place.used + 4 * n), rest.sizes[1..]));
    j := NoteAttributes(cb, start, n, j, table, offs, lists, cpa);
  }

  lemma ServedUp(L: Layout, s: CS.PoolState, a: Ask)
    requires L.blockSize > 0 && a.sizes == []
    ensures Serve(L, s, a) == Some(s)
  {
  }

  method NoteThree(cb: CommandBuffer, start: uint32, ghost i: Image, ghost table: seq<uint32>, ghost offs: seq<uint32>,
      ghost lists: set<ControlList>, ghost cpa: ConsecutivePool)
      returns (ghost j: Image)
    requires Recording(cb, i, table, lists, cpa) && Offsets(i.shaderRecReloc, offs) && start + 12 < 0x1_0000_0000
    requires cb.shaderRecRelocCl.CPA == cpa && cb.shaderRecRelocCl.Placed() && 12 <= cb.shaderRecRelocCl.Room()
    modifies cb.shaderRecRelocCl`nextFreeByteOffset, cpa.buf
    ensures Recording(cb, j, table, lists, cpa) && j == i.(shaderRecReloc := j.shaderRecReloc)
    ensures Offsets(j.shaderRecReloc, offs + D.OffsetsFrom(start, 3))
    ensures cb.shaderRecRelocCl.Placed()
    ensures cb.shaderRecRelocCl.At() == old(cb.shaderRecRelocCl.At()).(used := old(cb.shaderRecRelocCl.At().used) + 12)
  {
    hide Recording, ControlList.Placed, ControlList.Room, ControlList.At, Offsets, D.OffsetsFrom;
    j := NoteOffset(cb, start, i, table, offs, lists, cpa);
    j := NoteOffset(cb, start + 4, j, table, offs + [start], lists, cpa);
    j := NoteOffset(cb, start + 8, j, table, offs + [start] + [start + 4], lists, cpa);
    ThreeOffsets(offs, start);
  }

  method NoteAttributes(cb: CommandBuffer, start: uint32, n: nat, ghost i: Image, ghost table: seq<uint32>, ghost offs: seq<uint32>,
      ghost lists: set<ControlList>, ghost cpa: ConsecutivePool)
      returns (ghost j: Image)
    requires n <= MAX_ATTRIBUTES && start + 4 * (3 + n) < 0x1_0000_0000
    requires Recording(cb, i, table, lists, cpa) && Offsets(i.shaderRecReloc, offs + D.OffsetsFrom(start, 3))
    requires cb.shaderRecRelocCl.CPA == cpa && cb.shaderRecRelocCl.Placed() && 4 * n <= cb.shaderRecRelocCl.Room()
    modifies cb.shaderRecRelocCl`nextFreeByteOffset, cpa.buf
    ensures Recording(cb, j, table, lists, cpa) && j == i.(shaderRecReloc := j.shaderRecReloc)
    ensures Offsets(j.shaderRecReloc, offs + D.OffsetsFrom(start, 3 + n))
  {
    hide Recording, ControlList.Placed, ControlList.Room, ControlList.At, Offsets, D.OffsetsFrom;
    var list := cb.shaderRecRelocCl;
    j := i;
    var c := 0;
    ghost var done := offs + D.OffsetsFrom(start, 3);
    while c < n
      invariant 0 <= c <= n
      invariant Recording(cb, j, table, lists, cpa) && j == i.(shaderRecReloc := j.shaderRecReloc)
      invariant done == offs + D.OffsetsFrom(start, 3 + c) && Offsets(j.shaderRecReloc, done)
      invariant list.Placed() && 4 * (n - c) <= list.Room()
    {
      var offset: uint32 := start + 12 + c * 4;
      j := NoteOffset(cb, offset, j, table, done, lists, cpa);
      D.OffsetsSnoc(start, 3 + c, 3 + (c + 1), offset);
      done := done + [offset];
      c := c + 1;
    }
  }

  lemma ThreeOffsets(offs: seq<uint32>, start: uint32)
    requires start + 12 < 0x1_0000_0000
    ensures offs + [start] + [start + 4] + [start + 8] == offs + D.OffsetsFrom(start, 3)
  {
  }

  /** The loop of clInsertNop. */
  method FillNops(cb: CommandBuffer, n: nat, ghost i: Image, ghost table: seq<uint32>, ghost lists: set<ControlList>, ghost cpa: ConsecutivePool)
      returns (ghost j: Image)
    requires Recording(cb, i, table, lists, cpa) && cb.shaderRecCl.CPA == cpa && cb.shaderRecCl.Placed() && n <= cb.shaderRecCl.Room()
    modifies cb.shaderRecCl`nextFreeByteOffset, cpa.buf
    ensures Recording(cb, j, table, lists, cpa) && j == i.(shaderRec := i.shaderRec + Nops(n))
    ensures cb.shaderRecCl.Placed() && cb.shaderRecCl.Room() == old(cb.shaderRecCl.Room()) - n
  {
    hide Recording, ControlList.Placed, ControlList.Room, ControlList.Contents, Views;
    j := i;
    assert i.shaderRec + Nops(0) == i.shaderRec;
    var c := 0;
    while c < n
      invariant 0 <= c <= n
      invariant Recording(cb, j, table, lists, cpa) && j == i.(shaderRec := i.shaderRec + Nops(c))
      invariant cb.shaderRecCl.Placed() && cb.shaderRecCl.Room() == old(cb.shaderRecCl.Room()) - c
    {
      RecordingList(cb, j, table, cb.shaderRecCl, lists, cpa);
      Append(cb, cb.shaderRecCl, [NOP], j, table, lists, cpa);
      j := j.(shaderRec := j.shaderRec + [NOP]);
      assert i.shaderRec + Nops(c) + [NOP] == i.shaderRec + Nops(c + 1);
      c := c + 1;
    }
  }

  /** A cursor that moves on without anything being written. */
  method Skip(list: ControlList, n: uint32, ghost lists: set<ControlList>, ghost cpa: ConsecutivePool) returns (ghost stale: seq<byte>)
    requires Apart(lists, cpa) && list in lists && list.CPA == cpa && list.Placed() && n <= list.Room()
    modifies list`nextFreeByteOffset
    ensures Apart(lists, cpa) && |stale| == n && list.Placed() && list.Contents() == old(list.Contents()) + stale
    ensures list.Cursor() == old(list.Cursor()) && list.Room() == old(list.Room()) - n
    ensures Views(lists - {list}, cpa) == old(Views(lists - {list}, cpa))
  {
    hide ConsecutivePool.Valid, Views, ControlList.Space, ControlList.Contents, ControlList.Cursor, ControlList.Room, Apart;
    ghost var s, was := list.Space(), list.Contents();
    ListIn(list, lists, cpa);
    list.ContentsInSpace();
    RoomInSpace(list);
    list.Advance(n, lists);
    ListIn(list, lists, cpa);
    list.ContentsInSpace();
    stale := s[|was|..|was| + n];
    assert s[..|was| + n] == s[..|was|] + stale;
    AllPlaced(lists, cpa);
    ViewsKept(lists - {list}, cpa);
  }

  lemma RoomInSpace(list: ControlList)
    requires list.Placed()
    ensures list.Room() == |list.Space()| - |list.Contents()|
  {
  }

  /** The rest of what clInsertShaderRecord does to the list's cursor. */
  method SkipRecord(cb: CommandBuffer, n: uint32, ghost i: Image, ghost table: seq<uint32>,
      ghost lists: set<ControlList>, ghost cpa: ConsecutivePool)
      returns (ghost stale: seq<byte>)
    requires Recording(cb, i, table, lists, cpa) && cb.shaderRecCl.CPA == cpa && cb.shaderRecCl.Placed() && n <= cb.shaderRecCl.Room()
    modifies cb.shaderRecCl`nextFreeByteOffset
    ensures |stale| == n && Recording(cb, i.(shaderRec := i.shaderRec + stale), table, lists, cpa)
    ensures cb.shaderRecCl.Placed() && cb.shaderRecCl.Room() == old(cb.shaderRecCl.Room()) - n
  {
    hide Target, ControlList.Contents, ControlList.Cursor, ControlList.Room, ControlList.Placed, Views, Apart, SmallPool;
    TargetApart(cb.handlesCl, cb.binCl, [], table, lists, cpa);
    stale := Skip(cb.shaderRecCl, n, lists, cpa);
    RecordingStays(cb, i, table, cb.shaderRecCl, lists, cpa);
  }

  /** Bytes of the record itself, behind everything. */
  method AppendRecord(cb: CommandBuffer, more: seq<byte>, ghost i: Image, ghost t: seq<uint32>,
      ghost front: seq<byte>, ghost table: seq<uint32>, ghost hs: seq<uint32>, ghost left: nat, ghost data: seq<byte>,
      ghost lists: set<ControlList>, ghost cpa: ConsecutivePool)
      returns (ghost j: Image)
    requires Recording(cb, i, t, lists, cpa) && Filling(i.shaderRec, front, table, hs, left, data)
    requires cb.shaderRecCl.CPA == cpa && cb.shaderRecCl.Placed() && |more| <= cb.shaderRecCl.Room()
    modifies cb.shaderRecCl`nextFreeByteOffset, cpa.buf
    ensures Recording(cb, j, t, lists, cpa) && j == i.(shaderRec := j.shaderRec) && Filling(j.shaderRec, front, table, hs, left, data + more)
    ensures cb.shaderRecCl.Placed() && cb.shaderRecCl.Room() == old(cb.shaderRecCl.Room()) - |more|
  {
    hide Recording, ControlList.Placed, ControlList.Room, ControlList.Contents, Views, Filling;
    RecordingList(cb, i, t, cb.shaderRecCl, lists, cpa);
    Append(cb, cb.shaderRecCl, more, i, t, lists, cpa);
    j := i.(shaderRec := i.shaderRec + more);
    DataFilled(i.shaderRec, front, table, hs, left, data, more);
  }

  /** What clInsertShaderRecord writes for each stage, around its code address. */
  datatype Stage = Stage(head: seq<byte>, code: uint32, addresses: seq<byte>)

  /** The stages as the hardware wants them: the second address of the vertex
      stage is not written. */
  predicate Stages(frag: Stage, vert: Stage, coord: Stage) {
    && |frag.head| == |vert.head| == |coord.head| == 4
    && |frag.addresses| == |coord.addresses| == 8 && |vert.addresses| == 4
  }

  method InsertStage(cb: CommandBuffer, pos: uint32, stage: Stage, ghost i: Image,
      ghost front: seq<byte>, ghost table: seq<uint32>, ghost hs: seq<uint32>, ghost left: nat, ghost data: seq<byte>,
      ghost lists: set<ControlList>, ghost cpa: ConsecutivePool)
      returns (ghost j: Image)
    requires |table| + |hs| + 1 < 0x1_0000_0000 && Recording(cb, i, D.IndexBytes(table, hs).1, lists, cpa)
    requires Filling(i.shaderRec, front, table, hs, left, data) && left > 0 && pos == |front| + 4 * |hs|
    requires cb.shaderRecCl.CPA == cpa && cb.shaderRecCl.Placed() && |stage.head| + |stage.addresses| <= cb.shaderRecCl.Room()
    requires cb.handlesCl.CPA == cpa && cb.handlesCl.Placed() && 4 <= cb.handlesCl.Room()
    modifies cb.handlesCl`nextFreeByteOffset, cb.shaderRecCl`nextFreeByteOffset, cpa.buf
    ensures Recording(cb, j, D.IndexBytes(table, hs + [stage.code]).1, lists, cpa) && j == i.(handles := j.handles, shaderRec := j.shaderRec)
    ensures Filling(j.shaderRec, front, table, hs + [stage.code], left - 1, data + stage.head + stage.addresses)
    ensures cb.shaderRecCl.Placed() && cb.shaderRecCl.Room() == old(cb.shaderRecCl.Room()) - |stage.head| - |stage.addresses|
    ensures cb.handlesCl.Placed() && cb.handlesCl.Room() >= old(cb.handlesCl.Room()) - 4
  {
    hide Recording, ControlList.Placed, ControlList.Room, ControlList.Contents, Views, Filling, D.IndexBytes;
    ghost var t, u := D.IndexBytes(table, hs).1, D.IndexBytes(table, hs + [stage.code]).1;
    RecordingList(cb, i, t, cb.shaderRecCl, lists, cpa);
    j := AppendRecord(cb, stage.head, i, t, front, table, hs, left, data, lists, cpa);
    j := EmitShaderRelocation(cb, pos, stage.code, j, front, table, hs, left, data + stage.head, lists, cpa);
    j := AppendRecord(cb, stage.addresses, j, u, front, table, hs + [stage.code], left - 1, data + stage.head, lists, cpa);
  }

  function RecordOf(frag: Stage, vert: Stage, stale: seq<byte>, coord: Stage): (r: seq<byte>) {
    [] + frag.head + frag.addresses + vert.head + vert.addresses + stale + coord.head + coord.addresses
  }

  /** clInsertShaderRecord: the three stages; four bytes are left as they were. */
  method InsertShaderRecord(cb: CommandBuffer, pos: uint32, frag: Stage, vert: Stage, coord: Stage, ghost i: Image,
      ghost front: seq<byte>, ghost table: seq<uint32>, ghost left: nat,
      ghost lists: set<ControlList>, ghost cpa: ConsecutivePool)
      returns (ghost j: Image, ghost stale: seq<byte>)
    requires Stages(frag, vert, coord) && 3 <= left && |table| + 3 < 0x1_0000_0000 && pos == |front| && pos + 12 < 0x1_0000_0000
    requires Recording(cb, i, table, lists, cpa) && Filling(i.shaderRec, front, table, [], left, [])
    requires cb.shaderRecCl.CPA == cpa && cb.shaderRecCl.Placed() && D.RECORD_SIZE <= cb.shaderRecCl.Room()
    requires cb.handlesCl.CPA == cpa && cb.handlesCl.Placed() && 12 <= cb.handlesCl.Room()
    modifies cb.handlesCl`nextFreeByteOffset, cb.shaderRecCl`nextFreeByteOffset, cpa.buf
    ensures Recording(cb, j, D.IndexBytes(table, [frag.code, vert.code, coord.code]).1, lists, cpa)
    ensures j == i.(handles := j.handles, shaderRec := j.shaderRec) && |stale| == 4
    ensures Filling(j.shaderRec, front, table, [frag.code, vert.code, coord.code], left - 3, RecordOf(frag, vert, stale, coord))
    ensures cb.shaderRecCl.Placed() && cb.shaderRecCl.Room() == old(cb.shaderRecCl.Room()) - D.RECORD_SIZE
    ensures cb.handlesCl.Placed() && cb.handlesCl.Room() >= old(cb.handlesCl.Room()) - 12
  {
    hide Recording, ControlList.Placed, ControlList.Room, ControlList.Contents, Views, Filling, D.IndexBytes;
    ghost var h0: seq<uint32>, h1, h2, h3 := [], [frag.code], [frag.code, vert.code], [frag.code, vert.code, coord.code];
    NoIndexBytes(table);
    RecordingList(cb, i, table, cb.shaderRecCl, lists, cpa);
    assert h0 + [frag.code] == h1 && h1 + [vert.code] == h2 && h2 + [coord.code] == h3;
    ghost var d: seq<byte> := [];
    j := InsertStage(cb, pos, frag, i, front, table, h0, left, d, lists, cpa);
    d := d + frag.head + frag.addresses;
    j := InsertStage(cb, pos + 4, vert, j, front, table, h1, left - 1, d, lists, cpa);
    d := d + vert.head + vert.addresses;
    stale := SkipRecord(cb, 4, j, D.IndexBytes(table, h2).1, lists, cpa);
    DataFilled(j.shaderRec, front, table, h2, left - 2, d, stale);
    j := j.(shaderRec := j.shaderRec + stale);
    j := InsertStage(cb, pos + 8, coord, j, front, table, h2, left - 2, d + stale, lists, cpa);
  }

  lemma NoIndexBytes(table: seq<uint32>)
    requires |table| < 0x1_0000_0000
    ensures D.IndexBytes(table, []) == ([], table)
  {
  }

  lemma OneMore(attributes: seq<D.Attribute>, c: nat)
    requires c < |attributes|
    ensures D.Handles(attributes[..c + 1]) == D.Handles(attributes[..c]) + [attributes[c].handle]
    ensures D.Rest(attributes[..c + 1]) == D.Rest(attributes[..c]) + attributes[c].rest
  {
    assert attributes[..c + 1] == attributes[..c] + [attributes[c]];
    RestSnoc(attributes[..c], attributes[c]);
  }

  lemma {:induction false} RestSnoc(attributes: seq<D.Attribute>, a: D.Attribute)
    ensures D.Rest(attributes + [a]) == D.Rest(attributes) + a.rest
  {
    if attributes == [] {
      assert [] + [a] == [a] && a.rest + [] == [] + a.rest;
      assert D.Rest([a]) == a.rest + D.Rest([]);
    } else {
      RestSnoc(attributes[1..], a);
      assert (attributes + [a])[1..] == attributes[1..] + [a];
      assert attributes[0].rest + (D.Rest(attributes[1..]) + a.rest) == attributes[0].rest + D.Rest(attributes[1..]) + a.rest;
    }
  }

  /** The loop of clInsertAttributeRecord. */
  method InsertAttributes(cb: CommandBuffer, pos: uint32, attributes: seq<D.Attribute>, ghost i: Image,
      ghost front: seq<byte>, ghost table: seq<uint32>, ghost hs: seq<uint32>, ghost data: seq<byte>,
      ghost lists: set<ControlList>, ghost cpa: ConsecutivePool)
      returns (ghost j: Image)
    requires |attributes| <= MAX_ATTRIBUTES && (forall a :: a in attributes ==> |a.rest| == D.ATTRIBUTE_SIZE)
    requires |table| + |hs| + |attributes| < 0x1_0000_0000 && pos == |front| + 4 * |hs| && pos + 4 * |attributes| < 0x1_0000_0000
    requires Recording(cb, i, D.IndexBytes(table, hs).1, lists, cpa) && Filling(i.shaderRec, front, table, hs, |attributes|, data)
    requires cb.shaderRecCl.CPA == cpa && cb.shaderRecCl.Placed() && D.ATTRIBUTE_SIZE * |attributes| <= cb.shaderRecCl.Room()
    requires cb.handlesCl.CPA == cpa && cb.handlesCl.Placed() && 4 * |attributes| <= cb.handlesCl.Room()
    modifies cb.handlesCl`nextFreeByteOffset, cb.shaderRecCl`nextFreeByteOffset, cpa.buf
    ensures Recording(cb, j, D.IndexBytes(table, hs + D.Handles(attributes)).1, lists, cpa)
    ensures j == i.(handles := j.handles, shaderRec := j.shaderRec)
    ensures Filling(j.shaderRec, front, table, hs + D.Handles(attributes), 0, data + D.Rest(attributes))
  {
    hide Recording, ControlList.Placed, ControlList.Room, ControlList.Contents, Views, Filling, D.IndexBytes, D.Handles, D.Rest;
    ghost var n := |attributes|;
    j := i;
    NoAttributes(hs, data);
    RecordingList(cb, i, D.IndexBytes(table, hs).1, cb.shaderRecCl, lists, cpa);
    assert attributes[..0] == [] && attributes[..n] == attributes;
    var c := 0;
    while c < |attributes|
      invariant 0 <= c <= n && j == i.(handles := j.handles, shaderRec := j.shaderRec)
      invariant Recording(cb, j, D.IndexBytes(table, hs + D.Handles(attributes[..c])).1, lists, cpa)
      invariant Filling(j.shaderRec, front, table, hs + D.Handles(attributes[..c]), n - c, data + D.Rest(attributes[..c]))
      invariant cb.shaderRecCl.Placed() && D.ATTRIBUTE_SIZE * (n - c) <= cb.shaderRecCl.Room()
      invariant cb.handlesCl.Placed() && 4 * (n - c) <= cb.handlesCl.Room()
    {
      var a := attributes[c];
      assert a in attributes;
      ghost var hs', d' := hs + D.Handles(attributes[..c]), data + D.Rest(attributes[..c]);
      OneMore(attributes, c);
      j := EmitShaderRelocation(cb, pos + 4 * c, a.handle, j, front, table, hs', n - c, d', lists, cpa);
      assert hs' + [a.handle] == hs + D.Handles(attributes[..c + 1]);
      assert d' + a.rest == data + D.Rest(attributes[..c + 1]);
      j := AppendRecord(cb, a.rest, j, D.IndexBytes(table, hs' + [a.handle]).1, front, table, hs' + [a.handle], n - c - 1, d', lists, cpa);
      c := c + 1;
    }
  }

  lemma NoAttributes(hs: seq<uint32>, data: seq<byte>)
    ensures hs + D.Handles([]) == hs && data + D.Rest([]) == data
  {
  }

  lemma RecordMatches(i: Image, s: D.Sheet, e: D.Emit, hs: seq<uint32>, j: Image)
    requires Matches(i, s) && e.ShaderRecord? && D.Fits(s, e) && hs == e.code + D.Handles(e.attributes)
    requires j == i.(handles := j.handles, shaderRec := j.shaderRec, shaderRecReloc := j.shaderRecReloc)
    requires Filling(j.shaderRec, i.shaderRec, s.handles, hs, 0, e.record + D.Rest(e.attributes))
    requires Offsets(j.shaderRecReloc, s.shaderRec.offs + D.OffsetsFrom(|i.shaderRec|, |hs|))
    ensures Matches(j, D.Apply(s, e)) && D.Apply(s, e).handles == D.IndexBytes(s.handles, hs).1
  {
    hide Table, D.IndexBytes, D.Handles, D.Rest;
    var r, b, d := D.Apply(s, e), D.IndexBytes(s.handles, hs).0, e.record + D.Rest(e.attributes);
    assert r.shaderRec == D.WithWords(s.shaderRec, s.handles, [], hs, d);
    assert i.shaderRec + b + Nops(0) + d == i.shaderRec + [] + b + d;
  }

  /** Everything that is written once there is room for it. */
  method InsertAll(cb: CommandBuffer, pos: uint32, frag: Stage, vert: Stage, coord: Stage, attributes: seq<D.Attribute>, ghost i: Image,
      ghost front: seq<byte>, ghost table: seq<uint32>, ghost hs: seq<uint32>, ghost lists: set<ControlList>, ghost cpa: ConsecutivePool)
      returns (ghost j: Image, ghost record: seq<byte>)
    requires Stages(frag, vert, coord) && |attributes| <= MAX_ATTRIBUTES && forall a :: a in attributes ==> |a.rest| == D.ATTRIBUTE_SIZE
    requires |table| + 3 + |attributes| < 0x1_0000_0000 && pos == |front| && pos + 4 * (3 + |attributes|) < 0x1_0000_0000
    requires hs == [frag.code, vert.code, coord.code] + D.Handles(attributes)
    requires Recording(cb, i, table, lists, cpa) && Filling(i.shaderRec, front, table, [], 3 + |attributes|, [])
    requires cb.shaderRecCl.CPA == cpa && cb.shaderRecCl.Placed() && D.RECORD_SIZE + D.ATTRIBUTE_SIZE * |attributes| <= cb.shaderRecCl.Room()
    requires cb.handlesCl.CPA == cpa && cb.handlesCl.Placed() && 4 * (3 + |attributes|) <= cb.handlesCl.Room()
    modifies cb.handlesCl`nextFreeByteOffset, cb.shaderRecCl`nextFreeByteOffset, cpa.buf
    ensures Recording(cb, j, D.IndexBytes(table, hs).1, lists, cpa) && j == i.(handles := j.handles, shaderRec := j.shaderRec)
    ensures Filling(j.shaderRec, front, table, hs, 0, record + D.Rest(attributes))
    ensures exists stale :: |stale| == 4 && record == RecordOf(frag, vert, stale, coord)
  {
    hide Recording, ControlList.Placed, ControlList.Room, Filling, D.IndexBytes, D.Handles, D.Rest, RecordOf;
    ghost var stale;
    j, stale := InsertShaderRecord(cb, pos, frag, vert, coord, i, front, table, 3 + |attributes|, lists, cpa);
    record := RecordOf(frag, vert, stale, coord);
    j := InsertAttributes(cb, pos + 12, attributes, j, front, table, [frag.code, vert.code, coord.code], record, lists, cpa);
  }

  /** What the record of a draw with n attributes asks of the lists, in the order of
      the clFits. */
  ghost function RecordAsks(cb: CommandBuffer, n: nat): (asks: seq<Ask>)
    requires cb.shaderRecCl.Placed() && cb.shaderRecRelocCl.Placed() && cb.handlesCl.Placed()
    reads cb.shaderRecCl, cb.shaderRecRelocCl, cb.handlesCl
  {
    [Ask(cb.shaderRecCl.At(), [RESERVED]), Ask(cb.shaderRecRelocCl.At(), [12, 4 * n]), Ask(cb.handlesCl.At(), [(3 + 8) * 4])]
  }

  /** The shader record of a draw with n <= 8 attributes. */
  method DrawShaderRecord(cb: CommandBuffer, frag: Stage, vert: Stage, coord: Stage, attributes: seq<D.Attribute>,
      ghost i: Image, ghost s: D.Sheet, ghost lists: set<ControlList>, ghost cpa: ConsecutivePool)
      returns (ok: bool, ghost j: Image, ghost e: D.Emit)
    requires Recording(cb, i, s.handles, lists, cpa) && Matches(i, s)
    requires Stages(frag, vert, coord) && |attributes| <= MAX_ATTRIBUTES && forall a :: a in attributes ==> |a.rest| == D.ATTRIBUTE_SIZE
    modifies cb.handlesCl, cb.shaderRecCl, cb.shaderRecRelocCl, cpa, cpa.buf
    ensures ok <==> ServeAll(cpa.layout, old(cpa.State()), old(RecordAsks(cb, |attributes|))).Some?
    ensures ok ==>
      && e.ShaderRecord? && e.code == [frag.code, vert.code, coord.code] && e.attributes == attributes
      && (exists stale :: |stale| == 4 && e.record == RecordOf(frag, vert, stale, coord))
      && D.Fits(s, e) && Recording(cb, j, D.Apply(s, e).handles, lists, cpa) && Matches(j, D.Apply(s, e))
  {
    hide Recording, ControlList.Placed, ControlList.Room, ControlList.Contents, Views, Filling, D.IndexBytes, Offsets, D.Handles, RecordOf,
      FitsAs, ServeAll, Serve, ControlList.At;
    j, e := i, D.Commands([]);
    var n := |attributes|;
    ghost var code := [frag.code, vert.code, coord.code];
    ghost var hs := code + D.Handles(attributes);
    RecordingList(cb, i, s.handles, cb.shaderRecCl, lists, cpa);
    RecordingList(cb, i, s.handles, cb.shaderRecRelocCl, lists, cpa);
    RecordingList(cb, i, s.handles, cb.handlesCl, lists, cpa);
    ghost var L, asks, s0 := cpa.layout, RecordAsks(cb, n), cpa.State();
    assert asks[1..][1..] == asks[2..] && asks[2..][1..] == [];
    NothingAsked(L);
    ok := Reserve(cb, cb.shaderRecCl, RESERVED, i, s.handles, lists, cpa);
    ghost var s1 := cpa.State();
    AskLast(L, s0, asks[0].place, RESERVED, ok, s1, PlaceOf(cb.shaderRecCl), asks);
    if !ok { return; }
    RecordingList(cb, i, s.handles, cb.shaderRecCl, lists, cpa);
    var pos := Position(cb.shaderRecCl);
    RoomToName(cb, i, s, code, attributes, lists, cpa);
    RecordingList(cb, i, s.handles, cb.shaderRecRelocCl, lists, cpa);
    ok, j := NoteOffsets(cb, pos, n, i, s.handles, s.shaderRec.offs, lists, cpa);
    ghost var s2 := cpa.State();
    AskAll(L, s1, asks[1..], ok, s2);
    if !ok { return; }
    j := FillNops(cb, 4 * (3 + n), j, s.handles, lists, cpa);
    NopsFilled(i.shaderRec, s.handles, 3 + n);
    RecordingList(cb, j, s.handles, cb.handlesCl, lists, cpa);
    ok := Reserve(cb, cb.handlesCl, (3 + 8) * 4, j, s.handles, lists, cpa);
    AskLast(L, s2, asks[2].place, (3 + 8) * 4, ok, cpa.State(), PlaceOf(cb.handlesCl), asks[2..]);
    if !ok { return; }
    ghost var record;
    j, record := InsertAll(cb, pos, frag, vert, coord, attributes, j, i.shaderRec, s.handles, hs, lists, cpa);
    e := D.ShaderRecord(code, record, attributes);
    RecordSize(frag, vert, coord, record);
    RecordMatches(i, s, e, hs, j);
  }

  lemma RecordSize(frag: Stage, vert: Stage, coord: Stage, record: seq<byte>)
    requires Stages(frag, vert, coord) && exists stale :: |stale| == 4 && record == RecordOf(frag, vert, stale, coord)
    ensures |record| == D.RECORD_SIZE
  {
  }

  lemma NopsFilled(front: seq<byte>, table: seq<uint32>, n: nat)
    requires |table| < 0x1_0000_0000
    ensures Filling(front + Nops(4 * n), front, table, [], n, [])
  {
    NoIndexBytes(table);
    assert front + [] + Nops(4 * n) + [] == front + Nops(4 * n);
  }

  /** A record of any content can be named and placed. */
  lemma RoomToName(cb: CommandBuffer, i: Image, s: D.Sheet, code: seq<uint32>, attributes: seq<D.Attribute>, lists: set<ControlList>, cpa: ConsecutivePool)
    requires Recording(cb, i, s.handles, lists, cpa) && Matches(i, s) && |code| == 3 && |attributes| <= MAX_ATTRIBUTES
    requires forall a :: a in attributes ==> |a.rest| == D.ATTRIBUTE_SIZE
    ensures forall record :: |record| == D.RECORD_SIZE ==> D.Fits(s, D.ShaderRecord(code, record, attributes))
    ensures |s.handles| + 3 + |attributes| < 0x1_0000_0000 && |i.shaderRec| + 4 * (3 + |attributes|) < 0x1_0000_0000
  {
    hide Recording, Offsets;
    RestLength(attributes);
    forall record: seq<byte> | |record| == D.RECORD_SIZE ensures D.Fits(s, D.ShaderRecord(code, record, attributes)) {
      RecordingFits(cb, i, s, D.ShaderRecord(code, record, attributes), lists, cpa);
    }
    RecordingFits(cb, i, s, D.Commands(Nops(100)), lists, cpa);
    RecordingFits(cb, i, s, D.ShaderRecord(code, Nops(D.RECORD_SIZE), attributes), lists, cpa);
  }

  lemma {:induction false} RestLength(attributes: seq<D.Attribute>)
    requires forall a :: a in attributes ==> |a.rest| == D.ATTRIBUTE_SIZE
    ensures |D.Rest(attributes)| == D.ATTRIBUTE_SIZE * |attributes|
  {
    if attributes != [] { RestLength(attributes[1..]); }
  }
}
