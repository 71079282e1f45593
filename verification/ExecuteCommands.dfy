/** vkCmdExecuteCommands as a whole: what the driver's stores leave in the pool is
    what Relocation.Execute says. */
module ExecuteCommands {
  import opened Bytes
  import opened Seqs
  import opened FreeList
  import opened ConsecutivePool
  import opened Markers
  import opened ControlLists
  import opened ListViews
  import opened Places
  import opened Forecast
  import opened RelocationLoops
  import opened CommandBuffers
  import R = Relocation

  /** One relocation loop of a secondary, over as many offsets as field f of its
      marker says. */
  method RewriteMarked(own: ControlList, f: nat, list: ControlList, relocs: ControlList, srcList: ControlList, handles: ControlList, bin: ControlList,
      marker: uint32, ghost m: seq<byte>, ghost offs: seq<uint32>, ghost src: seq<uint32>,
      ghost front: seq<byte>, ghost table: seq<uint32>, ghost lists: set<ControlList>, ghost cpa: ConsecutivePool)
      returns (out: Outcome)
    requires Sites(list, relocs, srcList, handles, bin) && {own, list, relocs, srcList} <= lists
    requires Target(handles, bin, front, table, lists, cpa)
    requires own.Placed() && own.Cursor() == Some(0) && f + 4 <= MARKER_SIZE
    requires relocs.Placed() && Word(own.Contents()[..MARKER_SIZE], f) == |relocs.Contents()|
    requires list.Placed() && srcList.Placed()
    requires m == list.Contents() && offs == Table(relocs.Contents()) && src == Table(srcList.Contents())
    requires R.IndexWords(m, offs, src) && |table| + |offs| < 0x1_0000_0000
    modifies handles, cpa, cpa.buf
    ensures EndsAs(EnterAll(cpa.layout, old(cpa.State()), old(handles.At()), |front|, table, HandlesAt(m, offs, src), marker != bin.currMarkerOffset),
      out, cpa.State(), Place(handles.first, handles.numBlocks, 0))
    ensures out == Done ==>
      && Target(handles, bin, front, R.Rewrite(m, offs, src, table).1, lists, cpa)
      && list.CPA == cpa && list.Placed() && list.Contents() == R.Rewrite(m, offs, src, table).0
      && Views(lists - {list, handles}, cpa) == old(Views(lists - {list, handles}, cpa))
  {
    hide Target, Word, Table, ControlList.Contents, ControlList.Room, Views, Pending, R.Rewrite, R.IndexWords, EnterAll, EndsAs, HandlesAt;
    own.StructInContents(0);
    var size := own.LoadField(f);
    ghost var (words, t) := R.Rewrite(m, offs, src, table);
    ghost var goal := Goal(offs, src, words, t, HandlesAt(m, offs, src));
    PendingAtFirst(m, table, goal);
    TargetLists(list, handles, bin, front, table, lists, cpa);
    out := RewriteList(list, relocs, size / 4, srcList, handles, bin, marker, goal, front, table, lists, cpa);
  }

  /** The primary has nothing in common with the secondary. */
  ghost predicate Foreign(cb: CommandBuffer, handles: ControlList, bin: ControlList) {
    handles !in cb.Lists() && bin !in cb.Lists() && handles != bin
  }

  /** What a secondary's index words are rewritten to, with the marker in place. */
  lemma RewrittenBin(i: Image, s: R.Secondary, t: seq<uint32>)
    requires MARKER_SIZE <= |i.bin| && s.bin == Zeros(MARKER_SIZE) + i.bin[MARKER_SIZE..]
    requires R.Recorded(s) && |t| + |s.binOffs| < 0x1_0000_0000
    ensures R.IndexWords(i.bin, s.binOffs, s.handles)
    ensures var (b, w) := R.Rewrite(i.bin, s.binOffs, s.handles, t);
      var (c, v) := R.Rewrite(s.bin, s.binOffs, s.handles, t);
      && |b| == |c| == |i.bin| && w == v
      && b[..MARKER_SIZE] == i.bin[..MARKER_SIZE] && b[MARKER_SIZE..] == c[MARKER_SIZE..]
  {
    hide R.Rewrite, R.IndexWords, Word;
    BlankTail(i.bin);
    BehindMarker(s);
    R.RewriteBehind(s.bin, i.bin, MARKER_SIZE, s.binOffs, s.handles, t);
  }

  lemma BlankTail(bin: seq<byte>)
    requires MARKER_SIZE <= |bin|
    ensures var b := Zeros(MARKER_SIZE) + bin[MARKER_SIZE..]; |b| == |bin| && b[MARKER_SIZE..] == bin[MARKER_SIZE..]
  {
  }

  lemma BehindMarker(s: R.Secondary)
    requires R.Recorded(s)
    ensures MARKER_SIZE <= |s.bin| && R.IndexWords(s.bin, s.binOffs, s.handles)
    ensures forall k :: 0 <= k < |s.binOffs| ==> MARKER_SIZE <= s.binOffs[k]
  {
    hide R.IndexWords;
  }

  /** The image of a secondary with image i once its index words are w's. */
  ghost predicate RewrittenImage(i: Image, w: R.Rewritten, j: Image)
    requires MARKER_SIZE <= |i.bin| && MARKER_SIZE <= |w.bin|
  {
    && j == i.(uniforms := w.uniforms, shaderRec := w.shaderRec, bin := j.bin)
    && |j.bin| == |i.bin| && j.bin[..MARKER_SIZE] == i.bin[..MARKER_SIZE] && j.bin[MARKER_SIZE..] == w.bin[MARKER_SIZE..]
  }

  /** The handles of the three loops, with the marker in place. */
  lemma HandlesInOrder(i: Image, s: R.Secondary) returns (hu: seq<uint32>, hb: seq<uint32>, hr: seq<uint32>)
    requires MARKER_SIZE <= |i.bin| && s.bin == Zeros(MARKER_SIZE) + i.bin[MARKER_SIZE..] && R.Recorded(s)
    ensures R.IndexWords(i.bin, s.binOffs, s.handles)
    ensures hu == HandlesAt(s.uniforms, s.uniformOffs, s.handles) && hb == HandlesAt(i.bin, s.binOffs, s.handles)
    ensures hr == HandlesAt(s.shaderRec, s.shaderRecOffs, s.handles) && hu + hb + hr == HandlesOf(s)
  {
    hide R.IndexWords, HandlesAt, R.Rewrite;
    BlankTail(i.bin);
    BehindMarker(s);
    SameHandles(s.bin, i.bin, MARKER_SIZE, s.binOffs, s.handles);
    hu, hb, hr := HandlesAt(s.uniforms, s.uniformOffs, s.handles), HandlesAt(i.bin, s.binOffs, s.handles),
      HandlesAt(s.shaderRec, s.shaderRecOffs, s.handles);
  }

  /** The three relocation loops. */
  method RewriteSecondary(cb: CommandBuffer, handles: ControlList, bin: ControlList, marker: uint32,
      ghost i: Image, ghost s: R.Secondary, ghost front: seq<byte>, ghost table: seq<uint32>, ghost lists: set<ControlList>, ghost cpa: ConsecutivePool)
      returns (out: Outcome, ghost j: Image)
    requires cb.Lists() <= lists && Foreign(cb, handles, bin) && Target(handles, bin, front, table, lists, cpa)
    requires Holds(cb, i, cpa) && MARKER_SIZE <= |i.bin| && Closed(i.bin[..MARKER_SIZE], LengthsOf(i))
    requires s == SecondaryOf(i, cb.shaderRecCount) && R.Recorded(s) && |table| + R.Relocations(s) < 0x1_0000_0000
    modifies handles, cpa, cpa.buf
    ensures EndsAs(EnterAll(cpa.layout, old(cpa.State()), old(handles.At()), |front|, table, HandlesOf(s), marker != bin.currMarkerOffset),
      out, cpa.State(), Place(handles.first, handles.numBlocks, 0))
    ensures out == Done ==>
      var w := R.RewriteAll(s, table);
      && Target(handles, bin, front, w.handles, lists, cpa)
      && Holds(cb, j, cpa) && RewrittenImage(i, w, j)
      && Views(lists - cb.Lists() - {handles}, cpa) == old(Views(lists - cb.Lists() - {handles}, cpa))
  {
    hide Target, Word, Table, ControlList.Contents, ControlList.Room, Views, R.Rewrite, R.IndexWords, R.SameMeaning, ControlList.Placed,
      EnterAll, EndsAs, HandlesAt, WithAll;
    j := i;
    TargetLists(cb.binCl, handles, bin, front, table, lists, cpa);
    ghost var L, from, stale, s0, h0 := cpa.layout, |front|, marker != bin.currMarkerOffset, cpa.State(), handles.At();
    ghost var hu, hb, hr := HandlesInOrder(i, s);
    ghost var others := lists - cb.Lists() - {handles};
    R.RewriteKeepsMeaning(s.uniforms, s.uniformOffs, s.handles, table);
    ghost var (u, t1) := R.Rewrite(s.uniforms, s.uniformOffs, s.handles, table);
    R.RewriteKeepsMeaning(s.bin, s.binOffs, s.handles, t1);
    RewrittenBin(i, s, t1);
    ghost var (b, t2) := R.Rewrite(i.bin, s.binOffs, s.handles, t1);
    R.RewriteKeepsMeaning(s.shaderRec, s.shaderRecOffs, s.handles, t2);
    out := RewriteMarked(cb.binCl, UNIFORM_RELOC_SIZE, cb.uniformsCl, cb.uniformRelocCl, cb.handlesCl, handles, bin, marker,
      s.uniforms, s.uniformOffs, s.handles, front, table, lists, cpa);
    ghost var s1, h1 := cpa.State(), Place(handles.first, handles.numBlocks, 0);
    RewriteEnters(s.uniforms, s.uniformOffs, s.handles, table);
    if out != Done {
      EntersShort(L, s0, h0, from, table, hu, hb, stale, out, s1, h1);
      EntersShort(L, s0, h0, from, table, hu + hb, hr, stale, out, s1, h1);
      return;
    }
    TargetLists(cb.uniformsCl, handles, bin, front, t1, lists, cpa);
    TargetLists(handles, handles, bin, front, t1, lists, cpa);
    EnterAllBlocks(L, s1, handles.At(), h1, from, t1, hb, stale);
    j := i.(uniforms := u);
    HoldsExcept(cb, i, cb.uniformsCl, j, lists - {cb.uniformsCl, handles}, cpa);
    FewerViews(others, lists - {cb.uniformsCl, handles}, cpa);
    label first:
    out := RewriteMarked(cb.binCl, GEM_RELOC_SIZE, cb.binCl, cb.gemRelocCl, cb.handlesCl, handles, bin, marker,
      i.bin, s.binOffs, s.handles, front, t1, lists, cpa);
    ghost var s2, h2 := cpa.State(), Place(handles.first, handles.numBlocks, 0);
    EntersOn(L, s0, h0, from, table, hu, hb, stale, s1, h1, out, s2, h2);
    RewriteEnters(i.bin, s.binOffs, s.handles, t1);
    WithAllSplit(table, hu, hb);
    if out != Done {
      EntersShort(L, s0, h0, from, table, hu + hb, hr, stale, out, s2, h2);
      return;
    }
    TargetLists(handles, handles, bin, front, t2, lists, cpa);
    EnterAllBlocks(L, s2, handles.At(), h2, from, t2, hr, stale);
    ghost var k := j.(bin := b);
    HoldsExcept@first(cb, j, cb.binCl, k, lists - {cb.binCl, handles}, cpa);
    FewerViews@first(others, lists - {cb.binCl, handles}, cpa);
    label second:
    out := RewriteMarked(cb.binCl, SHADER_REC_RELOC_SIZE, cb.shaderRecCl, cb.shaderRecRelocCl, cb.handlesCl, handles, bin, marker,
      s.shaderRec, s.shaderRecOffs, s.handles, front, t2, lists, cpa);
    EntersOn(L, s0, h0, from, table, hu + hb, hr, stale, s2, h2, out, cpa.State(), Place(handles.first, handles.numBlocks, 0));
    if out != Done { return; }
    j := k.(shaderRec := R.Rewrite(s.shaderRec, s.shaderRecOffs, s.handles, t2).0);
    HoldsExcept@second(cb, k, cb.shaderRecCl, j, lists - {cb.shaderRecCl, handles}, cpa);
    FewerViews@second(others, lists - {cb.shaderRecCl, handles}, cpa);
  }

  // ------------------------------------------------------------- appending

  /** clFit, as far as the other lists can see. */
  method FitTo(list: ControlList, size: uint32, ghost lists: set<ControlList>, ghost cpa: ConsecutivePool) returns (ok: bool)
    requires Apart(lists, cpa) && SmallPool(cpa) && list in lists && list.CPA == cpa && list.Placed() && size < 0x4000_0000
    modifies list, cpa, cpa.buf
    ensures FitsAs(cpa.layout, old(cpa.State()), old(list.At()), size, ok, cpa.State(), Place(list.first, list.numBlocks, 0))
    ensures ok ==>
      && Apart(lists, cpa) && list.Placed() && list.Contents() == old(list.Contents()) && list.Cursor() == old(list.Cursor())
      && size <= list.Room() && Views(lists - {list}, cpa) == old(Views(lists - {list}, cpa))
    ensures size <= old(list.Room()) ==> ok && unchanged(list)
  {
    hide Apart, ControlList.Owned, ControlList.CanFit, Views, FitsAs;
    ListIn(list, lists, cpa);
    RoomFits(list, size);
    ok := list.Fit(size, lists);
    if ok {
      AllPlaced(lists, cpa);
      ViewsKept(lists - {list}, cpa);
    }
  }

  method Insert(list: ControlList, data: seq<byte>, ghost lists: set<ControlList>, ghost cpa: ConsecutivePool)
    requires Apart(lists, cpa) && list in lists && list.CPA == cpa && list.Placed() && |data| <= list.Room()
    modifies list`nextFreeByteOffset, cpa.buf
    ensures Apart(lists, cpa) && list.Placed() && list.Contents() == old(list.Contents()) + data && list.Cursor() == old(list.Cursor())
    ensures Views(lists - {list}, cpa) == old(Views(lists - {list}, cpa)) && list.Room() == old(list.Room()) - |data|
  {
    hide Apart, ControlList.Owned, ControlList.CanFit, Views;
    list.InsertData(data, lists);
    AllPlaced(lists, cpa);
    ViewsKept(lists - {list}, cpa);
  }

  method ReadBytes(src: ControlList, at: uint32, size: uint32) returns (data: seq<byte>)
    requires src.Placed() && at + size <= |src.Contents()|
    ensures data == src.Contents()[at..at + size]
  {
    data := src.CPA.buf[src.offset + at..src.offset + at + size];
    SliceOfSlice(src.CPA.buf[..], src.offset, src.nextFreeByteOffset, at, at + size);
  }

  /** clFit and clInsertData with bytes at, ..., at + size - 1 of another list. */
  method AppendFrom(list: ControlList, src: ControlList, at: uint32, size: uint32, ghost data: seq<byte>,
      ghost lists: set<ControlList>, ghost cpa: ConsecutivePool)
      returns (ok: bool)
    requires Apart(lists, cpa) && SmallPool(cpa) && {list, src} <= lists && list != src && list.CPA == cpa && src.CPA == cpa
    requires list.Placed() && src.Placed() && at + size <= |src.Contents()| && data == src.Contents()[at..at + size]
    modifies list, cpa, cpa.buf
    ensures FitsAs(cpa.layout, old(cpa.State()), old(list.At()), size, ok, cpa.State(), Place(list.first, list.numBlocks, 0))
    ensures ok ==>
      && Apart(lists, cpa) && list.Placed() && list.Contents() == old(list.Contents()) + data && list.Cursor() == old(list.Cursor())
      && Views(lists - {list}, cpa) == old(Views(lists - {list}, cpa)) && list.At().used == old(list.At().used) + size
  {
    hide Apart, ControlList.CanFit, Views, ControlList.Contents, FitsAs;
    ok := FitTo(list, size, lists, cpa);
    if ok {
      AllPlaced(lists, cpa);
      ViewKept(src, lists - {list}, cpa);
      var bytes := ReadBytes(src, at, size);
      list.RoomIsSpace();
      Insert(list, bytes, lists, cpa);
      list.RoomIsSpace();
    }
  }

  /** The primary's marker stays open while its binning list only grows. */
  twostate lemma TargetStays(new handles: ControlList, new bin: ControlList, new front: seq<byte>,
        new table: seq<uint32>, new lists: set<ControlList>, new cpa: ConsecutivePool)
    requires old(allocated(handles)) && old(allocated(bin)) && old(allocated(lists)) && old(allocated(cpa))
    requires old(Target(handles, bin, front, table, lists, cpa)) && Apart(lists, cpa)
    requires handles.Placed() && handles.Contents() == old(handles.Contents())
    requires bin.Placed() && old(bin.Contents()) <= bin.Contents() && bin.Cursor() == old(bin.Cursor())
    ensures Target(handles, bin, front, table, lists, cpa)
  {
    hide Apart, Word, Table, ControlList.Contents, WholeWords, SmallPool;
    var cur := bin.Cursor().value;
    bin.StructInContents(cur);
    OldStruct(bin, cur);
    var m, r := old(bin.Contents()), bin.Contents();
    assert m == r[..|m|];
    assert r[cur..cur + MARKER_SIZE] == r[..|m|][cur..cur + MARKER_SIZE];
    assert OpenMarker(bin, |front|);
    assert WordsFrom(handles, |front|);
    assert HandlesFrom(handles, |front|) == table;
  }

  twostate lemma OldStruct(new bin: ControlList, new cur: nat)
    requires old(allocated(bin))
    requires old(bin.Placed()) && old(bin.currMarkerOffset) != NONE && cur == old(bin.currMarkerOffset) - old(bin.offset)
    ensures old(bin.Struct()) == old(bin.Contents())[cur..cur + MARKER_SIZE]
  {
    SliceOfSlice(old(bin.CPA.buf[..]), old(bin.offset), old(bin.nextFreeByteOffset), cur, cur + MARKER_SIZE);
  }

  /** numDrawCallsSubmitted of the primary's marker, n more. */
  method AddDrawCalls(handles: ControlList, bin: ControlList, n: uint32, ghost m: seq<byte>, ghost cur: nat,
      ghost front: seq<byte>, ghost table: seq<uint32>, ghost lists: set<ControlList>, ghost cpa: ConsecutivePool)
    requires Target(handles, bin, front, table, lists, cpa) && m == bin.Contents() && bin.Cursor() == Some(cur)
    requires cur + MARKER_SIZE <= |m|
    modifies cpa.buf
    ensures Target(handles, bin, front, table, lists, cpa) && bin.Contents() == R.AddDraws(m, cur, n)
    ensures Views(lists - {bin}, cpa) == old(Views(lists - {bin}, cpa))
  {
    hide Apart, Word, Table, ControlList.Contents, WholeWords, SmallPool, Views, SetWord, Splice, Plus;
    bin.StructInContents(cur);
    ghost var s := bin.Struct();
    ListIn(bin, lists, cpa);
    ListIn(handles, lists, cpa);
    var d := bin.LoadField(NUM_DRAW_CALLS);
    bin.StoreField(NUM_DRAW_CALLS, Plus(d, n), cur, lists);
    AllPlaced(lists, cpa);
    ViewsKept(lists - {bin}, cpa);
    handles.SpaceKept();
    DrawsAdded(m, cur, n, s);
  }

  lemma DrawsAdded(m: seq<byte>, cur: nat, n: uint32, s: seq<byte>)
    requires cur + MARKER_SIZE <= |m| && s == m[cur..cur + MARKER_SIZE]
    ensures var r := SetWord(s, NUM_DRAW_CALLS, Plus(Word(s, NUM_DRAW_CALLS), n));
      && Splice(m, cur, r) == R.AddDraws(m, cur, n)
      && Word(r, HANDLES_OFFSET) == Word(s, HANDLES_OFFSET) && Word(r, HANDLES_SIZE) == Word(s, HANDLES_SIZE)
  {
    hide Word, SetWord, Splice, Plus;
    WordInSlice(m, cur, cur + MARKER_SIZE, NUM_DRAW_CALLS);
    var w := Plus(Word(s, NUM_DRAW_CALLS), n);
    SetInside(m, cur, NUM_DRAW_CALLS, w);
    SetWordKeeps(s, NUM_DRAW_CALLS, w);
  }

  /** The primary command buffer holds p; its handle table starts behind front. */
  ghost predicate PrimaryIs(pb: CommandBuffer, p: R.Primary, front: seq<byte>, lists: set<ControlList>, cpa: ConsecutivePool)
    reads pb, lists, cpa, cpa.buf
  {
    && R.Open(p) && pb.Separate() && pb.Lists() <= lists && Target(pb.handlesCl, pb.binCl, front, p.handles, lists, cpa)
    && pb.binCl.Cursor() == Some(p.marker) && pb.binCl.Contents() == p.bin
    && pb.uniformsCl.Placed() && pb.uniformsCl.Contents() == p.uniforms
    && pb.shaderRecCl.Placed() && pb.shaderRecCl.Contents() == p.shaderRec
    && pb.shaderRecCount == p.count
  }

  /** The binning part: the commands behind the secondary's marker, and the draws
      it counted. */
  method AppendBinning(pb: CommandBuffer, own: ControlList, ghost p: R.Primary, ghost m: seq<byte>,
      ghost front: seq<byte>, ghost lists: set<ControlList>, ghost cpa: ConsecutivePool)
      returns (ok: bool)
    requires PrimaryIs(pb, p, front, lists, cpa) && own in lists && own !in pb.Lists() && own.CPA == cpa && own.Placed()
    requires own.Cursor() == Some(0) && m == own.Contents() && Word(m[..MARKER_SIZE], SIZE) + MARKER_SIZE == |m|
    modifies pb.binCl, cpa, cpa.buf
    ensures FitsAs(cpa.layout, old(cpa.State()), old(pb.binCl.At()), |m| - MARKER_SIZE, ok, cpa.State(), Place(pb.binCl.first, pb.binCl.numBlocks, 0))
    ensures ok ==>
      && PrimaryIs(pb, p.(bin := R.AddDraws(p.bin + m[MARKER_SIZE..], p.marker, Word(m[..MARKER_SIZE], NUM_DRAW_CALLS))), front, lists, cpa)
      && Views(lists - {pb.binCl}, cpa) == old(Views(lists - {pb.binCl}, cpa))
      && pb.binCl.At().used == old(pb.binCl.At().used) + (|m| - MARKER_SIZE)
  {
    hide Apart, Word, Target, ControlList.Contents, ControlList.Placed, ControlList.Room, ControlList.Struct, Views, R.AddDraws,
      ControlList.CanFit, SmallPool, FitsAs;
    ghost var handles, cur := pb.handlesCl, p.marker;
    TargetLists(pb.binCl, handles, pb.binCl, front, p.handles, lists, cpa);
    TargetApart(handles, pb.binCl, front, p.handles, lists, cpa);
    own.StructInContents(0);
    var size := own.LoadField(SIZE);
    ok := AppendFrom(pb.binCl, own, MARKER_SIZE, size, m[MARKER_SIZE..], lists, cpa);
    if ok {
      AllPlaced(lists, cpa);
      ViewKept(pb.handlesCl, lists - {pb.binCl}, cpa);
      ViewKept(own, lists - {pb.binCl}, cpa);
      ViewKept(pb.uniformsCl, lists - {pb.binCl}, cpa);
      ViewKept(pb.shaderRecCl, lists - {pb.binCl}, cpa);
      TargetStays(pb.handlesCl, pb.binCl, front, p.handles, lists, cpa);
      own.StructInContents(0);
      label appended:
      var draws := own.LoadField(NUM_DRAW_CALLS);
      AddDrawCalls(pb.handlesCl, pb.binCl, draws, p.bin + m[MARKER_SIZE..], cur, front, p.handles, lists, cpa);
      TargetApart(handles, pb.binCl, front, p.handles, lists, cpa);
      AllPlaced(lists, cpa);
      ViewKept@appended(pb.uniformsCl, lists - {pb.binCl}, cpa);
      ViewKept@appended(pb.shaderRecCl, lists - {pb.binCl}, cpa);
    }
  }

  lemma TargetApart(handles: ControlList, bin: ControlList, front: seq<byte>, table: seq<uint32>, lists: set<ControlList>, cpa: ConsecutivePool)
    requires Target(handles, bin, front, table, lists, cpa)
    ensures Apart(lists, cpa) && SmallPool(cpa) && handles in lists && bin in lists && handles != bin
  {
    hide Apart, OpenMarker, WordsFrom, HandlesFrom, ControlList.Contents;
  }

  /** The whole of a secondary's list src, as long as field f of its marker says,
      goes behind the primary's list. */
  method AppendWhole(pb: CommandBuffer, list: ControlList, own: ControlList, f: nat, src: ControlList, ghost p: R.Primary, ghost q: R.Primary,
      ghost front: seq<byte>, ghost lists: set<ControlList>, ghost cpa: ConsecutivePool)
      returns (ok: bool)
    requires PrimaryIs(pb, p, front, lists, cpa) && list in {pb.uniformsCl, pb.shaderRecCl}
    requires {own, src} <= lists && {own, src} !! pb.Lists() && own.CPA == src.CPA == cpa && own.Placed() && src.Placed()
    requires own.Cursor() == Some(0) && f + 4 <= MARKER_SIZE && Word(own.Contents()[..MARKER_SIZE], f) == |src.Contents()|
    requires q == if list == pb.uniformsCl then p.(uniforms := p.uniforms + src.Contents()) else p.(shaderRec := p.shaderRec + src.Contents())
    modifies list, cpa, cpa.buf
    ensures FitsAs(cpa.layout, old(cpa.State()), old(list.At()), old(|src.Contents()|), ok, cpa.State(), Place(list.first, list.numBlocks, 0))
    ensures ok ==>
      && PrimaryIs(pb, q, front, lists, cpa)
      && Views(lists - {list}, cpa) == old(Views(lists - {list}, cpa))
      && list.At().used == old(list.At().used) + old(|src.Contents()|)
  {
    hide Apart, Word, Target, ControlList.Contents, ControlList.Placed, ControlList.Room, ControlList.Struct, Views,
      ControlList.CanFit, SmallPool, FitsAs;
    ghost var data, handles, others := src.Contents(), pb.handlesCl, lists - {list};
    TargetLists(list, handles, pb.binCl, front, p.handles, lists, cpa);
    TargetApart(handles, pb.binCl, front, p.handles, lists, cpa);
    own.StructInContents(0);
    var size := own.LoadField(f);
    assert data[0..|data|] == data;
    ok := AppendFrom(list, src, 0, size, data, lists, cpa);
    if ok {
      AllPlaced(lists, cpa);
      ViewKept(handles, others, cpa);
      ViewKept(pb.binCl, others, cpa);
      ViewKept(if list == pb.uniformsCl then pb.shaderRecCl else pb.uniformsCl, others, cpa);
      TargetStays(handles, pb.binCl, front, p.handles, lists, cpa);
    }
  }

  /** Everything a secondary with image j appends to a primary p. */
  function Appended(p: R.Primary, j: Image, count: uint32): (r: R.Primary)
    requires R.Open(p) && MARKER_SIZE <= |j.bin|
  {
    R.Primary(R.AddDraws(p.bin + j.bin[MARKER_SIZE..], p.marker, Word(j.bin[..MARKER_SIZE], NUM_DRAW_CALLS)),
      p.uniforms + j.uniforms, p.shaderRec + j.shaderRec, p.handles, p.marker, Plus(p.count, count))
  }

  /** The pool, and where the primary's lists lie in it. */
  ghost function ClaimsOf(pb: CommandBuffer, cpa: ConsecutivePool): (g: Claims)
    requires pb.binCl.Placed() && pb.handlesCl.Placed() && pb.uniformsCl.Placed() && pb.shaderRecCl.Placed()
    reads cpa, pb.binCl, pb.handlesCl, pb.uniformsCl, pb.shaderRecCl
  {
    Claims(cpa.State(), pb.binCl.At(), Blocks(pb.handlesCl.At()), pb.uniformsCl.At(), pb.shaderRecCl.At())
  }

  method CountRecords(pb: CommandBuffer, count: uint32, ghost p: R.Primary, ghost front: seq<byte>, ghost lists: set<ControlList>, ghost cpa: ConsecutivePool)
    requires PrimaryIs(pb, p, front, lists, cpa)
    modifies pb`shaderRecCount
    ensures PrimaryIs(pb, p.(count := Plus(p.count, count)), front, lists, cpa)
    ensures pb.shaderRecCount == (old(pb.shaderRecCount) + count) % 0x1_0000_0000
  {
    hide Target, ControlList.Contents;
    pb.shaderRecCount := Plus(pb.shaderRecCount, count);
  }

  /** What a primary that is p counts and holds. */
  lemma PrimarySays(pb: CommandBuffer, p: R.Primary, front: seq<byte>, lists: set<ControlList>, cpa: ConsecutivePool)
    requires PrimaryIs(pb, p, front, lists, cpa)
    ensures pb.shaderRecCount == p.count && p.marker + MARKER_SIZE <= |p.bin|
    ensures pb.binCl.Placed() && pb.binCl.Contents() == p.bin
    ensures pb.uniformsCl.Placed() && pb.uniformsCl.Contents() == p.uniforms
    ensures pb.shaderRecCl.Placed() && pb.shaderRecCl.Contents() == p.shaderRec
    ensures pb.handlesCl.Placed() && HandlesFrom(pb.handlesCl, |front|) == p.handles
  {
    hide Apart, ControlList.Contents, WordsFrom, HandlesFrom, SmallPool;
    PlacedAgain(pb, p, front, lists, cpa);
  }

  /** The number of draws that the current marker says. */
  ghost function DrawsIn(bin: ControlList): (n: uint32)
    reads bin, bin.CPA.buf
  {
    if bin.Placed() && bin.Cursor().Some? then Word(bin.Struct(), 108) else 0
  }

  lemma PrimaryDraws(pb: CommandBuffer, p: R.Primary, front: seq<byte>, lists: set<ControlList>, cpa: ConsecutivePool)
    requires PrimaryIs(pb, p, front, lists, cpa)
    ensures p.marker + 112 <= |p.bin| && DrawsIn(pb.binCl) == Word(p.bin, p.marker + 108)
  {
    hide PrimaryIs, ControlList.Contents, Word;
    PrimarySays(pb, p, front, lists, cpa);
    PrimaryMarker(pb, p, front, lists, cpa);
    pb.binCl.StructInContents(p.marker);
    WordInSlice(p.bin, p.marker, p.marker + MARKER_SIZE, 108);
  }

  lemma PrimaryMarker(pb: CommandBuffer, p: R.Primary, front: seq<byte>, lists: set<ControlList>, cpa: ConsecutivePool)
    requires PrimaryIs(pb, p, front, lists, cpa)
    ensures pb.binCl.Cursor() == Some(p.marker)
  {
    hide Target;
  }

  lemma HoldsSizes(cb: CommandBuffer, j: Image, cpa: ConsecutivePool)
    requires Holds(cb, j, cpa) && MARKER_SIZE <= |j.bin| && Closed(j.bin[..MARKER_SIZE], LengthsOf(j))
    ensures cb.binCl.CPA == cpa && cb.binCl.Placed() && cb.binCl.Cursor() == Some(0) && cb.binCl.Contents() == j.bin
    ensures cb.uniformsCl.CPA == cpa && cb.uniformsCl.Placed() && cb.uniformsCl.Contents() == j.uniforms
    ensures cb.shaderRecCl.CPA == cpa && cb.shaderRecCl.Placed() && cb.shaderRecCl.Contents() == j.shaderRec
    ensures Word(j.bin[..MARKER_SIZE], SIZE) + MARKER_SIZE == |j.bin|
    ensures Word(j.bin[..MARKER_SIZE], UNIFORMS_SIZE) == |j.uniforms| && Word(j.bin[..MARKER_SIZE], SHADER_REC_SIZE) == |j.shaderRec|
  {
    hide Word, ControlList.Contents, ControlList.Placed;
  }

  function WithRest(p: R.Primary, j: Image, count: uint32): (r: R.Primary) {
    p.(uniforms := p.uniforms + j.uniforms, shaderRec := p.shaderRec + j.shaderRec, count := Plus(p.count, count))
  }

  /** The uniforms, the shader records and their count go behind the primary's. */
  method AppendRest(pb: CommandBuffer, cb: CommandBuffer, ghost p: R.Primary, ghost j: Image,
      ghost front: seq<byte>, ghost lists: set<ControlList>, ghost cpa: ConsecutivePool)
      returns (ok: bool)
    requires PrimaryIs(pb, p, front, lists, cpa) && cb != pb && cb.Lists() <= lists && cb.Lists() !! pb.Lists()
    requires Holds(cb, j, cpa) && MARKER_SIZE <= |j.bin| && Closed(j.bin[..MARKER_SIZE], LengthsOf(j))
    modifies pb`shaderRecCount, pb.uniformsCl, pb.shaderRecCl, cpa, cpa.buf
    ensures ok ==>
      && PrimaryIs(pb, WithRest(p, j, cb.shaderRecCount), front, lists, cpa)
      && Views(lists - {pb.uniformsCl, pb.shaderRecCl}, cpa) == old(Views(lists - {pb.uniformsCl, pb.shaderRecCl}, cpa))
    ensures ok ==> pb.shaderRecCount == (old(pb.shaderRecCount) + cb.shaderRecCount) % 0x1_0000_0000
    ensures var r := RestTo(cpa.layout, old(cpa.State()), old(pb.uniformsCl.At()), old(pb.shaderRecCl.At()), |j.uniforms|, |j.shaderRec|);
      if ok then r == Some((cpa.State(), pb.uniformsCl.At(), pb.shaderRecCl.At())) else r == None
  {
    hide Apart, Word, Target, ControlList.Contents, ControlList.Placed, ControlList.Room, ControlList.Struct,
      Views, ControlList.CanFit, SmallPool, Plus, PrimaryIs, Holds, Extended, FitsAs;
    PrimaryParts(pb, p, front, lists, cpa);
    HoldsSizes(cb, j, cpa);
    ghost var uni, rec, others := pb.uniformsCl, pb.shaderRecCl, lists - {pb.uniformsCl, pb.shaderRecCl};
    PlacedAgain(pb, p, front, lists, cpa);
    ghost var r := p.(uniforms := p.uniforms + j.uniforms);
    ghost var L, s, u := cpa.layout, cpa.State(), uni.At();
    ok := AppendWhole(pb, pb.uniformsCl, cb.binCl, UNIFORMS_SIZE, cb.uniformsCl, p, r, front, lists, cpa);
    if !ok {
      ExtendedAs(L, s, u, |j.uniforms|, ok, cpa.State(), Place(uni.first, uni.numBlocks, 0), u);
      return;
    }
    FewerViews(others, lists - {uni}, cpa);
    PlacedAgain(pb, r, front, lists, cpa);
    ExtendedAs(L, s, u, |j.uniforms|, ok, cpa.State(), Place(uni.first, uni.numBlocks, 0), uni.At());
    HoldsKept(cb, j, lists - {uni}, cpa);
    HoldsSizes(cb, j, cpa);
    ViewKept(rec, lists - {uni}, cpa);
    label second:
    ghost var t := r.(shaderRec := r.shaderRec + j.shaderRec);
    ghost var v, c := cpa.State(), rec.At();
    ok := AppendWhole(pb, pb.shaderRecCl, cb.binCl, SHADER_REC_SIZE, cb.shaderRecCl, r, t, front, lists, cpa);
    if !ok {
      ExtendedAs(L, v, c, |j.shaderRec|, ok, cpa.State(), Place(rec.first, rec.numBlocks, 0), c);
      return;
    }
    FewerViews@second(others, lists - {rec}, cpa);
    PlacedAgain(pb, t, front, lists, cpa);
    ExtendedAs(L, v, c, |j.shaderRec|, ok, cpa.State(), Place(rec.first, rec.numBlocks, 0), rec.At());
    ViewKept@second(uni, lists - {rec}, cpa);
    CountRecords(pb, cb.shaderRecCount, t, front, lists, cpa);
  }

  /** The copying at the end of the loop body of vkCmdExecuteCommands. */
  method AppendSecondary(pb: CommandBuffer, cb: CommandBuffer, ghost p: R.Primary, ghost j: Image,
      ghost front: seq<byte>, ghost lists: set<ControlList>, ghost cpa: ConsecutivePool)
      returns (ok: bool)
    requires PrimaryIs(pb, p, front, lists, cpa) && cb != pb && cb.Lists() <= lists && cb.Lists() !! pb.Lists()
    requires Holds(cb, j, cpa) && MARKER_SIZE <= |j.bin| && Closed(j.bin[..MARKER_SIZE], LengthsOf(j))
    modifies pb`shaderRecCount, pb.binCl, pb.uniformsCl, pb.shaderRecCl, cpa, cpa.buf
    ensures ok ==>
      && PrimaryIs(pb, Appended(p, j, cb.shaderRecCount), front, lists, cpa)
      && Views(lists - {pb.binCl, pb.uniformsCl, pb.shaderRecCl}, cpa) == old(Views(lists - {pb.binCl, pb.uniformsCl, pb.shaderRecCl}, cpa))
    ensures ok ==> pb.shaderRecCount == (old(pb.shaderRecCount) + cb.shaderRecCount) % 0x1_0000_0000
    ensures var r := AppendedTo(cpa.layout, old(ClaimsOf(pb, cpa)), |j.bin| - MARKER_SIZE, |j.uniforms|, |j.shaderRec|);
      if ok then r == Some(ClaimsOf(pb, cpa)) else r == None
  {
    hide Apart, Word, Target, ControlList.Contents, ControlList.Placed, ControlList.Room, ControlList.Struct,
      Views, R.AddDraws, ControlList.CanFit, SmallPool, Plus, PrimaryIs, Holds, WithRest, Appended, Extended, FitsAs, RestTo;
    PrimaryParts(pb, p, front, lists, cpa);
    HoldsSizes(cb, j, cpa);
    ghost var bin, uni, rec := pb.binCl, pb.uniformsCl, pb.shaderRecCl;
    ghost var others := lists - {bin, uni, rec};
    ghost var q := p.(bin := R.AddDraws(p.bin + j.bin[MARKER_SIZE..], p.marker, Word(j.bin[..MARKER_SIZE], NUM_DRAW_CALLS)));
    PlacedAgain(pb, p, front, lists, cpa);
    ghost var L, s, b := cpa.layout, cpa.State(), bin.At();
    ok := AppendBinning(pb, cb.binCl, p, j.bin, front, lists, cpa);
    if !ok {
      ExtendedAs(L, s, b, |j.bin| - MARKER_SIZE, ok, cpa.State(), Place(bin.first, bin.numBlocks, 0), b);
      return;
    }
    FewerViews(others, lists - {bin}, cpa);
    PlacedAgain(pb, q, front, lists, cpa);
    ExtendedAs(L, s, b, |j.bin| - MARKER_SIZE, ok, cpa.State(), Place(bin.first, bin.numBlocks, 0), bin.At());
    HoldsKept(cb, j, lists - {bin}, cpa);
    ViewKept(uni, lists - {bin}, cpa);
    ViewKept(rec, lists - {bin}, cpa);
    label first:
    ok := AppendRest(pb, cb, q, j, front, lists, cpa);
    if !ok { return; }
    FewerViews@first(others, lists - {uni, rec}, cpa);
    PlacedAgain(pb, WithRest(q, j, cb.shaderRecCount), front, lists, cpa);
    ViewKept@first(bin, lists - {uni, rec}, cpa);
    AppendedIs(p, q, j, cb.shaderRecCount);
  }

  lemma AppendedIs(p: R.Primary, q: R.Primary, j: Image, count: uint32)
    requires R.Open(p) && MARKER_SIZE <= |j.bin|
    requires q == p.(bin := R.AddDraws(p.bin + j.bin[MARKER_SIZE..], p.marker, Word(j.bin[..MARKER_SIZE], NUM_DRAW_CALLS)))
    ensures WithRest(q, j, count) == Appended(p, j, count)
  {
    hide Word, R.AddDraws, Plus;
  }

  lemma PrimaryParts(pb: CommandBuffer, p: R.Primary, front: seq<byte>, lists: set<ControlList>, cpa: ConsecutivePool)
    requires PrimaryIs(pb, p, front, lists, cpa)
    ensures R.Open(p) && pb.Separate() && pb.Lists() <= lists
  {
    hide Target;
  }

  /** All lists are in place. */
  lemma PlacedAgain(pb: CommandBuffer, p: R.Primary, front: seq<byte>, lists: set<ControlList>, cpa: ConsecutivePool)
    requires PrimaryIs(pb, p, front, lists, cpa)
    ensures forall d :: d in lists ==> d.CPA == cpa && d.Placed()
  {
    hide Apart, ControlList.Contents, OpenMarker, WordsFrom, HandlesFrom, SmallPool;
    AllPlaced(lists, cpa);
  }

  // ------------------------------------------------------ the whole command

  /** Rewriting and appending is executing. */
  lemma AppendedIsExecuted(p: R.Primary, i: Image, s: R.Secondary, j: Image, count: uint32)
    requires R.Open(p) && MARKER_SIZE <= |i.bin| && s == SecondaryOf(i, count)
    requires R.Recorded(s) && |p.handles| + R.Relocations(s) < 0x1_0000_0000
    requires RewrittenImage(i, R.RewriteAll(s, p.handles), j)
    ensures MARKER_SIZE <= |j.bin| && Appended(p.(handles := R.RewriteAll(s, p.handles).handles), j, count) == R.ExecuteOne(p, s)
  {
    hide R.RewriteAll, R.Recorded, R.AddDraws;
  }

  /** The primary does not change while other lists do. */
  twostate lemma PrimaryStays(new pb: CommandBuffer, new p: R.Primary, new q: R.Primary,
        new ls: set<ControlList>, new front: seq<byte>, new lists: set<ControlList>, new cpa: ConsecutivePool)
    requires old(allocated(pb)) && old(allocated(ls)) && old(allocated(lists)) && old(allocated(cpa))
    requires old(PrimaryIs(pb, p, front, lists, cpa)) && Target(pb.handlesCl, pb.binCl, front, q.handles, lists, cpa)
    requires Views(ls, cpa) == old(Views(ls, cpa)) && {pb.binCl, pb.uniformsCl, pb.shaderRecCl} <= ls
    requires q == p.(handles := q.handles) && pb.shaderRecCount == old(pb.shaderRecCount)
    ensures PrimaryIs(pb, q, front, lists, cpa)
  {
    hide Target, ControlList.Contents, ControlList.Cursor, ControlList.Room, ControlList.Placed, Views;
    var handles, bin := pb.handlesCl, pb.binCl;
    TargetLists(bin, handles, bin, front, q.handles, lists, cpa);
    TargetLists(pb.uniformsCl, handles, bin, front, q.handles, lists, cpa);
    TargetLists(pb.shaderRecCl, handles, bin, front, q.handles, lists, cpa);
    ViewKept(bin, ls, cpa);
    ViewKept(pb.uniformsCl, ls, cpa);
    ViewKept(pb.shaderRecCl, ls, cpa);
  }

  /** The target does not change while other lists do. */
  twostate lemma TargetKept(new handles: ControlList, new bin: ControlList, new front: seq<byte>,
        new table: seq<uint32>, new ls: set<ControlList>, new lists: set<ControlList>, new cpa: ConsecutivePool)
    requires old(allocated(handles)) && old(allocated(bin)) && old(allocated(ls)) && old(allocated(lists)) && old(allocated(cpa))
    requires old(Target(handles, bin, front, table, lists, cpa)) && Apart(lists, cpa)
    requires Views(ls, cpa) == old(Views(ls, cpa)) && {handles, bin} <= ls && {handles, bin} <= lists
    ensures Target(handles, bin, front, table, lists, cpa)
  {
    hide Apart, Target, ControlList.Contents, ControlList.Cursor, ControlList.Room, ControlList.Placed, Views;
    AllPlaced(lists, cpa);
    ViewKept(handles, ls, cpa);
    ViewKept(bin, ls, cpa);
    TargetStays(handles, bin, front, table, lists, cpa);
  }

  lemma LongEnough(i: Image)
    requires Single(i)
    ensures MARKER_SIZE <= |i.bin|
  {
  }

  /** Rewriting index words keeps all lengths, and the marker closed. */
  lemma ImageSizes(i: Image, s: R.Secondary, count: uint32, table: seq<uint32>, j: Image)
    requires MARKER_SIZE <= |i.bin| && s == SecondaryOf(i, count) && Closed(i.bin[..MARKER_SIZE], LengthsOf(i))
    requires R.Recorded(s) && |table| + R.Relocations(s) < 0x1_0000_0000 && RewrittenImage(i, R.RewriteAll(s, table), j)
    ensures MARKER_SIZE <= |j.bin| == |s.bin| && |j.uniforms| == |s.uniforms| && |j.shaderRec| == |s.shaderRec|
    ensures Closed(j.bin[..MARKER_SIZE], LengthsOf(j))
  {
    hide Word, R.RewriteAll, R.Recorded;
  }

  /** The lists that a command changes are in place. */
  lemma PrimaryPlaced(pb: CommandBuffer, p: R.Primary, front: seq<byte>, lists: set<ControlList>, cpa: ConsecutivePool)
    requires PrimaryIs(pb, p, front, lists, cpa)
    ensures pb.binCl.Placed() && pb.handlesCl.Placed() && pb.uniformsCl.Placed() && pb.shaderRecCl.Placed()
    ensures cpa.layout.blockSize > 0
  {
    hide PrimaryIs, ControlList.Placed;
    PrimaryParts(pb, p, front, lists, cpa);
    PlacedAgain(pb, p, front, lists, cpa);
    assert pb.binCl.CPA == cpa && pb.binCl.At().blocks > 0;
  }

  /** The first half of the loop body: the secondary is closed and its index words
      are rewritten. marker is where the primary's marker was before the loop, in a
      list that started at block origin. */
  method CloseAndRewrite(pb: CommandBuffer, cb: CommandBuffer, marker: uint32, ghost p: R.Primary, ghost i: Image, ghost s: R.Secondary,
      ghost origin: nat, ghost front: seq<byte>, ghost lists: set<ControlList>, ghost cpa: ConsecutivePool)
      returns (out: Outcome, ghost q: R.Primary, ghost k: Image)
    requires PrimaryIs(pb, p, front, lists, cpa) && cb != pb && cb.Lists() <= lists && cb.Lists() !! pb.Lists()
    requires Holds(cb, i, cpa) && Single(i) && s == SecondaryOf(i, cb.shaderRecCount)
    requires R.Recorded(s) && |p.handles| + R.Relocations(s) < 0x1_0000_0000 && pb.handlesCl.Placed()
    requires marker == pb.binCl.currMarkerOffset <==> pb.binCl.first == origin
    modifies pb.handlesCl, cpa, cpa.buf
    ensures EndsAs(EnterAll(cpa.layout, old(cpa.State()), old(pb.handlesCl.At()), |front|, p.handles, HandlesOf(s), pb.binCl.first != origin),
      out, cpa.State(), Place(pb.handlesCl.first, pb.handlesCl.numBlocks, 0))
    ensures out == Done ==>
      && PrimaryIs(pb, q, front, lists, cpa) && Holds(cb, k, cpa) && MARKER_SIZE <= |k.bin| && Closed(k.bin[..MARKER_SIZE], LengthsOf(k))
      && |k.bin| - MARKER_SIZE == Commands(s) && |k.uniforms| == |s.uniforms| && |k.shaderRec| == |s.shaderRec|
      && Appended(q, k, cb.shaderRecCount) == R.ExecuteOne(p, s)
      && Views(lists - pb.Lists() - cb.Lists(), cpa) == old(Views(lists - pb.Lists() - cb.Lists(), cpa))
  {
    hide Apart, Target, ControlList.Contents, ControlList.Room, Views, R.RewriteAll, R.Recorded,
      R.ExecuteOne, Single, Holds, Appended, ControlList.Placed, SecondaryOf, Closed, RewrittenImage, SmallPool, R.Relocations,
      EnterAll, EndsAs, HandlesOf;
    PlacedAgain(pb, p, front, lists, cpa);
    var handles, bin := pb.handlesCl, pb.binCl;
    ghost var others := lists - pb.Lists() - cb.Lists();
    TargetApart(handles, bin, front, p.handles, lists, cpa);
    TargetLists(bin, handles, bin, front, p.handles, lists, cpa);
    ghost var j := CloseSecondary(cb, i, lists, cpa);
    LongEnough(i);
    LongEnough(j);
    TargetKept(handles, bin, front, p.handles, lists - {cb.binCl}, lists, cpa);
    PrimaryStays(pb, p, p, lists - {cb.binCl}, front, lists, cpa);
    FewerViews(others, lists - {cb.binCl}, cpa);
    label closed:
    q, k := p, j;
    out, k := RewriteSecondary(cb, handles, bin, marker, j, s, front, p.handles, lists, cpa);
    if out == Done {
      q := p.(handles := R.RewriteAll(s, p.handles).handles);
      PrimaryStays@closed(pb, p, q, lists - cb.Lists() - {handles}, front, lists, cpa);
      FewerViews@closed(others, lists - cb.Lists() - {handles}, cpa);
      ImageSizes(j, s, cb.shaderRecCount, p.handles, k);
      AppendedIsExecuted(p, j, s, k, cb.shaderRecCount);
    }
  }

  lemma SumsReached(pb: CommandBuffer, q: R.Primary, records: uint32, draws: uint32, front: seq<byte>, lists: set<ControlList>, cpa: ConsecutivePool)
    requires PrimaryIs(pb, q, front, lists, cpa) && q.marker + 112 <= |q.bin| && records == q.count && draws == Word(q.bin, q.marker + 108)
    ensures pb.shaderRecCount == records && DrawsIn(pb.binCl) == draws
  {
    hide PrimaryIs, DrawsIn, Word;
    PrimarySays(pb, q, front, lists, cpa);
    PrimaryDraws(pb, q, front, lists, cpa);
  }

  /** What the counts will be behind one secondary. */
  lemma OneSum(pb: CommandBuffer, p: R.Primary, s: R.Secondary, front: seq<byte>, lists: set<ControlList>, cpa: ConsecutivePool)
      returns (records: uint32, draws: uint32)
    requires PrimaryIs(pb, p, front, lists, cpa) && R.Open(p) && R.Recorded(s) && |p.handles| + R.Relocations(s) < 0x1_0000_0000
    ensures records == (pb.shaderRecCount + s.count) % 0x1_0000_0000 && draws == (DrawsIn(pb.binCl) + s.draws) % 0x1_0000_0000
    ensures var r := R.ExecuteOne(p, s);
      r.marker + 112 <= |r.bin| && records == r.count && draws == Word(r.bin, r.marker + 108)
  {
    hide PrimaryIs, DrawsIn, Word, R.ExecuteOne, R.Recorded;
    PrimarySays(pb, p, front, lists, cpa);
    PrimaryDraws(pb, p, front, lists, cpa);
    R.ExecuteOneCounts(p, s);
    records, draws := R.ExecuteOne(p, s).count, Word(R.ExecuteOne(p, s).bin, p.marker + 108);
  }

  /** The loop body of vkCmdExecuteCommands. */
  method ExecuteOne(pb: CommandBuffer, cb: CommandBuffer, marker: uint32, ghost p: R.Primary, ghost i: Image, ghost s: R.Secondary, ghost origin: nat,
      ghost front: seq<byte>, ghost lists: set<ControlList>, ghost cpa: ConsecutivePool)
      returns (out: Outcome)
    requires PrimaryIs(pb, p, front, lists, cpa) && cb != pb && cb.Lists() <= lists && cb.Lists() !! pb.Lists()
    requires Holds(cb, i, cpa) && Single(i) && s == SecondaryOf(i, cb.shaderRecCount)
    requires R.Recorded(s) && |p.handles| + R.Relocations(s) < 0x1_0000_0000
    requires marker == pb.binCl.currMarkerOffset <==> pb.binCl.first == origin
    modifies pb`shaderRecCount, pb.binCl, pb.uniformsCl, pb.shaderRecCl, pb.handlesCl, cpa, cpa.buf
    ensures out == Body(cpa.layout, old(ClaimsOf(pb, cpa)), |front|, p.handles, s, origin).out
    ensures out == Done ==>
      && PrimaryIs(pb, R.ExecuteOne(p, s), front, lists, cpa)
      && Views(lists - pb.Lists() - cb.Lists(), cpa) == old(Views(lists - pb.Lists() - cb.Lists(), cpa))
      && ClaimsOf(pb, cpa) == Body(cpa.layout, old(ClaimsOf(pb, cpa)), |front|, p.handles, s, origin).claims
      && pb.shaderRecCount == (old(pb.shaderRecCount) + cb.shaderRecCount) % 0x1_0000_0000
      && DrawsIn(pb.binCl) == (old(DrawsIn(pb.binCl)) + s.draws) % 0x1_0000_0000
  {
    hide PrimaryIs, Views, R.Recorded, R.ExecuteOne, Single, Holds, Appended, ControlList.Placed, SecondaryOf, Closed, R.Relocations,
      Body, EnterAll, EndsAs, AppendedTo, HandlesOf, Commands, DrawsIn, Word, ClaimsOf, CommandBuffer.Lists;
    PrimaryPlaced(pb, p, front, lists, cpa);
    PrimaryParts(pb, p, front, lists, cpa);
    ghost var records, draws := OneSum(pb, p, s, front, lists, cpa);
    ghost var L, g, h, k, q := cpa.layout, ClaimsOf(pb, cpa), pb.handlesCl.At(), i, p;
    ghost var others := lists - pb.Lists() - cb.Lists();
    out, q, k := CloseAndRewrite(pb, cb, marker, p, i, s, origin, front, lists, cpa);
    ghost var g' := ClaimsRewritten(pb, g, h, cpa);
    BodyEnds(L, g, h, |front|, p.handles, s, origin, out, g');
    if out != Done { return; }
    PrimaryPlaced(pb, q, front, lists, cpa);
    var ok := AppendRewritten(pb, cb, q, R.ExecuteOne(p, s), k, front, others, lists, cpa);
    if !ok {
      out := PoolLost;
      return;
    }
    SumsReached(pb, R.ExecuteOne(p, s), records, draws, front, lists, cpa);
  }

  /** While index words are rewritten only the handle list can move. */
  twostate lemma ClaimsRewritten(new pb: CommandBuffer, new g: Claims, new h: Place, new cpa: ConsecutivePool) returns (now: Claims)
    requires old(allocated(pb)) && old(allocated(cpa))
    requires old(pb.binCl.Placed() && pb.handlesCl.Placed() && pb.uniformsCl.Placed() && pb.shaderRecCl.Placed())
    requires g == old(ClaimsOf(pb, cpa)) && h == old(pb.handlesCl.At()) && unchanged(pb.binCl) && unchanged(pb.uniformsCl) && unchanged(pb.shaderRecCl)
    ensures now == g.(pool := cpa.State(), handles := Place(pb.handlesCl.first, pb.handlesCl.numBlocks, 0))
    ensures g.handles == Blocks(h) && now.handles == Blocks(now.handles) && g.pool == old(cpa.State()) && g.bin.first == old(pb.binCl.first)
    ensures pb.handlesCl.Placed() ==> pb.binCl.Placed() && pb.uniformsCl.Placed() && pb.shaderRecCl.Placed() && ClaimsOf(pb, cpa) == now
  {
    now := g.(pool := cpa.State(), handles := Place(pb.handlesCl.first, pb.handlesCl.numBlocks, 0));
  }

  /** The second half: what is appended makes the primary r. */
  method AppendRewritten(pb: CommandBuffer, cb: CommandBuffer, ghost q: R.Primary, ghost r: R.Primary, ghost k: Image,
      ghost front: seq<byte>, ghost others: set<ControlList>, ghost lists: set<ControlList>, ghost cpa: ConsecutivePool)
      returns (ok: bool)
    requires PrimaryIs(pb, q, front, lists, cpa) && cb != pb && cb.Lists() <= lists && cb.Lists() !! pb.Lists()
    requires Holds(cb, k, cpa) && MARKER_SIZE <= |k.bin| && Closed(k.bin[..MARKER_SIZE], LengthsOf(k))
    requires r == Appended(q, k, cb.shaderRecCount) && others <= lists - pb.Lists()
    modifies pb`shaderRecCount, pb.binCl, pb.uniformsCl, pb.shaderRecCl, cpa, cpa.buf
    ensures ok ==>
      && PrimaryIs(pb, r, front, lists, cpa) && Views(others, cpa) == old(Views(others, cpa))
      && pb.binCl.Placed() && pb.handlesCl.Placed() && pb.uniformsCl.Placed() && pb.shaderRecCl.Placed()
      && pb.shaderRecCount == (old(pb.shaderRecCount) + cb.shaderRecCount) % 0x1_0000_0000
    ensures var t := AppendedTo(cpa.layout, old(ClaimsOf(pb, cpa)), |k.bin| - MARKER_SIZE, |k.uniforms|, |k.shaderRec|);
      if ok then t == Some(ClaimsOf(pb, cpa)) else t == None
  {
    hide PrimaryIs, Views, Holds, Appended, ControlList.Placed, Closed, AppendedTo;
    PrimaryParts(pb, q, front, lists, cpa);
    ok := AppendSecondary(pb, cb, q, k, front, lists, cpa);
    if ok {
      FewerViews(others, lists - {pb.binCl, pb.uniformsCl, pb.shaderRecCl}, cpa);
      PrimaryPlaced(pb, r, front, lists, cpa);
    }
  }

  /** The c-th secondary is recorded, holds ss[c], and shares no list. */
  ghost predicate Waiting(pb: CommandBuffer, secondaries: seq<CommandBuffer>, images: seq<Image>, ss: seq<R.Secondary>, c: nat,
      lists: set<ControlList>, cpa: ConsecutivePool)
    requires c < |secondaries| == |images| == |ss|
    reads secondaries, lists, cpa.buf
  {
    var cb := secondaries[c];
    && cb != pb && cb.Lists() <= lists && cb.Lists() !! pb.Lists()
    && Holds(cb, images[c], cpa) && Single(images[c]) && ss[c] == SecondaryOf(images[c], cb.shaderRecCount) && R.Recorded(ss[c])
    && forall d :: 0 <= d < |secondaries| && d != c ==> secondaries[d].Lists() !! cb.Lists()
  }

  /** A secondary waits undisturbed while another one is executed. */
  twostate lemma StillWaiting(new pb: CommandBuffer, new secondaries: seq<CommandBuffer>, new images: seq<Image>, new ss: seq<R.Secondary>,
        new c: nat, new d: nat, new lists: set<ControlList>, new cpa: ConsecutivePool)
    requires old(allocated(pb)) && old(allocated(secondaries)) && old(allocated(lists)) && old(allocated(cpa))
    requires c < d < |secondaries| == |images| == |ss| && old(Waiting(pb, secondaries, images, ss, d, lists, cpa))
    requires Views(lists - pb.Lists() - secondaries[c].Lists(), cpa) == old(Views(lists - pb.Lists() - secondaries[c].Lists(), cpa))
    requires (forall l :: l in lists ==> l.Placed()) && secondaries[d].shaderRecCount == old(secondaries[d].shaderRecCount)
    ensures Waiting(pb, secondaries, images, ss, d, lists, cpa)
  {
    hide Holds, Single, SecondaryOf, Views, ControlList.Placed, R.Recorded;
    assert secondaries[c].Lists() !! secondaries[d].Lists();
    HoldsKept(secondaries[d], images[d], lists - pb.Lists() - secondaries[c].Lists(), cpa);
  }

  /** From the c-th on. */
  ghost predicate AllWaiting(pb: CommandBuffer, secondaries: seq<CommandBuffer>, images: seq<Image>, ss: seq<R.Secondary>, c: nat,
      lists: set<ControlList>, cpa: ConsecutivePool)
    reads secondaries, lists, cpa.buf
  {
    && |secondaries| == |images| == |ss|
    && forall d :: c <= d < |secondaries| ==> Waiting(pb, secondaries, images, ss, d, lists, cpa)
  }

  lemma NextWaiting(pb: CommandBuffer, secondaries: seq<CommandBuffer>, images: seq<Image>, ss: seq<R.Secondary>, c: nat,
      lists: set<ControlList>, cpa: ConsecutivePool)
    requires c < |secondaries| && AllWaiting(pb, secondaries, images, ss, c, lists, cpa)
    ensures Waiting(pb, secondaries, images, ss, c, lists, cpa)
    ensures forall d :: c <= d < |secondaries| ==> secondaries[d] != pb
  {
    hide Holds, Single, SecondaryOf, R.Recorded;
    forall d | c <= d < |secondaries| ensures secondaries[d] != pb {
      assert Waiting(pb, secondaries, images, ss, d, lists, cpa);
    }
  }

  twostate lemma OthersWait(new pb: CommandBuffer, new secondaries: seq<CommandBuffer>, new images: seq<Image>,
        new ss: seq<R.Secondary>, new c: nat, new lists: set<ControlList>, new cpa: ConsecutivePool)
    requires old(allocated(pb)) && old(allocated(secondaries)) && old(allocated(lists)) && old(allocated(cpa))
    requires c < |secondaries| && old(AllWaiting(pb, secondaries, images, ss, c, lists, cpa))
    requires Views(lists - pb.Lists() - secondaries[c].Lists(), cpa) == old(Views(lists - pb.Lists() - secondaries[c].Lists(), cpa))
    requires forall l :: l in lists ==> l.Placed()
    requires forall d :: c < d < |secondaries| ==> secondaries[d].shaderRecCount == old(secondaries[d].shaderRecCount)
    ensures AllWaiting(pb, secondaries, images, ss, c + 1, lists, cpa)
  {
    hide Waiting, Views, ControlList.Placed;
    forall d | c < d < |secondaries| ensures Waiting(pb, secondaries, images, ss, d, lists, cpa) {
      StillWaiting(pb, secondaries, images, ss, c, d, lists, cpa);
    }
  }

  /** The marker is where it was exactly when its list is. */
  lemma MarkerMoved(pb: CommandBuffer, p: R.Primary, front: seq<byte>, lists: set<ControlList>, cpa: ConsecutivePool, origin: nat, marker: uint32)
    requires PrimaryIs(pb, p, front, lists, cpa) && marker == cpa.layout.Off(origin) + p.marker
    ensures marker == pb.binCl.currMarkerOffset <==> pb.binCl.first == origin
  {
    hide Apart, ControlList.Contents, WordsFrom, HandlesFrom, SmallPool, Word;
    PlacedAgain(pb, p, front, lists, cpa);
    AddrInjective(cpa.layout, pb.binCl.first, origin);
  }

  /** Before a secondary: the primary is q, ss is left to execute, and it will end as
      foretold. */
  ghost predicate Executing(pb: CommandBuffer, q: R.Primary, ss: seq<R.Secondary>, origin: nat, marker: uint32, foretold: Outcome,
      front: seq<byte>, lists: set<ControlList>, cpa: ConsecutivePool)
    reads pb, lists, cpa, cpa.buf, pb.Lists()
  {
    && PrimaryIs(pb, q, front, lists, cpa) && R.Executable(q, ss) && cpa.layout.blockSize > 0
    && pb.binCl.Placed() && pb.handlesCl.Placed() && pb.uniformsCl.Placed() && pb.shaderRecCl.Placed()
    && marker == cpa.layout.Off(origin) + q.marker
    && Foretold(cpa.layout, ClaimsOf(pb, cpa), |front|, q.handles, ss, origin) == foretold
  }

  /** The loop body with what it leaves to do. */
  method ExecuteNext(pb: CommandBuffer, cb: CommandBuffer, marker: uint32, ghost q: R.Primary, ghost i: Image, ghost ss: seq<R.Secondary>,
      ghost origin: nat, ghost foretold: Outcome, ghost front: seq<byte>, ghost lists: set<ControlList>, ghost cpa: ConsecutivePool)
      returns (out: Outcome)
    requires ss != [] && Executing(pb, q, ss, origin, marker, foretold, front, lists, cpa)
    requires cb != pb && cb.Lists() <= lists && cb.Lists() !! pb.Lists()
    requires Holds(cb, i, cpa) && Single(i) && ss[0] == SecondaryOf(i, cb.shaderRecCount) && R.Recorded(ss[0])
    modifies pb`shaderRecCount, pb.binCl, pb.uniformsCl, pb.shaderRecCl, pb.handlesCl, cpa, cpa.buf
    ensures out != Done ==> out == foretold
    ensures out == Done ==>
      && Executing(pb, R.ExecuteOne(q, ss[0]), ss[1..], origin, marker, foretold, front, lists, cpa)
      && (forall d :: d in lists ==> d.Placed())
      && Views(lists - pb.Lists() - cb.Lists(), cpa) == old(Views(lists - pb.Lists() - cb.Lists(), cpa))
  {
    hide Views, PrimaryIs, ControlList.Placed, R.Recorded, R.ExecuteOne, R.Relocations, R.RewriteAll, SecondaryOf, Single, Holds,
      Body, WithAll, HandlesOf;
    ghost var s := ss[0];
    MarkerMoved(pb, q, front, lists, cpa, origin, marker);
    RewriteAllEnters(s, q.handles);
    TableGrows(q, s);
    out := ExecuteOne(pb, cb, marker, q, i, s, origin, front, lists, cpa);
    if out == Done {
      PrimaryPlaced(pb, R.ExecuteOne(q, s), front, lists, cpa);
      PlacedAgain(pb, R.ExecuteOne(q, s), front, lists, cpa);
    }
  }

  lemma BinClaimed(pb: CommandBuffer, cpa: ConsecutivePool)
    requires pb.binCl.Placed() && pb.handlesCl.Placed() && pb.uniformsCl.Placed() && pb.shaderRecCl.Placed()
    ensures ClaimsOf(pb, cpa).bin.first == pb.binCl.first
  {
  }

  lemma NothingExecuted(pb: CommandBuffer, p: R.Primary, ss: seq<R.Secondary>, foretold: Outcome,
      front: seq<byte>, lists: set<ControlList>, cpa: ConsecutivePool)
    requires PrimaryIs(pb, p, front, lists, cpa) && R.Executable(p, ss)
    requires pb.binCl.Placed() && pb.handlesCl.Placed() && pb.uniformsCl.Placed() && pb.shaderRecCl.Placed() && cpa.layout.blockSize > 0
    requires foretold == Foretold(cpa.layout, ClaimsOf(pb, cpa), |front|, p.handles, ss, pb.binCl.first)
    ensures Executing(pb, p, ss, pb.binCl.first, pb.binCl.currMarkerOffset, foretold, front, lists, cpa)
  {
    hide PrimaryIs, ControlList.Placed, Foretold, R.Executable;
    MarkerFrom(pb, p, front, lists, cpa);
  }

  lemma StillExecutable(pb: CommandBuffer, q: R.Primary, ss: seq<R.Secondary>, origin: nat, marker: uint32, foretold: Outcome,
      front: seq<byte>, lists: set<ControlList>, cpa: ConsecutivePool)
    requires Executing(pb, q, ss, origin, marker, foretold, front, lists, cpa)
    ensures PrimaryIs(pb, q, front, lists, cpa) && R.Executable(q, ss)
    ensures ss == [] ==> foretold == Done && R.Execute(q, ss) == q
    ensures ss != [] ==> R.Open(q) && R.Recorded(ss[0]) && |q.handles| + R.Relocations(ss[0]) < 0x1_0000_0000
  {
    hide PrimaryIs, ControlList.Placed, R.Recorded, R.Relocations, ClaimsOf, Body;
  }

  /** The shader records that the command buffers have counted, and the draws that
      their markers say. */
  ghost function RecordsOf(cbs: seq<CommandBuffer>): (n: nat)
    reads cbs
  {
    if cbs == [] then 0 else cbs[0].shaderRecCount + RecordsOf(cbs[1..])
  }

  function DrawsOf(images: seq<Image>): (n: nat) {
    if images == [] then 0 else (if 112 <= |images[0].bin| then Word(images[0].bin, 108) else 0) + DrawsOf(images[1..])
  }

  lemma {:induction false} SumsAre(secondaries: seq<CommandBuffer>, images: seq<Image>, ss: seq<R.Secondary>)
    requires |secondaries| == |images| == |ss|
    requires forall d :: 0 <= d < |ss| ==> MARKER_SIZE <= |images[d].bin| && ss[d] == SecondaryOf(images[d], secondaries[d].shaderRecCount)
    ensures R.SumCounts(ss) == RecordsOf(secondaries) && R.SumDraws(ss) == DrawsOf(images)
  {
    hide Word, Table;
    if ss != [] {
      WordInSlice(images[0].bin, 0, MARKER_SIZE, 108);
      assert ss[0] == SecondaryOf(images[0], secondaries[0].shaderRecCount);
      forall d | 0 <= d < |ss| - 1 ensures MARKER_SIZE <= |images[1..][d].bin| && ss[1..][d] == SecondaryOf(images[1..][d], secondaries[1..][d].shaderRecCount) {
        assert ss[1..][d] == ss[d + 1];
      }
      SumsAre(secondaries[1..], images[1..], ss[1..]);
    }
  }

  lemma WaitingSums(pb: CommandBuffer, secondaries: seq<CommandBuffer>, images: seq<Image>, ss: seq<R.Secondary>,
      lists: set<ControlList>, cpa: ConsecutivePool)
    requires AllWaiting(pb, secondaries, images, ss, 0, lists, cpa)
    ensures R.SumCounts(ss) == RecordsOf(secondaries) && R.SumDraws(ss) == DrawsOf(images)
  {
    hide Holds, SecondaryOf, R.Recorded, FirstMarker, Closed;
    forall d | 0 <= d < |ss| ensures MARKER_SIZE <= |images[d].bin| && ss[d] == SecondaryOf(images[d], secondaries[d].shaderRecCount) {
      assert Waiting(pb, secondaries, images, ss, d, lists, cpa);
    }
    SumsAre(secondaries, images, ss);
  }

  /** What the counts will be. */
  lemma Sums(pb: CommandBuffer, secondaries: seq<CommandBuffer>, p: R.Primary, images: seq<Image>, ss: seq<R.Secondary>,
      front: seq<byte>, lists: set<ControlList>, cpa: ConsecutivePool) returns (records: uint32, draws: uint32)
    requires PrimaryIs(pb, p, front, lists, cpa) && AllWaiting(pb, secondaries, images, ss, 0, lists, cpa) && R.Executable(p, ss)
    ensures records == (pb.shaderRecCount + RecordsOf(secondaries)) % 0x1_0000_0000
    ensures draws == (DrawsIn(pb.binCl) + DrawsOf(images)) % 0x1_0000_0000
    ensures R.Execute(p, ss).marker + 112 <= |R.Execute(p, ss).bin|
    ensures records == R.Execute(p, ss).count && draws == Word(R.Execute(p, ss).bin, R.Execute(p, ss).marker + 108)
  {
    hide PrimaryIs, AllWaiting, R.Executable, DrawsIn, Word, R.Execute;
    WaitingSums(pb, secondaries, images, ss, lists, cpa);
    PrimarySays(pb, p, front, lists, cpa);
    PrimaryDraws(pb, p, front, lists, cpa);
    R.ExecuteAddsUp(p, ss);
    records, draws := R.Execute(p, ss).count, Word(R.Execute(p, ss).bin, R.Execute(p, ss).marker + 108);
  }

  /** vkCmdExecuteCommands. How it ends follows from where the primary's lists lie
      before it; and if it completes, the primary is as Relocation.Execute says. */
  method ExecuteCommands(pb: CommandBuffer, secondaries: seq<CommandBuffer>, ghost p: R.Primary, ghost images: seq<Image>, ghost ss: seq<R.Secondary>,
      ghost front: seq<byte>, ghost lists: set<ControlList>, ghost cpa: ConsecutivePool)
      returns (out: Outcome)
    requires PrimaryIs(pb, p, front, lists, cpa) && AllWaiting(pb, secondaries, images, ss, 0, lists, cpa) && R.Executable(p, ss)
    modifies pb`shaderRecCount, pb.binCl, pb.uniformsCl, pb.shaderRecCl, pb.handlesCl, cpa, cpa.buf
    ensures out == Foretold(cpa.layout, old(ClaimsOf(pb, cpa)), |front|, p.handles, ss, old(pb.binCl.first))
    ensures out == Done ==> PrimaryIs(pb, R.Execute(p, ss), front, lists, cpa)
    ensures out == Done ==> pb.shaderRecCount == (old(pb.shaderRecCount) + old(RecordsOf(secondaries))) % 0x1_0000_0000
    ensures out == Done ==> DrawsIn(pb.binCl) == (old(DrawsIn(pb.binCl)) + DrawsOf(images)) % 0x1_0000_0000
    ensures AllHaveRoom(cpa.layout, old(ClaimsOf(pb, cpa)), |front|, p.handles, ss) ==> out == Done
    ensures |ss| <= 1 ==> out != StaleMarker
  {
    hide Views, PrimaryIs, ControlList.Placed, R.Recorded, R.ExecuteOne, R.Relocations, SecondaryOf, Single, Holds,
      Body, WithAll, HandlesOf, Foretold, Executing, ClaimsOf, R.Open, AllHaveRoom, DrawsIn, RecordsOf, DrawsOf, R.Execute, Word;
    PrimaryPlaced(pb, p, front, lists, cpa);
    ghost var records, draws := Sums(pb, secondaries, p, images, ss, front, lists, cpa);
    var marker := pb.binCl.currMarkerOffset;
    ghost var q, origin := p, pb.binCl.first;
    ghost var foretold := Foretold(cpa.layout, ClaimsOf(pb, cpa), |front|, p.handles, ss, origin);
    BinClaimed(pb, cpa);
    NeverStale(cpa.layout, ClaimsOf(pb, cpa), |front|, p.handles, ss);
    NothingExecuted(pb, p, ss, foretold, front, lists, cpa);
    var c := 0;
    out := Done;
    assert ss[0..] == ss;
    while c < |secondaries|
      invariant 0 <= c <= |ss| && out == Done
      invariant Executing(pb, q, ss[c..], origin, marker, foretold, front, lists, cpa)
      invariant AllWaiting(pb, secondaries, images, ss, c, lists, cpa)
      invariant R.Executable(q, ss[c..]) && R.Execute(q, ss[c..]) == R.Execute(p, ss)
    {
      assert ss[c..][0] == ss[c] && ss[c..][1..] == ss[c + 1..];
      NextWaiting(pb, secondaries, images, ss, c, lists, cpa);
      StillExecutable(pb, q, ss[c..], origin, marker, foretold, front, lists, cpa);
      label before:
      out := ExecuteNext(pb, secondaries[c], marker, q, images[c], ss[c..], origin, foretold, front, lists, cpa);
      if out != Done { return; }
      ExecuteSplit(q, ss[c..]);
      q := R.ExecuteOne(q, ss[c]);
      StillExecutable(pb, q, ss[c + 1..], origin, marker, foretold, front, lists, cpa);
      OthersWait@before(pb, secondaries, images, ss, c, lists, cpa);
      c := c + 1;
    }
    StillExecutable(pb, q, ss[c..], origin, marker, foretold, front, lists, cpa);
    SumsReached(pb, q, records, draws, front, lists, cpa);
  }

  lemma ExecuteSplit(q: R.Primary, ss: seq<R.Secondary>)
    requires R.Executable(q, ss) && ss != []
    ensures R.Executable(R.ExecuteOne(q, ss[0]), ss[1..]) && R.Execute(q, ss) == R.Execute(R.ExecuteOne(q, ss[0]), ss[1..])
  {
    hide R.Recorded, R.ExecuteOne, R.Relocations;
  }

  lemma MarkerFrom(pb: CommandBuffer, p: R.Primary, front: seq<byte>, lists: set<ControlList>, cpa: ConsecutivePool)
    requires PrimaryIs(pb, p, front, lists, cpa)
    ensures pb.binCl.currMarkerOffset == cpa.layout.Off(pb.binCl.first) + p.marker
  {
    hide Apart, ControlList.Contents, WordsFrom, HandlesFrom, SmallPool, Word;
    PlacedAgain(pb, p, front, lists, cpa);
  }

  lemma TableGrows(p: R.Primary, s: R.Secondary)
    requires R.Open(p) && R.Recorded(s) && |p.handles| + R.Relocations(s) < 0x1_0000_0000
    ensures R.ExecuteOne(p, s).handles == R.RewriteAll(s, p.handles).handles
  {
    hide R.RewriteAll, R.Recorded;
  }
}
