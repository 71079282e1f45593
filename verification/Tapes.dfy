/** Recording on the heap, step by step: what clInsertNewCLMarker, clInsertData and
    stores to the marker make of the lists is what the steps of module Recording make
    of a tape. Submission.Submit takes up from there. */
module Tapes {
  import opened Bytes
  import opened Seqs
  import opened ConsecutivePool
  import opened Markers
  import opened ControlLists
  import opened Recording
  import opened Submission
  import opened Places
  import CS = ConsecutiveSpec

  /** Lists as clInit leaves them hold the empty recording. */
  lemma HoldsNothing(bin: ControlList, handles: ControlList, shaderRec: ControlList, uniforms: ControlList)
    requires bin.Placed() && handles.Placed() && shaderRec.Placed() && uniforms.Placed() && bin.Cursor() == None
    requires bin.Contents() == handles.Contents() == shaderRec.Contents() == uniforms.Contents() == []
    ensures Holds(bin, handles, shaderRec, 0, uniforms, EMPTY)
  {
    EmptyDescribed();
    UsedIs(bin);
    UsedIs(handles);
    UsedIs(shaderRec);
    UsedIs(uniforms);
  }

  /** clInsertNewCLMarker */
  method RecordMarker(bin: ControlList, handles: ControlList, shaderRec: ControlList, count: uint32, uniforms: ControlList,
      ghost t: Tape, ghost lists: set<ControlList>, ghost cpa: ConsecutivePool)
    requires Apart(lists, cpa) && {bin, handles, shaderRec, uniforms} <= lists && bin !in {handles, shaderRec, uniforms} && bin.CPA == cpa
    requires Holds(bin, handles, shaderRec, count, uniforms, t) && Legal(t, Begin) && |t.bin| + MARKER_SIZE <= |bin.Space()|
    modifies bin`nextFreeByteOffset, bin`currMarkerOffset, cpa.buf
    ensures Apart(lists, cpa) && Holds(bin, handles, shaderRec, count, uniforms, Apply(t, Begin))
    ensures bin.Placed() && bin.currMarkerOffset != NONE && IsNew(bin.Struct())
  {
    hide Apart, Described, InsertMarker, ControlList.Contents, ControlList.Space, IsNew, NewStruct;
    StepDescribed(t, Begin);
    DescribedShape(t);
    bin.InsertNewMarker(handles, shaderRec, count, uniforms, Last(t), t.now, lists);
    AllPlaced(lists, cpa);
  }

  /** clInsertData on the binning list, behind a marker. */
  method RecordCommands(bin: ControlList, handles: ControlList, shaderRec: ControlList, count: uint32, uniforms: ControlList, data: seq<byte>,
      ghost t: Tape, ghost lists: set<ControlList>, ghost cpa: ConsecutivePool)
    requires Apart(lists, cpa) && {bin, handles, shaderRec, uniforms} <= lists && bin !in {handles, shaderRec, uniforms} && bin.CPA == cpa
    requires Holds(bin, handles, shaderRec, count, uniforms, t) && Legal(t, Bin(data)) && |t.bin| + |data| <= |bin.Space()|
    modifies bin`nextFreeByteOffset, cpa.buf
    ensures Apart(lists, cpa) && Holds(bin, handles, shaderRec, count, uniforms, Apply(t, Bin(data)))
  {
    hide Apart, Described, InsertMarker, ControlList.Contents, ControlList.Space;
    StepDescribed(t, Bin(data));
    DescribedShape(t);
    bin.InsertData(data, lists);
    AllPlaced(lists, cpa);
  }

  /** Which Grow step it is when n bytes are appended to one of the other lists. */
  function Appends(list: ControlList, handles: ControlList, shaderRec: ControlList, n: nat): (s: Step) {
    if list == handles then Grow(n, 0, 0, 0) else if list == shaderRec then Grow(0, n, 0, 0) else Grow(0, 0, 0, n)
  }

  /** clInsertData on one of the lists that the markers count. */
  method RecordBytes(bin: ControlList, handles: ControlList, shaderRec: ControlList, count: uint32, uniforms: ControlList,
      list: ControlList, data: seq<byte>, ghost t: Tape, ghost lists: set<ControlList>, ghost cpa: ConsecutivePool)
    requires Apart(lists, cpa) && {bin, handles, shaderRec, uniforms} <= lists && bin !in {handles, shaderRec, uniforms} && bin.CPA == cpa
    requires handles != shaderRec && handles != uniforms && shaderRec != uniforms && list in {handles, shaderRec, uniforms}
    requires Holds(bin, handles, shaderRec, count, uniforms, t) && Legal(t, Appends(list, handles, shaderRec, |data|))
    requires list.CPA == cpa && |list.Contents()| + |data| <= |list.Space()|
    modifies list`nextFreeByteOffset, cpa.buf
    ensures Apart(lists, cpa) && Holds(bin, handles, shaderRec, count, uniforms, Apply(t, Appends(list, handles, shaderRec, |data|)))
  {
    hide Apart, ControlList.Contents, ControlList.Space, ControlList.Owned, Holds, Described, ControlList.Placed, Apply, Legal;
    AllPlaced(lists, cpa);
    HeldShape(bin, handles, shaderRec, count, uniforms, t);
    UsedIs(list);
    list.InsertData(data, lists);
    AllPlaced(lists, cpa);
    UsedIs(list);
    HoldsLonger(bin, handles, shaderRec, count, uniforms, list, |data|, t);
  }

  /** shaderRecCount++ */
  lemma RecordCount(bin: ControlList, handles: ControlList, shaderRec: ControlList, count: uint32, uniforms: ControlList, t: Tape)
    requires Holds(bin, handles, shaderRec, count, uniforms, t) && count + 1 < NONE
    requires Legal(t, Grow(0, 0, 1, 0))
    ensures Shaped(t) && Holds(bin, handles, shaderRec, count + 1, uniforms, Apply(t, Grow(0, 0, 1, 0)))
  {
    hide Described, ControlList.Placed, ControlList.Contents, ControlList.Cursor;
    HeldShape(bin, handles, shaderRec, count, uniforms, t);
    StepDescribed(t, Grow(0, 0, 1, 0));
  }

  /** The step that entering a handle is. */
  function Enters(t: Tape, table: seq<uint32>, handle: uint32): (s: Step) {
    if IndexOf(table, handle) < |table| then Grow(0, 0, 0, 0) else Grow(4, 0, 0, 0)
  }

  /** clGetHandleIndex with the fields of the current marker, as draws call it. */
  method RecordHandle(bin: ControlList, handles: ControlList, shaderRec: ControlList, count: uint32, uniforms: ControlList, handle: uint32,
      ghost t: Tape, ghost table: seq<uint32>, ghost lists: set<ControlList>, ghost cpa: ConsecutivePool)
      returns (idx: uint32)
    requires Apart(lists, cpa) && {bin, handles, shaderRec, uniforms} <= lists && bin.CPA == handles.CPA == cpa
    requires handles !in {bin, shaderRec, uniforms} && shaderRec != uniforms
    requires Holds(bin, handles, shaderRec, count, uniforms, t) && t.marks != [] && Legal(t, Grow(4, 0, 0, 0))
    requires var from := t.starts[|t.marks| - 1].handles; from <= |handles.Contents()| && table == Table(handles.Contents()[from..])
    requires |handles.Contents()| + 4 <= |handles.Space()|
    modifies handles`nextFreeByteOffset, cpa.buf
    ensures Apart(lists, cpa) && idx == IndexOf(table, handle)
    ensures Holds(bin, handles, shaderRec, count, uniforms, Apply(t, Enters(t, table, handle)))
  {
    hide Apart, ControlList.Contents, ControlList.Space, ControlList.Owned, Holds, Described, ControlList.Placed, Apply, Legal,
      Table, IndexOf, WordBytes, Plus, MarkerAt, Opened;
    AllPlaced(lists, cpa);
    HeldShape(bin, handles, shaderRec, count, uniforms, t);
    FewerIsLegal(t);
    ghost var from := CurrentSays(bin, handles, shaderRec, count, uniforms, t);
    var k := bin.ReadMarker(Last(t));
    UsedIs(handles);
    handles.OffsetExact(from);
    idx := handles.GetHandleIndex(Plus(k.handles, handles.offset), k.handlesSize, handle, from, lists);
    AllPlaced(lists, cpa);
    UsedIs(handles);
    HoldsLonger(bin, handles, shaderRec, count, uniforms, handles, if idx < |table| then 0 else 4, t);
  }

  lemma FewerIsLegal(t: Tape)
    requires Legal(t, Grow(4, 0, 0, 0))
    ensures Legal(t, Grow(0, 0, 0, 0))
  {
  }

  /** What the current marker says of the handle list. */
  lemma CurrentSays(bin: ControlList, handles: ControlList, shaderRec: ControlList, count: uint32, uniforms: ControlList, t: Tape)
      returns (from: uint32)
    requires Holds(bin, handles, shaderRec, count, uniforms, t) && t.marks != []
    ensures from == t.starts[|t.marks| - 1].handles && bin.Placed() && bin.currMarkerOffset != NONE
    ensures bin.currMarkerOffset - bin.offset == Last(t) && Last(t) + MARKER_SIZE <= |bin.Contents()|
    ensures MarkerAt(bin.Contents(), Last(t)).handles == from && MarkerAt(bin.Contents(), Last(t)).handlesSize == 0
  {
    hide MarkerAt, Seed, Totals;
    assert Ordered(t, |t.marks| - 1) && Says(t, |t.marks| - 1);
    from := t.starts[|t.marks| - 1].handles;
  }

  /** The counts in the jobs that vkQueueSubmit hands over for a recording are right
      if and only if no record was emitted before the last marker but one. */
  lemma JobCountsExact(steps: seq<Step>, jobs: seq<Marker>)
    requires LegalTape(EMPTY, steps) && Begins(steps) > 0
    requires JobsOf(Record(EMPTY, steps), jobs, |Record(EMPTY, steps).marks|)
    ensures var t, n := Record(EMPTY, steps), Begins(steps);
      && |t.marks| == |jobs| == n
      && ((forall k :: 0 <= k < n ==> jobs[k].shaderRecCount == Emitted(t, k)) <==> (n >= 2 ==> t.starts[n - 2].count == 0))
  {
    hide Described, MarkerAt, Finish, Closed, Emitted;
    EmptyDescribed();
    RecordDescribed(EMPTY, steps);
    MarkerCountsExact(steps);
    var t := Record(EMPTY, steps);
    FinishedMarkers(t);
    forall k | 0 <= k < |t.marks| ensures CountSaid(t, k) <==> jobs[k].shaderRecCount == Emitted(t, k) {
      assert Ordered(t, k);
    }
  }

  lemma HeldShape(bin: ControlList, handles: ControlList, shaderRec: ControlList, count: uint32, uniforms: ControlList, t: Tape)
    requires Holds(bin, handles, shaderRec, count, uniforms, t)
    ensures Described(t) && Shaped(t)
  {
  }

  /** One of the lists that the markers count holds n bytes more. */
  twostate lemma HoldsLonger(new bin: ControlList, new handles: ControlList, new shaderRec: ControlList, new count: uint32, new uniforms: ControlList,
      new list: ControlList, new n: nat, new t: Tape)
    requires old(allocated(bin)) && old(allocated(handles)) && old(allocated(shaderRec)) && old(allocated(uniforms)) && old(allocated(list))
    requires old(Holds(bin, handles, shaderRec, count, uniforms, t)) && Shaped(t) && Legal(t, Appends(list, handles, shaderRec, n))
    requires list in {handles, shaderRec, uniforms} && bin != list && handles != shaderRec && handles != uniforms && shaderRec != uniforms
    requires bin.Placed() && handles.Placed() && shaderRec.Placed() && uniforms.Placed()
    requires list.nextFreeByteOffset - list.offset == old(list.nextFreeByteOffset - list.offset) + n
    requires unchanged(bin) && bin.Space() == old(bin.Space())
    requires (handles != list ==> unchanged(handles)) && (shaderRec != list ==> unchanged(shaderRec)) && (uniforms != list ==> unchanged(uniforms))
    ensures Holds(bin, handles, shaderRec, count, uniforms, Apply(t, Appends(list, handles, shaderRec, n)))
  {
    hide Described, ControlList.Contents, ControlList.Space, ControlList.Placed;
    HeldPlaced(bin, handles, shaderRec, count, uniforms, t);
    bin.SpaceKept();
    StepDescribed(t, Appends(list, handles, shaderRec, n));
  }

  /** A store to a field of the current marker that closing does not touch. */
  method RecordField(bin: ControlList, handles: ControlList, shaderRec: ControlList, count: uint32, uniforms: ControlList, f: nat, w: uint32,
      ghost t: Tape, ghost lists: set<ControlList>, ghost cpa: ConsecutivePool)
    requires Apart(lists, cpa) && {bin, handles, shaderRec, uniforms} <= lists && bin.CPA == cpa
    requires Holds(bin, handles, shaderRec, count, uniforms, t) && Legal(t, Annotate(f, w))
    modifies cpa.buf
    ensures Apart(lists, cpa) && Holds(bin, handles, shaderRec, count, uniforms, Apply(t, Annotate(f, w)))
  {
    hide Apart, Described, ControlList.Contents, ControlList.Space, ControlList.Owned, Splice, SetWord, ControlList.Placed;
    StepDescribed(t, Annotate(f, w));
    DescribedShape(t);
    AllPlaced(lists, cpa);
    bin.StructInContents(Last(t));
    SetInside(t.bin, Last(t), f, w);
    bin.StoreField(f, w, Last(t), lists);
    AllPlaced(lists, cpa);
    assert SameUse(bin) && SameUse(handles) && SameUse(shaderRec) && SameUse(uniforms);
    StillHolds(bin, handles, shaderRec, count, uniforms, t, Apply(t, Annotate(f, w)));
  }

  /** numDrawCallsSubmitted++, as vkCmdDraw and vkCmdDrawIndexed end. */
  method RecordDraw(bin: ControlList, handles: ControlList, shaderRec: ControlList, count: uint32, uniforms: ControlList,
      ghost t: Tape, ghost lists: set<ControlList>, ghost cpa: ConsecutivePool)
    requires Apart(lists, cpa) && {bin, handles, shaderRec, uniforms} <= lists && bin.CPA == cpa
    requires Holds(bin, handles, shaderRec, count, uniforms, t) && t.marks != []
    modifies cpa.buf
    ensures Apart(lists, cpa) && Holds(bin, handles, shaderRec, count, uniforms, Apply(t, Drawn))
  {
    hide Apart, Described, ControlList.Contents, ControlList.Space, ControlList.Owned, Splice, SetWord, ControlList.Placed, Apply, Word, Plus;
    HeldShape(bin, handles, shaderRec, count, uniforms, t);
    var d := LoadCurrent(bin, Last(t), t.bin);
    RecordField(bin, handles, shaderRec, count, uniforms, NUM_DRAW_CALLS, Plus(d, 1), t, lists, cpa);
    assert Annotate(NUM_DRAW_CALLS, Plus(d, 1)) == Count(t);
  }

  method LoadCurrent(bin: ControlList, ghost cur: nat, ghost m: seq<byte>) returns (d: uint32)
    requires bin.Placed() && bin.Cursor() == Some(cur) && bin.Contents() == m && cur + MARKER_SIZE <= |m|
    ensures d == Word(m, cur + NUM_DRAW_CALLS)
  {
    hide Word, ControlList.Contents;
    bin.StructInContents(cur);
    d := bin.LoadField(NUM_DRAW_CALLS);
    WordInSlice(m, cur, cur + MARKER_SIZE, NUM_DRAW_CALLS);
  }

  /** clFit, which may move a list, does not show. */
  method RecordFit(bin: ControlList, handles: ControlList, shaderRec: ControlList, count: uint32, uniforms: ControlList,
      list: ControlList, size: uint32, ghost t: Tape, ghost lists: set<ControlList>, ghost cpa: ConsecutivePool)
      returns (ok: bool)
    requires Apart(lists, cpa) && {bin, handles, shaderRec, uniforms} <= lists && bin.CPA == cpa
    requires Holds(bin, handles, shaderRec, count, uniforms, t) && list in {bin, handles, shaderRec, uniforms}
    requires list.CPA == cpa && |list.Contents()| + size < 0x1_0000_0000
    modifies list, cpa, cpa.buf
    ensures ok <==> old(list.CanFit(size))
    ensures ok ==> Apart(lists, cpa) && Holds(bin, handles, shaderRec, count, uniforms, t) && |list.Contents()| + size <= |list.Space()|
  {
    hide Apart, Described, ControlList.Contents, ControlList.Space, ControlList.CanFit, ControlList.Owned, Holds, FitsAs, BlocksFor, CS.Reallocate, CS.GrowsSoundly;
    AllPlaced(lists, cpa);
    ok := list.Fit(size, lists);
    if ok {
      AllPlaced(lists, cpa);
      HoldsMoved(bin, handles, shaderRec, count, uniforms, list, t);
    }
  }

  /** What the markers measure is how much the lists hold. */
  lemma ExtentIs(bin: ControlList, handles: ControlList, shaderRec: ControlList, count: uint32, uniforms: ControlList)
    requires bin.Placed() && handles.Placed() && shaderRec.Placed() && uniforms.Placed()
    ensures var e := ControlList.ExtentOf(bin, handles, shaderRec, count, uniforms);
      && e.bin == |bin.Contents()| && e.handles == |handles.Contents()| && e.shaderRec == |shaderRec.Contents()|
      && e.uniforms == |uniforms.Contents()| && e.count == count
  {
    UsedIs(bin);
    UsedIs(handles);
    UsedIs(shaderRec);
    UsedIs(uniforms);
  }

  lemma UsedIs(list: ControlList)
    requires list.Placed()
    ensures |list.Contents()| == list.nextFreeByteOffset - list.offset
  {
  }

  /** One of the lists has moved with what it holds. */
  twostate lemma HoldsMoved(new bin: ControlList, new handles: ControlList, new shaderRec: ControlList, new count: uint32, new uniforms: ControlList,
      new list: ControlList, new t: Tape)
    requires old(allocated(bin)) && old(allocated(handles)) && old(allocated(shaderRec)) && old(allocated(uniforms)) && old(allocated(list))
    requires old(Holds(bin, handles, shaderRec, count, uniforms, t)) && list in {bin, handles, shaderRec, uniforms}
    requires list.Placed() && list.Contents() == old(list.Contents()) && list.Cursor() == old(list.Cursor())
    requires bin != list ==> unchanged(bin) && bin.Space() == old(bin.Space())
    requires (handles != list ==> unchanged(handles)) && (shaderRec != list ==> unchanged(shaderRec)) && (uniforms != list ==> unchanged(uniforms))
    ensures Holds(bin, handles, shaderRec, count, uniforms, t)
  {
    hide Described, ControlList.Contents, ControlList.Space, Holds;
    HeldPlaced(bin, handles, shaderRec, count, uniforms, t);
    UsedWas(list);
    UsedIs(list);
    if list != bin { bin.SpaceKept(); }
    StillHolds(bin, handles, shaderRec, count, uniforms, t, t);
  }

  twostate lemma HeldPlaced(new bin: ControlList, new handles: ControlList, new shaderRec: ControlList, new count: uint32, new uniforms: ControlList, new t: Tape)
    requires old(allocated(bin)) && old(allocated(handles)) && old(allocated(shaderRec)) && old(allocated(uniforms))
    requires old(Holds(bin, handles, shaderRec, count, uniforms, t))
    ensures Described(t) && old(bin.Placed() && handles.Placed() && shaderRec.Placed() && uniforms.Placed() && bin.Contents() == t.bin)
  {
  }

  twostate lemma UsedWas(new list: ControlList)
    requires old(allocated(list)) && old(list.Placed())
    ensures old(|list.Contents()|) == old(list.nextFreeByteOffset - list.offset)
  {
  }

  /** A list that holds as many bytes as before. */
  twostate predicate SameUse(new list: ControlList)
    requires old(allocated(list))
    reads list
  {
    list.Placed() && list.nextFreeByteOffset - list.offset == old(list.nextFreeByteOffset - list.offset)
  }

  twostate lemma StillHolds(new bin: ControlList, new handles: ControlList, new shaderRec: ControlList, new count: uint32, new uniforms: ControlList,
      new t: Tape, new r: Tape)
    requires old(allocated(bin)) && old(allocated(handles)) && old(allocated(shaderRec)) && old(allocated(uniforms))
    requires old(Holds(bin, handles, shaderRec, count, uniforms, t)) && Described(r) && r.now == t.now && r.marks == t.marks
    requires SameUse(bin) && SameUse(handles) && SameUse(shaderRec) && SameUse(uniforms)
    requires bin.Contents() == r.bin && old(bin.Placed()) && bin.Cursor() == old(bin.Cursor())
    ensures Holds(bin, handles, shaderRec, count, uniforms, r)
  {
    hide Described, ControlList.Placed, ControlList.Contents, ControlList.Cursor;
  }
}
