/** vkAllocateCommandBuffers of driver/command.c: the seven lists of a command buffer
    get a block each. And the first marker, which beginning a render pass inserts. */
module Beginning {
  import opened Bytes
  import opened Seqs
  import opened FreeList
  import opened ConsecutivePool
  import opened Markers
  import opened ControlLists
  import opened CommandBuffers
  import opened RelocationLoops
  import opened Drawing
  import CS = ConsecutiveSpec
  import PF = PoolFailures

  /** consecutivePoolAllocate and clInit. */
  method BeginList(cpa: ConsecutivePool, ghost lists: set<ControlList>) returns (list: ControlList?)
    requires Apart(lists, cpa)
    modifies cpa, cpa.buf
    ensures list != null <==> old(cpa.free) != []
    ensures list != null ==>
      && fresh(list) && Begun(list, cpa) && list.first == old(cpa.free[0])
      && Apart(lists + {list}, cpa) && cpa.free == old(cpa.free[1..])
  {
    hide IsChain, AgreeOutside, Run, CS.Allocate, ControlList.Contents;
    ghost var s := cpa.State();
    OneOrNone(s);
    FirstIsFree(lists, cpa);
    var off := cpa.Allocate(1);
    if off == NONE {
      return null;
    }
    StillApart(lists, cpa, s);
    list := new ControlList.Init(cpa, off, cpa.layout.blockSize, s.free[0], lists);
  }

  lemma OneOrNone(s: CS.PoolState)
    ensures s.free == [] ==> CS.Allocate(s, 1).1 == None
    ensures s.free != [] ==>
      CS.Allocate(s, 1) == (CS.PoolState(s.free[1..], s.live + {s.free[0]}, CS.Sub32(s.numFree, 1)), Some(s.free[0]))
  {
    if s.free != [] { PF.OneBlock(s); }
  }

  /** Nothing has been recorded. */
  ghost predicate Empty(list: ControlList)
    reads list
  {
    list.Placed() && list.nextFreeByteOffset == list.offset && list.currMarkerOffset == NONE
  }

  /** A free block belongs to no list. */
  lemma FirstIsFree(lists: set<ControlList>, cpa: ConsecutivePool)
    requires Apart(lists, cpa)
    ensures cpa.free != [] ==> cpa.free[0] < cpa.layout.count && cpa.free[0] !in cpa.free[1..]
    ensures cpa.free != [] ==> forall c :: c in lists ==> !(c.first <= cpa.free[0] < c.first + c.numBlocks)
  {
    if cpa.free != [] {
      assert InList(cpa.layout, cpa.buf[..], cpa.free, 0) && cpa.free[0] in cpa.free;
      assert forall c :: c in lists ==> c.Owned();
    }
  }

  twostate lemma StillApart(new lists: set<ControlList>, new cpa: ConsecutivePool, new s: CS.PoolState)
    requires old(allocated(lists)) && old(allocated(cpa)) && old(Apart(lists, cpa)) && s == old(cpa.State()) && s.free != []
    requires cpa.Valid() && cpa.State() == CS.Allocate(s, 1).0
    requires CS.Allocate(s, 1) == (CS.PoolState(s.free[1..], s.live + {s.free[0]}, CS.Sub32(s.numFree, 1)), Some(s.free[0]))
    requires forall c :: c in lists ==> unchanged(c)
    ensures Apart(lists, cpa)
  {
    hide IsChain, CS.Allocate;
    assert forall b :: b in s.free[1..] ==> b in s.free;
  }

  ghost predicate Begun(list: ControlList, cpa: ConsecutivePool)
    reads list
  {
    list.CPA == cpa && list.numBlocks == 1 && Empty(list)
  }

  /** The seven lists of a new command buffer. */
  ghost predicate NewBuffer(cb: CommandBuffer, cpa: ConsecutivePool)
    reads cb, cb.Lists()
  {
    && cb.Separate() && cb.shaderRecCount == 0 && Begun(cb.binCl, cpa) && Begun(cb.handlesCl, cpa) && Begun(cb.shaderRecCl, cpa)
    && Begun(cb.uniformsCl, cpa) && Begun(cb.uniformRelocCl, cpa) && Begun(cb.gemRelocCl, cpa) && Begun(cb.shaderRecRelocCl, cpa)
  }

  /** n lists, or as many as the pool has blocks for. */
  method BeginLists(cpa: ConsecutivePool, n: nat, ghost lists: set<ControlList>) returns (ls: seq<ControlList>)
    requires Apart(lists, cpa)
    modifies cpa, cpa.buf
    ensures |ls| == (if n <= |old(cpa.free)| then n else |old(cpa.free)|)
    ensures forall k :: 0 <= k < |ls| ==> fresh(ls[k]) && Begun(ls[k], cpa) && ls[k].first == old(cpa.free)[k]
    ensures |ls| == n ==>
      && Apart(lists + Members(ls), cpa) && cpa.free == old(cpa.free)[n..] && forall j, k :: 0 <= j < k < n ==> ls[j] != ls[k]
  {
    hide Apart, Begun;
    ls := [];
    ghost var f := cpa.free;
    DistinctFree(lists, cpa);
    NoMembers(lists);
    while |ls| < n
      invariant |ls| <= n && |ls| <= |f| && cpa.free == f[|ls|..] && Apart(lists + Members(ls), cpa)
      invariant forall k :: 0 <= k < |ls| ==> fresh(ls[k]) && Begun(ls[k], cpa) && ls[k].first == f[k]
    {
      var list := BeginList(cpa, lists + Members(ls));
      if list == null {
        return;
      }
      OneMember(lists, ls, list);
      ls := ls + [list];
    }
  }

  ghost function Members(ls: seq<ControlList>): (ms: set<ControlList>) {
    set d | d in ls
  }

  lemma NoMembers(lists: set<ControlList>)
    ensures lists + Members([]) == lists
  {
  }

  lemma OneMember(lists: set<ControlList>, ls: seq<ControlList>, list: ControlList)
    ensures lists + Members(ls) + {list} == lists + Members(ls + [list])
  {
  }

  lemma DistinctFree(lists: set<ControlList>, cpa: ConsecutivePool)
    requires Apart(lists, cpa)
    ensures Distinct(cpa.free)
  {
    PoolDistinct(cpa);
  }

  /** One round of the loop in vkAllocateCommandBuffers. When the pool has too few
      blocks the driver gives back what it got, and the method stops. */
  method AllocateBuffer(cpa: ConsecutivePool, ghost lists: set<ControlList>) returns (cb: CommandBuffer?)
    requires Apart(lists, cpa)
    modifies cpa, cpa.buf
    ensures cb != null <==> |old(cpa.free)| >= 7
    ensures cb != null ==>
      && fresh(cb) && fresh(cb.Lists()) && NewBuffer(cb, cpa) && Apart(lists + cb.Lists(), cpa)
      && cb.binCl.first == old(cpa.free[0]) && cb.binCl.numBlocks == 1 && cb.handlesCl.first == old(cpa.free[1])
      && cpa.free == old(cpa.free[7..])
  {
    hide Apart, Empty;
    var ls := BeginLists(cpa, 7, lists);
    if |ls| < 7 {
      return null;
    }
    cb := new CommandBuffer(ls[0], ls[1], ls[2], ls[3], ls[4], ls[5], ls[6]);
    assert Members(ls) == cb.Lists();
  }

  /** A marker and nothing else. */
  predicate Blank(i: Image) {
    |i.bin| == MARKER_SIZE && i == Image(i.bin, [], [], [], [], [], [])
  }

  /** clInsertNewCLMarker on the lists of a new command buffer. */
  method InsertFirst(cb: CommandBuffer, ghost lists: set<ControlList>, ghost cpa: ConsecutivePool) returns (ghost i: Image)
    requires Apart(lists, cpa) && SmallPool(cpa) && cb.Lists() <= lists && NewBuffer(cb, cpa) && MARKER_SIZE <= cpa.layout.blockSize
    modifies cb.binCl`nextFreeByteOffset, cb.binCl`currMarkerOffset, cpa.buf
    ensures Recording(cb, i, [], lists, cpa) && Blank(i) && i.bin == FreshMarker(0, 0, 0, 0)
    ensures NewStruct(cb.binCl.Contents(), 0, 0, 0, 0)
    ensures cb.binCl.Placed() && cb.binCl.Room() == cpa.layout.blockSize - MARKER_SIZE
  {
    hide Apart, InsertMarker, FreshMarker, NewStruct, Fields, Word, ControlList.Contents, ControlList.Space, ControlList.Placed, ControlList.Room, ControlList.Cursor, Recording;
    ghost var bin, m := cb.binCl, FreshMarker(0, 0, 0, 0);
    NewLists(cb, lists, cpa);
    ghost var e := ControlList.ExtentOf(bin, cb.handlesCl, cb.shaderRecCl, cb.shaderRecCount, cb.uniformsCl);
    ControlList.InsertMarkerIs([], bin.Current(), e);
    cb.binCl.InsertNewMarker(cb.handlesCl, cb.shaderRecCl, cb.shaderRecCount, cb.uniformsCl, bin.Current(), e, lists);
    AllPlaced(lists, cpa);
    assert [] + m == m;
    FreshIsNew(0, 0, 0, 0);
    OneMarker(bin);
    i := Image(m, [], [], [], [], [], []);
    FirstMarkerRecorded(cb, m, lists, cpa);
  }

  lemma OneMarker(bin: ControlList)
    requires bin.Placed() && bin.numBlocks == 1 && |bin.Contents()| == MARKER_SIZE
    ensures bin.Room() == bin.CPA.layout.blockSize - MARKER_SIZE
  {
  }

  lemma NewLists(cb: CommandBuffer, lists: set<ControlList>, cpa: ConsecutivePool)
    requires NewBuffer(cb, cpa) && MARKER_SIZE <= cpa.layout.blockSize
    ensures cb.binCl.Placed() && cb.handlesCl.Placed() && cb.shaderRecCl.Placed() && cb.uniformsCl.Placed()
    ensures cb.binCl.Contents() == [] && |cb.binCl.Space()| == cpa.layout.blockSize
    ensures cb.binCl.Cursor() == None && cb.binCl.Current() == 0
    ensures ControlList.ExtentOf(cb.binCl, cb.handlesCl, cb.shaderRecCl, 0, cb.uniformsCl) == Extent(0, 0, 0, 0, 0)
  {
  }

  /** What is there then is a command buffer that is being recorded. */
  lemma FirstMarkerRecorded(cb: CommandBuffer, m: seq<byte>, lists: set<ControlList>, cpa: ConsecutivePool)
    requires Apart(lists, cpa) && SmallPool(cpa) && cb.Lists() <= lists && cb.Separate()
    requires forall d :: d in lists ==> d.CPA == cpa && d.Placed()
    requires Begun(cb.handlesCl, cpa) && Begun(cb.shaderRecCl, cpa) && Begun(cb.uniformsCl, cpa)
    requires Begun(cb.uniformRelocCl, cpa) && Begun(cb.gemRelocCl, cpa) && Begun(cb.shaderRecRelocCl, cpa)
    requires m == FreshMarker(0, 0, 0, 0) && cb.binCl.Contents() == m && cb.binCl.Cursor() == Some(0)
    ensures Recording(cb, Image(m, [], [], [], [], [], []), [], lists, cpa)
  {
    hide Apart, FreshMarker, Fields, Word, ControlList.Placed;
    MarkerOpen(cb.binCl, m);
    NoHandles(cb.handlesCl);
    NothingIn(cb.shaderRecCl);
    NothingIn(cb.uniformsCl);
    NothingIn(cb.uniformRelocCl);
    NothingIn(cb.gemRelocCl);
    NothingIn(cb.shaderRecRelocCl);
  }

  lemma NothingIn(list: ControlList)
    requires Empty(list)
    ensures list.Contents() == []
  {
  }

  lemma NoHandles(list: ControlList)
    requires Empty(list)
    ensures list.Contents() == [] && WordsFrom(list, 0) && HandlesFrom(list, 0) == []
  {
    assert list.Contents()[0..] == [];
  }

  lemma MarkerOpen(bin: ControlList, m: seq<byte>)
    requires bin.Placed() && bin.Contents() == m && bin.Cursor() == Some(0) && m == FreshMarker(0, 0, 0, 0)
    ensures OpenMarker(bin, 0)
  {
    hide FreshMarker, Word;
    bin.StructInContents(0);
    assert m[0..MARKER_SIZE] == m;
    assert Fields(m) == Marker(GUARD, NONE, 0, 0, 0, 0, 0, 0, 0, 0);
  }
}
