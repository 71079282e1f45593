/** The relocation loops of vkCmdExecuteCommands in driver/command.c, on command
    buffers whose lists all live in one command pool.

    Two things can go wrong on the way that the driver does not notice, and the
    loops stop there: the pool cannot serve a growing handle list, and the pointer
    to the primary's marker, taken once before the secondaries, is used after the
    marker has moved. */
module RelocationLoops {
  import opened Bytes
  import opened Seqs
  import opened FreeList
  import opened ConsecutivePool
  import opened Markers
  import opened ControlLists
  import opened ListViews
  import opened Places
  import opened Forecast
  import R = Relocation

  /** Pools are far smaller than the address space. */
  ghost predicate SmallPool(cpa: ConsecutivePool) {
    cpa.buf.Length < 0x4000_0000
  }

  /** The handle table of a marker that starts at byte from of the list. */
  ghost function HandlesFrom(list: ControlList, from: nat): (t: seq<uint32>)
    requires list.Placed() && from <= |list.Contents()|
    reads list, list.CPA.buf
  {
    Table(list.Contents()[from..])
  }

  lemma TableAppend(s: seq<byte>, from: nat, h: uint32)
    requires from <= |s| && (|s| - from) % 4 == 0
    ensures Table((s + WordBytes(h))[from..]) == Table(s[from..]) + [h]
  {
    hide Word, WordBytes;
    var words, longer := s[from..], (s + WordBytes(h))[from..];
    assert longer == words + WordBytes(h);
    var n := |words| / 4;
    WordWritten(words + WordBytes(h), |words|, h);
    forall k | 0 <= k < n ensures Word(longer, 4 * k) == Word(words, 4 * k) {
      WordOfPrefix(words, WordBytes(h), 4 * k);
    }
  }

  /** The primary's current marker is open and its handle table starts at from. */
  ghost predicate OpenMarker(bin: ControlList, from: nat)
    reads bin, bin.CPA.buf
  {
    && bin.Placed() && bin.currMarkerOffset != NONE
    && Word(bin.Struct(), HANDLES_OFFSET) == from && Word(bin.Struct(), HANDLES_SIZE) == 0
  }

  /** Whole words from byte from on. */
  ghost predicate WordsFrom(list: ControlList, from: nat)
    reads list, list.CPA.buf
  {
    list.Placed() && WholeWords(list.Contents(), from)
  }

  predicate WholeWords(s: seq<byte>, from: nat) {
    from <= |s| && (|s| - from) % 4 == 0
  }

  /** The handle that goes with an index word is entered into the primary's table,
      growing the list if needed. marker is the primary's marker as it was found
      before the loop over the secondaries. */
  method EnterHandle(list: ControlList, bin: ControlList, marker: uint32, handle: uint32, ghost from: nat, ghost lists: set<ControlList>)
      returns (out: Outcome, idx: uint32)
    requires Apart(lists, list.CPA) && {list, bin} <= lists && list != bin && SmallPool(list.CPA)
    requires OpenMarker(bin, from) && WordsFrom(list, from)
    modifies list, list.CPA, list.CPA.buf
    ensures out != PoolLost ==> (out == Done <==> marker == bin.currMarkerOffset)
    ensures FitsAs(list.CPA.layout, old(list.CPA.State()), old(list.At()), 4, out != PoolLost, list.CPA.State(), Place(list.first, list.numBlocks, 0))
    ensures out == Done ==>
      && Apart(lists, list.CPA) && OpenMarker(bin, from) && WordsFrom(list, from)
      && list.Contents()[..from] == old(list.Contents()[..from])
      && idx == IndexOf(old(HandlesFrom(list, from)), handle)
      && HandlesFrom(list, from) == R.WithHandle(old(HandlesFrom(list, from)), handle)
      && forall d :: d in lists && d != list ==> d.Space() == old(d.Space())
  {
    hide Apart, R.WithHandle, IndexOf, WholeWords, ControlList.Contents, ControlList.Space, FitsAs, OpenMarker, WordsFrom, HandlesFrom, SmallPool;
    var ok := FitHandles(list, bin, from, lists);
    if !ok {
      return PoolLost, 0;
    }
    if bin.currMarkerOffset != marker {
      return StaleMarker, 0;
    }
    idx := EnterFitted(list, bin, handle, from, lists);
    out := Done;
  }

  /** Room for one more handle. */
  method FitHandles(list: ControlList, bin: ControlList, ghost from: nat, ghost lists: set<ControlList>) returns (ok: bool)
    requires Apart(lists, list.CPA) && {list, bin} <= lists && list != bin && SmallPool(list.CPA)
    requires OpenMarker(bin, from) && WordsFrom(list, from)
    modifies list, list.CPA, list.CPA.buf
    ensures FitsAs(list.CPA.layout, old(list.CPA.State()), old(list.At()), 4, ok, list.CPA.State(), Place(list.first, list.numBlocks, 0))
    ensures ok ==>
      && Apart(lists, list.CPA) && OpenMarker(bin, from) && WordsFrom(list, from)
      && list.Contents() == old(list.Contents()) && HandlesFrom(list, from) == old(HandlesFrom(list, from))
      && |list.Contents()| + 4 <= |list.Space()|
      && forall d :: d in lists && d != list ==> d.Space() == old(d.Space())
  {
    hide Apart, ControlList.Owned, Word, Table, WholeWords, ControlList.Contents, FitsAs, ControlList.CanFit;
    ListIn(list, lists, list.CPA);
    ListIn(bin, lists, list.CPA);
    ok := list.Fit(4, lists);
    if ok {
      ListIn(list, lists, list.CPA);
      ListIn(bin, lists, list.CPA);
      bin.SpaceKept();
    }
  }

  method EnterFitted(list: ControlList, bin: ControlList, handle: uint32, ghost from: nat, ghost lists: set<ControlList>)
      returns (idx: uint32)
    requires Apart(lists, list.CPA) && {list, bin} <= lists && list != bin
    requires OpenMarker(bin, from) && WordsFrom(list, from) && |list.Contents()| + 4 <= |list.Space()|
    modifies list`nextFreeByteOffset, list.CPA.buf
    ensures Apart(lists, list.CPA) && OpenMarker(bin, from) && WordsFrom(list, from)
    ensures list.Contents()[..from] == old(list.Contents()[..from])
    ensures idx == IndexOf(old(HandlesFrom(list, from)), handle)
    ensures HandlesFrom(list, from) == R.WithHandle(old(HandlesFrom(list, from)), handle)
    ensures forall d :: d in lists && d != list ==> d.Space() == old(d.Space())
    ensures list.Room() >= old(list.Room()) - 4
  {
    hide Apart, ControlList.Owned, Word, Table, R.WithHandle, IndexOf, Plus, WordBytes, WholeWords, ControlList.Contents;
    ListIn(list, lists, list.CPA);
    ListIn(bin, lists, list.CPA);
    var h := bin.LoadField(HANDLES_OFFSET);
    var hs := bin.LoadField(HANDLES_SIZE);
    ghost var before := list.Contents();
    WordsWithin(before, from);
    list.OffsetExact(from);
    idx := list.GetHandleIndex(Plus(h, list.offset), hs, handle, from, lists);
    ListIn(list, lists, list.CPA);
    ListIn(bin, lists, list.CPA);
    bin.SpaceKept();
    EnteredHandle(before, list.Contents(), from, handle, idx);
  }

  lemma WordsWithin(s: seq<byte>, from: nat)
    requires WholeWords(s, from)
    ensures from <= |s|
  {
  }

  lemma EnteredHandle(before: seq<byte>, after: seq<byte>, from: nat, h: uint32, idx: uint32)
    requires WholeWords(before, from)
    requires idx == IndexOf(Table(before[from..]), h)
    requires after == if idx < |Table(before[from..])| then before else before + WordBytes(h)
    ensures WholeWords(after, from)
    ensures after[..from] == before[..from]
    ensures Table(after[from..]) == R.WithHandle(Table(before[from..]), h)
  {
    hide Table, WordBytes;
    TableAppend(before, from, h);
  }

  /** What a relocation loop works from, what it must arrive at, and the handles it
      enters on the way. */
  datatype Goal = Goal(offs: seq<uint32>, src: seq<uint32>, words: seq<byte>, table: seq<uint32>, hs: seq<uint32>)

  /** From the k-th offset on, rewriting still has to be done, and yields the goal. */
  ghost predicate Pending(m: seq<byte>, k: nat, t: seq<uint32>, goal: Goal) {
    && k <= |goal.offs| && R.IndexWords(m, goal.offs[k..], goal.src) && |t| + |goal.offs[k..]| < 0x1_0000_0000
    && R.Rewrite(m, goal.offs[k..], goal.src, t) == (goal.words, goal.table)
    && |goal.hs| == |goal.offs| && HandlesAt(m, goal.offs[k..], goal.src) == goal.hs[k..]
  }

  lemma PendingAtFirst(m: seq<byte>, t: seq<uint32>, goal: Goal)
    requires R.IndexWords(m, goal.offs, goal.src) && |t| + |goal.offs| < 0x1_0000_0000
    requires R.Rewrite(m, goal.offs, goal.src, t) == (goal.words, goal.table) && goal.hs == HandlesAt(m, goal.offs, goal.src)
    ensures Pending(m, 0, t, goal)
  {
    assert goal.offs[0..] == goal.offs && goal.hs[0..] == goal.hs;
  }

  lemma PendingAtLast(m: seq<byte>, t: seq<uint32>, goal: Goal)
    requires Pending(m, |goal.offs|, t, goal)
    ensures goal.words == m && goal.table == t
  {
  }

  /** The word that the k-th offset of a relocation list points at. */
  lemma NextWord(m: seq<byte>, k: nat, t: seq<uint32>, goal: Goal)
    requires k < |goal.offs| && Pending(m, k, t, goal)
    ensures goal.offs[k] + 4 <= |m| && Word(m, goal.offs[k]) < |goal.src| && goal.src[Word(m, goal.offs[k])] == goal.hs[k]
  {
    assert goal.offs[k..][0] == goal.offs[k] && goal.hs[k..][0] == goal.hs[k];
  }

  /** Rewriting that word leaves the rest pending. */
  lemma WordRewritten(m: seq<byte>, k: nat, t: seq<uint32>, goal: Goal, offset: uint32, h: uint32, idx: uint32)
    requires k < |goal.offs| && Pending(m, k, t, goal) && offset == goal.offs[k] && offset + 4 <= |m|
    requires Word(m, offset) < |goal.src| && h == goal.src[Word(m, offset)] && idx == IndexOf(t, h)
    ensures Pending(SetWord(m, offset, idx), k + 1, R.WithHandle(t, h), goal)
  {
    hide Word, SetWord;
    var rest := goal.offs[k..];
    assert rest[0] == offset && rest[1..] == goal.offs[k + 1..];
    R.RestOfWords(m, rest, goal.src, idx);
    NextHandles(m, rest, goal.src, idx);
    assert goal.hs[k..][1..] == goal.hs[k + 1..];
  }

  ghost predicate Sites(list: ControlList, relocs: ControlList, srcList: ControlList, handles: ControlList, bin: ControlList) {
    && list != srcList && list != handles && list != bin && srcList != handles && handles != bin
    && relocs != list && relocs != handles
  }

  /** A relocation loop before its k-th step. */
  ghost predicate Rewriting(list: ControlList, relocs: ControlList, srcList: ControlList, k: nat, table: seq<uint32>, goal: Goal)
    reads list, list.CPA.buf, relocs, relocs.CPA.buf, srcList, srcList.CPA.buf
  {
    && list.Placed() && relocs.Placed() && srcList.Placed()
    && Table(relocs.Contents()) == goal.offs && Table(srcList.Contents()) == goal.src
    && Pending(list.Contents(), k, table, goal)
  }

  /** The three loads of a step: the offset, the index word there, and the handle
      that it stands for in the secondary. */
  method LoadIndex(list: ControlList, relocs: ControlList, srcList: ControlList, k: uint32, ghost m: seq<byte>, ghost t: seq<uint32>, ghost goal: Goal)
      returns (offset: uint32, handle: uint32)
    requires list.Placed() && relocs.Placed() && srcList.Placed() && m == list.Contents()
    requires Table(relocs.Contents()) == goal.offs && Table(srcList.Contents()) == goal.src
    requires k < |goal.offs| && Pending(m, k, t, goal)
    ensures offset == goal.offs[k] && offset + 4 <= |m|
    ensures Word(m, offset) < |goal.src| && handle == goal.src[Word(m, offset)] == goal.hs[k]
  {
    hide Word, Table, Pending, ControlList.Contents;
    NextWord(m, k, t, goal);
    offset := relocs.LoadEntry(k);
    var i := list.LoadAt(offset);
    handle := srcList.LoadEntry(i);
  }

  /** The primary as the relocation loops see it: an open marker whose handle table,
      table, starts behind the bytes front of the handle list. */
  ghost predicate Target(handles: ControlList, bin: ControlList, front: seq<byte>, table: seq<uint32>, lists: set<ControlList>, cpa: ConsecutivePool)
    reads lists, cpa.buf, cpa
  {
    && Apart(lists, cpa) && {handles, bin} <= lists && handles != bin && SmallPool(cpa)
    && OpenMarker(bin, |front|) && WordsFrom(handles, |front|)
    && front <= handles.Contents() && HandlesFrom(handles, |front|) == table
  }

  lemma TargetLists(d: ControlList, handles: ControlList, bin: ControlList, front: seq<byte>, table: seq<uint32>, lists: set<ControlList>, cpa: ConsecutivePool)
    requires Target(handles, bin, front, table, lists, cpa) && d in lists
    ensures d.CPA == cpa && d.Placed() && handles in lists && handles.CPA == cpa && handles.Placed()
  {
    hide SmallPool, OpenMarker, WordsFrom, HandlesFrom, ControlList.Contents, ControlList.Placed, ControlList.Owned;
    ListIn(d, lists, cpa);
    ListIn(handles, lists, cpa);
  }

  /** The handle list holds the table and what is in front of it. */
  lemma TargetUsed(handles: ControlList, bin: ControlList, front: seq<byte>, table: seq<uint32>, lists: set<ControlList>, cpa: ConsecutivePool)
    requires Target(handles, bin, front, table, lists, cpa)
    ensures handles.CPA == cpa && handles.Placed() && handles.At().used == |front| + 4 * |table|
  {
    hide SmallPool, OpenMarker, ControlList.Owned, Word;
    ListIn(handles, lists, cpa);
    handles.RoomIsSpace();
  }

  /** clFit and clGetHandleIndex on the primary's handle list, as in a relocation loop. */
  method TargetHandle(handles: ControlList, bin: ControlList, marker: uint32, handle: uint32,
      ghost front: seq<byte>, ghost table: seq<uint32>, ghost lists: set<ControlList>, ghost cpa: ConsecutivePool)
      returns (out: Outcome, idx: uint32)
    requires Target(handles, bin, front, table, lists, cpa)
    modifies handles, cpa, cpa.buf
    ensures out != PoolLost ==> (out == Done <==> marker == bin.currMarkerOffset)
    ensures FitsAs(cpa.layout, old(cpa.State()), old(handles.At()), 4, out != PoolLost, cpa.State(), Place(handles.first, handles.numBlocks, 0))
    ensures out == Done ==> idx == IndexOf(table, handle) && Target(handles, bin, front, R.WithHandle(table, handle), lists, cpa)
    ensures out == Done ==> Views(lists - {handles}, cpa) == old(Views(lists - {handles}, cpa))
  {
    hide Apart, ControlList.Owned, Word, Table, R.WithHandle, IndexOf, ControlList.CanFit, ControlList.Contents, WholeWords, Views, SmallPool, FitsAs;
    ListIn(handles, lists, cpa);
    out, idx := EnterHandle(handles, bin, marker, handle, |front|, lists);
    if out == Done {
      AllPlaced(lists, cpa);
      WordsWithin(handles.Contents(), |front|);
      ViewsKept(lists - {handles}, cpa);
    }
  }

  /** The store of an index found in the primary's table. */
  method TargetStore(list: ControlList, offset: uint32, idx: uint32, handles: ControlList, bin: ControlList,
      ghost front: seq<byte>, ghost table: seq<uint32>, ghost lists: set<ControlList>, ghost cpa: ConsecutivePool)
    requires Target(handles, bin, front, table, lists, cpa) && list in lists && list != handles && list != bin
    requires list.Placed() && offset + 4 <= |list.Contents()|
    modifies cpa.buf
    ensures Target(handles, bin, front, table, lists, cpa)
    ensures list.Contents() == SetWord(old(list.Contents()), offset, idx)
    ensures Views(lists - {list}, cpa) == old(Views(lists - {list}, cpa))
  {
    hide Apart, ControlList.Owned, Word, Table, WholeWords, ControlList.Contents, SetWord, Views, SmallPool;
    ListIn(list, lists, cpa);
    ListIn(handles, lists, cpa);
    ListIn(bin, lists, cpa);
    list.StoreAt(offset, idx, lists);
    AllPlaced(lists, cpa);
    handles.SpaceKept();
    bin.SpaceKept();
    ViewsKept(lists - {list}, cpa);
  }

  /** One step of a relocation loop of vkCmdExecuteCommands. */
  method RewriteNext(list: ControlList, relocs: ControlList, srcList: ControlList, handles: ControlList, bin: ControlList,
      marker: uint32, k: uint32, ghost goal: Goal, ghost front: seq<byte>, ghost table: seq<uint32>, ghost lists: set<ControlList>, ghost cpa: ConsecutivePool)
      returns (out: Outcome, ghost grown: seq<uint32>)
    requires Sites(list, relocs, srcList, handles, bin) && {list, relocs, srcList} <= lists && k < |goal.offs| == |goal.hs|
    requires Target(handles, bin, front, table, lists, cpa) && Rewriting(list, relocs, srcList, k, table, goal)
    modifies handles, cpa, cpa.buf
    ensures out != PoolLost ==> (out == Done <==> marker == bin.currMarkerOffset)
    ensures FitsAs(cpa.layout, old(cpa.State()), old(handles.At()), 4, out != PoolLost, cpa.State(), Place(handles.first, handles.numBlocks, 0))
    ensures out == Done ==> grown == R.WithHandle(table, goal.hs[k])
    ensures out == Done ==> Target(handles, bin, front, grown, lists, cpa) && Rewriting(list, relocs, srcList, k + 1, grown, goal)
    ensures out == Done ==> Views(lists - {list, handles}, cpa) == old(Views(lists - {list, handles}, cpa))
  {
    hide Target, Word, Table, R.WithHandle, IndexOf, ControlList.CanFit, ControlList.Contents, ControlList.Room, SetWord, Views, Pending, FitsAs;
    TargetLists(list, handles, bin, front, table, lists, cpa);
    TargetLists(relocs, handles, bin, front, table, lists, cpa);
    TargetLists(srcList, handles, bin, front, table, lists, cpa);
    ghost var m := list.Contents();
    var offset, handle := LoadIndex(list, relocs, srcList, k, m, table, goal);
    var idx;
    out, idx := TargetHandle(handles, bin, marker, handle, front, table, lists, cpa);
    grown := R.WithHandle(table, handle);
    if out != Done {
      return;
    }
    ViewKept(list, lists - {handles}, cpa);
    ViewKept(relocs, lists - {handles}, cpa);
    ViewKept(srcList, lists - {handles}, cpa);
    FewerViews(lists - {list, handles}, lists - {handles}, cpa);
    label entered:
    TargetStore(list, offset, idx, handles, bin, front, grown, lists, cpa);
    TargetLists(handles, handles, bin, front, grown, lists, cpa);
    ViewKept@entered(relocs, lists - {list}, cpa);
    ViewKept@entered(srcList, lists - {list}, cpa);
    ViewKept@entered(handles, lists - {list}, cpa);
    FewerViews@entered(lists - {list, handles}, lists - {list}, cpa);
    WordRewritten(m, k, table, goal, offset, handle, idx);
  }

  /** One relocation loop of vkCmdExecuteCommands: the n words of relocs are the
      offsets of the index words of list. */
  method RewriteList(list: ControlList, relocs: ControlList, n: uint32, srcList: ControlList, handles: ControlList, bin: ControlList,
      marker: uint32, ghost goal: Goal, ghost front: seq<byte>, ghost table: seq<uint32>, ghost lists: set<ControlList>, ghost cpa: ConsecutivePool)
      returns (out: Outcome)
    requires Sites(list, relocs, srcList, handles, bin) && {list, relocs, srcList} <= lists && n == |goal.offs| == |goal.hs|
    requires Target(handles, bin, front, table, lists, cpa) && Rewriting(list, relocs, srcList, 0, table, goal)
    modifies handles, cpa, cpa.buf
    ensures EndsAs(EnterAll(cpa.layout, old(cpa.State()), old(handles.At()), |front|, table, goal.hs, marker != bin.currMarkerOffset),
      out, cpa.State(), Place(handles.first, handles.numBlocks, 0))
    ensures out == Done ==>
      && Target(handles, bin, front, goal.table, lists, cpa)
      && list.CPA == cpa && list.Placed() && list.Contents() == goal.words
      && Views(lists - {list, handles}, cpa) == old(Views(lists - {list, handles}, cpa))
  {
    hide Target, Word, Table, R.WithHandle, IndexOf, ControlList.CanFit, ControlList.Contents, ControlList.Room, SetWord, Views, Rewriting, FitsAs, EnterAll;
    TargetLists(list, handles, bin, front, table, lists, cpa);
    var k := 0;
    ghost var t, stale := table, marker != bin.currMarkerOffset;
    ghost var foretold := EnterAll(cpa.layout, cpa.State(), handles.At(), |front|, table, goal.hs, stale);
    out := Done;
    assert goal.hs[0..] == goal.hs;
    while k < n
      invariant 0 <= k <= n && out == Done
      invariant Target(handles, bin, front, t, lists, cpa) && Rewriting(list, relocs, srcList, k, t, goal)
      invariant Views(lists - {list, handles}, cpa) == old(Views(lists - {list, handles}, cpa))
      invariant handles.Placed()
      invariant EnterAll(cpa.layout, cpa.State(), handles.At(), |front|, t, goal.hs[k..], stale) == foretold
    {
      TargetUsed(handles, bin, front, t, lists, cpa);
      ghost var s, p, u, hs := cpa.State(), handles.At(), t, goal.hs[k..];
      assert hs[0] == goal.hs[k] && hs[1..] == goal.hs[k + 1..];
      out, t := RewriteNext(list, relocs, srcList, handles, bin, marker, k, goal, front, t, lists, cpa);
      EnterNext(cpa.layout, s, p, |front|, u, hs, stale, out, cpa.State(), Place(handles.first, handles.numBlocks, 0));
      if out != Done {
        return;
      }
      TargetLists(list, handles, bin, front, t, lists, cpa);
      EnterAllBlocks(cpa.layout, cpa.State(), Place(handles.first, handles.numBlocks, 0), handles.At(), |front|, t, hs[1..], stale);
      k := k + 1;
    }
    TargetLists(list, handles, bin, front, t, lists, cpa);
    Rewritten(list, relocs, srcList, t, goal);
    EnterNone(cpa.layout, cpa.State(), handles.At(), |front|, t, goal.hs[k..], stale);
  }

  lemma RoomFits(list: ControlList, size: nat)
    requires list.Placed()
    ensures size <= list.Room() ==> list.CanFit(size)
  {
  }

  lemma Rewritten(list: ControlList, relocs: ControlList, srcList: ControlList, table: seq<uint32>, goal: Goal)
    requires Rewriting(list, relocs, srcList, |goal.offs|, table, goal)
    ensures list.Placed() && list.Contents() == goal.words && table == goal.table
  {
    PendingAtLast(list.Contents(), table, goal);
  }
}
