/** The walk over the markers of a command buffer in vkQueueSubmit of
    driver/command.c. */
module Submission {
  import opened Bytes
  import opened Seqs
  import opened ConsecutivePool
  import opened Markers
  import opened ControlLists
  import opened ListViews
  import opened Recording

  /** The lists hold the recording t: its bytes are in the binning list, its
      lengths are how long the lists are. */
  ghost predicate Holds(bin: ControlList, handles: ControlList, shaderRec: ControlList, count: uint32, uniforms: ControlList, t: Tape)
    reads bin, bin.CPA.buf, handles, shaderRec, uniforms
  {
    && Described(t) && bin.Placed() && handles.Placed() && shaderRec.Placed() && uniforms.Placed()
    && bin.Contents() == t.bin && t.now == ControlList.ExtentOf(bin, handles, shaderRec, count, uniforms)
    && bin.Cursor() == if t.marks == [] then None else Some(Last(t))
  }

  /** Every marker is followed by a binning command. */
  predicate NoneEmpty(t: Tape)
    requires |t.marks| == |t.starts|
  {
    forall k :: 0 <= k < |t.marks| ==> t.starts[k].bin + MARKER_SIZE < EndOf(t, k).bin
  }

  method LoadMarker(list: ControlList, at: uint32) returns (k: Marker)
    requires list.Placed() && at + MARKER_SIZE <= |list.Contents()|
    ensures k == MarkerAt(list.Contents(), at)
  {
    hide Word, ControlList.Contents;
    ghost var m := list.Contents();
    var guard := LoadFieldAt(list, at, MEM_GUARD, m);
    var next := LoadFieldAt(list, at, NEXT_MARKER, m);
    var size := LoadFieldAt(list, at, SIZE, m);
    var h := LoadFieldAt(list, at, HANDLES_OFFSET, m);
    var hs := LoadFieldAt(list, at, HANDLES_SIZE, m);
    var s := LoadFieldAt(list, at, SHADER_REC_OFFSET, m);
    var ss := LoadFieldAt(list, at, SHADER_REC_SIZE, m);
    var c := LoadFieldAt(list, at, SHADER_REC_COUNT, m);
    var u := LoadFieldAt(list, at, UNIFORMS_OFFSET, m);
    var us := LoadFieldAt(list, at, UNIFORMS_SIZE, m);
    k := Marker(guard, next, size, h, hs, s, ss, c, u, us);
  }

  method LoadFieldAt(list: ControlList, at: uint32, f: nat, ghost m: seq<byte>) returns (w: uint32)
    requires list.Placed() && m == list.Contents() && at + MARKER_SIZE <= |m| && f + 4 <= MARKER_SIZE
    ensures w == Word(m[at..at + MARKER_SIZE], f)
  {
    w := list.LoadAt(at + f);
    WordInSlice(m, at, at + MARKER_SIZE, f);
  }

  /** What vkQueueSubmit hands to the kernel for the recording t: one job for each
      marker, with the ranges that marker governs. */
  ghost predicate JobsOf(t: Tape, jobs: seq<Marker>, n: nat) {
    && n <= |t.starts| && |jobs| == n
    && forall k :: 0 <= k < n ==> jobs[k] == Closed(t, k)
  }

  method CloseLast(bin: ControlList, handles: ControlList, shaderRec: ControlList, count: uint32, uniforms: ControlList,
      ghost t: Tape, ghost lists: set<ControlList>, ghost cpa: ConsecutivePool)
    requires Apart(lists, cpa) && {bin, handles, shaderRec, uniforms} <= lists && bin.CPA == cpa
    requires Holds(bin, handles, shaderRec, count, uniforms, t) && t.marks != []
    modifies cpa.buf
    ensures Apart(lists, cpa) && bin.Placed() && bin.Contents() == Finish(t)
    ensures Views(lists - {bin}, cpa) == old(Views(lists - {bin}, cpa))
  {
    hide Apart, ControlList.Owned, Close, ControlList.Contents, Described, Views;
    ghost var cur, e := Last(t), t.now;
    bin.CloseCurrentMarker(handles, shaderRec, count, uniforms, cur, e, lists);
    AllPlaced(lists, cpa);
    ViewsKept(lists - {bin}, cpa);
  }

  /** One round of the loop in vkQueueSubmit, at the k-th marker. */
  method SubmitMarker(bin: ControlList, handles: ControlList, shaderRec: ControlList, count: uint32, uniforms: ControlList,
      at: uint32, ghost k: nat, ghost t: Tape, ghost lists: set<ControlList>, ghost cpa: ConsecutivePool)
      returns (job: Marker)
    requires Apart(lists, cpa) && {bin, handles, shaderRec, uniforms} <= lists && bin.CPA == cpa
    requires Holds(bin, handles, shaderRec, count, uniforms, t) && NoneEmpty(t) && k < |t.marks| && at == t.marks[k]
    modifies cpa.buf
    ensures Apart(lists, cpa) && job == Closed(t, k)
    ensures bin.Placed() && bin.Contents() == if k + 1 < |t.marks| then t.bin else Finish(t)
    ensures Views(lists - {bin}, cpa) == old(Views(lists - {bin}, cpa))
  {
    hide Apart, ControlList.Owned, MarkerAt, Close, ControlList.Contents, Described, Views;
    ListIn(bin, lists, cpa);
    MarkerSays(t, k);
    job := LoadMarker(bin, at);
    if job.size == 0 {
      CloseLast(bin, handles, shaderRec, count, uniforms, t, lists, cpa);
      job := LoadMarker(bin, at);
    }
  }

  /** A marker has a size exactly once it is closed. */
  lemma MarkerSays(t: Tape, k: nat)
    requires Described(t) && NoneEmpty(t) && k < |t.marks|
    ensures t.marks[k] + MARKER_SIZE <= |t.bin|
    ensures k + 1 < |t.marks| ==> MarkerAt(t.bin, t.marks[k]) == Closed(t, k) && Closed(t, k).size != 0
    ensures k + 1 == |t.marks| ==> MarkerAt(t.bin, t.marks[k]).size == 0 && MarkerAt(Finish(t), t.marks[k]) == Closed(t, k)
    ensures k + 1 < |t.marks| ==> Closed(t, k).next == t.marks[k + 1] < NONE
    ensures k + 1 == |t.marks| ==> Closed(t, k).next == NONE
  {
    hide MarkerAt, Finish, Claimed, Totals, Seed, Minus;
    assert Ordered(t, k) && Says(t, k);
    PlusMinus(EndOf(t, k).bin, t.starts[k].bin + MARKER_SIZE);
    if k + 1 < |t.marks| { assert Ordered(t, k + 1); }
    FinishedMarkers(t);
  }

  lemma FirstMark(t: Tape)
    requires Described(t)
    ensures Shaped(t) && (t.marks != [] ==> t.marks[0] == 0)
  {
    if t.marks != [] { assert Ordered(t, 0); }
  }

  /** The loop in vkQueueSubmit. The last marker is still open when the walk gets
      there, and is closed on the way. */
  method Submit(bin: ControlList, handles: ControlList, shaderRec: ControlList, count: uint32, uniforms: ControlList,
      ghost t: Tape, ghost lists: set<ControlList>, ghost cpa: ConsecutivePool)
      returns (visited: seq<nat>, jobs: seq<Marker>)
    requires Apart(lists, cpa) && {bin, handles, shaderRec, uniforms} <= lists && bin.CPA == cpa
    requires Holds(bin, handles, shaderRec, count, uniforms, t) && NoneEmpty(t)
    modifies cpa.buf
    ensures Apart(lists, cpa)
    ensures visited == t.marks && JobsOf(t, jobs, |t.marks|)
    ensures bin.Contents() == if t.marks == [] then t.bin else Finish(t)
    ensures Views(lists - {bin}, cpa) == old(Views(lists - {bin}, cpa))
  {
    hide Apart, ControlList.Owned, ControlList.Contents, Described, Finish, Closed, NoneEmpty, ControlList.Placed, Views;
    AllPlaced(lists, cpa);
    visited, jobs := [], [];
    if bin.currMarkerOffset == NONE { return; }
    var at: uint32 := 0;
    var more := true;
    ghost var k := 0;
    FirstMark(t);
    while more
      invariant forall d :: d in lists ==> d.CPA == cpa && d.Placed()
      invariant Apart(lists, cpa) && k <= |t.marks| && (more <==> k < |t.marks|)
      invariant visited == t.marks[..k] && JobsOf(t, jobs, k)
      invariant more ==> Holds(bin, handles, shaderRec, count, uniforms, t) && at == t.marks[k]
      invariant !more ==> bin.Contents() == Finish(t)
      invariant Views(lists - {bin}, cpa) == old(Views(lists - {bin}, cpa))
      decreases |t.marks| - k
    {
      MarkerSays(t, k);
      var job := SubmitMarker(bin, handles, shaderRec, count, uniforms, at, k, t, lists, cpa);
      AllPlaced(lists, cpa);
      visited, jobs, k := visited + [at], jobs + [job], k + 1;
      more := job.next != NONE;
      at := job.next;
    }
  }
}
