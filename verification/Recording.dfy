/** Whole recordings of a command buffer: what the markers in its binning list
    say after any sequence of marker insertions and appends.

    The claims are about clInsertNewCLMarker and clCloseCurrentMarker of
    driver/ControlListUtil.c, and about the walk in vkQueueSubmit. */
module Recording {
  import opened Bytes
  import opened Markers

  /** bin: the binning list; now: the lengths of all lists; marks: where markers
      have been inserted, in order; starts: the lengths at those moments. */
  datatype Tape = Tape(bin: seq<byte>, now: Extent, marks: seq<nat>, starts: seq<Extent>)

  const EMPTY := Tape([], Extent(0, 0, 0, 0, 0), [], [])

  datatype Step =
    | Begin                                   // clInsertNewCLMarker
    | Bin(data: seq<byte>)                    // append to the binning list
    | Grow(handles: nat, shaderRec: nat, records: nat, uniforms: nat)
    | Annotate(field: nat, w: uint32)         // store to another field of the current marker
    | Drawn                                   // numDrawCallsSubmitted++ in the current marker

  /** Fields that clInsertNewCLMarker and clCloseCurrentMarker do not manage. */
  predicate Unmanaged(f: nat) {
    SIZE + 4 <= f <= HANDLES_OFFSET - 4 || UNIFORMS_SIZE + 4 <= f <= MARKER_SIZE - 4
  }

  /** Commands follow a marker, and no list outgrows the 32-bit offsets. */
  predicate Legal(t: Tape, s: Step) {
    match s
    case Begin => |t.bin| + MARKER_SIZE < NONE
    case Bin(data) => t.marks != [] && |t.bin| + |data| < NONE
    case Grow(h, s, c, u) =>
      && t.now.handles + h < NONE && t.now.shaderRec + s < NONE
      && t.now.count + c < NONE && t.now.uniforms + u < NONE
    case Annotate(f, w) => t.marks != [] && Unmanaged(f)
    case Drawn => t.marks != []
  }

  function Last(t: Tape): (at: nat) {
    if t.marks == [] then 0 else t.marks[|t.marks| - 1]
  }

  /** Where the first marker's ranges start: whatever was appended before it was
      inserted belongs to it. */
  function StartOf(t: Tape): (e: Extent) {
    if t.marks == [] then Extent(0, 0, 0, 0, 0) else t.now
  }

  predicate Shaped(t: Tape) {
    && |t.bin| == t.now.bin < NONE && |t.marks| == |t.starts|
    && (t.marks == [] ==> t.bin == [])
    && (t.marks != [] ==> Last(t) + MARKER_SIZE <= |t.bin|)
  }

  function Apply(t: Tape, s: Step): (r: Tape)
    requires Shaped(t) && Legal(t, s)
    ensures Shaped(r)
  {
    match s
    case Begin =>
      Tape(InsertMarker(t.bin, Last(t), t.marks == [], t.now), t.now.(bin := |t.bin| + MARKER_SIZE),
        t.marks + [|t.bin|], t.starts + [StartOf(t)])
    case Bin(data) => t.(bin := t.bin + data, now := t.now.(bin := |t.bin| + |data|))
    case Grow(h, s, c, u) =>
      t.(now := Extent(t.now.bin, t.now.handles + h, t.now.shaderRec + s, t.now.count + c, t.now.uniforms + u))
    case Annotate(f, w) => t.(bin := SetWord(t.bin, Last(t) + f, w))
    case Drawn => t.(bin := SetWord(t.bin, Last(t) + NUM_DRAW_CALLS, Plus(Word(t.bin, Last(t) + NUM_DRAW_CALLS), 1)))
  }

  // --------------------------------------------------- what the markers say

  /** What the seeding of line 75 makes of a marker's shader record count: each
      marker subtracts the count the previous one was closed with, not the
      running total. T[k] is the total when marker k was inserted. */
  function Claimed(T: seq<uint32>, k: nat): (c: uint32)
    requires k + 1 < |T|
    decreases k, 1
  {
    Minus(T[k + 1], Seed(T, k))
  }

  function Seed(T: seq<uint32>, k: nat): (c: uint32)
    requires k < |T|
    decreases k, 0
  {
    if k == 0 then 0 else Claimed(T, k - 1)
  }

  /** The totals of the record counter when each marker was inserted, and now. */
  function Totals(t: Tape): (T: seq<uint32>)
    ensures |T| == |t.starts| + 1 && T[|t.starts|] == t.now.count
    ensures forall k :: 0 <= k < |t.starts| ==> T[k] == t.starts[k].count
  {
    seq(|t.starts|, k requires 0 <= k < |t.starts| => t.starts[k].count) + [t.now.count]
  }

  /** The lengths at which the k-th marker's ranges end. */
  function EndOf(t: Tape, k: nat): (e: Extent) {
    if k + 1 < |t.starts| then t.starts[k + 1] else t.now
  }

  /** What the k-th marker says before it is closed, and after. */
  function Opened(t: Tape, k: nat): (m: Marker)
    requires k < |t.starts|
  {
    var s := t.starts[k];
    Marker(GUARD, NONE, 0, s.handles, 0, s.shaderRec, 0, Seed(Totals(t), k), s.uniforms, 0)
  }

  function Closed(t: Tape, k: nat): (m: Marker)
    requires k < |t.starts|
  {
    var s, e := t.starts[k], EndOf(t, k);
    Marker(GUARD, if k + 1 < |t.starts| then t.starts[k + 1].bin else NONE, Minus(e.bin, Plus(s.bin, MARKER_SIZE)),
      s.handles, Minus(e.handles, s.handles),
      s.shaderRec, Minus(e.shaderRec, s.shaderRec), Claimed(Totals(t), k),
      s.uniforms, Minus(e.uniforms, s.uniforms))
  }

  /** The ranges of the k-th marker run forwards, and it is where it should be. */
  predicate Ordered(t: Tape, k: nat)
    requires k < |t.starts| == |t.marks|
  {
    var s, e := t.starts[k], EndOf(t, k);
    && s.bin == t.marks[k] && s.bin + MARKER_SIZE <= e.bin <= |t.bin|
    && s.handles <= e.handles && s.shaderRec <= e.shaderRec && s.uniforms <= e.uniforms && s.count <= e.count
  }

  ghost predicate Described(t: Tape) {
    && Shaped(t)
    && (t.marks != [] ==> t.starts[0] == Extent(0, 0, 0, 0, 0))
    && (forall k :: 0 <= k < |t.marks| ==> Ordered(t, k))
    && (forall k :: 0 <= k < |t.marks| ==> Says(t, k))
  }

  ghost predicate Says(t: Tape, k: nat)
    requires k < |t.starts| == |t.marks| && Ordered(t, k)
  {
    MarkerAt(t.bin, t.marks[k]) ==
      if k + 1 < |t.marks| then Closed(t, k) else Opened(t, k)
  }

  /** A marker is read from its own bytes only. */
  lemma MarkerFrame(m: seq<byte>, r: seq<byte>, at: nat)
    requires at + MARKER_SIZE <= |m| && at + MARKER_SIZE <= |r|
    requires forall i :: at <= i < at + MARKER_SIZE ==> r[i] == m[i]
    ensures MarkerAt(r, at) == MarkerAt(m, at)
  {
    assert r[at..at + MARKER_SIZE] == m[at..at + MARKER_SIZE];
  }

  /** Markers do not overlap. */
  lemma {:induction false} MarksApart(t: Tape, j: nat, k: nat)
    requires j < k < |t.marks| == |t.starts|
    requires forall i :: 0 <= i < |t.marks| ==> Ordered(t, i)
    ensures t.marks[j] + MARKER_SIZE <= t.marks[k]
    decreases k - j
  {
    assert Ordered(t, j) && Ordered(t, j + 1) && Ordered(t, k);
    if j + 1 < k { MarksApart(t, j + 1, k); }
  }

  /** Seeds and claims look only at the totals up to their marker. */
  lemma {:induction false} SeedPrefix(T: seq<uint32>, U: seq<uint32>, k: nat)
    requires k < |T| && k < |U| && T[..k + 1] == U[..k + 1]
    ensures Seed(T, k) == Seed(U, k)
    ensures k + 1 < |T| && k + 1 < |U| && T[k + 1] == U[k + 1] ==> Claimed(T, k) == Claimed(U, k)
  {
    assert forall i :: 0 <= i <= k ==> T[i] == T[..k + 1][i] && U[i] == U[..k + 1][i];
    if k > 0 {
      assert T[..k] == T[..k + 1][..k] && U[..k] == U[..k + 1][..k];
      SeedPrefix(T, U, k - 1);
    }
  }

  lemma AppendDescribed(t: Tape, data: seq<byte>)
    requires Described(t) && Legal(t, Bin(data))
    ensures Described(Apply(t, Bin(data)))
  {
    var r := Apply(t, Bin(data));
    forall k | 0 <= k < |r.marks| ensures Ordered(r, k) && Says(r, k) {
      assert Ordered(t, k) && Says(t, k);
      MarkerFrame(t.bin, r.bin, t.marks[k]);
      assert Totals(r) == Totals(t);
    }
  }

  lemma GrowDescribed(t: Tape, h: nat, s: nat, c: nat, u: nat)
    requires Described(t) && Legal(t, Grow(h, s, c, u))
    ensures Described(Apply(t, Grow(h, s, c, u)))
  {
    var r := Apply(t, Grow(h, s, c, u));
    forall k | 0 <= k < |r.marks| ensures Ordered(r, k) && Says(r, k) {
      assert Ordered(t, k) && Says(t, k);
      assert Totals(r)[..k + 1] == Totals(t)[..k + 1];
      SeedPrefix(Totals(r), Totals(t), k);
    }
  }

  lemma AnnotateDescribed(t: Tape, f: nat, w: uint32)
    requires Described(t) && Legal(t, Annotate(f, w))
    ensures Described(Apply(t, Annotate(f, w)))
  {
    hide SetWord, MarkerAt, Says, Totals, Unmanaged;
    var r := Apply(t, Annotate(f, w));
    forall k | 0 <= k < |r.marks| ensures Ordered(r, k) && Says(r, k) {
      assert Ordered(t, k) && Says(t, k);
      SaysAnnotated(t, f, w, k);
    }
  }

  lemma SaysAnnotated(t: Tape, f: nat, w: uint32, k: nat)
    requires Described(t) && Legal(t, Annotate(f, w)) && k < |t.marks| && Ordered(t, k) && Says(t, k)
    ensures Ordered(Apply(t, Annotate(f, w)), k) && Says(Apply(t, Annotate(f, w)), k)
  {
    hide SetWord, MarkerAt, Claimed, Seed;
    AnnotateKeeps(t, f, w, k);
    assert Totals(Apply(t, Annotate(f, w))) == Totals(t);
  }

  lemma AnnotateKeeps(t: Tape, f: nat, w: uint32, k: nat)
    requires Described(t) && Legal(t, Annotate(f, w)) && k < |t.marks| && Ordered(t, k)
    ensures MarkerAt(SetWord(t.bin, Last(t) + f, w), t.marks[k]) == MarkerAt(t.bin, t.marks[k])
  {
    hide MarkerAt, Says, Totals;
    if k + 1 < |t.marks| {
      MarksApart(t, k, |t.marks| - 1);
      MarkerFrame(t.bin, SetWord(t.bin, Last(t) + f, w), t.marks[k]);
    } else {
      UnmanagedKept(t.bin, Last(t), f, w);
    }
  }

  lemma UnmanagedKept(m: seq<byte>, cur: nat, f: nat, w: uint32)
    requires cur + MARKER_SIZE <= |m| && Unmanaged(f)
    ensures MarkerAt(SetWord(m, cur + f, w), cur) == MarkerAt(m, cur)
  {
    var s := m[cur..cur + MARKER_SIZE];
    SetInside(m, cur, f, w);
    SetWordKeeps(s, f, w);
    assert SetWord(m, cur + f, w)[cur..cur + MARKER_SIZE] == SetWord(s, f, w);
  }

  /** Counting a draw is a store to a field that is not managed. */
  function Count(t: Tape): (s: Step)
    requires Shaped(t) && t.marks != []
    ensures Legal(t, s) && Apply(t, s) == Apply(t, Drawn)
  {
    Annotate(NUM_DRAW_CALLS, Plus(Word(t.bin, Last(t) + NUM_DRAW_CALLS), 1))
  }

  lemma DrawnDescribed(t: Tape)
    requires Described(t) && Legal(t, Drawn)
    ensures Described(Apply(t, Drawn))
  {
    hide SetWord, MarkerAt, Says, Totals, Described, Apply;
    assert Shaped(t) by { DescribedShape(t); }
    AnnotateDescribed(t, Count(t).field, Count(t).w);
  }

  lemma DescribedShape(t: Tape)
    requires Described(t)
    ensures Shaped(t)
  {
  }

  /** Closing rewrites the current marker's struct and nothing else. */
  lemma CloseEffect(bin: seq<byte>, cur: nat, e: Extent)
    requires cur + MARKER_SIZE <= |bin| == e.bin
    ensures |Close(bin, cur, e)| == |bin|
    ensures MarkerAt(Close(bin, cur, e), cur) == Fields(CloseStruct(bin[cur..cur + MARKER_SIZE], cur, e))
    ensures forall i :: 0 <= i < |bin| && !(cur <= i < cur + MARKER_SIZE) ==> Close(bin, cur, e)[i] == bin[i]
  {
  }

  /** Inserting behind an open marker closes and links it, and appends a marker
      whose ranges start where the lists end. */
  lemma InsertEffect(bin: seq<byte>, cur: nat, e: Extent)
    requires cur + MARKER_SIZE <= |bin| == e.bin && |bin| + MARKER_SIZE < NONE
    requires MarkerAt(bin, cur).size == 0
    ensures var r, k := InsertMarker(bin, cur, false, e), MarkerAt(bin, cur);
      && |r| == |bin| + MARKER_SIZE
      && MarkerAt(r, cur) == Fields(CloseStruct(bin[cur..cur + MARKER_SIZE], cur, e)).(next := |bin|)
      && MarkerAt(r, |bin|) == Marker(GUARD, NONE, 0, e.handles, 0, e.shaderRec, 0, Minus(e.count, k.shaderRecCount), e.uniforms, 0)
      && NewStruct(r[|bin|..|bin| + 164], e.handles, e.shaderRec, Minus(e.count, k.shaderRecCount), e.uniforms)
      && (forall f: nat :: Unmanaged(f) ==> Word(r, cur + f) == Word(bin, cur + f))
      && forall i :: 0 <= i < |bin| && !(cur <= i < cur + MARKER_SIZE) ==> r[i] == bin[i]
  {
    hide FreshMarker, CloseStruct, Word, Minus, Plus;
    var closed := Close(bin, cur, e);
    CloseEffect(bin, cur, e);
    var c := MarkerAt(closed, cur);
    var k := MarkerAt(bin, cur);
    PlusMinus(e.handles, k.handles);
    PlusMinus(e.shaderRec, k.shaderRec);
    PlusMinus(e.uniforms, k.uniforms);
    var next := FreshMarker(e.handles, e.shaderRec, c.shaderRecCount, e.uniforms);
    assert InsertMarker(bin, cur, false, e) == SetWord(closed + next, cur + NEXT_MARKER, |bin|);
    LinkEffect(closed, next, cur);
    FreshIsNew(e.handles, e.shaderRec, c.shaderRecCount, e.uniforms);
    CloseKeepsField(bin, cur, e);
  }

  lemma CloseKeepsField(bin: seq<byte>, cur: nat, e: Extent)
    requires cur + MARKER_SIZE <= |bin| == e.bin
    ensures forall f: nat :: Unmanaged(f) ==> Word(Close(bin, cur, e), cur + f) == Word(bin, cur + f)
  {
    hide Word, CloseStruct;
    var s, r := bin[cur..cur + MARKER_SIZE], Close(bin, cur, e);
    assert r[cur..cur + MARKER_SIZE] == CloseStruct(s, cur, e);
    forall f: nat | Unmanaged(f) ensures Word(r, cur + f) == Word(bin, cur + f) {
      CloseStructKeeps(s, cur, e, f);
      WordInSlice(bin, cur, cur + MARKER_SIZE, f);
      WordInSlice(r, cur, cur + MARKER_SIZE, f);
    }
  }

  /** Linking the marker at cur to a marker appended to the list. */
  lemma LinkEffect(m: seq<byte>, next: seq<byte>, cur: nat)
    requires cur + MARKER_SIZE <= |m| < NONE && |next| == MARKER_SIZE
    ensures var r := SetWord(m + next, cur + NEXT_MARKER, |m|);
      && MarkerAt(r, cur) == MarkerAt(m, cur).(next := |m|)
      && MarkerAt(r, |m|) == Fields(next) && r[|m|..|m| + MARKER_SIZE] == next
      && (forall f: nat :: Unmanaged(f) ==> Word(r, cur + f) == Word(m, cur + f))
      && forall i :: 0 <= i < |m| && !(cur <= i < cur + MARKER_SIZE) ==> r[i] == m[i]
  {
    hide Word, SetWord, Splice;
    var whole := m + next;
    var r := SetWord(whole, cur + NEXT_MARKER, |m|);
    var s := whole[cur..cur + MARKER_SIZE];
    assert s == m[cur..cur + MARKER_SIZE];
    SetInside(whole, cur, NEXT_MARKER, |m|);
    SetWordKeeps(s, NEXT_MARKER, |m|);
    assert r[cur..cur + MARKER_SIZE] == SetWord(s, NEXT_MARKER, |m|);
    assert r[|m|..|m| + MARKER_SIZE] == next;
    forall f: nat | Unmanaged(f) ensures Word(r, cur + f) == Word(m, cur + f) {
      WordInSlice(r, cur, cur + MARKER_SIZE, f);
      WordInSlice(m, cur, cur + MARKER_SIZE, f);
    }
  }

  lemma FirstDescribed(t: Tape)
    requires Described(t) && Legal(t, Begin) && t.marks == []
    ensures Described(Apply(t, Begin))
  {
    hide FreshMarker, Fields, Minus, Plus, Claimed;
    var r := Apply(t, Begin);
    assert r.bin == FreshMarker(0, 0, 0, 0) && r.bin[0..MARKER_SIZE] == r.bin;
  }

  /** Markers before the last one are as they were. */
  lemma EarlierMarker(t: Tape, r: Tape, k: nat)
    requires Described(t) && Legal(t, Begin) && k + 1 < |t.marks| && r == Apply(t, Begin)
    requires |r.bin| >= |t.bin| && forall i :: 0 <= i < |t.bin| && !(Last(t) <= i < Last(t) + MARKER_SIZE) ==> r.bin[i] == t.bin[i]
    ensures Ordered(r, k) && Says(r, k)
  {
    hide InsertMarker, MarkerAt, Seed, Claimed, Minus, Plus;
    var n := |t.marks|;
    assert Ordered(t, k) && Says(t, k);
    MarksApart(t, k, n - 1);
    assert Ordered(t, n - 1);
    MarkerFrame(t.bin, r.bin, t.marks[k]);
    var T, U := Totals(r), Totals(t);
    assert T[..k + 1] == U[..k + 1] && T[k + 1] == U[k + 1];
    SeedPrefix(T, U, k);
  }

  /** The marker that was the last one is closed and linked. */
  lemma ClosedMarker(t: Tape, r: Tape)
    requires Described(t) && Legal(t, Begin) && t.marks != [] && r == Apply(t, Begin)
    ensures Ordered(r, |t.marks| - 1) && Says(r, |t.marks| - 1)
  {
    hide InsertMarker, MarkerAt, CloseStruct, Seed, Claimed, Totals, Fields, Minus, Plus;
    var n := |t.marks|;
    assert Ordered(t, n - 1) && Says(t, n - 1);
    InsertEffect(t.bin, Last(t), t.now);
    CloseFields(t.bin, Last(t), t.now);
    ClaimWhenClosed(t, r);
    SizeWhenClosed(t.now.bin, Last(t));
  }

  lemma SizeWhenClosed(end: uint32, cur: nat)
    requires cur + MARKER_SIZE <= end
    ensures Minus(end, Plus(cur, MARKER_SIZE)) == end - cur - MARKER_SIZE
  {
  }

  lemma ClaimWhenClosed(t: Tape, r: Tape)
    requires Described(t) && Legal(t, Begin) && t.marks != [] && r == Apply(t, Begin)
    ensures Claimed(Totals(r), |t.marks| - 1) == Minus(t.now.count, Seed(Totals(t), |t.marks| - 1))
  {
    hide InsertMarker, MarkerAt, Minus, Plus, Says, Ordered;
    var n, T, U := |t.marks|, Totals(r), Totals(t);
    assert T[..n] == U[..n] && T[n] == U[n];
    SeedPrefix(T, U, n - 1);
  }

  /** Only the last marker's bytes change. */
  lemma BeginKeepsBytes(t: Tape, r: Tape)
    requires Described(t) && Legal(t, Begin) && t.marks != [] && r == Apply(t, Begin)
    ensures |r.bin| >= |t.bin| && forall i :: 0 <= i < |t.bin| && !(Last(t) <= i < Last(t) + MARKER_SIZE) ==> r.bin[i] == t.bin[i]
  {
    hide InsertMarker, MarkerAt, CloseStruct, Totals, Fields;
    assert Ordered(t, |t.marks| - 1) && Says(t, |t.marks| - 1);
    InsertEffect(t.bin, Last(t), t.now);
  }

  lemma CloseFields(bin: seq<byte>, cur: nat, e: Extent)
    requires cur + MARKER_SIZE <= |bin| == e.bin
    ensures var k := MarkerAt(bin, cur);
      Fields(CloseStruct(bin[cur..cur + MARKER_SIZE], cur, e)) == k.(size := e.bin - cur - MARKER_SIZE,
        handlesSize := Minus(e.handles, k.handles), shaderRecSize := Minus(e.shaderRec, k.shaderRec),
        uniformsSize := Minus(e.uniforms, k.uniforms), shaderRecCount := Minus(e.count, k.shaderRecCount))
  {
    hide Word, CloseStruct, Minus;
  }

  /** The new marker continues the ranges. */
  lemma NewMarker(t: Tape, r: Tape)
    requires Described(t) && Legal(t, Begin) && t.marks != [] && r == Apply(t, Begin)
    ensures Ordered(r, |t.marks|) && Says(r, |t.marks|)
  {
    hide InsertMarker, MarkerAt, CloseStruct, Fields;
    var n, T, U := |t.marks|, Totals(r), Totals(t);
    assert Ordered(t, n - 1) && Says(t, n - 1);
    InsertEffect(t.bin, Last(t), t.now);
    assert T[..n] == U[..n] && T[n] == U[n];
    SeedPrefix(T, U, n - 1);
  }

  lemma NextDescribed(t: Tape)
    requires Described(t) && Legal(t, Begin) && t.marks != []
    ensures Described(Apply(t, Begin))
  {
    hide InsertMarker, Says, Ordered, Legal;
    var r, n := Apply(t, Begin), |t.marks|;
    ClosedMarker(t, r);
    BeginKeepsBytes(t, r);
    NewMarker(t, r);
    forall k | 0 <= k < n + 1 ensures Ordered(r, k) && Says(r, k) {
      if k < n - 1 { EarlierMarker(t, r, k); }
    }
  }

  lemma StepDescribed(t: Tape, s: Step)
    requires Described(t) && Legal(t, s)
    ensures Described(Apply(t, s))
  {
    match s
    case Begin => if t.marks == [] { FirstDescribed(t); } else { NextDescribed(t); }
    case Bin(data) => AppendDescribed(t, data);
    case Grow(h, s, c, u) => GrowDescribed(t, h, s, c, u);
    case Annotate(f, w) => AnnotateDescribed(t, f, w);
    case Drawn => DrawnDescribed(t);
  }

  // ------------------------------------------------------------ whole tapes

  predicate LegalTape(t: Tape, steps: seq<Step>)
    requires Shaped(t)
    decreases |steps|
  {
    steps == [] || (Legal(t, steps[0]) && LegalTape(Apply(t, steps[0]), steps[1..]))
  }

  function Record(t: Tape, steps: seq<Step>): (r: Tape)
    requires Shaped(t) && LegalTape(t, steps)
    ensures Shaped(r)
    decreases |steps|
  {
    if steps == [] then t else Record(Apply(t, steps[0]), steps[1..])
  }

  /** How often a marker is inserted. */
  function Begins(steps: seq<Step>): (n: nat) {
    if steps == [] then 0 else (if steps[0].Begin? then 1 else 0) + Begins(steps[1..])
  }

  lemma {:induction false} RecordDescribed(t: Tape, steps: seq<Step>)
    requires Described(t) && LegalTape(t, steps)
    ensures Described(Record(t, steps))
    ensures |Record(t, steps).marks| == |t.marks| + Begins(steps)
    decreases |steps|
  {
    if steps != [] {
      StepDescribed(t, steps[0]);
      RecordDescribed(Apply(t, steps[0]), steps[1..]);
    }
  }

  lemma EmptyDescribed()
    ensures Described(EMPTY)
  {
  }

  /** The list as vkQueueSubmit reads it: the last marker closed as well. */
  function Finish(t: Tape): (bin: seq<byte>)
    requires Shaped(t) && t.marks != []
    ensures |bin| == |t.bin|
  {
    Close(t.bin, Last(t), t.now)
  }

  /** The positions reached from at by following nextMarkerOffset, as the loop in
      vkQueueSubmit does; it stops where a link leads backwards or outside. */
  function Walk(bin: seq<byte>, at: nat): (visited: seq<nat>)
    decreases |bin| - at
  {
    if at + MARKER_SIZE > |bin| then []
    else
      var next := MarkerAt(bin, at).next;
      if next == NONE || next <= at then [at] else [at] + Walk(bin, next)
  }

  lemma FinishedMarkers(t: Tape)
    requires Described(t) && t.marks != []
    ensures forall k :: 0 <= k < |t.marks| ==> Ordered(t, k) && MarkerAt(Finish(t), t.marks[k]) == Closed(t, k)
  {
    hide Close, MarkerAt;
    forall k | 0 <= k < |t.marks| ensures Ordered(t, k) && MarkerAt(Finish(t), t.marks[k]) == Closed(t, k) {
      assert Ordered(t, k) && Says(t, k);
      if k + 1 < |t.marks| { FinishKeeps(t, k); } else { FinishCloses(t); }
    }
  }

  /** The final close leaves all markers but the last as they are. */
  lemma FinishKeeps(t: Tape, k: nat)
    requires Described(t) && k + 1 < |t.marks|
    ensures t.marks[k] + MARKER_SIZE <= |t.bin| && MarkerAt(Finish(t), t.marks[k]) == MarkerAt(t.bin, t.marks[k])
  {
    hide Close, MarkerAt, Says, CloseStruct;
    assert Ordered(t, k) && Ordered(t, |t.marks| - 1);
    CloseEffect(t.bin, Last(t), t.now);
    MarksApart(t, k, |t.marks| - 1);
    MarkerFrame(t.bin, Finish(t), t.marks[k]);
  }

  lemma FinishCloses(t: Tape)
    requires Described(t) && t.marks != []
    ensures Ordered(t, |t.marks| - 1) && MarkerAt(Finish(t), Last(t)) == Closed(t, |t.marks| - 1)
  {
    hide Close, MarkerAt, CloseStruct, Fields, Minus, Plus, Seed;
    var k := |t.marks| - 1;
    assert Ordered(t, k) && Says(t, k);
    CloseEffect(t.bin, Last(t), t.now);
    CloseFields(t.bin, Last(t), t.now);
    SizeWhenClosed(t.now.bin, Last(t));
  }

  lemma {:induction false} WalkFrom(t: Tape, k: nat)
    requires Described(t) && k < |t.marks|
    requires forall j :: 0 <= j < |t.marks| ==> Ordered(t, j) && MarkerAt(Finish(t), t.marks[j]) == Closed(t, j)
    ensures Walk(Finish(t), t.marks[k]) == t.marks[k..]
    decreases |t.marks| - k
  {
    hide MarkerAt, Close, Minus, Plus, Claimed, Seed, Totals, Says, Ordered;
    MarksRise(t, k);
    if k + 1 < |t.marks| {
      WalkFrom(t, k + 1);
    }
  }

  lemma MarksRise(t: Tape, k: nat)
    requires Described(t) && k < |t.marks|
    ensures t.marks[k] + MARKER_SIZE <= |t.bin| < NONE && t.starts[k].bin == t.marks[k]
    ensures k + 1 < |t.marks| ==> t.marks[k] < t.marks[k + 1] < NONE && t.starts[k + 1].bin == t.marks[k + 1]
  {
    hide Says;
    assert Ordered(t, k);
    if k + 1 < |t.marks| { assert Ordered(t, k + 1); }
  }

  /** The k-th marker's four ranges end where the next marker's begin, or where
      the lists end. */
  predicate Tiles(bin: seq<byte>, marks: seq<nat>, now: Extent, k: nat)
    requires k < |marks| && forall j :: 0 <= j < |marks| ==> marks[j] + MARKER_SIZE <= |bin|
  {
    var m := MarkerAt(bin, marks[k]);
    var behind := if k + 1 < |marks| then marks[k + 1] else |bin|;
    var next := if k + 1 < |marks| then MarkerAt(bin, marks[k + 1])
      else Marker(0, 0, 0, now.handles, 0, now.shaderRec, 0, 0, now.uniforms, 0);
    && marks[k] + MARKER_SIZE + m.size == behind
    && m.handles + m.handlesSize == next.handles
    && m.shaderRec + m.shaderRecSize == next.shaderRec
    && m.uniforms + m.uniformsSize == next.uniforms
  }

  /** After any sequence of marker insertions, appends and stores to unmanaged
      fields, and a final close: the walk from the start of the list visits the
      inserted markers, all of them and in order, and their binning, handle,
      shader record and uniform ranges tile the lists without gap or overlap. */
  lemma RecordedTapesWalkAndTile(steps: seq<Step>)
    requires LegalTape(EMPTY, steps) && Begins(steps) > 0
    ensures var t := Record(EMPTY, steps);
      && |t.marks| == Begins(steps)
      && Walk(Finish(t), 0) == t.marks && t.marks[0] == 0
      && (forall k :: 0 <= k < |t.marks| ==> t.marks[k] + MARKER_SIZE <= |t.bin|)
      && (forall k :: 0 <= k < |t.marks| ==> Tiles(Finish(t), t.marks, t.now, k))
      && MarkerAt(Finish(t), 0).handles == MarkerAt(Finish(t), 0).shaderRec == MarkerAt(Finish(t), 0).uniforms == 0
  {
    hide Close, MarkerAt, Apply, Legal, Tiles;
    RecordDescribed(EMPTY, steps);
    var t := Record(EMPTY, steps);
    FinishedMarkers(t);
    assert Ordered(t, 0);
    WalkFrom(t, 0);
    forall k | 0 <= k < |t.marks| ensures t.marks[k] + MARKER_SIZE <= |t.bin| { assert Ordered(t, k); }
    forall k | 0 <= k < |t.marks| ensures Tiles(Finish(t), t.marks, t.now, k) { TilesAt(t, k); }
  }

  lemma TilesAt(t: Tape, k: nat)
    requires Described(t) && k < |t.marks|
    requires forall j :: 0 <= j < |t.marks| ==> Ordered(t, j) && MarkerAt(Finish(t), t.marks[j]) == Closed(t, j)
    ensures forall j :: 0 <= j < |t.marks| ==> t.marks[j] + MARKER_SIZE <= |Finish(t)|
    ensures Tiles(Finish(t), t.marks, t.now, k)
  {
    hide MarkerAt, Minus, Finish, Claimed, Totals;
    assert Ordered(t, k);
    if k + 1 < |t.marks| { assert Ordered(t, k + 1); }
    forall j | 0 <= j < |t.marks| ensures t.marks[j] + MARKER_SIZE <= |Finish(t)| { assert Ordered(t, j); }
    var s, e := t.starts[k], EndOf(t, k);
    PlusMinus(e.bin, s.bin + MARKER_SIZE);
    PlusMinus(e.handles, s.handles);
    PlusMinus(e.shaderRec, s.shaderRec);
    PlusMinus(e.uniforms, s.uniforms);
  }

  // ------------------------------------------------ per-marker record counts

  /** Did marker k end up with the number of records emitted while it was open? */
  predicate CountRight(T: seq<uint32>, k: nat)
    requires k + 1 < |T|
  {
    Claimed(T, k) == Minus(T[k + 1], T[k])
  }

  predicate Rising(T: seq<uint32>) {
    |T| > 0 && T[0] == 0 && forall j, k :: 0 <= j < k < |T| ==> T[j] <= T[k]
  }

  /** While no record has been emitted before the previous marker, counts are right. */
  lemma {:induction false} ClaimedEarly(T: seq<uint32>, k: nat)
    requires Rising(T) && k + 1 < |T|
    requires k > 0 ==> T[k - 1] == 0
    ensures CountRight(T, k)
    ensures T[k] == 0 ==> Claimed(T, k) == T[k + 1]
  {
    if k > 0 {
      if k > 1 { assert T[k - 2] <= T[k - 1]; }
      ClaimedEarly(T, k - 1);
    }
  }

  /** Every claim is right if and only if the total was still zero when the last
      marker but one was inserted. */
  lemma RecordCountsExact(T: seq<uint32>, n: nat)
    requires Rising(T) && n > 0 && |T| == n + 1
    ensures (forall k :: 0 <= k < n ==> CountRight(T, k)) <==> (n >= 2 ==> T[n - 2] == 0)
  {
    if n >= 2 ==> T[n - 2] == 0 {
      forall k | 0 <= k < n ensures CountRight(T, k) {
        if k > 0 { assert k - 1 == n - 2 || T[k - 1] <= T[n - 2]; }
        ClaimedEarly(T, k);
      }
    } else {
      assert Seed(T, n - 1) == Claimed(T, n - 2);
      assert T[n - 2] <= T[n - 1] <= T[n];
      MinusTwice(T[n - 2], T[n - 1], T[n]);
      assert Claimed(T, n - 1) == Minus(T[n], Claimed(T, n - 2));
      assert !CountRight(T, n - 2) || !CountRight(T, n - 1);
    }
  }

  lemma MinusTwice(a: uint32, b: uint32, c: uint32)
    requires 0 < a <= b <= c
    ensures Minus(c, Minus(b, a)) != Minus(c, b)
  {
  }

  /** The totals of a recording rise. */
  lemma {:induction false} TotalsRise(t: Tape)
    requires Described(t) && t.marks != []
    ensures Rising(Totals(t))
  {
    var T := Totals(t);
    assert forall k :: 0 <= k < |t.marks| ==> Ordered(t, k);
    forall j, k | 0 <= j < k < |T| ensures T[j] <= T[k] { TotalsRiseFrom(t, j, k); }
  }

  lemma {:induction false} TotalsRiseFrom(t: Tape, j: nat, k: nat)
    requires j <= k < |Totals(t)| && |t.marks| == |t.starts|
    requires forall i :: 0 <= i < |t.marks| ==> Ordered(t, i)
    ensures Totals(t)[j] <= Totals(t)[k]
    decreases k
  {
    if j < k {
      assert Ordered(t, k - 1);
      TotalsRiseFrom(t, j, k - 1);
    }
  }

  /** How many shader records were emitted while the k-th marker was open. */
  function Emitted(t: Tape, k: nat): (c: int)
    requires k < |t.starts|
  {
    EndOf(t, k).count - t.starts[k].count
  }

  /** Does the k-th marker, as vkQueueSubmit reads it, say how many those are? */
  predicate CountSaid(t: Tape, k: nat)
    requires Shaped(t) && k < |t.marks| && t.marks[k] + MARKER_SIZE <= |t.bin|
  {
    MarkerAt(Finish(t), t.marks[k]).shaderRecCount == Emitted(t, k)
  }

  lemma CountSaidIsRight(t: Tape, k: nat)
    requires Described(t) && k < |t.marks|
    ensures t.marks[k] + MARKER_SIZE <= |t.bin|
    ensures CountSaid(t, k) <==> CountRight(Totals(t), k)
  {
    hide MarkerAt, Close, Claimed, Says;
    FinishedMarkers(t);
    assert Ordered(t, k);
    PlusMinus(EndOf(t, k).count, t.starts[k].count);
  }

  /** After any recording, every marker says how many shader records were emitted while
      it was open if and only if none had been emitted when the last marker but one
      was inserted. */
  lemma MarkerCountsExact(steps: seq<Step>)
    requires LegalTape(EMPTY, steps) && Begins(steps) > 0
    ensures var t, n := Record(EMPTY, steps), Begins(steps);
      && |t.marks| == n && (forall k :: 0 <= k < n ==> t.marks[k] + MARKER_SIZE <= |t.bin|)
      && ((forall k :: 0 <= k < n ==> CountSaid(t, k)) <==> (n >= 2 ==> t.starts[n - 2].count == 0))
  {
    hide Described, CountSaid, CountRight, Rising;
    EmptyDescribed();
    RecordDescribed(EMPTY, steps);
    var t, n := Record(EMPTY, steps), Begins(steps);
    forall k | 0 <= k < n ensures t.marks[k] + MARKER_SIZE <= |t.bin| && (CountSaid(t, k) <==> CountRight(Totals(t), k)) {
      CountSaidIsRight(t, k);
    }
    TotalsRise(t);
    RecordCountsExact(Totals(t), n);
  }

  const THREE_DRAWS: seq<Step> := [Begin, Grow(0, 0, 1, 0), Begin, Grow(0, 0, 1, 0), Begin, Grow(0, 0, 1, 0)]

  /** Three markers with one record each already show it: the third says two. */
  lemma ThirdMarkerMiscounts()
    ensures LegalTape(EMPTY, THREE_DRAWS)
    ensures var t := Record(EMPTY, THREE_DRAWS);
      |t.marks| == 3 && t.marks[2] + MARKER_SIZE <= |t.bin|
      && MarkerAt(Finish(t), t.marks[2]).shaderRecCount == 2 && Emitted(t, 2) == 1
  {
    hide InsertMarker, MarkerAt, Close, Described;
    var steps := THREE_DRAWS;
    var t := ThreeDraws();
    EmptyDescribed();
    RecordDescribed(EMPTY, steps);
    FinishedMarkers(t);
    assert Ordered(t, 2);
    var T := Totals(t);
    assert T == [0, 1, 2, 3];
    assert Claimed(T, 0) == 1 && Claimed(T, 1) == 1 && Claimed(T, 2) == 2;
  }

  lemma ThreeDraws() returns (t: Tape)
    ensures LegalTape(EMPTY, THREE_DRAWS) && t == Record(EMPTY, THREE_DRAWS)
    ensures |t.marks| == |t.starts| == 3 && t.now.count == 3 && t.starts[0].count == 0 && t.starts[1].count == 1 && t.starts[2].count == 2
  {
    hide InsertMarker;
    var steps := THREE_DRAWS;
    var t1 := Apply(EMPTY, Begin);
    var t2 := Apply(t1, steps[1]);
    var t3 := Apply(t2, Begin);
    var t4 := Apply(t3, steps[3]);
    var t5 := Apply(t4, Begin);
    t := Apply(t5, steps[5]);
    assert LegalTape(t, steps[6..]) && Record(t, steps[6..]) == t;
    assert steps[5..][1..] == steps[6..];
    assert LegalTape(t5, steps[5..]) && Record(t5, steps[5..]) == t;
    assert steps[4..][1..] == steps[5..];
    assert LegalTape(t4, steps[4..]) && Record(t4, steps[4..]) == t;
    assert steps[3..][1..] == steps[4..];
    assert LegalTape(t3, steps[3..]) && Record(t3, steps[3..]) == t;
    assert steps[2..][1..] == steps[3..];
    assert LegalTape(t2, steps[2..]) && Record(t2, steps[2..]) == t;
    assert steps[1..][1..] == steps[2..];
    assert LegalTape(t1, steps[1..]) && Record(t1, steps[1..]) == t;
  }
}
