/** The fields of a marker that closing it does not compute: images, clear values,
    sizes, flags, the number of draws. Over a whole recording each of them says what
    was stored to it while its marker was the current one. */
module MarkerFields {
  import opened Bytes
  import opened Markers
  import opened Recording

  function OneMore(n: uint32): (r: uint32) { (n + 1) % 0x1_0000_0000 }

  /** What the field at offset f of each marker says after one more step. */
  function Noted(vals: seq<uint32>, f: nat, s: Step): (r: seq<uint32>) {
    match s
    case Begin => vals + [0]
    case Annotate(g, w) => if g == f && vals != [] then vals[|vals| - 1 := w] else vals
    case Drawn => if f == 108 && vals != [] then vals[|vals| - 1 := OneMore(vals[|vals| - 1])] else vals
    case _ => vals
  }

  function AllNoted(vals: seq<uint32>, f: nat, steps: seq<Step>): (r: seq<uint32>)
    decreases |steps|
  {
    if steps == [] then vals else AllNoted(Noted(vals, f, steps[0]), f, steps[1..])
  }

  /** A store to a field is a store to the whole of it, or to none of it. */
  predicate Beside(s: Step, f: nat) {
    match s
    case Annotate(g, w) => g == f || g + 4 <= f || f + 4 <= g
    case Drawn => f == 108 || f <= 104 || 112 <= f
    case _ => true
  }

  ghost predicate FieldsSay(t: Tape, f: nat, vals: seq<uint32>) {
    && |vals| == |t.marks|
    && forall k :: 0 <= k < |t.marks| ==> t.marks[k] + f + 4 <= |t.bin| && Word(t.bin, t.marks[k] + f) == vals[k]
  }

  /** A store to the current marker leaves the fields beside it, and all other markers. */
  lemma StoreNoted(t: Tape, g: nat, w: uint32, f: nat, vals: seq<uint32>)
    requires Described(t) && Legal(t, Annotate(g, w)) && Unmanaged(f) && FieldsSay(t, f, vals)
    requires g == f || g + 4 <= f || f + 4 <= g
    ensures FieldsSay(Apply(t, Annotate(g, w)), f, if g == f then vals[|vals| - 1 := w] else vals)
  {
    hide Word, SetWord, Says;
    var n := |t.marks|;
    assert Ordered(t, n - 1);
    SetWordKeeps(t.bin, Last(t) + g, w);
    forall k | 0 <= k < n - 1 ensures t.marks[k] + MARKER_SIZE <= Last(t) { MarksApart(t, k, n - 1); }
  }

  lemma FirstNoted(t: Tape, f: nat, vals: seq<uint32>)
    requires Described(t) && Legal(t, Begin) && Unmanaged(f) && FieldsSay(t, f, vals) && t.marks == []
    ensures FieldsSay(Apply(t, Begin), f, vals + [0])
  {
    hide FreshMarker, Word, NewStruct;
    var r := Apply(t, Begin);
    assert r.bin == FreshMarker(0, 0, 0, 0);
    FreshIsNew(0, 0, 0, 0);
    NewWord(r.bin, 0, 0, 0, 0, f);
  }

  lemma NextNoted(t: Tape, f: nat, vals: seq<uint32>)
    requires Described(t) && Legal(t, Begin) && Unmanaged(f) && FieldsSay(t, f, vals) && t.marks != []
    ensures FieldsSay(Apply(t, Begin), f, vals + [0])
  {
    hide Word, InsertMarker, NewStruct, CloseStruct, Fields;
    var r, n, m := Apply(t, Begin), |t.marks|, |t.bin|;
    assert Ordered(t, n - 1) && Says(t, n - 1);
    var e, c := t.now, MarkerAt(t.bin, Last(t)).shaderRecCount;
    InsertEffect(t.bin, Last(t), e);
    NewWord(r.bin[m..m + 164], e.handles, e.shaderRec, Minus(e.count, c), e.uniforms, f);
    WordInSlice(r.bin, m, m + 164, f);
    forall k | 0 <= k < n - 1 ensures t.marks[k] + f + 4 <= |r.bin| && Word(r.bin, t.marks[k] + f) == Word(t.bin, t.marks[k] + f) {
      MarksApart(t, k, n - 1);
      EarlierWord(t.bin, r.bin, t.marks[k] + f, Last(t));
    }
  }

  lemma EarlierWord(m: seq<byte>, r: seq<byte>, a: nat, cur: nat)
    requires a + 4 <= cur <= |m| <= |r| && forall i :: 0 <= i < cur ==> r[i] == m[i]
    ensures Word(r, a) == Word(m, a)
  {
    assert r[a..a + 4] == m[a..a + 4];
  }

  lemma StepNoted(t: Tape, s: Step, f: nat, vals: seq<uint32>)
    requires Described(t) && Legal(t, s) && Unmanaged(f) && FieldsSay(t, f, vals) && Beside(s, f)
    ensures FieldsSay(Apply(t, s), f, Noted(vals, f, s))
  {
    hide Described, Word, SetWord;
    DescribedShape(t);
    match s
    case Begin => if t.marks == [] { FirstNoted(t, f, vals); } else { NextNoted(t, f, vals); }
    case Bin(data) => forall k | 0 <= k < |t.marks| ensures Word(t.bin + data, t.marks[k] + f) == vals[k] {
      WordOfPrefix(t.bin, data, t.marks[k] + f);
    }
    case Grow(h, r, c, u) =>
    case Annotate(g, w) => StoreNoted(t, g, w, f, vals);
    case Drawn => StoreNoted(t, Count(t).field, Count(t).w, f, vals);
  }

  lemma {:induction false} RecordNoted(t: Tape, steps: seq<Step>, f: nat, vals: seq<uint32>)
    requires Described(t) && LegalTape(t, steps) && Unmanaged(f) && FieldsSay(t, f, vals)
    requires forall s :: s in steps ==> Beside(s, f)
    ensures FieldsSay(Record(t, steps), f, AllNoted(vals, f, steps))
    decreases |steps|
  {
    hide Described, FieldsSay, Noted, Apply, Legal, Beside;
    DescribedShape(t);
    if steps != [] {
      StepDescribed(t, steps[0]);
      StepNoted(t, steps[0], f, vals);
      RecordNoted(Apply(t, steps[0]), steps[1..], f, Noted(vals, f, steps[0]));
    }
  }

  /** The final close keeps them. */
  lemma FinishNoted(t: Tape, f: nat, vals: seq<uint32>)
    requires Described(t) && t.marks != [] && Unmanaged(f) && FieldsSay(t, f, vals)
    ensures forall k :: 0 <= k < |t.marks| ==> t.marks[k] + f + 4 <= |t.bin| && Word(Finish(t), t.marks[k] + f) == vals[k]
  {
    hide Word, Close, Says;
    var n := |t.marks|;
    assert Ordered(t, n - 1);
    CloseEffect(t.bin, Last(t), t.now);
    CloseKeepsField(t.bin, Last(t), t.now);
    forall k | 0 <= k < n - 1 ensures Word(Finish(t), t.marks[k] + f) == vals[k] {
      MarksApart(t, k, n - 1);
      EarlierWord(t.bin, Finish(t), t.marks[k] + f, Last(t));
    }
  }

  /** After any recording, each of these fields of each marker, as vkQueueSubmit reads
      it, says what was stored to it last while that marker was the current one,
      and 0 if nothing was. */
  lemma FieldsSayWhatWasStored(steps: seq<Step>, f: nat)
    requires LegalTape(EMPTY, steps) && Begins(steps) > 0 && (12 <= f <= 108 || 140 <= f <= 160)
    requires forall s :: s in steps ==> Beside(s, f)
    ensures var t, vals := Record(EMPTY, steps), AllNoted([], f, steps);
      && |vals| == |t.marks| == Begins(steps)
      && forall k :: 0 <= k < |vals| ==> t.marks[k] + f + 4 <= |t.bin| && Word(Finish(t), t.marks[k] + f) == vals[k]
  {
    hide Described, FieldsSay, AllNoted, Word, Finish, Beside;
    EmptyDescribed();
    RecordDescribed(EMPTY, steps);
    assert FieldsSay(EMPTY, f, []) by { EmptySays(f); }
    RecordNoted(EMPTY, steps, f, []);
    SaysLength(Record(EMPTY, steps), f, AllNoted([], f, steps));
    FinishNoted(Record(EMPTY, steps), f, AllNoted([], f, steps));
  }

  lemma EmptySays(f: nat)
    ensures FieldsSay(EMPTY, f, [])
  {
  }

  lemma SaysLength(t: Tape, f: nat, vals: seq<uint32>)
    requires FieldsSay(t, f, vals)
    ensures |vals| == |t.marks|
  {
  }

  // ------------------------------------------------------------------ draws

  /** How many draws follow the k-th marker before the next one, when begun markers
      have been inserted so far. */
  function DrawsUnder(steps: seq<Step>, k: nat, begun: nat): (n: nat) {
    if steps == [] then 0
    else if steps[0].Begin? then DrawsUnder(steps[1..], k, begun + 1)
    else (if steps[0].Drawn? && begun == k + 1 then 1 else 0) + DrawsUnder(steps[1..], k, begun)
  }

  lemma {:induction false} NotedDraws(vals: seq<uint32>, steps: seq<Step>, k: nat)
    requires forall s :: s in steps ==> !(s.Annotate? && s.field == 108)
    ensures |AllNoted(vals, 108, steps)| == |vals| + Begins(steps)
    ensures k < |vals| + Begins(steps) ==>
      AllNoted(vals, 108, steps)[k] == ((if k < |vals| then vals[k] else 0) + DrawsUnder(steps, k, |vals|)) % 0x1_0000_0000
    decreases |steps|
  {
    if steps != [] {
      NotedDraws(Noted(vals, 108, steps[0]), steps[1..], k);
    }
  }

  /** A recording that stores nothing else to numDrawCallsSubmitted: each marker says how
      many draws were counted while it was the current one. */
  lemma DrawsSaid(steps: seq<Step>)
    requires LegalTape(EMPTY, steps) && Begins(steps) > 0
    requires forall s :: s in steps && s.Annotate? ==> s.field + 4 <= 108 || 112 <= s.field
    ensures var t := Record(EMPTY, steps);
      && |t.marks| == Begins(steps)
      && forall k :: 0 <= k < |t.marks| ==>
        t.marks[k] + 112 <= |t.bin| && Word(Finish(t), t.marks[k] + 108) == DrawsUnder(steps, k, 0) % 0x1_0000_0000
  {
    hide AllNoted, Word, Finish, DrawsUnder, Record;
    FieldsSayWhatWasStored(steps, 108);
    forall k | 0 <= k < Begins(steps) ensures AllNoted([], 108, steps)[k] == DrawsUnder(steps, k, 0) % 0x1_0000_0000 {
      NotedDraws([], steps, k);
    }
  }
}
