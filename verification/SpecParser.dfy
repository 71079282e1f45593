/** The streaming parser of brcm/cle/v3d_decoder.c: elements for other hardware
    versions are skipped with all they contain, by one counter. */
module SpecParser {
  import opened Seqs
  import opened SpecBuilder

  datatype Tree = Node(element: Element, children: seq<Tree>)

  datatype Event = Start(element: Element) | End(element: Element)

  datatype Context = Context(depth: nat, skipDepth: nat, builder: Builder)

  predicate VerInRange(ver: nat, minVer: nat, maxVer: nat) {
    (minVer == 0 || ver >= minVer) && (maxVer == 0 || ver <= maxVer)
  }

  predicate Matches(ver: nat, e: Element) { VerInRange(ver, e.minVer, e.maxVer) }

  /** skip_if_ver_mismatch: the counter after it. */
  function SkipDepth(ver: nat, c: Context, e: Element): (d: nat) {
    if c.skipDepth == 0 && !Matches(ver, e) then c.depth else c.skipDepth
  }

  function Step(ver: nat, c: Context, event: Event): (r: Option<Context>)
    requires Valid(c.builder) && (event.End? ==> c.depth > 0)
    ensures r.Some? ==> Valid(r.value.builder)
  {
    match event
    case Start(e) =>
      var skip := SkipDepth(ver, c, e);
      if skip != 0 then Some(Context(c.depth + 1, skip, c.builder))
      else
        var b := Open(c.builder, e);
        if b.None? then None else Some(Context(c.depth + 1, 0, b.value))
    case End(e) =>
      if c.skipDepth != 0 then
        Some(Context(c.depth - 1, if c.skipDepth == c.depth - 1 then 0 else c.skipDepth, c.builder))
      else
        var b := Close(c.builder, e.tag);
        if b.None? then None else Some(Context(c.depth - 1, 0, b.value))
  }

  /** The events of a document in the order the XML parser reports them. */
  function Events(t: Tree): (es: seq<Event>)
    decreases t
  {
    [Start(t.element)] + AllEvents(t.children) + [End(t.element)]
  }

  function AllEvents(ts: seq<Tree>): (es: seq<Event>)
    decreases ts
  {
    if ts == [] then [] else Events(ts[0]) + AllEvents(ts[1..])
  }

  /** No element is closed that has not been opened. */
  predicate Nested(es: seq<Event>, depth: nat)
    decreases |es|
  {
    es == [] || (if es[0].Start? then Nested(es[1..], depth + 1) else depth > 0 && Nested(es[1..], depth - 1))
  }

  function Run(ver: nat, c: Context, es: seq<Event>): (r: Option<Context>)
    requires Valid(c.builder) && Nested(es, c.depth)
    ensures r.Some? ==> Valid(r.value.builder)
    decreases |es|
  {
    if es == [] then Some(c)
    else
      var d := Step(ver, c, es[0]);
      if d.None? then None else Run(ver, d.value, es[1..])
  }

  // ------------------------------------------------------------ the reference

  /** The document without the elements, below its root, for other versions. */
  function Prune(ver: nat, t: Tree): (r: Tree)
    decreases t
  {
    Node(t.element, PruneAll(ver, t.children))
  }

  function PruneAll(ver: nat, ts: seq<Tree>): (r: seq<Tree>)
    decreases ts
  {
    if ts == [] then []
    else (if Matches(ver, ts[0].element) then [Prune(ver, ts[0])] else []) + PruneAll(ver, ts[1..])
  }

  /** All elements, however deep, are for this version; 0 is no bound. */
  predicate AllFor(ver: nat, ts: seq<Tree>)
    decreases ts
  {
    ts == [] ||
    (var e := ts[0].element;
    && (e.minVer <= ver || e.minVer == 0) && (ver <= e.maxVer || e.maxVer == 0)
    && AllFor(ver, ts[0].children) && AllFor(ver, ts[1..]))
  }

  /** What is left is for this version, and a document that is loses nothing. */
  lemma {:induction false} PrunedIsFor(ver: nat, ts: seq<Tree>)
    ensures AllFor(ver, PruneAll(ver, ts))
    ensures AllFor(ver, ts) ==> PruneAll(ver, ts) == ts
    decreases ts
  {
    if ts != [] {
      PrunedIsFor(ver, ts[0].children);
      PrunedIsFor(ver, ts[1..]);
      if Matches(ver, ts[0].element) {
        assert PruneAll(ver, ts)[1..] == PruneAll(ver, ts[1..]);
      } else {
        assert PruneAll(ver, ts) == PruneAll(ver, ts[1..]);
      }
    }
  }

  /** Building without looking at versions or counting depths. */
  function Build(b: Builder, t: Tree): (r: Option<Builder>)
    requires Valid(b)
    ensures r.Some? ==> Valid(r.value)
    decreases t
  {
    var begun := Open(b, t.element);
    if begun.None? then None
    else
      var inside := BuildAll(begun.value, t.children);
      if inside.None? then None else Close(inside.value, t.element.tag)
  }

  function BuildAll(b: Builder, ts: seq<Tree>): (r: Option<Builder>)
    requires Valid(b)
    ensures r.Some? ==> Valid(r.value)
    decreases ts
  {
    if ts == [] then Some(b)
    else
      var first := Build(b, ts[0]);
      if first.None? then None else BuildAll(first.value, ts[1..])
  }

  // -------------------------------------------------- the counter is pruning

  lemma EventsOf(t: Tree, more: seq<Event>)
    ensures Events(t) + more == [Start(t.element)] + (AllEvents(t.children) + ([End(t.element)] + more))
    ensures ([End(t.element)] + more)[1..] == more
  {
    assert Events(t) + more == [Start(t.element)] + (AllEvents(t.children) + ([End(t.element)] + more));
  }

  lemma {:induction false} EventsNested(t: Tree, more: seq<Event>, depth: nat)
    requires Nested(more, depth)
    ensures Nested(Events(t) + more, depth)
    decreases t
  {
    EventsOf(t, more);
    AllEventsNested(t.children, [End(t.element)] + more, depth + 1);
  }

  lemma {:induction false} AllEventsNested(ts: seq<Tree>, more: seq<Event>, depth: nat)
    requires Nested(more, depth)
    ensures Nested(AllEvents(ts) + more, depth)
    decreases ts
  {
    if ts == [] {
      assert AllEvents(ts) + more == more;
    } else {
      AllEventsNested(ts[1..], more, depth);
      EventsNested(ts[0], AllEvents(ts[1..]) + more, depth);
      assert AllEvents(ts) + more == Events(ts[0]) + (AllEvents(ts[1..]) + more);
    }
  }

  /** The context behind a document, and behind what follows it. */
  function After(ver: nat, c: Context, b: Option<Builder>, more: seq<Event>): (r: Option<Context>)
    requires b.Some? ==> Valid(b.value)
    requires Nested(more, c.depth)
  {
    if b.None? then None else Run(ver, Context(c.depth, 0, b.value), more)
  }

  lemma RunStep(ver: nat, c: Context, event: Event, more: seq<Event>)
    requires Valid(c.builder) && Nested([event] + more, c.depth)
    ensures Step(ver, c, event).None? ==> Run(ver, c, [event] + more) == None
    ensures Step(ver, c, event).Some? ==> Nested(more, Step(ver, c, event).value.depth)
    ensures Step(ver, c, event).Some? ==> Run(ver, c, [event] + more) == Run(ver, Step(ver, c, event).value, more)
  {
    assert ([event] + more)[1..] == more;
  }

  /** Inside a skipped element nothing happens. */
  lemma {:induction false} SkippedInside(ver: nat, c: Context, ts: seq<Tree>, more: seq<Event>)
    requires Valid(c.builder) && 0 < c.skipDepth < c.depth && Nested(more, c.depth)
    ensures Nested(AllEvents(ts) + more, c.depth) && Run(ver, c, AllEvents(ts) + more) == Run(ver, c, more)
    decreases ts
  {
    hide Open, Close, Valid, Run, Events;
    AllEventsNested(ts, more, c.depth);
    if ts == [] {
      assert AllEvents(ts) + more == more;
    } else {
      var t, rest := ts[0], AllEvents(ts[1..]) + more;
      AllEventsNested(ts[1..], more, c.depth);
      var close := [End(t.element)] + rest;
      AllEventsNested(t.children, close, c.depth + 1);
      assert AllEvents(ts) + more == Events(t) + rest;
      EventsOf(t, rest);
      RunStep(ver, c, Start(t.element), AllEvents(t.children) + close);
      SkippedInside(ver, c.(depth := c.depth + 1), t.children, close);
      RunStep(ver, c.(depth := c.depth + 1), End(t.element), rest);
      SkippedInside(ver, c, ts[1..], more);
    }
  }

  /** An element below the root for another version leaves no trace. */
  lemma {:induction false} Skipped(ver: nat, c: Context, t: Tree, more: seq<Event>)
    requires Valid(c.builder) && c.skipDepth == 0 < c.depth && Nested(more, c.depth) && !Matches(ver, t.element)
    ensures Nested(Events(t) + more, c.depth) && Run(ver, c, Events(t) + more) == Run(ver, c, more)
  {
    hide Open, Close, Valid, Run, Matches, Events, AllEvents;
    var close, inside := [End(t.element)] + more, Context(c.depth + 1, c.depth, c.builder);
    EventsOf(t, more);
    AllEventsNested(t.children, close, c.depth + 1);
    EventsNested(t, more, c.depth);
    RunStep(ver, c, Start(t.element), AllEvents(t.children) + close);
    SkippedInside(ver, inside, t.children, close);
    RunStep(ver, inside, End(t.element), more);
  }

  /** An element that is not skipped is built from what is left of it. */
  lemma {:induction false} Kept(ver: nat, c: Context, t: Tree, more: seq<Event>)
    requires Valid(c.builder) && c.skipDepth == 0 && Nested(more, c.depth)
    requires c.depth == 0 || Matches(ver, t.element)
    ensures Nested(Events(t) + more, c.depth)
    ensures Run(ver, c, Events(t) + more) == After(ver, c, Build(c.builder, Prune(ver, t)), more)
    decreases t
  {
    hide Open, Close, Valid, Run, Matches, Events, AllEvents;
    var close := [End(t.element)] + more;
    EventsOf(t, more);
    AllEventsNested(t.children, close, c.depth + 1);
    EventsNested(t, more, c.depth);
    RunStep(ver, c, Start(t.element), AllEvents(t.children) + close);
    var begun := Open(c.builder, t.element);
    if begun.Some? {
      var d := Context(c.depth + 1, 0, begun.value);
      KeptAll(ver, d, t.children, close);
      var inside := BuildAll(begun.value, PruneAll(ver, t.children));
      if inside.Some? { RunStep(ver, d.(builder := inside.value), End(t.element), more); }
    }
  }

  lemma {:induction false} KeptAll(ver: nat, c: Context, ts: seq<Tree>, more: seq<Event>)
    requires Valid(c.builder) && c.skipDepth == 0 < c.depth && Nested(more, c.depth)
    ensures Nested(AllEvents(ts) + more, c.depth)
    ensures Run(ver, c, AllEvents(ts) + more) == After(ver, c, BuildAll(c.builder, PruneAll(ver, ts)), more)
    decreases ts
  {
    hide Open, Close, Valid, Run, Matches;
    AllEventsNested(ts, more, c.depth);
    if ts == [] {
      assert AllEvents(ts) + more == more;
    } else {
      var t, rest := ts[0], AllEvents(ts[1..]) + more;
      AllEventsNested(ts[1..], more, c.depth);
      assert AllEvents(ts) + more == Events(t) + rest;
      if Matches(ver, t.element) {
        Kept(ver, c, t, rest);
        var first := Build(c.builder, Prune(ver, t));
        assert PruneAll(ver, ts)[1..] == PruneAll(ver, ts[1..]);
        if first.Some? { KeptAll(ver, c.(builder := first.value), ts[1..], more); }
      } else {
        Skipped(ver, c, t, rest);
        assert PruneAll(ver, ts) == PruneAll(ver, ts[1..]);
        KeptAll(ver, c, ts[1..], more);
      }
    }
  }

  /** For every document, streaming with the skip counter builds exactly what
      building the pruned document without versions builds, or stops exactly when
      that stops; and the counters are back at zero. The root's own version is
      not looked at: it is at depth zero, where the counter cannot say "skip". */
  lemma SkippingIsPruning(ver: nat, t: Tree)
    ensures Nested(Events(t), 0)
    ensures Run(ver, Context(0, 0, EMPTY), Events(t)) ==
      var b := Build(EMPTY, Prune(ver, t)); if b.None? then None else Some(Context(0, 0, b.value))
  {
    Kept(ver, Context(0, 0, EMPTY), t, []);
    assert Events(t) + [] == Events(t);
  }
}
