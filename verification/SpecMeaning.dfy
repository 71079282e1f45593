/** What a description means, read off its tree: every packet, struct and register
    with the fields and groups it holds. A reference for the streaming parser that
    knows nothing of events, depths, current groups and pending values. */
module SpecMeaning {
  import opened Seqs
  import opened SpecBuilder
  import opened SpecParser

  // ------------------------------------------------------------- well-formed trees

  predicate IsValue(t: Tree) { t.element.tag.ValueTag? && t.children == [] }

  predicate IsField(t: Tree) {
    t.element.tag.FieldTag? && forall k :: 0 <= k < |t.children| ==> IsValue(t.children[k])
  }

  /** Fields and groups, groups holding the same again. */
  predicate IsBody(ts: seq<Tree>)
    decreases ts
  {
    ts == [] || (IsPart(ts[0]) && IsBody(ts[1..]))
  }

  predicate IsPart(t: Tree)
    decreases t
  {
    IsField(t) || (t.element.tag.GroupTag? && IsBody(t.children))
  }

  predicate IsEntry(t: Tree) {
    match t.element.tag
    case Packet(_) => IsBody(t.children)
    case Struct => IsBody(t.children)
    case Register(_) => IsBody(t.children)
    case EnumTag => forall k :: 0 <= k < |t.children| ==> IsValue(t.children[k])
    case _ => false
  }

  predicate IsDocument(t: Tree) {
    t.element.tag.Vcxml? && forall k :: 0 <= k < |t.children| ==> IsEntry(t.children[k])
  }

  // ------------------------------------------------------------------- the meaning

  /** The specification so far with the groups it names. */
  datatype Library = Library(spec: Spec, groups: seq<Group>, next: seq<Option<nat>>)

  predicate Sound(l: Library) {
    |l.next| == |l.groups| && forall i :: 0 <= i < |l.spec.structs| ==> l.spec.structs[i] < |l.groups|
  }

  function ValueOf(t: Tree): (v: Value)
    requires IsValue(t)
  {
    Value(t.element.name, t.element.tag.value)
  }

  function ValuesOf(ts: seq<Tree>): (vs: seq<Value>)
    requires forall k :: 0 <= k < |ts| ==> IsValue(ts[k])
    ensures |vs| == |ts| && forall k :: 0 <= k < |ts| ==> vs[k] == ValueOf(ts[k])
  {
    seq(|ts|, k requires 0 <= k < |ts| => ValueOf(ts[k]))
  }

  function FieldOf(l: Library, t: Tree): (f: Option<Field>)
    requires Sound(l) && IsField(t)
  {
    var a := t.element.tag.attributes;
    var kind := KindOf(l.spec, l.groups, a.kind);
    if kind.None? || |t.children| > CAPACITY then None
    else Some(NewField(t.element.name, a, kind.value).(values := ValuesOf(t.children)))
  }

  /** The fields among the parts of a body, in their order. */
  function FieldsOf(l: Library, ts: seq<Tree>): (fs: Option<seq<Field>>)
    requires Sound(l) && IsBody(ts)
  {
    if ts == [] then Some([])
    else
      var more := FieldsOf(l, ts[1..]);
      assert IsPart(ts[0]);
      if ts[0].element.tag.GroupTag? then more
      else
        var f := FieldOf(l, ts[0]);
        if f.None? || more.None? then None else Some([f.value] + more.value)
  }

  /** The groups below the parts of a body of group parent, each followed by what is
      below it; the first one gets the number id. */
  function GroupsOf(l: Library, ts: seq<Tree>, parent: nat, id: nat): (gs: Option<seq<Group>>)
    requires Sound(l) && IsBody(ts)
    decreases ts
  {
    if ts == [] then Some([])
    else if !ts[0].element.tag.GroupTag? then GroupsOf(l, ts[1..], parent, id)
    else
      var g := GroupOf(l, ts[0], parent, id);
      if g.None? then None
      else
        var more := GroupsOf(l, ts[1..], parent, id + |g.value|);
        if more.None? then None else Some(g.value + more.value)
  }

  function GroupOf(l: Library, t: Tree, parent: nat, id: nat): (gs: Option<seq<Group>>)
    requires Sound(l) && IsPart(t) && t.element.tag.GroupTag?
    decreases t
  {
    var tag, fields, below := t.element.tag, FieldsOf(l, t.children), GroupsOf(l, t.children, id, id + 1);
    if fields.None? || below.None? then None
    else Some([Group("", 0, 0, RepeatOf(tag.offset, tag.count, tag.size), Some(parent), fields.value)] + below.value)
  }

  /** A packet, struct or register before its fields are finished. */
  function Blank(e: Element): (g: Group)
    requires e.tag.Packet? || e.tag.Struct? || e.tag.Register?
  {
    Group(e.name, if e.tag.Packet? then e.tag.code else 0, if e.tag.Register? then e.tag.num else 0, ONCE, None, [])
  }

  /** A run of groups from p on, each leading to the one behind it. */
  function Links(next: seq<Option<nat>>, p: nat, n: nat): (r: seq<Option<nat>>)
    requires p <= |next| && p <= n
    ensures |r| == n
  {
    next[..p] + seq(n - p, i requires 0 <= i < n - p => if i + 1 < n - p then Some(p + i + 1) else None)
  }

  function Added(l: Library, t: Tree): (r: Option<Library>)
    requires Sound(l) && IsEntry(t)
    ensures r.Some? ==> Sound(r.value)
  {
    if t.element.tag.EnumTag? then
      if |t.children| > CAPACITY || |l.spec.enums| >= CAPACITY then None
      else Some(l.(spec := l.spec.(enums := l.spec.enums + [Enumeration(t.element.name, ValuesOf(t.children))])))
    else
      var id := |l.groups|;
      var fields, below, spec := FieldsOf(l, t.children), GroupsOf(l, t.children, id, id + 1), Enter(l.spec, t.element.tag, id);
      if fields.None? || below.None? || spec.None? then None
      else
        var g := Finished(Blank(t.element).(fields := fields.value), t.element.tag);
        Some(Library(spec.value, l.groups + [g] + below.value, Links(l.next, id, id + 1 + |below.value|)))
  }

  function AddedAll(l: Library, ts: seq<Tree>): (r: Option<Library>)
    requires Sound(l) && forall k :: 0 <= k < |ts| ==> IsEntry(ts[k])
    ensures r.Some? ==> Sound(r.value)
    decreases ts
  {
    if ts == [] then Some(l)
    else
      var first := Added(l, ts[0]);
      if first.None? then None else AddedAll(first.value, ts[1..])
  }

  function Meaning(t: Tree): (r: Option<Library>)
    requires IsDocument(t)
  {
    var gen := t.element.tag.gen;
    if gen.None? then None
    else AddedAll(Library(Spec(gen.value.0 * 10 + gen.value.1, [], [], [], []), [], []), t.children)
  }

  // ------------------------------------------------------- the builder is right

  function BuilderOf(l: Library): (b: Builder) {
    Builder(l.spec, l.groups, l.next, None, None, [])
  }

  /** Inside a packet the names that types may refer to are those of l. */
  ghost predicate Reads(b: Builder, l: Library) {
    b.spec == l.spec && Sound(l) && |l.groups| <= |b.groups|
    && forall i :: 0 <= i < |l.groups| ==> b.groups[i].name == l.groups[i].name
  }

  lemma {:induction false} SameStruct(structs: seq<nat>, g: seq<Group>, h: seq<Group>, name: string)
    requires |g| <= |h| && (forall i :: 0 <= i < |structs| ==> structs[i] < |g|) && forall i :: 0 <= i < |g| ==> h[i].name == g[i].name
    ensures FindStruct(structs, h, name) == FindStruct(structs, g, name)
  {
    if structs != [] { SameStruct(structs[1..], g, h, name); }
  }

  lemma SameKind(b: Builder, l: Library, t: Option<TypeName>)
    requires Valid(b) && Reads(b, l)
    ensures KindOf(b.spec, b.groups, t) == KindOf(l.spec, l.groups, t)
  {
    match t
    case Some(Named(name)) => SameStruct(l.spec.structs, l.groups, b.groups, name);
    case _ =>
  }

  lemma {:induction false} ValuesBuilt(b: Builder, ts: seq<Tree>)
    requires Valid(b) && forall k :: 0 <= k < |ts| ==> IsValue(ts[k])
    ensures BuildAll(b, ts) ==
      if ts == [] || |b.values| + |ts| <= CAPACITY then Some(b.(values := b.values + ValuesOf(ts))) else None
    decreases ts
  {
    hide Valid;
    if ts != [] {
      assert IsValue(ts[0]) && BuildAll(b, ts[0].children) == Some(b);
      if |b.values| < CAPACITY {
        var c := b.(values := b.values + [ValueOf(ts[0])]);
        assert Build(b, ts[0]) == Some(c);
        ValuesBuilt(c, ts[1..]);
        assert c.values + ValuesOf(ts[1..]) == b.values + ValuesOf(ts);
      }
    } else {
      assert b.values + ValuesOf(ts) == b.values;
    }
  }

  lemma FieldBuilt(b: Builder, l: Library, t: Tree, g: nat)
    requires Valid(b) && Reads(b, l) && IsField(t) && b.group == Some(g) && b.values == []
    ensures Build(b, t) == match FieldOf(l, t)
      case None => None
      case Some(f) => Some(b.(groups := b.groups[g := b.groups[g].(fields := b.groups[g].fields + [f])]))
  {
    var a := t.element.tag.attributes;
    SameKind(b, l, a.kind);
    var kind := KindOf(l.spec, l.groups, a.kind);
    if kind.Some? {
      var f, was := NewField(t.element.name, a, kind.value), b.groups[g].fields;
      var c := b.(groups := b.groups[g := b.groups[g].(fields := was + [f])]);
      assert Open(b, t.element) == Some(c);
      ValuesBuilt(c, t.children);
      if |t.children| <= CAPACITY {
        var vs := ValuesOf(t.children);
        assert c.values + vs == vs;
        assert (was + [f])[|was| := f.(values := vs)] == was + [f.(values := vs)];
        var d := c.(values := vs);
        assert BuildAll(c, t.children) == Some(d) && d.groups[g].fields == was + [f];
        assert d.groups[g := d.groups[g].(fields := was + [f.(values := vs)])]
            == b.groups[g := b.groups[g].(fields := was + [f.(values := vs)])];
      }
    }
  }

  /** The groups from p on are one list. */
  ghost predicate Listed(b: Builder, p: nat) {
    p < |b.groups| == |b.next| && b.next == Links(b.next, p, |b.next|)
  }

  lemma {:induction false} ListEnd(next: seq<Option<nat>>, p: nat, g: nat)
    requires p <= g < |next| && next == Links(next, p, |next|)
    requires forall i :: 0 <= i < |next| && next[i].Some? ==> i < next[i].value < |next|
    ensures ChainEnd(next, g) == |next| - 1
    decreases |next| - g
  {
    assert next[g] == if g + 1 < |next| then Some(g + 1) else None;
    if g + 1 < |next| { ListEnd(next, p, g + 1); }
  }

  /** What building a body makes of b: fields for group g, and new groups. */
  function Filled(b: Builder, p: nat, g: nat, fields: Option<seq<Field>>, below: Option<seq<Group>>): (r: Option<Builder>)
    requires p <= g < |b.groups| == |b.next|
  {
    if fields.None? || below.None? then None
    else Some(b.(
      groups := b.groups[g := b.groups[g].(fields := b.groups[g].fields + fields.value)] + below.value,
      next := Links(b.next, p, |b.groups| + |below.value|)))
  }

  lemma {:induction false} BodyBuilt(b: Builder, l: Library, ts: seq<Tree>, p: nat, g: nat)
    requires Valid(b) && Reads(b, l) && IsBody(ts) && b.group == Some(g) && b.values == [] && p <= g < |b.groups| && Listed(b, p)
    ensures BuildAll(b, ts) == Filled(b, p, g, FieldsOf(l, ts), GroupsOf(l, ts, g, |b.groups|))
    decreases ts
  {
    hide Valid, Open, Close, Build, Links, GroupOf, FieldOf;
    if ts == [] {
      NothingFilled(b, p, g);
    } else if ts[0].element.tag.GroupTag? {
      GroupBuilt(b, l, ts[0], p, g);
      var made := GroupOf(l, ts[0], g, |b.groups|);
      if made.Some? {
        var c := b.(groups := b.groups + made.value, next := Links(b.next, p, |b.groups| + |made.value|));
        LinksOver(b.next, p, |c.groups|, |c.groups|);
        BodyBuilt(c, l, ts[1..], p, g);
        Joined(b, c, p, g, made.value, FieldsOf(l, ts[1..]), GroupsOf(l, ts[1..], g, |c.groups|));
      }
    } else {
      assert IsPart(ts[0]);
      FieldBuilt(b, l, ts[0], g);
      var f := FieldOf(l, ts[0]);
      if f.Some? {
        var c := b.(groups := b.groups[g := b.groups[g].(fields := b.groups[g].fields + [f.value])]);
        BodyBuilt(c, l, ts[1..], p, g);
        OneMore(b, c, p, g, f.value, FieldsOf(l, ts[1..]), GroupsOf(l, ts[1..], g, |b.groups|));
      }
    }
  }

  lemma NothingFilled(b: Builder, p: nat, g: nat)
    requires p <= g < |b.groups| == |b.next| && Listed(b, p)
    ensures Filled(b, p, g, Some([]), Some([])) == Some(b)
  {
    assert b.groups[g].fields + [] == b.groups[g].fields;
    assert b.groups[g := b.groups[g]] + [] == b.groups;
  }

  lemma OneMore(b: Builder, c: Builder, p: nat, g: nat, f: Field, fields: Option<seq<Field>>, below: Option<seq<Group>>)
    requires p <= g < |b.groups| == |b.next| && c == b.(groups := b.groups[g := b.groups[g].(fields := b.groups[g].fields + [f])])
    ensures Filled(c, p, g, fields, below) == Filled(b, p, g, if fields.None? then None else Some([f] + fields.value), below)
  {
    if fields.Some? && below.Some? {
      assert b.groups[g].fields + [f] + fields.value == b.groups[g].fields + ([f] + fields.value);
      assert Filled(c, p, g, fields, below).value.groups == Filled(b, p, g, Some([f] + fields.value), below).value.groups;
    }
  }

  lemma Joined(b: Builder, c: Builder, p: nat, g: nat, made: seq<Group>, fields: Option<seq<Field>>, below: Option<seq<Group>>)
    requires p <= g < |b.groups| == |b.next|
    requires c == b.(groups := b.groups + made, next := Links(b.next, p, |b.groups| + |made|))
    ensures Filled(c, p, g, fields, below) == Filled(b, p, g, fields, if below.None? then None else Some(made + below.value))
  {
    if fields.Some? && below.Some? {
      var x, y := Filled(c, p, g, fields, below).value, Filled(b, p, g, fields, Some(made + below.value)).value;
      assert x.groups == y.groups;
      assert x.next == y.next;
    }
  }

  lemma LinksOver(next: seq<Option<nat>>, p: nat, m: nat, n: nat)
    requires p <= |next| && p <= m && p <= n
    ensures Links(Links(next, p, m), p, n) == Links(next, p, n)
    ensures p + 1 == n == |next| + 1 ==> Links(next, p, n) == next + [None]
  {
  }

  lemma GroupOpened(b: Builder, e: Element, p: nat, g: nat, blank: Group)
    requires Valid(b) && e.tag.GroupTag? && b.group == Some(g) && p <= g < |b.groups| && Listed(b, p)
    requires blank == Group("", 0, 0, RepeatOf(e.tag.offset, e.tag.count, e.tag.size), Some(g), [])
    ensures Open(b, e) == Some(b.(groups := b.groups + [blank], next := Links(b.next, p, |b.groups| + 1), group := Some(|b.groups|)))
  {
    ListEnd(b.next, p, g);
    assert (b.next + [None])[|b.groups| - 1 := Some(|b.groups|)] == Links(b.next, p, |b.groups| + 1);
  }

  /** A group inside a group: it and what is below it come to the end of the list,
      and the group around it is the current one again. */
  lemma {:induction false} GroupBuilt(b: Builder, l: Library, t: Tree, p: nat, g: nat)
    requires Valid(b) && Reads(b, l) && IsPart(t) && t.element.tag.GroupTag? && b.group == Some(g) && b.values == []
    requires p <= g < |b.groups| && Listed(b, p)
    ensures Build(b, t) == match GroupOf(l, t, g, |b.groups|)
      case None => None
      case Some(made) => Some(b.(groups := b.groups + made, next := Links(b.next, p, |b.groups| + |made|)))
    decreases t
  {
    hide Valid, Open, KindOf, FieldsOf, GroupsOf, BuildAll, Links;
    var n, tag := |b.groups|, t.element.tag;
    var blank := Group("", 0, 0, RepeatOf(tag.offset, tag.count, tag.size), Some(g), []);
    var c := b.(groups := b.groups + [blank], next := Links(b.next, p, n + 1), group := Some(n));
    GroupOpened(b, t.element, p, g, blank);
    LinksOver(b.next, p, n + 1, n + 1);
    BodyBuilt(c, l, t.children, p, n);
    var fields, below := FieldsOf(l, t.children), GroupsOf(l, t.children, n, n + 1);
    if fields.Some? && below.Some? {
      var d := Filled(c, p, n, fields, below).value;
      var made := [blank.(fields := fields.value)] + below.value;
      assert [] + fields.value == fields.value;
      assert d.groups == b.groups + made;
      LinksOver(b.next, p, n + 1, n + |made|);
    }
  }

  /** A packet, struct or register with all it holds; an enumeration. */
  lemma EntryBuilt(l: Library, t: Tree)
    requires Sound(l) && Valid(BuilderOf(l)) && IsEntry(t)
    ensures Build(BuilderOf(l), t) == match Added(l, t) case None => None case Some(m) => Some(BuilderOf(m))
  {
    var b := BuilderOf(l);
    if t.element.tag.EnumTag? {
      var c := b.(enoom := Some(t.element.name));
      ValuesBuilt(c, t.children);
      assert c.values + ValuesOf(t.children) == ValuesOf(t.children);
    } else {
      EntryBodyBuilt(l, t);
    }
  }

  lemma EntryBodyBuilt(l: Library, t: Tree)
    requires Sound(l) && Valid(BuilderOf(l)) && IsEntry(t) && !t.element.tag.EnumTag?
    ensures Build(BuilderOf(l), t) == match Added(l, t) case None => None case Some(m) => Some(BuilderOf(m))
  {
    hide Valid, FieldsOf, GroupsOf, BuildAll, Links, CloseEntry, ChainEnd, KindOf;
    var b := BuilderOf(l);
    var p, blank := |l.groups|, Blank(t.element);
    var c := b.(groups := b.groups + [blank], next := Links(l.next, p, p + 1), group := Some(p));
    LinksOver(l.next, p, p + 1, p + 1);
    assert Open(b, t.element) == Some(c);
    BodyBuilt(c, l, t.children, p, p);
    var fields, below := FieldsOf(l, t.children), GroupsOf(l, t.children, p, p + 1);
    if fields.Some? && below.Some? {
      assert [] + fields.value == fields.value;
      EntryClosed(l, t, c, Filled(c, p, p, fields, below).value, fields.value, below.value);
    }
  }

  lemma EntryClosed(l: Library, t: Tree, c: Builder, d: Builder, fields: seq<Field>, below: seq<Group>)
    requires Sound(l) && IsEntry(t) && !t.element.tag.EnumTag? && Valid(d)
    requires FieldsOf(l, t.children) == Some(fields) && GroupsOf(l, t.children, |l.groups|, |l.groups| + 1) == Some(below)
    requires c == Builder(l.spec, l.groups + [Blank(t.element)], Links(l.next, |l.groups|, |l.groups| + 1), Some(|l.groups|), None, [])
    requires d == c.(groups := l.groups + [Blank(t.element).(fields := fields)] + below, next := Links(c.next, |l.groups|, |l.groups| + 1 + |below|))
    ensures CloseEntry(d, t.element.tag) == match Added(l, t) case None => None case Some(m) => Some(BuilderOf(m))
  {
    var p, tag := |l.groups|, t.element.tag;
    var g := Finished(Blank(t.element).(fields := fields), tag);
    assert d.groups[p := g] == l.groups + [g] + below;
    assert d.next == Links(l.next, p, p + 1 + |below|);
  }

  lemma {:induction false} EntriesBuilt(l: Library, ts: seq<Tree>)
    requires Sound(l) && Valid(BuilderOf(l)) && forall k :: 0 <= k < |ts| ==> IsEntry(ts[k])
    ensures BuildAll(BuilderOf(l), ts) == match AddedAll(l, ts) case None => None case Some(m) => Some(BuilderOf(m))
    decreases ts
  {
    hide Added, IsEntry, Valid, Sound;
    if ts != [] {
      EntryBuilt(l, ts[0]);
      var first := Added(l, ts[0]);
      if first.Some? { EntriesBuilt(first.value, ts[1..]); }
    }
  }

  /** For every document, for any versions on its elements: if what is left of it
      for this hardware is well formed, the streaming parser ends with what that
      means, or stops exactly when it means nothing. */
  lemma ParserMeansWhatIsLeft(ver: nat, t: Tree)
    requires IsDocument(Prune(ver, t))
    ensures Nested(Events(t), 0)
    ensures Run(ver, Context(0, 0, EMPTY), Events(t)) == match Meaning(Prune(ver, t))
      case None => None
      case Some(l) => Some(Context(0, 0, BuilderOf(l)))
  {
    hide AddedAll, BuildAll, Run, Nested;
    SkippingIsPruning(ver, t);
    var r := Prune(ver, t);
    var gen := r.element.tag.gen;
    if gen.Some? {
      EntriesBuilt(Library(Spec(gen.value.0 * 10 + gen.value.1, [], [], [], []), [], []), r.children);
    }
  }
}
