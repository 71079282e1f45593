/** What a parsed description says, entry by entry and field by field, in terms of the
    elements of its tree: where each field stands, how long it is, and what its type
    refers to. */
module SpecFields {
  import opened Seqs
  import opened SpecBuilder
  import opened SpecParser
  import opened SpecMeaning

  // ------------------------------------------------------------------- types

  /** No struct that is known has this name. */
  predicate NoStruct(l: Library, name: string)
    requires Sound(l)
  {
    forall i :: 0 <= i < |l.spec.structs| ==> l.groups[l.spec.structs[i]].name != name
  }

  predicate NoEnum(l: Library, name: string) {
    forall i :: 0 <= i < |l.spec.enums| ==> l.spec.enums[i].name != name
  }

  /** A type attribute that names nothing. */
  predicate Dangling(l: Library, t: Option<TypeName>)
    requires Sound(l)
  {
    t.Some? && t.value.Named? && NoStruct(l, t.value.name) && NoEnum(l, t.value.name) && t.value.name != "mbo"
  }

  /** The struct listed at position i is the first one with this name. */
  ghost predicate FirstStruct(l: Library, name: string, i: nat)
    requires Sound(l)
  {
    && i < |l.spec.structs| && l.groups[l.spec.structs[i]].name == name
    && forall j :: 0 <= j < i ==> l.groups[l.spec.structs[j]].name != name
  }

  ghost predicate FirstEnum(l: Library, name: string, i: nat) {
    i < |l.spec.enums| && l.spec.enums[i].name == name && forall j :: 0 <= j < i ==> l.spec.enums[j].name != name
  }

  /** kind is what the type attribute refers to. */
  ghost predicate Refers(l: Library, t: Option<TypeName>, kind: Kind)
    requires Sound(l)
  {
    match t
    case None => kind == Unknown
    case Some(Builtin(k)) => kind == k
    case Some(Named(name)) =>
      || (kind.StructKind? && exists i: nat :: FirstStruct(l, name, i) && l.spec.structs[i] == kind.group)
      || (kind.EnumKind? && NoStruct(l, name) && FirstEnum(l, name, kind.index))
      || (kind.Mbo? && NoStruct(l, name) && NoEnum(l, name) && name == "mbo")
  }

  lemma {:induction false} StructFound(structs: seq<nat>, groups: seq<Group>, name: string) returns (i: nat)
    requires forall k :: 0 <= k < |structs| ==> structs[k] < |groups|
    ensures i <= |structs| && forall j :: 0 <= j < i ==> groups[structs[j]].name != name
    ensures i < |structs| ==> groups[structs[i]].name == name
    ensures FindStruct(structs, groups, name) == if i < |structs| then Some(structs[i]) else None
  {
    i := 0;
    if structs != [] && groups[structs[0]].name != name {
      i := StructFound(structs[1..], groups, name);
      assert forall j :: 0 <= j < |structs| - 1 ==> structs[1..][j] == structs[j + 1];
      assert forall j :: 0 < j < i + 1 ==> structs[j] == structs[1..][j - 1];
      i := i + 1;
    }
  }

  lemma {:induction false} EnumFound(enums: seq<Enumeration>, name: string) returns (i: nat)
    ensures i <= |enums| && forall j :: 0 <= j < i ==> enums[j].name != name
    ensures i < |enums| ==> enums[i].name == name
    ensures FindEnum(enums, name) == if i < |enums| then Some(i) else None
  {
    i := 0;
    if enums != [] && enums[0].name != name {
      i := EnumFound(enums[1..], name);
      assert forall j :: 0 < j < i + 1 ==> enums[j] == enums[1..][j - 1];
      i := i + 1;
    }
  }

  lemma KindRefers(l: Library, t: Option<TypeName>)
    requires Sound(l)
    ensures KindOf(l.spec, l.groups, t).None? <==> Dangling(l, t)
    ensures KindOf(l.spec, l.groups, t).Some? ==> Refers(l, t, KindOf(l.spec, l.groups, t).value)
  {
    if t.Some? && t.value.Named? {
      var i := StructFound(l.spec.structs, l.groups, t.value.name);
      var k := EnumFound(l.spec.enums, t.value.name);
      if i < |l.spec.structs| { assert FirstStruct(l, t.value.name, i); }
    }
  }

  // ------------------------------------------------------------------ fields

  /** f is what field element t describes, shift bits further on. */
  ghost predicate IsDescribed(l: Library, t: Tree, f: Field, shift: nat)
    requires Sound(l) && IsField(t)
  {
    var a := t.element.tag.attributes;
    && f.name == t.element.name && f.minusOne == a.minusOne && f.default == a.default && Refers(l, a.kind, f.kind)
    && f.start == a.start + shift
    && (if a.size > 0 then f.end - f.start + 1 == a.size else f.end == a.end + shift)
    && |f.values| == |t.children|
    && forall k :: 0 <= k < |f.values| ==>
      f.values[k].name == t.children[k].element.name && f.values[k].value == t.children[k].element.tag.value
  }

  /** The field elements of a body, and all its group elements, each followed by those
      inside it. */
  function FieldTrees(ts: seq<Tree>): (fs: seq<Tree>)
    requires IsBody(ts)
    ensures forall i :: 0 <= i < |fs| ==> IsField(fs[i])
    decreases ts
  {
    if ts == [] then []
    else assert IsPart(ts[0]); (if ts[0].element.tag.GroupTag? then [] else [ts[0]]) + FieldTrees(ts[1..])
  }

  function GroupTrees(ts: seq<Tree>): (gs: seq<Tree>)
    requires IsBody(ts)
    ensures forall i :: 0 <= i < |gs| ==> gs[i].element.tag.GroupTag? && IsBody(gs[i].children)
    decreases ts
  {
    if ts == [] then []
    else assert IsPart(ts[0]); (if ts[0].element.tag.GroupTag? then [ts[0]] + GroupTrees(ts[0].children) else []) + GroupTrees(ts[1..])
  }

  ghost predicate AllDescribed(l: Library, ts: seq<Tree>, fs: seq<Field>, shift: nat)
    requires Sound(l) && IsBody(ts)
  {
    |fs| == |FieldTrees(ts)| && forall i :: 0 <= i < |fs| ==> IsDescribed(l, FieldTrees(ts)[i], fs[i], shift)
  }

  /** A field element that stops the parser. */
  predicate FieldStops(l: Library, t: Tree)
    requires Sound(l) && IsField(t)
  {
    |t.children| > 256 || Dangling(l, t.element.tag.attributes.kind)
  }

  predicate FieldsStop(l: Library, ts: seq<Tree>)
    requires Sound(l) && IsBody(ts)
  {
    exists i :: 0 <= i < |FieldTrees(ts)| && FieldStops(l, FieldTrees(ts)[i])
  }

  lemma FieldDescribed(l: Library, t: Tree)
    requires Sound(l) && IsField(t)
    ensures FieldOf(l, t).None? <==> FieldStops(l, t)
    ensures FieldOf(l, t).Some? ==> IsDescribed(l, t, FieldOf(l, t).value, 0)
  {
    hide Refers, Dangling, KindOf;
    KindRefers(l, t.element.tag.attributes.kind);
  }

  lemma {:induction false} FieldsDescribed(l: Library, ts: seq<Tree>)
    requires Sound(l) && IsBody(ts)
    ensures FieldsOf(l, ts).None? <==> FieldsStop(l, ts)
    ensures FieldsOf(l, ts).Some? ==> AllDescribed(l, ts, FieldsOf(l, ts).value, 0)
    decreases ts
  {
    hide IsDescribed, FieldStops, FieldOf, Sound;
    if ts != [] {
      assert IsPart(ts[0]);
      FieldsDescribed(l, ts[1..]);
      var fs, more := FieldTrees(ts), FieldTrees(ts[1..]);
      if ts[0].element.tag.GroupTag? {
        assert fs == more;
      } else {
        FieldDescribed(l, ts[0]);
        assert fs == [ts[0]] + more;
        assert FieldStops(l, ts[0]) ==> FieldStops(l, fs[0]);
        if FieldsStop(l, ts[1..]) {
          var i :| 0 <= i < |more| && FieldStops(l, more[i]);
          assert FieldStops(l, fs[i + 1]);
        }
      }
    }
  }

  /** g is the group that element t describes, with its fields as they stand. */
  ghost predicate IsGroup(l: Library, t: Tree, g: Group)
    requires Sound(l) && t.element.tag.GroupTag? && IsBody(t.children)
  {
    var tag := t.element.tag;
    && g.name == "" && g.opcode == 0 && g.register == 0 && g.parent.Some?
    && g.repeat.offset == tag.offset && g.repeat.size == tag.size
    && (if tag.count.Some? then g.repeat.count == tag.count.value else g.repeat.count == 0)
    && (g.repeat.variable <==> tag.count == Some(0))
    && AllDescribed(l, t.children, g.fields, 0)
  }

  ghost predicate AllGroups(l: Library, ts: seq<Tree>, gs: seq<Group>)
    requires Sound(l) && IsBody(ts)
  {
    |gs| == |GroupTrees(ts)| && forall i :: 0 <= i < |gs| ==> IsGroup(l, GroupTrees(ts)[i], gs[i])
  }

  predicate GroupsStop(l: Library, ts: seq<Tree>)
    requires Sound(l) && IsBody(ts)
  {
    exists i :: 0 <= i < |GroupTrees(ts)| && FieldsStop(l, GroupTrees(ts)[i].children)
  }

  lemma {:induction false} GroupsDescribed(l: Library, ts: seq<Tree>, parent: nat, id: nat)
    requires Sound(l) && IsBody(ts)
    ensures GroupsOf(l, ts, parent, id).None? <==> GroupsStop(l, ts)
    ensures GroupsOf(l, ts, parent, id).Some? ==> AllGroups(l, ts, GroupsOf(l, ts, parent, id).value)
    decreases ts
  {
    hide IsGroup, FieldsStop, GroupOf, Sound;
    if ts != [] {
      assert IsPart(ts[0]);
      if ts[0].element.tag.GroupTag? {
        GroupDescribed(l, ts[0], parent, id);
        var g := GroupOf(l, ts[0], parent, id);
        var next := if g.Some? then id + |g.value| else id;
        GroupsDescribed(l, ts[1..], parent, next);
        Stops(l, ts);
      } else {
        GroupsDescribed(l, ts[1..], parent, id);
        assert GroupTrees(ts) == GroupTrees(ts[1..]);
      }
    }
  }

  /** The groups of a body that begins with a group. */
  lemma Stops(l: Library, ts: seq<Tree>)
    requires Sound(l) && IsBody(ts) && ts != [] && ts[0].element.tag.GroupTag? && IsBody(ts[0].children)
    ensures GroupTrees(ts) == [ts[0]] + GroupTrees(ts[0].children) + GroupTrees(ts[1..])
    ensures GroupsStop(l, ts) <==> FieldsStop(l, ts[0].children) || GroupsStop(l, ts[0].children) || GroupsStop(l, ts[1..])
  {
    hide FieldsStop, Sound;
    var all, inner, more := GroupTrees(ts), GroupTrees(ts[0].children), GroupTrees(ts[1..]);
    assert all == [ts[0]] + inner + more;
    forall i | 0 <= i < |inner| ensures all[1 + i] == inner[i] { }
    forall i | 0 <= i < |more| ensures all[1 + |inner| + i] == more[i] { }
    assert all[0] == ts[0];
    if FieldsStop(l, ts[0].children) { assert FieldsStop(l, all[0].children); }
    if GroupsStop(l, ts[0].children) {
      var i :| 0 <= i < |inner| && FieldsStop(l, inner[i].children);
      assert FieldsStop(l, all[1 + i].children);
    }
    if GroupsStop(l, ts[1..]) {
      var i :| 0 <= i < |more| && FieldsStop(l, more[i].children);
      assert FieldsStop(l, all[1 + |inner| + i].children);
    }
  }

  lemma {:induction false} GroupDescribed(l: Library, t: Tree, parent: nat, id: nat)
    requires Sound(l) && IsPart(t) && t.element.tag.GroupTag?
    ensures GroupOf(l, t, parent, id).None? <==> FieldsStop(l, t.children) || GroupsStop(l, t.children)
    ensures var gs := GroupOf(l, t, parent, id);
      gs.Some? ==> |gs.value| == 1 + |GroupTrees(t.children)| && IsGroup(l, t, gs.value[0]) && AllGroups(l, t.children, gs.value[1..])
    decreases t
  {
    hide FieldsStop, GroupsStop, AllDescribed, AllGroups, FieldsOf, GroupsOf, Sound;
    FieldsDescribed(l, t.children);
    GroupsDescribed(l, t.children, id, id + 1);
    GroupsMany(l, t.children, id, id + 1);
  }

  lemma GroupsMany(l: Library, ts: seq<Tree>, parent: nat, id: nat)
    requires Sound(l) && IsBody(ts)
    requires GroupsOf(l, ts, parent, id).Some? ==> AllGroups(l, ts, GroupsOf(l, ts, parent, id).value)
    ensures GroupsOf(l, ts, parent, id).Some? ==> |GroupsOf(l, ts, parent, id).value| == |GroupTrees(ts)|
  {
  }

  // ----------------------------------------------------------------- entries

  /** The fields of an entry: those described, in the order of their starts. */
  ghost predicate FieldsInOrder(l: Library, ts: seq<Tree>, fs: seq<Field>, shift: nat)
    requires Sound(l) && IsBody(ts)
  {
    InOrder(fs) && exists us: seq<Field> :: AllDescribed(l, ts, us, shift) && multiset(us) == multiset(fs)
  }

  function Table(spec: Spec, tag: Tag): (ids: seq<nat>)
    requires tag.Packet? || tag.Struct? || tag.Register?
  {
    match tag
    case Packet(_) => spec.commands
    case Struct => spec.structs
    case Register(_) => spec.registers
  }

  /** m holds what entry t describes, as the next entry of its table after those of l:
      for a packet, all fields start behind the 8 bits of the opcode. */
  ghost predicate Holds(l: Library, m: Library, t: Tree)
    requires Sound(l) && IsEntry(t)
  {
    if t.element.tag.EnumTag? then
      var k := |l.spec.enums|;
      && k < |m.spec.enums| && m.spec.enums[k].name == t.element.name && |m.spec.enums[k].values| == |t.children|
      && forall i :: 0 <= i < |t.children| ==>
        m.spec.enums[k].values[i].name == t.children[i].element.name && m.spec.enums[k].values[i].value == t.children[i].element.tag.value
    else
      var id := |l.groups|;
      && id < |m.groups| && IsEntryGroup(l, t, m.groups[id])
      && Table(l.spec, t.element.tag) + [id] <= Table(m.spec, t.element.tag)
      && id + 1 + |GroupTrees(t.children)| <= |m.groups|
      && AllGroups(l, t.children, m.groups[id + 1..id + 1 + |GroupTrees(t.children)|])
  }

  ghost predicate IsEntryGroup(l: Library, t: Tree, g: Group)
    requires Sound(l) && IsEntry(t) && !t.element.tag.EnumTag?
  {
    var tag := t.element.tag;
    && g.name == t.element.name && g.parent == None && g.repeat == Repeat(0, 0, 0, false)
    && g.opcode == (if tag.Packet? then tag.code else 0) && g.register == (if tag.Register? then tag.num else 0)
    && FieldsInOrder(l, t.children, g.fields, if tag.Packet? then 8 else 0)
  }

  /** An entry that stops the parser. */
  predicate EntryStops(l: Library, t: Tree)
    requires Sound(l) && IsEntry(t)
  {
    if t.element.tag.EnumTag? then |t.children| > 256 || |l.spec.enums| >= 256
    else FieldsStop(l, t.children) || GroupsStop(l, t.children) || |Table(l.spec, t.element.tag)| >= 256
  }

  lemma ShiftedDescribed(l: Library, ts: seq<Tree>, us: seq<Field>)
    requires Sound(l) && IsBody(ts) && AllDescribed(l, ts, us, 0)
    ensures AllDescribed(l, ts, Shifted(us), 8)
  {
    hide Refers;
    forall i | 0 <= i < |us| ensures IsDescribed(l, FieldTrees(ts)[i], Shifted(us)[i], 8) {
      assert IsDescribed(l, FieldTrees(ts)[i], us[i], 0);
    }
  }

  lemma EntryAdded(l: Library, t: Tree)
    requires Sound(l) && IsEntry(t)
    ensures Added(l, t).None? <==> EntryStops(l, t)
    ensures Added(l, t).Some? ==> Holds(l, Added(l, t).value, t) && Extends(l, Added(l, t).value)
  {
    hide FieldsStop, GroupsStop, FieldsOf, GroupsOf, AllGroups, FieldsInOrder;
    if t.element.tag.EnumTag? {
    } else {
      FieldsDescribed(l, t.children);
      GroupsDescribed(l, t.children, |l.groups|, |l.groups| + 1);
      GroupsMany(l, t.children, |l.groups|, |l.groups| + 1);
      if Added(l, t).Some? { EntryHeld(l, t); }
    }
  }

  lemma EntryHeld(l: Library, t: Tree)
    requires Sound(l) && IsEntry(t) && !t.element.tag.EnumTag? && Added(l, t).Some?
    requires FieldsOf(l, t.children).Some? && AllDescribed(l, t.children, FieldsOf(l, t.children).value, 0)
    requires var gs := GroupsOf(l, t.children, |l.groups|, |l.groups| + 1);
      gs.Some? && AllGroups(l, t.children, gs.value) && |gs.value| == |GroupTrees(t.children)|
    ensures Holds(l, Added(l, t).value, t)
  {
    hide FieldsOf, GroupsOf, AllGroups, AllDescribed, SortFields, InOrder, Links;
    var us, tag := FieldsOf(l, t.children).value, t.element.tag;
    var below := GroupsOf(l, t.children, |l.groups|, |l.groups| + 1).value;
    var shifted := if tag.Packet? then Shifted(us) else us;
    if tag.Packet? { ShiftedDescribed(l, t.children, us); }
    SortedInOrder(shifted);
    var m, id := Added(l, t).value, |l.groups|;
    assert m.groups[id].fields == SortFields(shifted);
    assert m.groups[id + 1..id + 1 + |below|] == below;
  }

  /** Nothing is taken back. */
  ghost predicate Extends(l: Library, m: Library) {
    && l.groups <= m.groups && m.spec.ver == l.spec.ver
    && l.spec.commands <= m.spec.commands && l.spec.structs <= m.spec.structs
    && l.spec.registers <= m.spec.registers && l.spec.enums <= m.spec.enums
  }

  lemma {:induction false} AllExtend(l: Library, ts: seq<Tree>)
    requires Sound(l) && (forall k :: 0 <= k < |ts| ==> IsEntry(ts[k])) && AddedAll(l, ts).Some?
    ensures Extends(l, AddedAll(l, ts).value)
    decreases ts
  {
    hide Added, IsEntry, Sound, Holds, EntryStops;
    if ts != [] {
      EntryAdded(l, ts[0]);
      AllExtend(Added(l, ts[0]).value, ts[1..]);
    }
  }

  lemma HeldAfter(l: Library, m: Library, n: Library, t: Tree)
    requires Sound(l) && IsEntry(t) && Holds(l, m, t) && Extends(m, n)
    ensures Holds(l, n, t)
  {
    hide IsEntryGroup, AllGroups;
    if !t.element.tag.EnumTag? {
      var id, g := |l.groups|, |GroupTrees(t.children)|;
      assert n.groups[id + 1..id + 1 + g] == m.groups[id + 1..id + 1 + g];
    }
  }

  /** Entry k is held by the end. */
  lemma {:induction false} EntryStays(l: Library, ts: seq<Tree>, k: nat) returns (before: Library)
    requires Sound(l) && (forall i :: 0 <= i < |ts| ==> IsEntry(ts[i])) && AddedAll(l, ts).Some? && k < |ts|
    ensures AddedAll(l, ts[..k]) == Some(before) && Sound(before)
    ensures Holds(before, AddedAll(l, ts).value, ts[k])
    decreases ts
  {
    hide Added, IsEntry, Sound, Holds, EntryStops, Extends;
    EntryAdded(l, ts[0]);
    var m := Added(l, ts[0]).value;
    if k == 0 {
      before := l;
      AllExtend(m, ts[1..]);
      HeldAfter(l, m, AddedAll(l, ts).value, ts[0]);
    } else {
      before := EntryStays(m, ts[1..], k - 1);
      assert ts[..k][1..] == ts[1..][..k - 1];
    }
  }

  /** The first k entries of a document. */
  function Upto(t: Tree, k: nat): (r: Tree)
    requires k <= |t.children|
  {
    Node(t.element, t.children[..k])
  }

  /** Every entry of a parsed document is held: named, numbered and of the type that its
      element says, with every field where its element says. Types refer to what
      the entries before it mean. */
  lemma EntriesParsed(ver: nat, t: Tree, c: Context, k: nat) returns (before: Library)
    requires var r := Prune(ver, t); IsDocument(r) && k < |r.children|
    requires Nested(Events(t), 0) && Run(ver, Context(0, 0, EMPTY), Events(t)) == Some(c)
    ensures var r, b := Prune(ver, t), c.builder;
      && c.depth == c.skipDepth == 0 && b.group == None && b.enoom == None && b.values == []
      && r.element.tag.gen.Some? && b.spec.ver == 10 * r.element.tag.gen.value.0 + r.element.tag.gen.value.1
      && IsDocument(Upto(r, k)) && Meaning(Upto(r, k)) == Some(before) && Sound(before)
      && Holds(before, Library(b.spec, b.groups, b.next), r.children[k])
  {
    hide Run, Nested, AddedAll, Events, IsEntry, Holds, Prune;
    ParserMeansWhatIsLeft(ver, t);
    var r := Prune(ver, t);
    var gen := r.element.tag.gen;
    var l := Library(Spec(gen.value.0 * 10 + gen.value.1, [], [], [], []), [], []);
    before := EntryStays(l, r.children, k);
    AllExtend(l, r.children);
  }

  /** How many entries can be added; the one behind them cannot. */
  lemma {:induction false} HowMany(l: Library, ts: seq<Tree>) returns (k: nat, before: Library)
    requires Sound(l) && forall i :: 0 <= i < |ts| ==> IsEntry(ts[i])
    ensures k <= |ts| && AddedAll(l, ts[..k]) == Some(before) && Sound(before)
    ensures AddedAll(l, ts).None? <==> k < |ts|
    ensures k < |ts| ==> EntryStops(before, ts[k])
    decreases ts
  {
    hide Added, IsEntry, Sound, EntryStops, Holds, Extends;
    k, before := 0, l;
    if ts != [] {
      EntryAdded(l, ts[0]);
      if Added(l, ts[0]).Some? {
        k, before := HowMany(Added(l, ts[0]).value, ts[1..]);
        assert ts[..k + 1][1..] == ts[1..][..k];
        k := k + 1;
      }
    }
  }

  /** The parser stops exactly at a root without a version or at an entry that cannot be
      added: its table or a list of values is full, or a type names nothing. */
  lemma ParserStops(ver: nat, t: Tree) returns (k: nat, before: Library)
    requires IsDocument(Prune(ver, t))
    ensures var r := Prune(ver, t);
      && Nested(Events(t), 0) && k <= |r.children|
      && (Run(ver, Context(0, 0, EMPTY), Events(t)).None? <==> r.element.tag.gen.None? || k < |r.children|)
      && (r.element.tag.gen.Some? ==> IsDocument(Upto(r, k)) && Meaning(Upto(r, k)) == Some(before) && Sound(before))
      && (r.element.tag.gen.Some? && k < |r.children| ==> EntryStops(before, r.children[k]))
  {
    hide Run, Nested, AddedAll, Events, IsEntry, EntryStops, Prune;
    ParserMeansWhatIsLeft(ver, t);
    var r := Prune(ver, t);
    var gen := r.element.tag.gen;
    k, before := 0, Library(Spec(0, [], [], [], []), [], []);
    if gen.Some? {
      k, before := HowMany(Library(Spec(gen.value.0 * 10 + gen.value.1, [], [], [], []), [], []), r.children);
    }
  }
}
