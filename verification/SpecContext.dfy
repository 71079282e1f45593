/** struct parser_context of brcm/cle/v3d_decoder.c with the handlers that the
    XML parser calls. */
module SpecContext {
  import opened Seqs
  import opened SpecBuilder
  import opened SpecParser

  class ParserContext {
    const ver: nat
    var spec: Spec
    var groups: seq<Group>
    var next: seq<Option<nat>>
    var group: Option<nat>
    var enoom: Option<string>
    var values: seq<Value>
    var parseDepth: nat
    var parseSkipDepth: nat

    ghost function Builder(): (b: Builder)
      reads this
    {
      SpecBuilder.Builder(spec, groups, next, group, enoom, values)
    }

    ghost function State(): (c: Context)
      reads this
    {
      Context(parseDepth, parseSkipDepth, Builder())
    }

    constructor (ver: nat)
      ensures this.ver == ver && State() == Context(0, 0, EMPTY)
    {
      this.ver := ver;
      spec, groups, next := Spec(0, [], [], [], []), [], [];
      group, enoom, values := None, None, [];
      parseDepth, parseSkipDepth := 0, 0;
    }

    method FindStructByName(name: string) returns (g: Option<nat>)
      requires Valid(Builder())
      ensures g == FindStruct(spec.structs, groups, name)
    {
      var i := 0;
      while i < |spec.structs|
        invariant 0 <= i <= |spec.structs|
        invariant FindStruct(spec.structs, groups, name) == FindStruct(spec.structs[i..], groups, name)
      {
        if groups[spec.structs[i]].name == name { return Some(spec.structs[i]); }
        i := i + 1;
      }
      return None;
    }

    method FindEnumByName(name: string) returns (k: Option<nat>)
      ensures k == FindEnum(spec.enums, name)
    {
      var i := 0;
      while i < |spec.enums|
        invariant 0 <= i <= |spec.enums|
        invariant FindEnum(spec.enums, name) ==
          var k := FindEnum(spec.enums[i..], name); if k.Some? then Some(k.value + i) else None
      {
        if spec.enums[i].name == name { return Some(i); }
        i := i + 1;
      }
      return None;
    }

    method StringToType(t: Option<TypeName>) returns (kind: Option<Kind>)
      requires Valid(Builder())
      ensures kind == KindOf(spec, groups, t)
    {
      match t
      case None => return Some(Unknown);
      case Some(Builtin(k)) => return Some(k);
      case Some(Named(name)) =>
        var g := FindStructByName(name);
        if g.Some? { return Some(StructKind(g.value)); }
        var k := FindEnumByName(name);
        if k.Some? { return Some(EnumKind(k.value)); }
        return if name == "mbo" then Some(Mbo) else None;
    }

    method CreateGroup(g: Group)
      requires Valid(Builder())
      modifies this`groups, this`next, this`group
      ensures Builder() == NewGroup(old(Builder()), g)
    {
      groups, next, group := groups + [g], next + [None], Some(|groups|);
    }

    /** A group inside a group goes to the end of the list. */
    method AppendGroup(repeat: Repeat)
      requires Valid(Builder()) && group.Some?
      modifies this`groups, this`next, this`group
      ensures var r := NewGroup(old(Builder()), Group("", 0, 0, repeat, old(group), []));
        Builder() == r.(next := r.next[ChainEnd(old(next), old(group).value) := r.group])
    {
      var previous := group.value;
      while next[previous].Some?
        invariant previous < |next| && ChainEnd(next, previous) == ChainEnd(next, group.value)
        decreases |next| - previous
      {
        previous := next[previous].value;
      }
      CreateGroup(Group("", 0, 0, repeat, group, []));
      next := next[previous := group];
    }

    method CreateAndAppendField(name: string, a: FieldAttributes) returns (ok: bool)
      requires Valid(Builder())
      modifies this`groups
      ensures var r := Open(old(Builder()), Element(FieldTag(a), name, 0, 0));
        ok == r.Some? && (ok ==> Builder() == r.value)
    {
      var kind := StringToType(a.kind);
      ok := group.Some? && kind.Some?;
      if ok {
        var g := groups[group.value];
        groups := groups[group.value := g.(fields := g.fields + [NewField(name, a, kind.value)])];
      }
    }

    /** start_element on an element that is not skipped. */
    method OpenElement(e: Element) returns (ok: bool)
      requires Valid(Builder())
      modifies this`spec, this`groups, this`next, this`group, this`enoom, this`values
      ensures var r := Open(old(Builder()), e); ok == r.Some? && (ok ==> Builder() == r.value)
    {
      hide KindOf, NewField;
      ok := true;
      match e.tag
      case Vcxml(gen) =>
        ok := gen.Some?;
        if ok { spec := spec.(ver := gen.value.0 * 10 + gen.value.1); }
      case Packet(code) => CreateGroup(Group(e.name, code, 0, ONCE, None, []));
      case Struct => CreateGroup(Group(e.name, 0, 0, ONCE, None, []));
      case Register(num) => CreateGroup(Group(e.name, 0, num, ONCE, None, []));
      case GroupTag(offset, count, size) =>
        ok := group.Some?;
        if ok { AppendGroup(RepeatOf(offset, count, size)); }
      case FieldTag(a) => ok := CreateAndAppendField(e.name, a);
      case EnumTag => enoom := Some(e.name);
      case ValueTag(v) =>
        ok := |values| < CAPACITY;
        if ok { values := values + [Value(e.name, v)]; }
      case OtherTag =>
    }

    method StartElement(e: Element) returns (ok: bool)
      requires Valid(Builder())
      modifies this
      ensures var r := Step(ver, old(State()), Start(e)); ok == r.Some? && (ok ==> State() == r.value)
    {
      hide Open, VerInRange, Valid;
      if parseSkipDepth == 0 && !VerInRange(ver, e.minVer, e.maxVer) { parseSkipDepth := parseDepth; }
      ok := true;
      if parseSkipDepth == 0 { ok := OpenElement(e); }
      parseDepth := parseDepth + 1;
    }

    /** The fields of a packet move behind its opcode. */
    method ShiftFields(before: seq<Field>) returns (fields: seq<Field>)
      ensures fields == Shifted(before)
    {
      fields := before;
      var i := 0;
      while i < |fields|
        invariant 0 <= i <= |fields| == |before|
        invariant fields[..i] == Shifted(before)[..i] && fields[i..] == before[i..]
      {
        fields := fields[i := fields[i].(start := fields[i].start + 8, end := fields[i].end + 8)];
        i := i + 1;
      }
    }

    method CloseGroup(tag: Tag) returns (ok: bool)
      requires Valid(Builder()) && (tag.Packet? || tag.Struct? || tag.Register?)
      modifies this`spec, this`groups, this`group
      ensures var r := CloseEntry(old(Builder()), tag); ok == r.Some? && (ok ==> Builder() == r.value)
    {
      ok := group.Some?;
      if !ok { return; }
      var g := group.value;
      var entered := Enter(spec, tag, g);
      ok := entered.Some?;
      if !ok { return; }
      group := groups[g].parent;
      spec := entered.value;
      var fields := groups[g].fields;
      if tag.Packet? { fields := ShiftFields(fields); }
      groups := groups[g := groups[g].(fields := SortFields(fields))];
    }

    /** end_element on an element that was not skipped. */
    method CloseElement(tag: Tag) returns (ok: bool)
      requires Valid(Builder())
      modifies this`spec, this`groups, this`group, this`enoom, this`values
      ensures var r := Close(old(Builder()), tag); ok == r.Some? && (ok ==> Builder() == r.value)
    {
      ok := true;
      match tag
      case Packet(_) => ok := CloseGroup(tag);
      case Struct => ok := CloseGroup(tag);
      case Register(_) => ok := CloseGroup(tag);
      case GroupTag(_, _, _) =>
        ok := group.Some?;
        if ok { group := groups[group.value].parent; }
      case FieldTag(_) =>
        ok := group.Some? && groups[group.value].fields != [];
        if ok {
          var g := groups[group.value];
          var last := |g.fields| - 1;
          groups := groups[group.value := g.(fields := g.fields[last := g.fields[last].(values := values)])];
          values := [];
        }
      case EnumTag =>
        ok := enoom.Some? && |spec.enums| < CAPACITY;
        if ok {
          spec := spec.(enums := spec.enums + [Enumeration(enoom.value, values)]);
          values, enoom := [], None;
        }
      case Vcxml(_) =>
      case ValueTag(_) =>
      case OtherTag =>
    }

    method EndElement(e: Element) returns (ok: bool)
      requires Valid(Builder()) && parseDepth > 0
      modifies this
      ensures var r := Step(ver, old(State()), End(e)); ok == r.Some? && (ok ==> State() == r.value)
    {
      hide Close, Valid;
      ok := true;
      parseDepth := parseDepth - 1;
      if parseSkipDepth != 0 {
        if parseSkipDepth == parseDepth { parseSkipDepth := 0; }
      } else {
        ok := CloseElement(e.tag);
      }
    }

    /** The XML parser's walk over a document. */
    method Parse(t: Tree) returns (ok: bool)
      requires State() == Context(0, 0, EMPTY)
      modifies this
      ensures var b := Build(EMPTY, Prune(ver, t));
        ok == b.Some? && (ok ==> State() == Context(0, 0, b.value))
    {
      hide Build, Prune, Events, Open, Close;
      SkippingIsPruning(ver, t);
      var es := Events(t);
      ok := true;
      while es != []
        invariant Valid(Builder()) && Nested(es, parseDepth)
        invariant Run(ver, State(), es) == Run(ver, Context(0, 0, EMPTY), Events(t))
        decreases |es|
      {
        var event := es[0];
        if event.Start? { ok := StartElement(event.element); } else { ok := EndElement(event.element); }
        if !ok { return; }
        es := es[1..];
      }
    }
  }
}
