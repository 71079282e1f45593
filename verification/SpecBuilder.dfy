/** What start_element and end_element of brcm/cle/v3d_decoder.c build out of one
    element: the register and packet descriptions of a hardware version.

    Elements come with their attributes already converted to numbers and types.
    Groups are named by their position in the order of creation. */
module SpecBuilder {
  import opened Seqs

  datatype Kind =
    | Unknown | Int | UInt | Bool | Float | F187 | Address | Offset | Mbo
    | UFixed(i: nat, f: nat) | SFixed(i: nat, f: nat)
    | StructKind(group: nat) | EnumKind(index: nat)

  /** The type attribute: a type of the language, or a name to be looked up. */
  datatype TypeName = Builtin(kind: Kind) | Named(name: string)

  datatype Value = Value(name: string, value: nat)

  datatype Field = Field(name: string, start: nat, end: int, kind: Kind, minusOne: bool, default: Option<nat>, values: seq<Value>)

  datatype FieldAttributes =
    FieldAttributes(start: nat, end: int, size: nat, kind: Option<TypeName>, minusOne: bool, default: Option<nat>)

  /** Where a group lies in its parent and how often it is repeated. */
  datatype Repeat = Repeat(offset: nat, count: nat, size: nat, variable: bool)

  const ONCE := Repeat(0, 0, 0, false)

  datatype Group = Group(name: string, opcode: nat, register: nat, repeat: Repeat, parent: Option<nat>, fields: seq<Field>)

  datatype Enumeration = Enumeration(name: string, values: seq<Value>)

  datatype Tag =
    | Vcxml(gen: Option<(nat, nat)>)
    | Packet(code: nat) | Struct | Register(num: nat)
    | GroupTag(offset: nat, count: Option<nat>, size: nat)
    | FieldTag(attributes: FieldAttributes)
    | EnumTag
    | ValueTag(value: nat)
    | OtherTag

  /** name: for fields and values the attribute of that name, for others the short
      name if there is one. */
  datatype Element = Element(tag: Tag, name: string, minVer: nat, maxVer: nat)

  datatype Spec = Spec(ver: nat, commands: seq<nat>, structs: seq<nat>, registers: seq<nat>, enums: seq<Enumeration>)

  /** The parser's context but for the depth counters. next holds the groups' next
      pointers. */
  datatype Builder = Builder(spec: Spec, groups: seq<Group>, next: seq<Option<nat>>,
    group: Option<nat>, enoom: Option<string>, values: seq<Value>)

  const CAPACITY := 256

  const EMPTY := Builder(Spec(0, [], [], [], []), [], [], None, None, [])

  /** Pointers lead to groups that exist, and next pointers to younger ones. */
  predicate Valid(b: Builder) {
    && |b.next| == |b.groups|
    && (b.group.Some? ==> b.group.value < |b.groups|)
    && (forall i :: 0 <= i < |b.groups| && b.groups[i].parent.Some? ==> b.groups[i].parent.value < |b.groups|)
    && (forall i :: 0 <= i < |b.next| && b.next[i].Some? ==> i < b.next[i].value < |b.next|)
    && (forall i :: 0 <= i < |b.spec.structs| ==> b.spec.structs[i] < |b.groups|)
  }

  /** v3d_spec_find_struct */
  function FindStruct(structs: seq<nat>, groups: seq<Group>, name: string): (g: Option<nat>)
    requires forall i :: 0 <= i < |structs| ==> structs[i] < |groups|
  {
    if structs == [] then None
    else if groups[structs[0]].name == name then Some(structs[0])
    else FindStruct(structs[1..], groups, name)
  }

  /** v3d_spec_find_enum */
  function FindEnum(enums: seq<Enumeration>, name: string): (k: Option<nat>) {
    if enums == [] then None
    else if enums[0].name == name then Some(0)
    else
      var k := FindEnum(enums[1..], name);
      if k.Some? then Some(k.value + 1) else None
  }

  /** string_to_type; a name that means nothing ends the program. */
  function KindOf(spec: Spec, groups: seq<Group>, t: Option<TypeName>): (k: Option<Kind>)
    requires forall i :: 0 <= i < |spec.structs| ==> spec.structs[i] < |groups|
  {
    match t
    case None => Some(Unknown)
    case Some(Builtin(kind)) => Some(kind)
    case Some(Named(name)) =>
      var g, k := FindStruct(spec.structs, groups, name), FindEnum(spec.enums, name);
      if g.Some? then Some(StructKind(g.value))
      else if k.Some? then Some(EnumKind(k.value))
      else if name == "mbo" then Some(Mbo)
      else None
  }

  /** create_field */
  function NewField(name: string, a: FieldAttributes, kind: Kind): (f: Field) {
    Field(name, a.start, if a.size > 0 then a.start + a.size - 1 else a.end, kind, a.minusOne, a.default, [])
  }

  /** get_group_offset_count */
  function RepeatOf(offset: nat, count: Option<nat>, size: nat): (r: Repeat) {
    Repeat(offset, if count.Some? then count.value else 0, size, count == Some(0))
  }

  /** The end of the list of groups that g is in. */
  function ChainEnd(next: seq<Option<nat>>, g: nat): (e: nat)
    requires g < |next| && forall i :: 0 <= i < |next| && next[i].Some? ==> i < next[i].value < |next|
    ensures g <= e < |next| && next[e].None?
    decreases |next| - g
  {
    if next[g].None? then g else ChainEnd(next, next[g].value)
  }

  function NewGroup(b: Builder, g: Group): (r: Builder) {
    b.(groups := b.groups + [g], next := b.next + [None], group := Some(|b.groups|))
  }

  /** start_element on an element that is not skipped. None: the program stops, or
      follows a null pointer or runs over the end of an array. */
  function Open(b: Builder, e: Element): (r: Option<Builder>)
    requires Valid(b)
    ensures r.Some? ==> Valid(r.value)
  {
    match e.tag
    case Vcxml(gen) =>
      if gen.None? then None else Some(b.(spec := b.spec.(ver := gen.value.0 * 10 + gen.value.1)))
    case Packet(code) => Some(NewGroup(b, Group(e.name, code, 0, ONCE, None, [])))
    case Struct => Some(NewGroup(b, Group(e.name, 0, 0, ONCE, None, [])))
    case Register(num) => Some(NewGroup(b, Group(e.name, 0, num, ONCE, None, [])))
    case GroupTag(offset, count, size) =>
      if b.group.None? then None
      else
        var end := ChainEnd(b.next, b.group.value);
        var r := NewGroup(b, Group("", 0, 0, RepeatOf(offset, count, size), b.group, []));
        Some(r.(next := r.next[end := r.group]))
    case FieldTag(a) =>
      var kind := KindOf(b.spec, b.groups, a.kind);
      if b.group.None? || kind.None? then None
      else
        var g := b.groups[b.group.value];
        Some(b.(groups := b.groups[b.group.value := g.(fields := g.fields + [NewField(e.name, a, kind.value)])]))
    case EnumTag => Some(b.(enoom := Some(e.name)))
    case ValueTag(v) => if |b.values| >= CAPACITY then None else Some(b.(values := b.values + [Value(e.name, v)]))
    case OtherTag => Some(b)
  }

  /** Packet contents are described from behind the opcode. */
  function Shifted(fields: seq<Field>): (r: seq<Field>)
    ensures |r| == |fields|
    ensures forall k :: 0 <= k < |r| ==> r[k] == fields[k].(start := fields[k].start + 8, end := fields[k].end + 8)
  {
    seq(|fields|, k requires 0 <= k < |fields| => fields[k].(start := fields[k].start + 8, end := fields[k].end + 8))
  }

  function Insert(f: Field, fields: seq<Field>): (r: seq<Field>) {
    if fields == [] || f.start <= fields[0].start then [f] + fields
    else [fields[0]] + Insert(f, fields[1..])
  }

  /** qsort by field_offset_compare. */
  function SortFields(fields: seq<Field>): (r: seq<Field>) {
    if fields == [] then [] else Insert(fields[0], SortFields(fields[1..]))
  }

  ghost predicate InOrder(fields: seq<Field>) {
    forall i, j :: 0 <= i < j < |fields| ==> fields[i].start <= fields[j].start
  }

  lemma {:induction false} InsertInOrder(f: Field, fields: seq<Field>)
    requires InOrder(fields)
    ensures InOrder(Insert(f, fields))
  {
    if !(fields == [] || f.start <= fields[0].start) {
      InsertInOrder(f, fields[1..]);
      InsertAdds(f, fields[1..]);
      var rest := Insert(f, fields[1..]);
      forall k | 0 <= k < |rest| ensures fields[0].start <= rest[k].start {
        assert rest[k] in multiset(rest);
      }
    }
  }

  lemma {:induction false} InsertAdds(f: Field, fields: seq<Field>)
    ensures multiset(Insert(f, fields)) == multiset{f} + multiset(fields)
  {
    if !(fields == [] || f.start <= fields[0].start) {
      InsertAdds(f, fields[1..]);
      assert fields == [fields[0]] + fields[1..];
    }
  }

  /** A field is found at its place whatever order the description gives. */
  lemma {:induction false} SortedInOrder(fields: seq<Field>)
    ensures InOrder(SortFields(fields)) && multiset(SortFields(fields)) == multiset(fields)
  {
    if fields != [] {
      SortedInOrder(fields[1..]);
      InsertInOrder(fields[0], SortFields(fields[1..]));
      InsertAdds(fields[0], SortFields(fields[1..]));
      assert fields == [fields[0]] + fields[1..];
    }
  }

  /** The fields of a packet, struct or register once it is closed. */
  function Finished(g: Group, tag: Tag): (r: Group) {
    g.(fields := SortFields(if tag.Packet? then Shifted(g.fields) else g.fields))
  }

  /** A finished group goes into its table, if there is room. */
  function Enter(spec: Spec, tag: Tag, g: nat): (r: Option<Spec>)
    requires tag.Packet? || tag.Struct? || tag.Register?
  {
    match tag
    case Packet(_) => if |spec.commands| >= CAPACITY then None else Some(spec.(commands := spec.commands + [g]))
    case Struct => if |spec.structs| >= CAPACITY then None else Some(spec.(structs := spec.structs + [g]))
    case Register(_) => if |spec.registers| >= CAPACITY then None else Some(spec.(registers := spec.registers + [g]))
  }

  /** end_element on an element that is not skipped. */
  function Close(b: Builder, tag: Tag): (r: Option<Builder>)
    requires Valid(b)
    ensures r.Some? ==> Valid(r.value)
  {
    match tag
    case Packet(_) => CloseEntry(b, tag)
    case Struct => CloseEntry(b, tag)
    case Register(_) => CloseEntry(b, tag)
    case GroupTag(_, _, _) => if b.group.None? then None else Some(b.(group := b.groups[b.group.value].parent))
    case FieldTag(_) =>
      if b.group.None? || b.groups[b.group.value].fields == [] then None
      else
        var g := b.groups[b.group.value];
        var last := |g.fields| - 1;
        Some(b.(groups := b.groups[b.group.value := g.(fields := g.fields[last := g.fields[last].(values := b.values)])], values := []))
    case EnumTag =>
      if b.enoom.None? || |b.spec.enums| >= CAPACITY then None
      else
        var enums := b.spec.enums + [Enumeration(b.enoom.value, b.values)];
        Some(b.(spec := b.spec.(enums := enums), enoom := None, values := []))
    case _ => Some(b)
  }

  function CloseEntry(b: Builder, tag: Tag): (r: Option<Builder>)
    requires Valid(b) && (tag.Packet? || tag.Struct? || tag.Register?)
    ensures r.Some? ==> Valid(r.value)
  {
    if b.group.None? then None
    else
      var g := b.group.value;
      var spec := Enter(b.spec, tag, g);
      if spec.None? then None
      else Some(b.(spec := spec.value, groups := b.groups[g := Finished(b.groups[g], tag)], group := b.groups[g].parent))
  }
}
