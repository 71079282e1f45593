/** Descriptor sets: filled by vkAllocateDescriptorSets and vkUpdateDescriptorSets
    of driver/descriptorSet.c, and looked up by driver/draw.c. */
module DescriptorSets {
  import opened Arithmetic
  import opened Bytes
  import opened FreeList
  import opened BindingMap
  import opened DescriptorLayout

  /** What is written: an image with its layout and sampler, a buffer range, or a
      buffer view. */
  datatype Info = ImageInfo(layout: nat, view: nat, sampler: nat) | BufferInfo(buffer: nat, offset: nat, range: nat) | TexelInfo(bufferView: nat)

  datatype Descriptor = Descriptor(count: nat, kind: DescriptorType, stages: nat, info: Info)

  /** The first descriptor of each slice that has one says what the binding is. */
  ghost predicate Headed(ds: seq<Descriptor>, bs: seq<Binding>, c: Class, n: nat)
    requires n <= |bs|
  {
    forall i :: 0 <= i < n && Of(bs[i], c) && bs[i].count > 0 ==>
      Counted(bs, c, i) < |ds| && Heads(ds[Counted(bs, c, i)], bs[i])
  }

  predicate Heads(d: Descriptor, b: Binding) {
    d.count == b.count && d.kind == b.kind && d.stages == b.stages
  }

  lemma HeadedSkip(ds: seq<Descriptor>, bs: seq<Binding>, c: Class, other: Class, n: nat)
    requires n < |bs| && Of(bs[n], c) && other != c && Headed(ds, bs, other, n)
    ensures Headed(ds, bs, other, n + 1)
  {
  }

  lemma HeadedNext(ds: seq<Descriptor>, es: seq<Descriptor>, bs: seq<Binding>, c: Class, n: nat)
    requires Numbered(bs) && n < |bs| && Of(bs[n], c) && Headed(ds, bs, c, n) && Counted(bs, c, n) < |ds| == |es|
    requires forall k :: 0 <= k < |ds| && k != Counted(bs, c, n) ==> es[k] == ds[k]
    requires Heads(es[Counted(bs, c, n)], bs[n])
    ensures Headed(es, bs, c, n + 1)
  {
    forall i | 0 <= i < n && Of(bs[i], c) && bs[i].count > 0 ensures Heads(es[Counted(bs, c, i)], bs[i]) {
      StartIs(bs, c, i, n);
    }
  }

  /** The first n data written to the descriptors from at on. */
  function Written(ds: seq<Descriptor>, at: nat, data: seq<Info>, n: nat): (r: seq<Descriptor>)
    requires n <= |data| && at + n <= |ds|
    ensures |r| == |ds|
  {
    seq(|ds|, k requires 0 <= k < |ds| => if at <= k < at + n then ds[k].(info := data[k - at]) else ds[k])
  }

  lemma NoneWritten(ds: seq<Descriptor>, at: nat, data: seq<Info>)
    requires at + |data| <= |ds|
    ensures Written(ds, at, data, 0) == ds
  {
  }

  lemma NextWritten(ds: seq<Descriptor>, at: nat, data: seq<Info>, n: nat)
    requires n < |data| && at + |data| <= |ds|
    ensures var r := Written(ds, at, data, n); Written(ds, at, data, n + 1) == r[at + n := r[at + n].(info := data[n])]
  {
  }

  lemma HeadedWritten(ds: seq<Descriptor>, at: nat, data: seq<Info>, bs: seq<Binding>, c: Class, n: nat)
    requires n <= |bs| && Headed(ds, bs, c, n) && at + |data| <= |ds|
    ensures Headed(Written(ds, at, data, |data|), bs, c, n)
  {
  }

  /** The descriptors of one class, and the map from bindings to pointers to them. */
  class Table {
    const descriptors: array<Descriptor>
    const place: Layout
    const bindings: Map

    ghost predicate Valid()
      reads this, bindings, bindings.elements
    {
      && bindings.Valid() && place.Valid() && place.count == descriptors.Length == bindings.elements.Length
    }

    /** The arrays are taken from their pools; the map is empty at first. */
    constructor (descriptors: array<Descriptor>, place: Layout, elements: array<Element>, hash: uint32 -> nat)
      requires place.Valid() && place.count == descriptors.Length == elements.Length
      requires forall k :: hash(k) < elements.Length
      modifies elements
      ensures Valid() && this.descriptors == descriptors && this.place == place && fresh(bindings) && bindings.elements == elements
      ensures Maps(map[])
    {
      this.descriptors, this.place := descriptors, place;
      bindings := new Map(elements, hash);
    }

    /** The map has exactly the bindings of starts, each pointing to its start. */
    ghost predicate Maps(starts: map<uint32, nat>)
      reads this, bindings
    {
      bindings.contents.Keys == starts.Keys && forall b :: b in starts ==> bindings.contents[b] == place.Addr(starts[b])
    }

    /** The pointer to a descriptor, moved on by e, points to the one e further on. */
    method Index(p: uint32, e: nat, ghost start: nat) returns (k: nat)
      requires place.Valid() && start + e < place.count && p == place.Addr(start)
      ensures k == start + e
    {
      hide Times, Over;
      PointerMoved(start, e, start + e);
      k := Over(p + Times(e, place.blockSize) - place.base, place.blockSize);
    }

    lemma PointerMoved(start: nat, e: nat, k: nat)
      requires place.Valid() && k == start + e
      ensures place.Off(start) + Times(e, place.blockSize) == place.Off(k) && Over(place.Off(k), place.blockSize) == k
    {
      place.OffIsProduct(e);
      place.OffAdd(start, e);
      place.OffIsProduct(k);
      if k > 0 { Multiples(k, place.blockSize); }
    }

    static lemma KeyAdded(pointers: map<uint32, uint32>, starts: map<uint32, nat>, L: Layout, b: uint32, start: nat,
        pointers': map<uint32, uint32>, starts': map<uint32, nat>)
      requires pointers.Keys == starts.Keys && (forall k :: k in starts ==> pointers[k] == L.Addr(starts[k])) && L.Addr(start) < 0x1_0000_0000
      requires pointers' == pointers[b := L.Addr(start)] && starts' == starts[b := start]
      ensures pointers'.Keys == starts'.Keys && forall k :: k in starts' ==> pointers'[k] == L.Addr(starts'[k])
    {
      hide Layout.Addr;
    }

    /** A binding gets its slice. */
    method Assign(b: Binding, start: nat, ghost starts: map<uint32, nat>)
      requires Valid() && Maps(starts) && b.binding !in starts && |starts| < descriptors.Length && start < descriptors.Length
      modifies bindings, bindings.elements, descriptors
      ensures Valid() && Maps(starts[b.binding := start])
      ensures descriptors[..] == old(descriptors[..])[start := Descriptor(b.count, b.kind, b.stages, old(descriptors[start].info))]
    {
      hide Map.Valid, Layout.Off;
      BlockInBuffer(place, start);
      KeyAdded(bindings.contents, starts, place, b.binding, start, bindings.contents[b.binding := place.Addr(start)], starts[b.binding := start]);
      assert |starts.Keys| == |starts| && |bindings.contents.Keys| == |bindings.contents|;
      bindings.Set(b.binding, place.base + place.Off(start));
      descriptors[start] := descriptors[start].(count := b.count, kind := b.kind, stages := b.stages);
    }

    /** The write loop of vkUpdateDescriptorSets. */
    method Write(binding: uint32, element: nat, data: seq<Info>, ghost starts: map<uint32, nat>, ghost start: nat)
      requires Valid() && Maps(starts) && binding in starts && start == starts[binding] && start + element + |data| <= descriptors.Length
      modifies descriptors
      ensures descriptors[..] == Written(old(descriptors[..]), start + element, data, |data|)
    {
      hide Written;
      var p := bindings.Get(binding);
      ghost var ds, at := descriptors[..], start + element;
      NoneWritten(ds, at, data);
      for d := 0 to |data|
        invariant descriptors[..] == Written(ds, at, data, d)
      {
        NextWritten(ds, at, data, d);
        var k := Index(p, element + d, start);
        descriptors[k] := descriptors[k].(info := data[d]);
      }
    }

    /** What drawCommon reads. */
    method Lookup(binding: uint32, element: nat, ghost starts: map<uint32, nat>, ghost start: nat) returns (info: Info)
      requires Valid() && Maps(starts) && binding in starts && start == starts[binding] && start + element < descriptors.Length
      ensures info == descriptors[start + element].info
    {
      var p := bindings.Get(binding);
      var k := Index(p, element, start);
      info := descriptors[k].info;
    }
  }

  /** What the pools provide for the descriptors of one class. */
  datatype Memory = Memory(descriptors: array<Descriptor>, place: Layout, elements: array<Element>, hash: uint32 -> nat)

  ghost predicate Provides(m: Memory, n: nat) {
    n > 0 ==> m.place.Valid() && m.place.count == m.descriptors.Length == m.elements.Length == n && forall k :: m.hash(k) < n
  }

  datatype Entry = Entry(kind: DescriptorType, binding: uint32, element: nat, data: seq<Info>)

  /** Does w write element e of binding b? */
  predicate Hits(w: Entry, c: Class, b: uint32, e: nat) {
    ClassOf(w.kind) == c && w.binding == b && w.element <= e < w.element + |w.data|
  }

  /** What the last of ws wrote there. */
  function Last(ws: seq<Entry>, c: Class, b: uint32, e: nat, was: Info): (r: Info) {
    if ws == [] then was
    else
      var w := ws[|ws| - 1];
      if Hits(w, c, b, e) then w.data[e - w.element] else Last(ws[..|ws| - 1], c, b, e, was)
  }

  /** A class without descriptors gets no array and no map. */
  method CreateTable(m: Memory, n: nat) returns (t: Table?)
    requires Provides(m, n)
    modifies m.elements
    ensures n == 0 ==> t == null
    ensures n > 0 ==> t != null && fresh(t) && fresh(t.bindings) && t.descriptors == m.descriptors && t.bindings.elements == m.elements
    ensures n > 0 ==> t.Valid() && t.Maps(map[])
  {
    hide Map.Valid;
    t := null;
    if n > 0 { t := new Table(m.descriptors, m.place, m.elements, m.hash); }
  }

  class DescriptorSet {
    ghost const layout: seq<Binding>
    const images: Table?
    const buffers: Table?
    const texels: Table?

    function Tab(c: Class): (t: Table?)
    {
      match c
      case Images => images
      case Buffers => buffers
      case TexelBuffers => texels
    }

    ghost function Parts(c: Class): (s: set<object>)
    {
      var t := Tab(c);
      if t == null then {} else {t, t.bindings, t.bindings.elements, t.descriptors}
    }

    ghost predicate Apart()
    {
      Parts(Images) !! Parts(Buffers) && Parts(Images) !! Parts(TexelBuffers) && Parts(Buffers) !! Parts(TexelBuffers)
    }

    /** The first n bindings of class c have their slices. */
    ghost predicate Served(c: Class, n: nat)
      requires n <= |layout|
      reads Parts(c)
    {
      var all := Counted(layout, c, |layout|);
      var t := Tab(c);
      all > 0 ==> t != null && t.Valid() && t.descriptors.Length == all && t.Maps(Starts(layout, c, n)) && Headed(t.descriptors[..], layout, c, n)
    }

    ghost predicate Valid()
      reads Parts(Images), Parts(Buffers), Parts(TexelBuffers)
    {
      WellFormed(layout) && Apart() && forall c: Class :: Served(c, |layout|)
    }

    /** The first loop of vkAllocateDescriptorSets: how many descriptors of each
        class there are. */
    static method CountDescriptors(bs: seq<Binding>) returns (imageCount: nat, bufferCount: nat, texelCount: nat)
      ensures imageCount == Counted(bs, Images, |bs|) && bufferCount == Counted(bs, Buffers, |bs|)
      ensures texelCount == Counted(bs, TexelBuffers, |bs|)
    {
      imageCount, bufferCount, texelCount := 0, 0, 0;
      for d := 0 to |bs|
        invariant imageCount == Counted(bs, Images, d) && bufferCount == Counted(bs, Buffers, d)
        invariant texelCount == Counted(bs, TexelBuffers, d)
      {
        match ClassOf(bs[d].kind)
        case Images => imageCount := imageCount + bs[d].count;
        case Buffers => bufferCount := bufferCount + bs[d].count;
        case TexelBuffers => texelCount := texelCount + bs[d].count;
      }
    }

    lemma NoneServed(c: Class)
      requires var t := Tab(c);
        var all := Counted(layout, c, |layout|); all > 0 ==> t != null && t.Valid() && t.descriptors.Length == all && t.Maps(map[])
      ensures Served(c, 0)
    {
      hide Counted, Table.Valid, Table.Maps;
    }

    /** The first half of vkAllocateDescriptorSets: arrays and maps, if needed. */
    constructor CreateTables(bs: seq<Binding>, im: Memory, bm: Memory, tm: Memory)
      requires Provides(im, Counted(bs, Images, |bs|)) && Provides(bm, Counted(bs, Buffers, |bs|))
      requires Provides(tm, Counted(bs, TexelBuffers, |bs|))
      requires im.descriptors != bm.descriptors && im.descriptors != tm.descriptors && bm.descriptors != tm.descriptors
      requires im.elements != bm.elements && im.elements != tm.elements && bm.elements != tm.elements
      modifies im.elements, im.descriptors, bm.elements, bm.descriptors, tm.elements, tm.descriptors
      ensures layout == bs && Apart() && forall c: Class :: Served(c, 0)
      ensures forall c: Class, o: object :: o in Parts(c) ==>
        fresh(o) || o in {im.elements, im.descriptors, bm.elements, bm.descriptors, tm.elements, tm.descriptors}
    {
      hide Map.Valid, Counted, Table.Valid, Table.Maps;
      var imageCount, bufferCount, texelCount := CountDescriptors(bs);
      layout := bs;
      var i := CreateTable(im, imageCount);
      var b := CreateTable(bm, bufferCount);
      var t := CreateTable(tm, texelCount);
      images, buffers, texels := i, b, t;
      new;
      forall c: Class ensures Served(c, 0) {
        NoneServed(c);
      }
    }

    /** vkAllocateDescriptorSets, for one set, with what the pools provide for it.
        Where there is no room for a binding the driver writes outside the array or
        searches a full map for ever; the method stops. */
    static method Allocate(bs: seq<Binding>, im: Memory, bm: Memory, tm: Memory) returns (ok: bool, ds: DescriptorSet)
      requires Numbered(bs)
      requires Provides(im, Counted(bs, Images, |bs|)) && Provides(bm, Counted(bs, Buffers, |bs|))
      requires Provides(tm, Counted(bs, TexelBuffers, |bs|))
      requires im.descriptors != bm.descriptors && im.descriptors != tm.descriptors && bm.descriptors != tm.descriptors
      requires im.elements != bm.elements && im.elements != tm.elements && bm.elements != tm.elements
      modifies im.elements, im.descriptors, bm.elements, bm.descriptors, tm.elements, tm.descriptors
      ensures ok <==> WellFormed(bs)
      ensures ok ==> ds.Valid() && ds.layout == bs
    {
      hide Counted, DescriptorSet.Served, Numbered, WellFormed, DescriptorSet.Apart;
      ds := new DescriptorSet.CreateTables(bs, im, bm, tm);
      ok := ds.AssignAll(bs);
    }

    /** The second loop: every binding gets the next slice of its class. */
    method AssignAll(bs: seq<Binding>) returns (ok: bool)
      requires Numbered(layout) && Apart() && bs == layout && forall c: Class :: Served(c, 0)
      modifies Parts(Images), Parts(Buffers), Parts(TexelBuffers)
      ensures ok <==> WellFormed(bs)
      ensures ok ==> Valid()
    {
      hide Map.Valid, Served, Numbered, Startable;
      var imageCounter, bufferCounter, texelCounter := 0, 0, 0;
      for d := 0 to |bs|
        invariant forall c: Class :: Served(c, d)
        invariant forall i :: 0 <= i < d ==> Startable(bs, i)
        invariant imageCounter == Counted(bs, Images, d) && bufferCounter == Counted(bs, Buffers, d)
        invariant texelCounter == Counted(bs, TexelBuffers, d)
      {
        var b := bs[d];
        if !Startable(bs, d) { return false; }
        match ClassOf(b.kind)
        case Images =>
          AssignBinding(b, imageCounter, d, d + 1);
          imageCounter := imageCounter + b.count;
        case Buffers =>
          AssignBinding(b, bufferCounter, d, d + 1);
          bufferCounter := bufferCounter + b.count;
        case TexelBuffers =>
          AssignBinding(b, texelCounter, d, d + 1);
          texelCounter := texelCounter + b.count;
      }
      return true;
    }

    /** Steps on the parts of class c leave the others as they are. */
    twostate lemma OthersServed(new c: Class, new other: Class, new d: nat, new next: nat)
      requires Apart() && c != other && next == d + 1 <= |layout| && Of(layout[d], c)
      requires old(Served(other, d)) && forall o :: o in Parts(other) ==> unchanged(o)
      ensures Served(other, next)
    {
      hide Table.Maps, Map.Valid, Headed, Starts, Table.Valid;
      SkipOther(layout, c, other, d);
      if Counted(layout, other, |layout|) > 0 {
        var t := Tab(other);
        assert t.descriptors[..] == old(t.descriptors[..]);
        HeadedSkip(t.descriptors[..], layout, c, other, d);
      }
    }

    /** Binding d is given its slice, where the counter of its class stands. */
    method AssignBinding(b: Binding, counter: nat, ghost d: nat, ghost next: nat)
      requires Numbered(layout) && Apart() && next == d + 1 <= |layout| && b == layout[d] && Startable(layout, d)
      requires (forall c: Class :: Served(c, d)) && counter == Counted(layout, ClassOf(b.kind), d)
      modifies Parts(Images), Parts(Buffers), Parts(TexelBuffers)
      ensures forall c: Class :: Served(c, next)
    {
      hide Map.Valid, Starts, Counted;
      ghost var c := ClassOf(b.kind);
      ghost var starts := Starts(layout, c, d);
      NotYetStarted(layout, c, d);
      StartIs(layout, c, d, |layout|);
      NextStart(layout, c, d);
      assert Served(c, d);
      var t := Tab(ClassOf(b.kind));
      ghost var ds := t.descriptors[..];
      label before:
      t.Assign(b, counter, starts);
      HeadedNext(ds, t.descriptors[..], layout, c, d);
      assert Served(c, next);
      forall other: Class | other != c ensures Served(other, next) {
        OthersServed@before(c, other, d, next);
      }
    }

    /** Element e of binding b. */
    ghost function Value(c: Class, b: uint32, e: nat): (i: Info)
      requires Valid() && InSlice(layout, c, b, e, 1)
      reads Parts(Images), Parts(Buffers), Parts(TexelBuffers)
    {
      InSliceIsInArray(layout, c, b, e, 1);
      assert Served(c, |layout|);
      Tab(c).descriptors[Starts(layout, c, |layout|)[b] + e].info
    }

    lemma ServedTable(c: Class, b: uint32, e: nat, n: nat)
      requires Valid() && InSlice(layout, c, b, e, n)
      ensures Tab(c) != null && Tab(c).Valid() && Tab(c).Maps(Starts(layout, c, |layout|))
      ensures b in Starts(layout, c, |layout|) && Starts(layout, c, |layout|)[b] + e + n <= Tab(c).descriptors.Length
    {
      assert Served(c, |layout|);
      InSliceIsInArray(layout, c, b, e, n);
      StartIs(layout, c, Owned(layout, c, b), |layout|);
      assert Startable(layout, Owned(layout, c, b));
    }

    /** The key of a binding leads to its first descriptor, which says how many there are, of
        what type, for which stages; it stands behind the descriptors of the
        bindings of the same class before it. */
    lemma DescribedByFirst(i: nat)
      requires Valid() && i < |layout| && layout[i].count > 0
      ensures var b, c := layout[i], ClassOf(layout[i].kind);
        && Tab(c) != null && Counted(layout, c, i) < Tab(c).descriptors.Length
        && var d := Tab(c).descriptors[Counted(layout, c, i)];
        && d.count == b.count && d.kind == b.kind && d.stages == b.stages
        && b.binding in Tab(c).bindings.contents
        && Tab(c).bindings.contents[b.binding] == Tab(c).place.Addr(Counted(layout, c, i))
    {
      hide Map.Valid;
      var c := ClassOf(layout[i].kind);
      assert Served(c, |layout|);
      StartIs(layout, c, i, |layout|);
      assert Tab(c).descriptors[..][Counted(layout, c, i)] == Tab(c).descriptors[Counted(layout, c, i)];
    }

    twostate lemma OtherValue(new c: Class, new b: uint32, new e: nat)
      requires old(Valid()) && Valid() && InSlice(layout, c, b, e, 1)
      requires Tab(c) != null ==> unchanged(Tab(c).descriptors)
      ensures Value(c, b, e) == old(Value(c, b, e))
    {
      hide Map.Valid, Starts, Counted, InSlice, Numbered;
      ServedTable(c, b, e, 1);
    }

    twostate lemma WrittenValue(new w: Entry, new b: uint32, new e: nat)
      requires old(Valid()) && Valid() && InSlice(layout, ClassOf(w.kind), w.binding, w.element, |w.data|)
      requires var k := ClassOf(w.kind); InSlice(layout, k, b, e, 1) && Tab(k) != null && w.binding in Starts(layout, k, |layout|)
      requires var k := ClassOf(w.kind);
        var at := Starts(layout, k, |layout|)[w.binding] + w.element;
        at + |w.data| <= Tab(k).descriptors.Length && Tab(k).descriptors[..] == Written(old(Tab(k).descriptors[..]), at, w.data, |w.data|)
      ensures Value(ClassOf(w.kind), b, e) == if Hits(w, ClassOf(w.kind), b, e) then w.data[e - w.element] else old(Value(ClassOf(w.kind), b, e))
    {
      hide Map.Valid, Starts, Counted, InSlice, Numbered;
      var k := ClassOf(w.kind);
      ServedTable(k, b, e, 1);
      HitsExactly(layout, k, w.binding, w.element, |w.data|, b, e);
      var at := Starts(layout, k, |layout|)[b] + e;
      assert Tab(k).descriptors[..][at].info == Tab(k).descriptors[at].info;
    }

    /** Writing descriptors leaves what is written about the bindings. */
    twostate lemma StillServed(new c: Class, new at: nat, new data: seq<Info>)
      requires old(Served(c, |layout|)) && Counted(layout, c, |layout|) > 0
      requires unchanged(Tab(c)) && unchanged(Tab(c).bindings) && unchanged(Tab(c).bindings.elements) && at + |data| <= Tab(c).descriptors.Length
      requires Tab(c).descriptors[..] == Written(old(Tab(c).descriptors[..]), at, data, |data|)
      ensures Served(c, |layout|)
    {
      hide Map.Valid, Starts, Table.Maps, Headed;
      HeadedWritten(old(Tab(c).descriptors[..]), at, data, layout, c, |layout|);
    }

    /** One entry of vkUpdateDescriptorSets. */
    method WriteOne(w: Entry)
      requires Valid() && InSlice(layout, ClassOf(w.kind), w.binding, w.element, |w.data|)
      modifies Parts(Images), Parts(Buffers), Parts(TexelBuffers)
      ensures Valid()
      ensures forall c: Class, b: uint32, e: nat | InSlice(layout, c, b, e, 1) ::
        Value(c, b, e) == if Hits(w, c, b, e) then w.data[e - w.element] else old(Value(c, b, e))
    {
      hide Map.Valid, Starts, Counted, InSlice, WellFormed, Table.Valid, Table.Maps, Headed, Value;
      ghost var k := ClassOf(w.kind);
      ghost var starts := Starts(layout, k, |layout|);
      ServedTable(k, w.binding, w.element, |w.data|);
      HasDescriptors(k, w.binding, w.element, |w.data|);
      ghost var at := starts[w.binding] + w.element;
      var t := Tab(ClassOf(w.kind));
      label before:
      t.Write(w.binding, w.element, w.data, starts, starts[w.binding]);
      StillServed@before(k, at, w.data);
      forall c: Class ensures Served(c, |layout|) { assert c != k ==> old(Served(c, |layout|)); }
      forall c: Class, b: uint32, e: nat | InSlice(layout, c, b, e, 1)
        ensures Value(c, b, e) == if Hits(w, c, b, e) then w.data[e - w.element] else old(Value(c, b, e))
      {
        if c == k { WrittenValue@before(w, b, e); } else { OtherValue@before(c, b, e); }
      }
    }

    lemma HasDescriptors(c: Class, b: uint32, e: nat, n: nat)
      requires Valid() && InSlice(layout, c, b, e, n)
      ensures Counted(layout, c, |layout|) > 0
    {
      StartIs(layout, c, Owned(layout, c, b), |layout|);
      assert Startable(layout, Owned(layout, c, b));
    }

    /** vkUpdateDescriptorSets: every element holds what was last written to it. */
    method Update(ws: seq<Entry>)
      requires Valid() && forall k :: 0 <= k < |ws| ==> InSlice(layout, ClassOf(ws[k].kind), ws[k].binding, ws[k].element, |ws[k].data|)
      modifies Parts(Images), Parts(Buffers), Parts(TexelBuffers)
      ensures Valid()
      ensures forall c: Class, b: uint32, e: nat | InSlice(layout, c, b, e, 1) :: Value(c, b, e) == Last(ws, c, b, e, old(Value(c, b, e)))
    {
      hide Value, InSlice, Served, Hits;
      for k := 0 to |ws|
        invariant Valid()
        invariant forall c: Class, b: uint32, e: nat | InSlice(layout, c, b, e, 1) ::
          Value(c, b, e) == Last(ws[..k], c, b, e, old(Value(c, b, e)))
      {
        assert ws[..k + 1][..k] == ws[..k];
        WriteOne(ws[k]);
      }
      assert ws[..|ws|] == ws;
    }

    /** What drawCommon finds under a binding and an array element. */
    method Lookup(c: Class, b: uint32, e: nat) returns (info: Info)
      requires Valid() && InSlice(layout, c, b, e, 1)
      ensures info == Value(c, b, e)
    {
      ServedTable(c, b, e, 1);
      ghost var starts := Starts(layout, c, |layout|);
      info := Tab(c).Lookup(b, e, starts, starts[b]);
    }
  }

  lemma SkipOther(bs: seq<Binding>, c: Class, other: Class, d: nat)
    requires d < |bs| && Of(bs[d], c) && other != c
    ensures Starts(bs, other, d + 1) == Starts(bs, other, d)
  {
  }

  lemma NextStart(bs: seq<Binding>, c: Class, d: nat)
    requires d < |bs| && Of(bs[d], c)
    ensures Starts(bs, c, d + 1) == Starts(bs, c, d)[bs[d].binding := Counted(bs, c, d)]
  {
  }
}
