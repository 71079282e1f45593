/** Which slice of a descriptor set's arrays each binding of a layout gets:
    vkAllocateDescriptorSets of driver/descriptorSet.c. */
module DescriptorLayout {
  import opened Bytes

  datatype DescriptorType =
    | Sampler | CombinedImageSampler | SampledImage | StorageImage | InputAttachment
    | UniformBuffer | StorageBuffer | UniformBufferDynamic | StorageBufferDynamic
    | UniformTexelBuffer | StorageTexelBuffer

  /** The array a descriptor goes into. */
  datatype Class = Images | Buffers | TexelBuffers

  function ClassOf(t: DescriptorType): (c: Class) {
    match t
    case Sampler => Images
    case CombinedImageSampler => Images
    case SampledImage => Images
    case StorageImage => Images
    case InputAttachment => Images
    case UniformBuffer => Buffers
    case StorageBuffer => Buffers
    case UniformBufferDynamic => Buffers
    case StorageBufferDynamic => Buffers
    case UniformTexelBuffer => TexelBuffers
    case StorageTexelBuffer => TexelBuffers
  }

  /** A descriptor goes where its part of VkWriteDescriptorSet is read from. */
  lemma ClassesAre(t: DescriptorType)
    ensures ClassOf(t) == Images <==> t in {Sampler, CombinedImageSampler, SampledImage, StorageImage, InputAttachment}
    ensures ClassOf(t) == Buffers <==> t in {UniformBuffer, StorageBuffer, UniformBufferDynamic, StorageBufferDynamic}
    ensures ClassOf(t) == TexelBuffers <==> t in {UniformTexelBuffer, StorageTexelBuffer}
  {
  }

  datatype Binding = Binding(binding: uint32, kind: DescriptorType, count: nat, stages: nat)

  predicate Of(b: Binding, c: Class) { ClassOf(b.kind) == c }

  /** The descriptors of class c among the first n bindings. */
  function Counted(bs: seq<Binding>, c: Class, n: nat): (k: nat)
    requires n <= |bs|
  {
    if n == 0 then 0 else Counted(bs, c, n - 1) + (if Of(bs[n - 1], c) then bs[n - 1].count else 0)
  }

  /** Where the slices of the first n bindings start. */
  function Starts(bs: seq<Binding>, c: Class, n: nat): (m: map<uint32, nat>)
    requires n <= |bs|
  {
    if n == 0 then map[]
    else if Of(bs[n - 1], c) then Starts(bs, c, n - 1)[bs[n - 1].binding := Counted(bs, c, n - 1)]
    else Starts(bs, c, n - 1)
  }

  /** Binding i can be given a slice: its first descriptor lies in the array, and the
      map, which is as large as the array, has a free slot for it. */
  predicate Startable(bs: seq<Binding>, i: nat)
    requires i < |bs|
  {
    var c := ClassOf(bs[i].kind);
    Counted(bs, c, i) < Counted(bs, c, |bs|) && |Starts(bs, c, i)| < Counted(bs, c, |bs|)
  }

  ghost predicate Numbered(bs: seq<Binding>) {
    forall i, j :: 0 <= i < j < |bs| ==> bs[i].binding != bs[j].binding
  }

  /** Binding numbers are distinct, and there is room for all bindings. */
  ghost predicate WellFormed(bs: seq<Binding>) {
    Numbered(bs) && forall i :: 0 <= i < |bs| ==> Startable(bs, i)
  }

  /** Binding i has class c, and element e of it is place k of the class's array. */
  ghost predicate Places(bs: seq<Binding>, c: Class, i: nat, e: nat, k: nat)
    requires i < |bs|
  {
    Of(bs[i], c) && e < bs[i].count && bs[i].binding in Starts(bs, c, |bs|) && k == Starts(bs, c, |bs|)[bs[i].binding] + e
  }

  /** A binding starts where the descriptors of those before it end. */
  lemma {:induction false} StartIs(bs: seq<Binding>, c: Class, i: nat, n: nat)
    requires Numbered(bs) && i < n <= |bs| && Of(bs[i], c)
    ensures bs[i].binding in Starts(bs, c, n) && Starts(bs, c, n)[bs[i].binding] == Counted(bs, c, i)
    ensures Counted(bs, c, i) + bs[i].count <= Counted(bs, c, n)
    decreases n
  {
    if i < n - 1 {
      StartIs(bs, c, i, n - 1);
    }
  }

  lemma {:induction false} OnlyThoseStart(bs: seq<Binding>, c: Class, n: nat, b: uint32)
    requires n <= |bs| && b in Starts(bs, c, n)
    ensures exists i :: 0 <= i < n && Of(bs[i], c) && bs[i].binding == b
    decreases n
  {
    if !(Of(bs[n - 1], c) && bs[n - 1].binding == b) { OnlyThoseStart(bs, c, n - 1, b); }
  }

  lemma NotYetStarted(bs: seq<Binding>, c: Class, n: nat)
    requires n < |bs| && forall i :: 0 <= i < n ==> bs[i].binding != bs[n].binding
    ensures bs[n].binding !in Starts(bs, c, n)
  {
    if bs[n].binding in Starts(bs, c, n) { OnlyThoseStart(bs, c, n, bs[n].binding); }
  }

  /** How many of the first n bindings have class c. */
  function Members(bs: seq<Binding>, c: Class, n: nat): (k: nat)
    requires n <= |bs|
  {
    if n == 0 then 0 else Members(bs, c, n - 1) + (if Of(bs[n - 1], c) then 1 else 0)
  }

  /** A binding of class c with descriptors comes at i or behind it. */
  ghost predicate MoreBehind(bs: seq<Binding>, c: Class, i: nat) {
    exists j :: i <= j < |bs| && Of(bs[j], c) && bs[j].count > 0
  }

  /** No binding is an empty one at the end of its class, and no class has more
      bindings than descriptors. */
  ghost predicate Roomy(bs: seq<Binding>) {
    && (forall i :: 0 <= i < |bs| ==> MoreBehind(bs, ClassOf(bs[i].kind), i))
    && (forall c: Class :: Members(bs, c, |bs|) <= Counted(bs, c, |bs|))
  }

  /** With distinct numbers, that is exactly when there is room for all bindings. */
  lemma RoomExactly(bs: seq<Binding>)
    requires Numbered(bs)
    ensures WellFormed(bs) <==> Roomy(bs)
  {
    hide Startable, MoreBehind;
    if WellFormed(bs) {
      forall i | 0 <= i < |bs| ensures MoreBehind(bs, ClassOf(bs[i].kind), i) {
        assert Startable(bs, i);
        PlaceExactly(bs, i);
      }
      forall c: Class ensures Members(bs, c, |bs|) <= Counted(bs, c, |bs|) { MembersFit(bs, c, |bs|); }
    }
    if Roomy(bs) {
      forall i | 0 <= i < |bs| ensures Startable(bs, i) {
        var c := ClassOf(bs[i].kind);
        PlaceExactly(bs, i);
        MembersGrow(bs, c, i + 1, |bs|);
        assert Of(bs[i], c) && Members(bs, c, |bs|) <= Counted(bs, c, |bs|);
      }
    }
  }

  /** Bindings that all have descriptors always find room. */
  lemma PositiveCountsSuffice(bs: seq<Binding>)
    requires Numbered(bs) && forall i :: 0 <= i < |bs| ==> bs[i].count > 0
    ensures WellFormed(bs)
  {
    forall c: Class ensures Members(bs, c, |bs|) <= Counted(bs, c, |bs|) { MembersFew(bs, c, |bs|); }
    RoomExactly(bs);
  }

  lemma {:induction false} MembersFew(bs: seq<Binding>, c: Class, n: nat)
    requires n <= |bs| && forall i :: 0 <= i < |bs| ==> bs[i].count > 0
    ensures Members(bs, c, n) <= Counted(bs, c, n)
  {
    if n > 0 { MembersFew(bs, c, n - 1); }
  }

  lemma CountedTwo(bs: seq<Binding>, c: Class)
    requires |bs| == 2
    ensures Members(bs, c, 2) == (if Of(bs[0], c) then 1 else 0) + (if Of(bs[1], c) then 1 else 0)
    ensures Counted(bs, c, 2) == (if Of(bs[0], c) then bs[0].count else 0) + (if Of(bs[1], c) then bs[1].count else 0)
  {
    assert Members(bs, c, 1) == Members(bs, c, 0) + (if Of(bs[0], c) then 1 else 0);
    assert Counted(bs, c, 1) == Counted(bs, c, 0) + (if Of(bs[0], c) then bs[0].count else 0);
  }

  /** An empty binding is harmless in front of the others of its class, but behind
      them its description would be written beyond the array. */
  lemma ReservedBindingFails(other: Binding, number: uint32, kind: DescriptorType, stages: nat)
    requires ClassOf(kind) == ClassOf(other.kind) && number != other.binding
    ensures !WellFormed([other, Binding(number, kind, 0, stages)])
    ensures WellFormed([Binding(number, kind, 0, stages), other]) <==> other.count >= 2
  {
    var empty, c := Binding(number, kind, 0, stages), ClassOf(kind);
    var behind, front := [other, empty], [empty, other];
    assert !MoreBehind(behind, c, 1);
    assert Of(behind[1], c);
    RoomExactly(behind);
    CountedTwo(front, c);
    if other.count >= 2 {
      forall d: Class ensures Members(front, d, 2) <= Counted(front, d, 2) { CountedTwo(front, d); }
      assert MoreBehind(front, c, 0) && MoreBehind(front, c, 1) by { assert Of(front[1], c); }
    }
    RoomExactly(front);
  }

  /** What startable means for one binding. */
  lemma PlaceExactly(bs: seq<Binding>, i: nat)
    requires Numbered(bs) && i < |bs|
    ensures var c := ClassOf(bs[i].kind);
      Startable(bs, i) <==> MoreBehind(bs, c, i) && Members(bs, c, i) < Counted(bs, c, |bs|)
  {
    var c := ClassOf(bs[i].kind);
    StartsCounted(bs, c, i);
    CountedBehind(bs, c, i, |bs|);
  }

  lemma {:induction false} StartsCounted(bs: seq<Binding>, c: Class, n: nat)
    requires Numbered(bs) && n <= |bs|
    ensures |Starts(bs, c, n)| == Members(bs, c, n)
  {
    if n > 0 {
      StartsCounted(bs, c, n - 1);
      NotYetStarted(bs, c, n - 1);
    }
  }

  lemma {:induction false} CountedBehind(bs: seq<Binding>, c: Class, i: nat, n: nat)
    requires i <= n <= |bs|
    ensures Counted(bs, c, i) <= Counted(bs, c, n)
    ensures Counted(bs, c, i) < Counted(bs, c, n) <==> exists j :: i <= j < n && Of(bs[j], c) && bs[j].count > 0
    decreases n
  {
    if i < n { CountedBehind(bs, c, i, n - 1); }
  }

  lemma {:induction false} MembersGrow(bs: seq<Binding>, c: Class, m: nat, n: nat)
    requires m <= n <= |bs|
    ensures Members(bs, c, m) <= Members(bs, c, n)
    decreases n
  {
    if m < n { MembersGrow(bs, c, m, n - 1); }
  }

  lemma {:induction false} MembersFit(bs: seq<Binding>, c: Class, n: nat)
    requires WellFormed(bs) && n <= |bs|
    ensures Members(bs, c, n) <= Counted(bs, c, |bs|)
  {
    hide Startable, MoreBehind;
    if n > 0 {
      MembersFit(bs, c, n - 1);
      assert Startable(bs, n - 1);
      PlaceExactly(bs, n - 1);
    }
  }

  /** Two places are the same only if binding and element are. */
  lemma SlicesDisjoint(bs: seq<Binding>, c: Class, i: nat, e: nat, j: nat, f: nat, k: nat)
    requires Numbered(bs) && i < |bs| && j < |bs| && Places(bs, c, i, e, k) && Places(bs, c, j, f, k)
    ensures i == j && e == f
  {
    StartIs(bs, c, i, |bs|);
    StartIs(bs, c, j, |bs|);
    if i < j {
      StartIs(bs, c, i, j);
    } else if j < i {
      StartIs(bs, c, j, i);
    }
  }

  /** Every place of the array belongs to some binding, and none is beyond it. */
  lemma SlicesCover(bs: seq<Binding>, c: Class, k: nat)
    requires Numbered(bs)
    ensures k < Counted(bs, c, |bs|) <==> exists i, e :: 0 <= i < |bs| && 0 <= e && Places(bs, c, i, e, k)
  {
    if k < Counted(bs, c, |bs|) {
      var i := Owner(bs, c, |bs|, k);
      StartIs(bs, c, i, |bs|);
      assert Places(bs, c, i, k - Counted(bs, c, i), k);
    }
    forall i, e | 0 <= i < |bs| && 0 <= e && Places(bs, c, i, e, k) ensures k < Counted(bs, c, |bs|) {
      StartIs(bs, c, i, |bs|);
    }
  }

  lemma {:induction false} Owner(bs: seq<Binding>, c: Class, n: nat, k: nat) returns (i: nat)
    requires n <= |bs| && k < Counted(bs, c, n)
    ensures i < n && Of(bs[i], c) && Counted(bs, c, i) <= k < Counted(bs, c, i) + bs[i].count
    decreases n
  {
    if k < Counted(bs, c, n - 1) { i := Owner(bs, c, n - 1, k); } else { i := n - 1; }
  }

  /** The binding b of class c. */
  ghost function Owned(bs: seq<Binding>, c: Class, b: uint32): (i: nat)
    requires b in Starts(bs, c, |bs|)
    ensures i < |bs| && Of(bs[i], c) && bs[i].binding == b
  {
    OnlyThoseStart(bs, c, |bs|, b);
    var i :| 0 <= i < |bs| && Of(bs[i], c) && bs[i].binding == b;
    i
  }

  /** Binding b of class c has n elements from e on. */
  ghost predicate InSlice(bs: seq<Binding>, c: Class, b: uint32, e: nat, n: nat) {
    b in Starts(bs, c, |bs|) && e + n <= bs[Owned(bs, c, b)].count
  }

  lemma InSliceIsInArray(bs: seq<Binding>, c: Class, b: uint32, e: nat, n: nat)
    requires Numbered(bs) && InSlice(bs, c, b, e, n)
    ensures Starts(bs, c, |bs|)[b] + e + n <= Counted(bs, c, |bs|)
  {
    StartIs(bs, c, Owned(bs, c, b), |bs|);
  }

  /** Elements of slices overlap in the array only if they are the same. */
  lemma HitsExactly(bs: seq<Binding>, c: Class, a: uint32, first: nat, n: nat, b: uint32, e: nat)
    requires Numbered(bs) && InSlice(bs, c, a, first, n) && InSlice(bs, c, b, e, 1)
    ensures var starts := Starts(bs, c, |bs|);
      starts[a] + first <= starts[b] + e < starts[a] + first + n <==> a == b && first <= e < first + n
  {
    var starts := Starts(bs, c, |bs|);
    var k := starts[b] + e;
    if starts[a] + first <= k < starts[a] + first + n {
      var i, j := Owned(bs, c, a), Owned(bs, c, b);
      assert Places(bs, c, i, k - starts[a], k) && Places(bs, c, j, e, k);
      SlicesDisjoint(bs, c, i, k - starts[a], j, e, k);
    }
  }
}
