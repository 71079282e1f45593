/** What driver/ConsecutivePoolAllocator.c does to the list of free blocks,
    as functions on block numbers. The class in ConsecutivePool.dfy, which
    follows links through bytes, is proved to do exactly this; the properties
    of whole runs are proved here. */
module ConsecutiveSpec {
  import opened Bytes
  import opened FreeList
  import opened Seqs

  /** free: the free list in link order; live: the blocks callers hold;
      numFree: the 32-bit counter the allocator keeps beside the list. */
  datatype PoolState = PoolState(free: seq<nat>, live: set<nat>, numFree: uint32)

  // 32-bit counter arithmetic
  function Sub32(a: uint32, b: nat): (r: uint32) { (a - b) % 0x1_0000_0000 }
  function Add32(a: uint32, b: nat): (r: uint32) { (a + b) % 0x1_0000_0000 }

  // ---------------------------------------------------------------- allocate

  /** Positions i, ..., i + n - 1 of the list are n address-consecutive blocks. */
  predicate RunAt(free: seq<nat>, i: nat, n: nat) {
    i + n <= |free| && forall j :: i <= j < i + n ==> free[j] == free[i] + (j - i)
  }

  /** The earliest position from i on where a run of n blocks starts. */
  function FirstFit(free: seq<nat>, n: nat, i: nat): (r: Option<nat>)
    requires n > 0 && i <= |free|
    ensures r.None? <==> forall j :: i <= j ==> !RunAt(free, j, n)
    ensures r.Some? ==> i <= r.value && RunAt(free, r.value, n)
    ensures r.Some? ==> forall j :: i <= j < r.value ==> !RunAt(free, j, n)
    decreases |free| - i
  {
    if i == |free| then None
    else if RunAt(free, i, n) then Some(i)
    else FirstFit(free, n, i + 1)
  }

  function WithoutRun(free: seq<nat>, i: nat, n: nat): (r: seq<nat>)
    requires i + n <= |free|
  {
    free[..i] + free[i + n..]
  }

  ghost function Allocate(s: PoolState, n: nat): (r: (PoolState, Option<nat>))
    requires n > 0
  {
    match FirstFit(s.free, n, 0)
    case None => (s, None)
    case Some(i) =>
      var b := s.free[i];
      (PoolState(WithoutRun(s.free, i, n), s.live + Run(b, n), Sub32(s.numFree, n)), Some(b))
  }

  // -------------------------------------------------------------------- free

  /** The list after the run b, ..., b + n - 1 has been given back: spliced in
      behind block b - 1 when that one is free, put in front otherwise. */
  function WithRun(free: seq<nat>, b: nat, n: nat): (r: seq<nat>)
  {
    var i := IndexOf<int>(free, b - 1);
    if i < |free| then free[..i + 1] + RunSeq(b, n) + free[i + 1..]
    else RunSeq(b, n) + free
  }

  ghost function Release(s: PoolState, b: nat, n: nat): (r: PoolState)
  {
    PoolState(WithRun(s.free, b, n), s.live - Run(b, n), Add32(s.numFree, n))
  }

  // -------------------------------------------------------------- reallocate

  /** The guard of the in-place path: at most one more block is asked for and
      the block behind the current ones is on the free list. */
  predicate GrowsInPlace(free: seq<nat>, b: nat, n: nat, newN: nat)
  {
    0 <= newN - n < 2 && b + n in free
  }

  /** What the in-place path leaves of the list when it takes position k: the
      head is moved to the predecessor, or to the successor when there is no
      predecessor, or not at all when there is neither. */
  function TakenInPlace(free: seq<nat>, k: nat): (r: seq<nat>)
    requires k < |free|
  {
    if k > 0 then [free[k - 1]] + free[k + 1..]
    else if |free| > 1 then free[1..]
    else free
  }

  ghost function Reallocate(s: PoolState, b: nat, n: nat, newN: nat): (r: (PoolState, Option<nat>))
    requires 0 < n <= newN
  {
    if GrowsInPlace(s.free, b, n, newN) then
      (PoolState(TakenInPlace(s.free, IndexOf(s.free, b + n)), s.live + Run(b, newN), Sub32(s.numFree, 1)), Some(b))
    else
      var (t, got) := Allocate(s, newN);
      if got.None? then (s, None)
      else (Release(t.(numFree := Sub32(t.numFree, newN - n)), b, n), got)
  }

  // -------------------------------------------------------------- invariants

  /** Every block of the pool is either on the free list or live, not both. */
  ghost predicate Partition(s: PoolState, count: nat) {
    forall b: nat :: (b < count <==> b in s.free || b in s.live) && !(b in s.free && b in s.live)
  }

  ghost predicate WellFormed(s: PoolState, count: nat) {
    Distinct(s.free) && Partition(s, count) && s.numFree == |s.free|
  }

  /** No live block is on the free list, and the list repeats no block. This
      is what a second allocation needs in order not to hand out live memory. */
  ghost predicate Safe(s: PoolState, count: nat) {
    && Distinct(s.free)
    && (forall b :: b in s.free ==> b < count && b !in s.live)
    && (forall b :: b in s.live ==> b < count)
  }

  /** A freshly created pool. */
  ghost function Created(count: nat): (s: PoolState)
    requires count < 0x1_0000_0000
    ensures WellFormed(s, count) && s.live == {}
  {
    var s := PoolState(RunSeq(0, count), {}, count);
    assert Partition(s, count) by {
      forall b: nat ensures b < count <==> b in s.free {
        if b < count { assert s.free[b] == b; }
      }
    }
    s
  }

  /** Taking out a run keeps the rest of the list, in order and without repeats. */
  lemma WithoutRunElements(free: seq<nat>, i: nat, n: nat)
    requires Distinct(free) && n > 0 && RunAt(free, i, n)
    ensures Distinct(WithoutRun(free, i, n))
    ensures forall b :: b in WithoutRun(free, i, n) <==> b in free && b !in Run(free[i], n)
    ensures forall b :: b in Run(free[i], n) ==> b in free
  {
    var r := WithoutRun(free, i, n);
    forall b | b in Run(free[i], n) ensures b in free && b !in r {
      assert free[i + (b - free[i])] == b;
    }
    forall b | b in free && b !in Run(free[i], n) ensures b in r {
      var j :| 0 <= j < |free| && free[j] == b;
      if j < i {
        assert r[j] == b;
      } else if i + n <= j {
        assert r[j - n] == b;
      }
    }
    forall j, k | 0 <= j < k < |r| ensures r[j] != r[k] {
      assert r[j] == free[if j < i then j else j + n];
      assert r[k] == free[if k < i then k else k + n];
    }
  }

  /** Where the returned run goes, and what stands at each position then. */
  lemma WithRunPositions(free: seq<nat>, b: nat, n: nat) returns (at: nat)
    ensures Inserted(free, at, b, n, WithRun(free, b, n))
    ensures at > 0 ==> free[at - 1] + 1 == b
    ensures at == 0 ==> forall j :: 0 <= j < |free| ==> free[j] + 1 != b
    ensures WithRun(free, b, n) == free[..at] + RunSeq(b, n) + free[at..]
  {
    hide IndexOf, RunSeq;
    var i := IndexOf<int>(free, b - 1);
    at := if i < |free| then i + 1 else 0;
    assert i == |free| ==> free[..0] + RunSeq(b, n) + free[0..] == RunSeq(b, n) + free;
  }

  /** r is the list free with the run b, ..., b + n - 1 inserted at position at. */
  ghost predicate Inserted(free: seq<nat>, at: nat, b: nat, n: nat, r: seq<nat>) {
    && at <= |free| && |r| == |free| + n
    && (forall j :: 0 <= j < at ==> r[j] == free[j])
    && (forall j :: at <= j < at + n ==> r[j] == b + (j - at))
    && (forall j :: at + n <= j < |r| ==> r[j] == free[j - n])
  }

  lemma InsertedElements(free: seq<nat>, at: nat, b: nat, n: nat, r: seq<nat>)
    requires Inserted(free, at, b, n, r)
    ensures forall c :: c in r <==> c in free || c in Run(b, n)
  {
    forall c | c in Run(b, n) ensures c in r {
      assert r[at + (c - b)] == c;
    }
    forall c | c in free ensures c in r {
      var j :| 0 <= j < |free| && free[j] == c;
      assert r[if j < at then j else j + n] == c;
    }
  }

  lemma InsertedDistinct(free: seq<nat>, at: nat, b: nat, n: nat, r: seq<nat>)
    requires Inserted(free, at, b, n, r) && Distinct(free)
    requires forall c :: c in Run(b, n) ==> c !in free
    ensures Distinct(r)
  {
    forall j, k | 0 <= j < k < |r| ensures r[j] != r[k] {
      if at <= j < at + n { assert r[j] in Run(b, n); }
      if at <= k < at + n { assert r[k] in Run(b, n); }
    }
  }

  lemma WithRunElements(free: seq<nat>, b: nat, n: nat)
    requires Distinct(free) && n > 0
    requires forall c :: c in Run(b, n) ==> c !in free
    ensures Distinct(WithRun(free, b, n))
    ensures forall c :: c in WithRun(free, b, n) <==> c in free || c in Run(b, n)
  {
    var at := WithRunPositions(free, b, n);
    InsertedElements(free, at, b, n, WithRun(free, b, n));
    InsertedDistinct(free, at, b, n, WithRun(free, b, n));
  }

  /** An allocated run comes off the list; nothing joins the list. */
  lemma AllocatedElements(s: PoolState, n: nat)
    requires n > 0 && Distinct(s.free)
    ensures var (t, got) := Allocate(s, n);
      && (forall b :: b in t.free ==> b in s.free) && Distinct(t.free)
      && (got.Some? ==> forall b :: b in Run(got.value, n) ==> b in s.free && b !in t.free)
  {
    var f := FirstFit(s.free, n, 0);
    if f.Some? {
      WithoutRunElements(s.free, f.value, n);
    }
  }

  lemma AllocateKeeps(s: PoolState, n: nat, count: nat)
    requires n > 0 && Safe(s, count)
    ensures Safe(Allocate(s, n).0, count)
    ensures Partition(s, count) ==> Partition(Allocate(s, n).0, count)
    ensures WellFormed(s, count) ==> WellFormed(Allocate(s, n).0, count)
    ensures var got := Allocate(s, n).1;
      got.Some? ==> Run(got.value, n) !! s.live && forall b :: b in Run(got.value, n) ==> b in s.free
  {
    var f := FirstFit(s.free, n, 0);
    if f.Some? {
      WithoutRunElements(s.free, f.value, n);
    }
  }

  lemma ReleaseKeeps(s: PoolState, b: nat, n: nat, count: nat)
    requires n > 0 && Run(b, n) <= s.live && Safe(s, count)
    ensures Safe(Release(s, b, n), count)
    ensures Partition(s, count) ==> Partition(Release(s, b, n), count)
  {
    WithRunElements(s.free, b, n);
  }

  lemma ReleaseCounts(s: PoolState, b: nat, n: nat)
    requires s.numFree == |s.free| && |s.free| + n < 0x1_0000_0000
    ensures Release(s, b, n).numFree == |Release(s, b, n).free|
  {
    var at := WithRunPositions(s.free, b, n);
  }

  /** A list without repeats of blocks below count is no longer than count. */
  lemma {:induction false} FreeBound(free: seq<nat>, count: nat)
    requires Distinct(free) && forall b :: b in free ==> b < count
    ensures |free| <= count
  {
    if free != [] {
      assert free[0] in free;
      var k := IndexOf<int>(free, count - 1);
      if k < |free| {
        var r := free[..k] + free[k + 1..];
        forall j | 0 <= j < |r| ensures r[j] == free[if j < k then j else j + 1] && r[j] < count - 1 {
          assert free[if j < k then j else j + 1] in free;
        }
        FreeBound(r, count - 1);
      } else {
        FreeBound(free, count - 1);
      }
    }
  }

  /** Handing a run back never makes the list longer than the pool. */
  lemma ReleaseFits(s: PoolState, b: nat, n: nat, count: nat)
    requires n > 0 && Run(b, n) <= s.live && Safe(s, count)
    ensures |WithRun(s.free, b, n)| == |s.free| + n <= count
  {
    WithRunElements(s.free, b, n);
    var at := WithRunPositions(s.free, b, n);
    FreeBound(WithRun(s.free, b, n), count);
  }

  // ------------------------------------- exactly when reallocation is sound

  /** The in-place path keeps the partition only if it really takes the block
      it hands out and drops no other: the block must be first or second on
      the list, and not alone on it. */
  predicate TakesCleanly(free: seq<nat>, b: nat, n: nat, newN: nat)
  {
    var k := IndexOf(free, b + n);
    newN == n + 1 && (k == 1 || (k == 0 && |free| > 1))
  }

  lemma TakenElements(free: seq<nat>, k: nat)
    requires k < |free| && Distinct(free)
    ensures Distinct(TakenInPlace(free, k))
    ensures forall c :: c in TakenInPlace(free, k) ==> c in free
    ensures forall c :: c in TakenInPlace(free, k) && |free| > 1 ==> c != free[k]
    ensures (k == 0 && |free| > 1) || k == 1 ==> forall c :: c in free && c != free[k] ==> c in TakenInPlace(free, k)
    ensures k > 1 ==> free[0] !in TakenInPlace(free, k)
  {
    var r := TakenInPlace(free, k);
    if k > 0 {
      assert forall j :: 0 <= j < |r| ==> r[j] == free[k + j - (if j == 0 then 1 else 0)];
      forall c | c in free && c != free[k] && k == 1 ensures c in r {
        var j :| 0 <= j < |free| && free[j] == c;
        assert r[if j == 0 then 0 else j - 1] == c;
      }
    } else if |free| > 1 {
      assert forall j :: 0 <= j < |r| ==> r[j] == free[j + 1];
      forall c | c in free && c != free[0] ensures c in r {
        var j :| 0 <= j < |free| && free[j] == c;
        assert r[j - 1] == c;
      }
    }
  }

  /** In place: partition kept if and only if the block is taken cleanly; the
      counter agrees with the list in the same cases; and live memory stays off
      the list if and only if the taken block was not alone on it. */
  lemma GrowInPlaceExact(s: PoolState, b: nat, n: nat, newN: nat, count: nat)
    requires 0 < n < newN && Distinct(s.free) && Partition(s, count) && Run(b, n) <= s.live
    requires GrowsInPlace(s.free, b, n, newN) && count < 0x1_0000_0000
    ensures var t := Reallocate(s, b, n, newN).0;
      && Distinct(t.free)
      && (Partition(t, count) <==> TakesCleanly(s.free, b, n, newN))
      && (Safe(t, count) <==> |s.free| > 1)
      && (s.numFree == |s.free| ==> (t.numFree == |t.free| <==> TakesCleanly(s.free, b, n, newN)))
  {
    var k := IndexOf(s.free, b + n);
    var t := Reallocate(s, b, n, newN).0;
    TakenElements(s.free, k);
    assert s.free[k] == b + n && b + n in Run(b, newN);
    forall c | c in s.free ensures c < count {}
    FreeBound(s.free, count);
    if k > 1 {
      assert s.free[0] in s.free && s.free[0] !in t.free && s.free[0] !in t.live;
    }
  }

  /** Moving: the partition is kept whatever the sizes, and the request fails, and
      changes nothing, if and only if no run on the list is long enough. The counter
      is right afterwards in the same cases: otherwise the growth has been subtracted
      from it twice. */
  lemma MoveExact(s: PoolState, b: nat, n: nat, newN: nat, count: nat)
    requires 0 < n < newN < 0x1_0000_0000 && count < 0x1_0000_0000
    requires Distinct(s.free) && Partition(s, count) && Run(b, n) <= s.live
    requires !GrowsInPlace(s.free, b, n, newN)
    ensures var (t, got) := Reallocate(s, b, n, newN);
      && Distinct(t.free) && Partition(t, count)
      && (got.None? <==> forall j: nat :: !RunAt(s.free, j, newN))
      && (got.None? ==> t == s)
      && (got.Some? ==> Run(got.value, newN) !! s.live && t.live == s.live - Run(b, n) + Run(got.value, newN))
      && (s.numFree == |s.free| ==> (t.numFree == |t.free| <==> forall j: nat :: !RunAt(s.free, j, newN)))
  {
    AllocateKeeps(s, newN, count);
    var (u, got) := Allocate(s, newN);
    if got.Some? {
      MovedPartition(u, b, n, newN, count);
      if s.numFree == |s.free| { MoveCounts(s, b, n, newN); }
    }
  }

  lemma MovedPartition(u: PoolState, b: nat, n: nat, newN: nat, count: nat)
    requires 0 < n < newN < 0x1_0000_0000 && count < 0x1_0000_0000
    requires Distinct(u.free) && Partition(u, count) && Run(b, n) <= u.live
    ensures var t := Release(u.(numFree := Sub32(u.numFree, newN - n)), b, n);
      Distinct(t.free) && Partition(t, count) && |t.free| <= count
  {
    var v := u.(numFree := Sub32(u.numFree, newN - n));
    ReleaseFits(v, b, n, count);
    ReleaseKeeps(v, b, n, count);
  }

  /** The counter after a move of n blocks to newN, against the list's length. */
  lemma CounterAfterMove(f: uint32, n: uint32, newN: uint32)
    requires 0 < n < newN <= f && f - newN + n < 0x1_0000_0000
    ensures Add32(Sub32(Sub32(f, newN), newN - n), n) != f - newN + n
  {
    assert Sub32(f, newN) == f - newN;
    var d := f - newN - (newN - n);
    assert Sub32(f - newN, newN - n) == if d >= 0 then d else d + 0x1_0000_0000;
  }

  lemma MoveCounts(s: PoolState, b: nat, n: nat, newN: nat)
    requires 0 < n < newN < 0x1_0000_0000 && !GrowsInPlace(s.free, b, n, newN)
    requires Allocate(s, newN).1.Some? && s.numFree == |s.free|
    requires |WithRun(Allocate(s, newN).0.free, b, n)| < 0x1_0000_0000
    ensures var t := Reallocate(s, b, n, newN).0; t.numFree != |t.free|
  {
    var v := Allocate(s, newN).0;
    var at := WithRunPositions(v.free, b, n);
    assert |v.free| == |s.free| - newN;
    CounterAfterMove(|s.free|, n, newN);
  }

  /** Growth that succeeds and does not take the pool's last free block. */
  ghost predicate GrowsSoundly(s: PoolState, b: nat, n: nat, newN: nat)
    requires 0 < n <= newN
  {
    if GrowsInPlace(s.free, b, n, newN) then |s.free| > 1
    else Reallocate(s, b, n, newN).1.Some?
  }

  /** After sound growth the grown run consists of its old blocks and formerly
      free ones, is off the list, and all other live blocks stay live; only the
      caller's own old blocks can join the list. */
  lemma GrownBlocks(s: PoolState, b: nat, n: nat, newN: nat)
    requires 0 < n < newN && Distinct(s.free) && GrowsSoundly(s, b, n, newN)
    requires forall c :: c in Run(b, n) ==> c in s.live && c !in s.free
    ensures var (t, got) := Reallocate(s, b, n, newN);
      && got.Some? && Distinct(t.free)
      && (forall c :: c in Run(got.value, newN) ==> (c in s.free || c in Run(b, n)) && c in t.live && c !in t.free)
      && (forall c :: c in t.free ==> c in s.free || c in Run(b, n))
      && s.live - Run(b, n) <= t.live
  {
    if GrowsInPlace(s.free, b, n, newN) {
      TakenElements(s.free, IndexOf(s.free, b + n));
      assert forall c :: c in Run(b, newN) ==> c in Run(b, n) || c == b + n;
    } else {
      AllocatedElements(s, newN);
      var (u, got) := Allocate(s, newN);
      WithRunElements(u.free, b, n);
    }
  }

  // -------------------------------------------------------------- whole runs

  datatype Op = Allocates(n: nat) | Releases(b: nat, n: nat) | Grows(b: nat, n: nat, newN: nat)

  /** Callers ask for at least one block and give back or grow what they hold. */
  ghost predicate Legal(s: PoolState, op: Op) {
    match op
    case Allocates(n) => n > 0
    case Releases(b, n) => n > 0 && Run(b, n) <= s.live
    case Grows(b, n, newN) => 0 < n < newN < 0x1_0000_0000 && Run(b, n) <= s.live
  }

  ghost function Apply(s: PoolState, op: Op): (t: PoolState)
    requires Legal(s, op)
  {
    match op
    case Allocates(n) => Allocate(s, n).0
    case Releases(b, n) => Release(s, b, n)
    case Grows(b, n, newN) => Reallocate(s, b, n, newN).0
  }

  ghost predicate LegalRun(s: PoolState, ops: seq<Op>)
    decreases |ops|
  {
    ops == [] || (Legal(s, ops[0]) && LegalRun(Apply(s, ops[0]), ops[1..]))
  }

  ghost function After(s: PoolState, ops: seq<Op>): (t: PoolState)
    requires LegalRun(s, ops)
    decreases |ops|
  {
    if ops == [] then s else After(Apply(s, ops[0]), ops[1..])
  }

  ghost predicate CleanGrowth(s: PoolState, op: Op) {
    op.Grows? && GrowsInPlace(s.free, op.b, op.n, op.newN) ==> TakesCleanly(s.free, op.b, op.n, op.newN)
  }

  /** Growth meets its in-place path, in the run, only on blocks it takes cleanly. */
  ghost predicate CleanRun(s: PoolState, ops: seq<Op>)
    requires LegalRun(s, ops)
    decreases |ops|
  {
    ops == [] ||
    (CleanGrowth(s, ops[0]) && CleanRun(Apply(s, ops[0]), ops[1..]))
  }

  /** Over every run of allocations and releases from a created pool, in any
      order and of any sizes, free and live blocks partition the pool, the list
      repeats no block and the counter is its length. */
  lemma {:induction false} AllocateReleaseRun(s: PoolState, ops: seq<Op>, count: nat)
    requires count < 0x1_0000_0000 && WellFormed(s, count) && LegalRun(s, ops)
    requires forall op :: op in ops ==> !op.Grows?
    ensures WellFormed(After(s, ops), count)
    decreases |ops|
  {
    if ops != [] {
      assert ops[0] in ops;
      match ops[0] {
        case Allocates(n) => AllocateKeeps(s, n, count);
        case Releases(b, n) => ReleaseFits(s, b, n, count); ReleaseKeeps(s, b, n, count); ReleaseCounts(s, b, n);
      }
      AllocateReleaseRun(Apply(s, ops[0]), ops[1..], count);
    }
  }

  /** With growth as well, the partition survives every run whose in-place
      growths are clean. */
  lemma {:induction false} CleanRunPartition(s: PoolState, ops: seq<Op>, count: nat)
    requires count < 0x1_0000_0000 && Distinct(s.free) && Partition(s, count)
    requires LegalRun(s, ops) && CleanRun(s, ops)
    ensures Distinct(After(s, ops).free) && Partition(After(s, ops), count)
    decreases |ops|
  {
    if ops != [] {
      match ops[0] {
        case Allocates(n) => AllocateKeeps(s, n, count);
        case Releases(b, n) => ReleaseFits(s, b, n, count); ReleaseKeeps(s, b, n, count);
        case Grows(b, n, newN) =>
          if GrowsInPlace(s.free, b, n, newN) {
            GrowInPlaceExact(s, b, n, newN, count);
          } else {
            MoveExact(s, b, n, newN, count);
          }
      }
      CleanRunPartition(Apply(s, ops[0]), ops[1..], count);
    }
  }

  /** Before and after every operation of the run, the blocks are partitioned. */
  ghost predicate PartitionThroughout(s: PoolState, ops: seq<Op>, count: nat)
    requires LegalRun(s, ops)
    decreases |ops|
  {
    && Distinct(s.free) && Partition(s, count)
    && (ops != [] ==> PartitionThroughout(Apply(s, ops[0]), ops[1..], count))
  }

  /** The blocks stay partitioned throughout a run if and only if each of its in-place
      growths takes its block cleanly. */
  lemma {:induction false} CleanRunExactly(s: PoolState, ops: seq<Op>, count: nat)
    requires count < 0x1_0000_0000 && Distinct(s.free) && Partition(s, count) && LegalRun(s, ops)
    ensures PartitionThroughout(s, ops, count) <==> CleanRun(s, ops)
    decreases |ops|
  {
    hide GrowsInPlace, TakesCleanly, Reallocate, Allocate, Release;
    if ops != [] {
      var t := Apply(s, ops[0]);
      match ops[0] {
        case Allocates(n) => AllocateKeeps(s, n, count);
        case Releases(b, n) => ReleaseFits(s, b, n, count); ReleaseKeeps(s, b, n, count);
        case Grows(b, n, newN) =>
          if GrowsInPlace(s.free, b, n, newN) {
            GrowInPlaceExact(s, b, n, newN, count);
          } else {
            MoveExact(s, b, n, newN, count);
          }
      }
      if Distinct(t.free) && Partition(t, count) { CleanRunExactly(t, ops[1..], count); }
    }
  }
}
