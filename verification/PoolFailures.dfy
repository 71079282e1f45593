/** Runs of the allocator in driver/ConsecutivePoolAllocator.c that reach the cases in
    which growing a run goes wrong. */
module PoolFailures {
  import opened Seqs
  import opened FreeList
  import opened ConsecutiveSpec

  lemma OneBlock(s: PoolState)
    requires s.free != []
    ensures Legal(s, Allocates(1))
    ensures Allocate(s, 1) == (PoolState(s.free[1..], s.live + {s.free[0]}, Sub32(s.numFree, 1)), Some(s.free[0]))
  {
    assert RunAt(s.free, 0, 1);
    assert FirstFit(s.free, 1, 0) == Some(0);
    assert WithoutRun(s.free, 0, 1) == s.free[1..];
    assert Run(s.free[0], 1) == {s.free[0]};
  }

  lemma First(s: PoolState, op: Op, ops: seq<Op>)
    requires Legal(s, op) && LegalRun(Apply(s, op), ops)
    ensures LegalRun(s, [op] + ops) && After(s, [op] + ops) == After(Apply(s, op), ops)
  {
    assert ([op] + ops)[1..] == ops;
  }

  lemma RunOf(b: nat)
    ensures Run(b, 1) == {b} && RunSeq(b, 1) == [b] && Run(b, 2) == {b, b + 1}
  {
    assert Run(b, 1) == {b};
  }

  const DROPS: seq<Op> := [Allocates(1), Allocates(1), Allocates(1), Releases(0, 1), Releases(1, 1), Grows(2, 1, 2)]

  /** Three blocks are allocated, the first two released, and the third is grown over a
      block that is third on the list: the two released blocks are lost. */
  lemma GrowthLosesBlocks()
    ensures LegalRun(Created(5), DROPS)
    ensures var t := After(Created(5), DROPS);
      !Partition(t, 5) && 0 !in t.free && 0 !in t.live && t.numFree != |t.free|
  {
    hide Allocate, Release, Created, Reallocate, WithRun, Partition;
    var s0 := Created(5);
    FreshFive(s0);
    OneBlock(s0);
    var s1 := Apply(s0, Allocates(1));
    OneBlock(s1);
    var s2 := Apply(s1, Allocates(1));
    OneBlock(s2);
    var s3 := Apply(s2, Allocates(1));
    assert s3 == PoolState([3, 4], {0, 1, 2}, 2);
    ReleasedTwo(s3);
    var s4 := Apply(s3, Releases(0, 1));
    var s5 := Apply(s4, Releases(1, 1));
    GrownOver(s5);
    var s6 := Apply(s5, Grows(2, 1, 2));
    assert LegalRun(s6, []) && After(s6, []) == s6;
    First(s5, Grows(2, 1, 2), []);
    First(s4, Releases(1, 1), [Grows(2, 1, 2)]);
    First(s3, Releases(0, 1), [Releases(1, 1), Grows(2, 1, 2)]);
    First(s2, Allocates(1), [Releases(0, 1), Releases(1, 1), Grows(2, 1, 2)]);
    First(s1, Allocates(1), [Allocates(1), Releases(0, 1), Releases(1, 1), Grows(2, 1, 2)]);
    First(s0, Allocates(1), [Allocates(1), Allocates(1), Releases(0, 1), Releases(1, 1), Grows(2, 1, 2)]);
    assert [Releases(1, 1)] + [Grows(2, 1, 2)] == [Releases(1, 1), Grows(2, 1, 2)];
    assert [Releases(0, 1)] + [Releases(1, 1), Grows(2, 1, 2)] == [Releases(0, 1), Releases(1, 1), Grows(2, 1, 2)];
  }

  lemma FreshFive(s: PoolState)
    requires s == Created(5)
    ensures s == PoolState([0, 1, 2, 3, 4], {}, 5)
  {
  }

  lemma ReleasedTwo(s: PoolState)
    requires s == PoolState([3, 4], {0, 1, 2}, 2)
    ensures Legal(s, Releases(0, 1))
    ensures var t := Apply(s, Releases(0, 1));
      Legal(t, Releases(1, 1)) && Apply(t, Releases(1, 1)) == PoolState([0, 1, 3, 4], {2}, 4)
  {
    hide WithRun;
    RunOf(0);
    RunOf(1);
    InFront([3, 4], 0);
    InFront([0, 3, 4], 1);
    assert [0] + [3, 4] == [0, 3, 4] && [0, 1] + [0, 3, 4][1..] == [0, 1, 3, 4];
    assert Apply(s, Releases(0, 1)) == PoolState([0, 3, 4], {1, 2}, 3);
  }

  lemma GrownOver(s: PoolState)
    requires s == PoolState([0, 1, 3, 4], {2}, 4)
    ensures Legal(s, Grows(2, 1, 2))
    ensures Apply(s, Grows(2, 1, 2)) == PoolState([1, 4], {2, 3}, 3)
    ensures !Partition(Apply(s, Grows(2, 1, 2)), 5)
  {
    RunOf(2);
    assert IndexOf([0, 1, 3, 4], 3) == 2;
    assert TakenInPlace([0, 1, 3, 4], 2) == [1, 4];
    var t := Apply(s, Grows(2, 1, 2));
    assert t == PoolState([1, 4], {2, 3}, 3);
    assert 0 !in t.free && 0 !in t.live;
  }

  const LAST: seq<Op> := [Allocates(1), Grows(0, 1, 2)]

  /** Growing over the only free block leaves it on the list: it will be handed out
      again while it is in use. */
  lemma GrowthKeepsTheLastBlock()
    ensures LegalRun(Created(2), LAST)
    ensures var t := After(Created(2), LAST); !Safe(t, 2) && 1 in t.free && 1 in t.live
  {
    hide Allocate, Created;
    var s0 := Created(2);
    assert s0 == PoolState([0, 1], {}, 2) by { FreshTwo(s0); }
    OneBlock(s0);
    var s1 := Apply(s0, Allocates(1));
    RunOf(0);
    var s2 := Apply(s1, Grows(0, 1, 2));
    assert 1 in s2.free && 1 in s2.live;
    assert LegalRun(s2, []) && After(s2, []) == s2;
    First(s1, Grows(0, 1, 2), []);
    First(s0, Allocates(1), [Grows(0, 1, 2)]);
  }

  lemma FreshTwo(s: PoolState)
    requires s == Created(2)
    ensures s == PoolState([0, 1], {}, 2)
  {
  }

  const MOVES: seq<Op> := [Allocates(1), Allocates(1), Grows(0, 1, 2)]

  /** The second block stands in the way, so the first one is moved: two blocks are
      free then, and the counter says one. */
  lemma MovingMiscounts()
    ensures LegalRun(Created(5), MOVES)
    ensures var t := After(Created(5), MOVES); t.free == [0, 4] && t.numFree == 1
  {
    hide Allocate, Created, Reallocate;
    var s0 := Created(5);
    FreshFive(s0);
    OneBlock(s0);
    var s1 := Apply(s0, Allocates(1));
    OneBlock(s1);
    var s2 := Apply(s1, Allocates(1));
    Moved(s2);
    var s3 := Apply(s2, Grows(0, 1, 2));
    assert LegalRun(s3, []) && After(s3, []) == s3;
    First(s2, Grows(0, 1, 2), []);
    First(s1, Allocates(1), [Grows(0, 1, 2)]);
    First(s0, Allocates(1), [Allocates(1), Grows(0, 1, 2)]);
    assert [Allocates(1)] + [Grows(0, 1, 2)] == [Allocates(1), Grows(0, 1, 2)];
  }

  lemma Moved(s: PoolState)
    requires s == PoolState([2, 3, 4], {0, 1}, 3)
    ensures Legal(s, Grows(0, 1, 2))
    ensures Apply(s, Grows(0, 1, 2)).free == [0, 4] && Apply(s, Grows(0, 1, 2)).numFree == 1
  {
    hide Allocate, WithRun;
    RunOf(0);
    TwoBlocks(s);
    InFront([4], 0);
    assert [0] + [4] == [0, 4];
  }

  lemma TwoBlocks(s: PoolState)
    requires s == PoolState([2, 3, 4], {0, 1}, 3)
    ensures Allocate(s, 2).0.free == [4] && Allocate(s, 2).0.numFree == 1 && Allocate(s, 2).1 == Some(2)
  {
    assert RunAt(s.free, 0, 2);
    assert FirstFit(s.free, 2, 0) == Some(0);
    assert WithoutRun(s.free, 0, 2) == [4];
  }

  /** One block comes to the front, or behind its neighbour. */
  lemma InFront(free: seq<nat>, b: nat)
    ensures (forall j :: 0 <= j < |free| ==> free[j] + 1 != b) ==> WithRun(free, b, 1) == [b] + free
    ensures free != [] && free[0] + 1 == b ==> WithRun(free, b, 1) == [free[0], b] + free[1..]
  {
    RunOf(b);
  }
}
