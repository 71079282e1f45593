/** What one allocation, release or growth does to the free list, position by position. */
module PoolLaws {
  import opened FreeList
  import opened Seqs
  import opened ConsecutiveSpec

  /** The n list positions from i on hold the n blocks from b on. */
  predicate HoldsRun(free: seq<nat>, i: nat, b: nat, n: nat) {
    i + n <= |free| && forall k :: i <= k < i + n ==> free[k] == b + (k - i)
  }

  /** r is free without the n positions from i on, in the same order. */
  predicate Without(free: seq<nat>, i: nat, n: nat, r: seq<nat>) {
    && i + n <= |free| && |r| == |free| - n
    && forall k :: 0 <= k < |r| ==> r[k] == if k < i then free[k] else free[k + n]
  }

  /** The earliest run on the list is handed out, and the list closes up behind it;
      without one nothing changes. */
  lemma AllocateIs(s: PoolState, n: nat) returns (i: nat)
    requires n > 0
    ensures var (t, got) := Allocate(s, n);
      if got.None? then t == s && forall j: nat, b: nat :: !HoldsRun(s.free, j, b, n)
      else
        && HoldsRun(s.free, i, got.value, n) && (forall j: nat, b: nat :: j < i ==> !HoldsRun(s.free, j, b, n))
        && Without(s.free, i, n, t.free) && t.numFree == (s.numFree - n) % 0x1_0000_0000
        && forall c :: c in t.live <==> c in s.live || got.value <= c < got.value + n
  {
    var f := FirstFit(s.free, n, 0);
    i := if f.Some? then f.value else 0;
    forall j: nat, b: nat | HoldsRun(s.free, j, b, n) ensures RunAt(s.free, j, n) {
      assert s.free[j] == b + (j - j);
    }
  }

  /** A run comes back right behind the block before it, if that is on the list, and in
      front otherwise; the others keep their order. */
  lemma ReleaseIs(s: PoolState, b: nat, n: nat) returns (i: nat)
    requires n > 0
    ensures var t := Release(s, b, n);
      && HoldsRun(t.free, i, b, n) && Without(t.free, i, n, s.free)
      && (if exists j :: 0 <= j < |s.free| && s.free[j] + 1 == b then i > 0 && s.free[i - 1] + 1 == b else i == 0)
      && t.numFree == (s.numFree + n) % 0x1_0000_0000
      && forall c :: c in t.live <==> c in s.live && !(b <= c < b + n)
  {
    hide IndexOf, RunSeq, WithRun;
    i := WithRunPositions(s.free, b, n);
  }

  /** Growth in place by the block at list position k: the block before it on the list
      becomes the head, and those before that are lost; a first block is followed as
      head by the next one; and a block alone on the list stays there. */
  lemma GrowIs(s: PoolState, b: nat, n: nat, k: nat)
    requires 0 < n && k < |s.free| && s.free[k] == b + n && Distinct(s.free)
    ensures var (t, got) := Reallocate(s, b, n, n + 1);
      && got == Some(b) && t.numFree == (s.numFree - 1) % 0x1_0000_0000
      && (forall c :: c in t.live <==> c in s.live || b <= c <= b + n)
      && (k > 0 ==> |t.free| == |s.free| - k && t.free[0] == s.free[k - 1])
      && (k > 0 ==> forall j :: 0 < j < |t.free| ==> t.free[j] == s.free[k + j])
      && (k == 0 && |s.free| > 1 ==> Without(s.free, 0, 1, t.free))
      && (k == 0 && |s.free| == 1 ==> t.free == s.free)
  {
    assert IndexOf(s.free, b + n) == k;
  }

  /** Any other growth is an allocation of the new size and a release of the old
      blocks; the growth itself is subtracted from the counter once more. */
  lemma MoveIs(s: PoolState, b: nat, n: nat, newN: nat)
    requires 0 < n <= newN && (newN > n + 1 || b + n !in s.free)
    ensures var (t, got) := Reallocate(s, b, n, newN);
      var (u, at) := Allocate(s, newN);
      && got == at && (got.None? ==> t == s)
      && (got.Some? ==> t.free == Release(u, b, n).free && t.live == Release(u, b, n).live)
      && (got.Some? ==> t.numFree == (s.numFree - newN - (newN - n) + n) % 0x1_0000_0000)
  {
    hide FirstFit, WithRun, WithoutRun, Run;
    CounterIs(s.numFree, newN, newN - n, n);
  }

  lemma CounterIs(f: int, a: nat, d: nat, n: nat)
    ensures (((f - a) % 0x1_0000_0000 - d) % 0x1_0000_0000 + n) % 0x1_0000_0000 == (f - a - d + n) % 0x1_0000_0000
  {
  }
}
