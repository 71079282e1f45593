/** driver/ControlListUtil.c and clFit of driver/common.c: byte lists that grow
    inside a ConsecutivePool.

    All lists of one command pool share the pool's buffer. The ghost argument
    lists of every method is the set of lists in use; each method says what it
    does to its own list and that all others keep their bytes. */
module ControlLists {
  import opened Arithmetic
  import opened Bytes
  import opened FreeList
  import CS = ConsecutiveSpec
  import opened ConsecutivePool
  import opened Markers
  import opened Places
  import opened Seqs

  /** The lists are sound and no two of them share a block. */
  ghost predicate Apart(lists: set<ControlList>, cpa: ConsecutivePool)
    reads lists, cpa, cpa.buf
  {
    && cpa.Valid()
    && (forall c :: c in lists ==> c.CPA == cpa && c.Sound())
    && (forall c, d :: c in lists && d in lists && c != d ==> Disjoint(c, d))
  }

  ghost predicate Disjoint(c: ControlList, d: ControlList)
    reads c`first, c`numBlocks, d`first, d`numBlocks
  {
    c.first + c.numBlocks <= d.first || d.first + d.numBlocks <= c.first
  }

  /** The other lists of a pool in state s, beside a list with n blocks from b on. */
  ghost predicate Others(others: set<ControlList>, cpa: ConsecutivePool, s: CS.PoolState, b: nat, n: nat)
    reads others
  {
    && (forall c :: c in others ==> c.CPA == cpa && c.Placed())
    && (forall c :: c in others ==> c.first + c.numBlocks <= b || b + n <= c.first)
    && (forall c, i :: c in others && c.first <= i < c.first + c.numBlocks ==> i in s.live && i !in s.free)
    && (forall c, d :: c in others && d in others && c != d ==> Disjoint(c, d))
  }

  /** What Apart says of one list; callers hide the rest. */
  lemma ListIn(c: ControlList, lists: set<ControlList>, cpa: ConsecutivePool)
    requires Apart(lists, cpa) && c in lists
    ensures c.CPA == cpa && cpa.Valid() && c.Sound()
  {
  }

  lemma AllPlaced(lists: set<ControlList>, cpa: ConsecutivePool)
    requires Apart(lists, cpa)
    ensures forall c :: c in lists ==> c.CPA == cpa && c.Placed()
  {
  }

  lemma PoolDistinct(cpa: ConsecutivePool)
    requires cpa.Valid()
    ensures Distinct(cpa.free)
  {
  }

  class ControlList {
    const CPA: ConsecutivePool
    var offset: uint32
    var numBlocks: uint32
    var blockSize: uint32
    var nextFreeByteOffset: uint32
    var currMarkerOffset: uint32
    ghost var first: nat

    /** clInit: an empty list of one block. */
    constructor Init(cpa: ConsecutivePool, off: uint32, bs: uint32, ghost b: nat, ghost lists: set<ControlList>)
      requires Apart(lists, cpa) && b < cpa.layout.count
      requires off == cpa.layout.Off(b) && bs == cpa.layout.blockSize
      requires b in cpa.live && b !in cpa.free && forall c :: c in lists ==> !(c.first <= b < c.first + c.numBlocks)
      ensures CPA == cpa && Apart(lists + {this}, cpa)
      ensures first == b && numBlocks == 1 && Contents() == [] && Cursor() == None
    {
      CPA := cpa;
      offset := off;
      numBlocks := 1;
      blockSize := bs;
      nextFreeByteOffset := off;
      currMarkerOffset := NONE;
      first := b;
      new;
      BlockInBuffer(cpa.layout, b);
      assert CPA.layout.Off(b + 1) == CPA.layout.Off(b) + CPA.layout.blockSize;
    }

    ghost function Blocks(): (bs: set<nat>)
      reads this
    {
      Run(first, numBlocks)
    }

    /** The list's fields describe a range of the pool's blocks with the cursor
        and the current marker in it. */
    ghost predicate Placed()
      reads this
    {
      && CPA.layout.Valid() && CPA.buf.Length == CPA.layout.Off(CPA.layout.count)
      && numBlocks > 0 && first + numBlocks <= CPA.layout.count
      && offset == CPA.layout.Off(first) && blockSize == CPA.layout.blockSize
      && offset <= nextFreeByteOffset <= CPA.layout.Off(first + numBlocks) <= CPA.buf.Length
      && (currMarkerOffset != NONE ==> offset <= currMarkerOffset && currMarkerOffset + MARKER_SIZE <= nextFreeByteOffset)
    }

    /** The list's blocks are live. */
    ghost predicate Owned()
      reads this, CPA
    {
      forall b :: first <= b < first + numBlocks ==> b in CPA.live && b !in CPA.free
    }

    ghost predicate Sound()
      reads this, CPA
    {
      Placed() && Owned()
    }

    /** The list's blocks as they are in the pool buffer m. */
    ghost function Slice(m: seq<byte>): (s: seq<byte>)
      requires Placed() && |m| == CPA.buf.Length
      reads this
      ensures |s| == CPA.layout.Off(first + numBlocks) - CPA.layout.Off(first)
    {
      m[offset..CPA.layout.Off(first + numBlocks)]
    }

    /** All bytes of the list's blocks. */
    ghost function Space(): (s: seq<byte>)
      requires Placed()
      reads this, CPA.buf
      ensures |s| == CPA.layout.Off(first + numBlocks) - CPA.layout.Off(first)
    {
      Slice(CPA.buf[..])
    }

    /** The bytes recorded so far. */
    ghost function Contents(): (s: seq<byte>)
      requires Placed()
      reads this, CPA.buf
      ensures |s| == nextFreeByteOffset - offset
    {
      CPA.buf[offset..nextFreeByteOffset]
    }

    /** The current marker's position in the recorded bytes, if there is one. */
    ghost function Cursor(): (c: Option<nat>)
      requires Placed()
      reads this
    {
      if currMarkerOffset == NONE then None else Some(currMarkerOffset - offset)
    }

    /** memcpy and word stores into the list's own blocks. */
    method Put(rel: nat, data: seq<byte>)
      requires CPA.Valid() && Sound() && rel + |data| <= |Space()|
      modifies CPA.buf
      ensures CPA.Valid()
      ensures CPA.buf[..] == Splice(old(CPA.buf[..]), offset + rel, data)
    {
      hide IsChain, AgreeOutside, Run, Distinct;
      ghost var m := CPA.buf[..];
      Store(CPA.buf, offset + rel, data);
      OwnBytes(m, CPA.buf[..]);
      ChainKept(CPA.layout, m, CPA.buf[..], CPA.nextFreeBlock, CPA.free, Blocks());
    }

    /** The same, and every other list keeps its bytes. */
    method Write(rel: nat, data: seq<byte>, ghost lists: set<ControlList>)
      requires Apart(lists, CPA) && this in lists && rel + |data| <= |Space()|
      modifies CPA.buf
      ensures Apart(lists, CPA)
      ensures Space() == Splice(old(Space()), rel, data)
      ensures forall c :: c in lists && c != this ==> c.Space() == old(c.Space())
    {
      hide IsChain, Splice, ConsecutivePool.Valid, Slice;
      ghost var m := CPA.buf[..];
      Put(rel, data);
      SliceWritten(m, rel, data);
      forall c | c in lists && c != this ensures c.Space() == c.Slice(m) {
        c.SliceKept(m, this, offset + rel, data);
      }
    }

    lemma SliceWritten(m: seq<byte>, rel: nat, data: seq<byte>)
      requires Placed() && |m| == CPA.buf.Length && rel + |data| <= |Slice(m)|
      ensures Slice(Splice(m, offset + rel, data)) == Splice(Slice(m), rel, data)
    {
      hide Splice;
      SpliceInside(m, offset + rel, data, offset, CPA.layout.Off(first + numBlocks));
    }

    lemma SliceKept(m: seq<byte>, d: ControlList, at: nat, data: seq<byte>)
      requires Placed() && d.Placed() && d.CPA == CPA && Disjoint(this, d) && |m| == CPA.buf.Length
      requires d.offset <= at && at + |data| <= CPA.layout.Off(d.first + d.numBlocks)
      ensures Slice(Splice(m, at, data)) == Slice(m)
    {
      OffRises(CPA.layout, first + numBlocks, d.first);
      OffRises(CPA.layout, d.first + d.numBlocks, first);
      SpliceBeside(m, at, data, offset, CPA.layout.Off(first + numBlocks));
    }

    static lemma SpliceInside(m: seq<byte>, at: nat, data: seq<byte>, lo: nat, hi: nat)
      requires lo <= at && at + |data| <= hi <= |m|
      ensures Splice(m, at, data)[lo..hi] == Splice(m[lo..hi], at - lo, data)
    {
    }

    static lemma SpliceBeside(m: seq<byte>, at: nat, data: seq<byte>, lo: nat, hi: nat)
      requires at + |data| <= |m| && lo <= hi <= |m| && (hi <= at || at + |data| <= lo)
      ensures Splice(m, at, data)[lo..hi] == m[lo..hi]
    {
    }

    static lemma OffRises(L: Layout, b: nat, c: nat)
      ensures b <= c ==> L.Off(b) <= L.Off(c)
    {
      if b < c { L.OffOrder(b, c); }
    }

    /** A write between the list's bounds stays within its blocks. */
    lemma OwnBytes(m: seq<byte>, r: seq<byte>)
      requires Sound() && |m| == |r| == CPA.buf.Length
      requires forall i :: 0 <= i < |m| && !(offset <= i < CPA.layout.Off(first + numBlocks)) ==> r[i] == m[i]
      ensures AgreeOutside(CPA.layout, m, r, Blocks())
    {
      RangeInRun(CPA.layout, first, numBlocks);
    }
  
    lemma ContentsInSpace()
      requires Placed()
      ensures |Contents()| <= |Space()| && Contents() == Space()[..|Contents()|]
    {
    }

    /** clHasEnoughSpace */
    method HasEnoughSpace(size: uint32) returns (fits: bool)
      requires Sound() && |Contents()| + size < 0x1_0000_0000
      ensures fits <==> |Contents()| + size <= |Space()|
    {
      CPA.layout.OffAdd(first, numBlocks);
      CPA.layout.OffIsProduct(numBlocks);
      fits := nextFreeByteOffset - offset + size <= numBlocks * blockSize;
    }

    static lemma SpliceAppends(m: seq<byte>, n: nat, data: seq<byte>)
      requires n + |data| <= |m|
      ensures Splice(m, n, data)[..n + |data|] == m[..n] + data
    {
    }

    /** clInsertData, and every other append */
    method InsertData(data: seq<byte>, ghost lists: set<ControlList>)
      requires Apart(lists, CPA) && this in lists && |Contents()| + |data| <= |Space()|
      modifies this`nextFreeByteOffset, CPA.buf
      ensures Apart(lists, CPA)
      ensures Contents() == old(Contents()) + data
      ensures Cursor() == old(Cursor()) && Room() == old(Room()) - |data|
      ensures forall c :: c in lists && c != this ==> c.Space() == old(c.Space())
    {
      hide IsChain, Splice, ConsecutivePool.Valid, Owned;
      ghost var before, s := Space(), Contents();
      ContentsInSpace();
      Write(nextFreeByteOffset - offset, data, lists);
      SpliceAppends(before, |s|, data);
      Advance(|data|, lists);
      ContentsInSpace();
    }

    /** The cursor moves on behind bytes that have been written. */
    method Advance(n: uint32, ghost lists: set<ControlList>)
      requires Apart(lists, CPA) && this in lists && |Contents()| + n <= |Space()|
      modifies this`nextFreeByteOffset
      ensures Apart(lists, CPA) && Space() == old(Space()) && |Contents()| == old(|Contents()|) + n
      ensures Cursor() == old(Cursor()) && Room() == old(Room()) - n
      ensures forall c :: c in lists && c != this ==> c.Space() == old(c.Space())
    {
      hide ConsecutivePool.Valid;
      nextFreeByteOffset := nextFreeByteOffset + n;
    }

    /** How many bytes can be appended before the list must grow. */
    ghost function Room(): (n: int)
      requires Placed()
      reads this
    {
      CPA.layout.Off(first + numBlocks) - nextFreeByteOffset
    }

    /** There is room for size bytes more, or the pool can make room soundly. */
    ghost predicate CanFit(size: nat)
      requires Placed()
      reads this, CPA
    {
      || size <= Room()
      || (var newN := BlocksFor(nextFreeByteOffset - offset + size, CPA.layout.blockSize);
          numBlocks <= newN && CS.GrowsSoundly(CPA.State(), first, numBlocks, newN))
    }

    /** Where the list lies. */
    ghost function At(): (p: Place)
      requires Placed()
      reads this
      ensures CPA.layout.blockSize > 0 && p.blocks > 0
    {
      Place(first, numBlocks, nextFreeByteOffset - offset)
    }

    /** What a list holds is read from its own blocks. */
    twostate lemma SpaceKept()
      requires old(Placed()) && unchanged(this) && Space() == old(Space())
      ensures Contents() == old(Contents())
      ensures currMarkerOffset != NONE ==> Struct() == old(Struct())
    {
      var n, hi := nextFreeByteOffset - offset, CPA.layout.Off(first + numBlocks);
      var m, r := old(CPA.buf[..]), CPA.buf[..];
      SlicePrefix(m, offset, hi, n);
      SlicePrefix(r, offset, hi, n);
      if currMarkerOffset != NONE {
        var cur := currMarkerOffset - offset;
        SliceOfSlice(m, offset, hi, cur, cur + MARKER_SIZE);
        SliceOfSlice(r, offset, hi, cur, cur + MARKER_SIZE);
      }
    }

    /** clFit: when size bytes more would not fit, the list is reallocated to the
        blocks it needs and one, and its cursor and marker follow. The driver
        goes on without looking whether that worked; ok tells. */
    method Fit(size: uint32, ghost lists: set<ControlList>) returns (ok: bool)
      requires Apart(lists, CPA) && this in lists && |Contents()| + size < 0x1_0000_0000
      modifies this, CPA, CPA.buf
      ensures ok <==> old(CanFit(size))
      ensures FitsAs(CPA.layout, old(CPA.State()), old(At()), size, ok, CPA.State(), Place(first, numBlocks, 0))
      ensures old(|Contents()|) + size <= old(|Space()|) ==> unchanged(this) && unchanged(CPA) && unchanged(CPA.buf)
      ensures old(|Contents()|) + size > old(|Space()|) ==>
        var newN := BlocksFor(old(|Contents()|) + size, CPA.layout.blockSize);
        && newN > old(numBlocks)
        && CPA.State() == CS.Reallocate(old(CPA.State()), old(first), old(numBlocks), newN).0
        && (ok ==> Some(first) == CS.Reallocate(old(CPA.State()), old(first), old(numBlocks), newN).1 && numBlocks == newN)
        && (newN - 1) * CPA.layout.blockSize <= old(|Contents()|) + size < newN * CPA.layout.blockSize
      ensures ok ==>
        && Apart(lists, CPA) && Contents() == old(Contents()) && Cursor() == old(Cursor())
        && |Contents()| + size <= |Space()|
        && forall c :: c in lists && c != this ==> c.Space() == old(c.Space())
    {
      hide IsChain, AgreeOutside, Run, CS.GrowsSoundly, CS.Reallocate, Distinct, BlocksFor, FitsAs;
      ghost var s, p, space := CPA.State(), At(), |Space()|;
      BlocksSuffice(|Contents()| + size, CPA.layout.blockSize);
      RoomIsSpace();
      var fits := HasEnoughSpace(size);
      ok := true;
      if !fits {
        ok := Grow(size, lists);
      }
      FitsAsGrown(CPA.layout, s, p, size, ok, CPA.State(), Place(first, numBlocks, 0));
    }

    lemma RoomIsSpace()
      requires Placed()
      ensures RoomAt(CPA.layout, At()) == |Space()| - |Contents()| && At().used == |Contents()|
    {
    }
  
    method Grow(size: uint32, ghost lists: set<ControlList>) returns (ok: bool)
      requires Apart(lists, CPA) && this in lists && |Contents()| + size < 0x1_0000_0000
      requires |Contents()| + size > |Space()|
      modifies this, CPA, CPA.buf
      ensures var newN := BlocksFor(old(|Contents()|) + size, CPA.layout.blockSize);
        && newN > old(numBlocks)
        && CPA.State() == CS.Reallocate(old(CPA.State()), old(first), old(numBlocks), newN).0
        && (ok <==> CS.GrowsSoundly(old(CPA.State()), old(first), old(numBlocks), newN))
        && (ok ==> Some(first) == CS.Reallocate(old(CPA.State()), old(first), old(numBlocks), newN).1 && numBlocks == newN)
      ensures ok ==>
        && Apart(lists, CPA) && Contents() == old(Contents()) && Cursor() == old(Cursor())
        && |Contents()| + size <= |Space()|
        && forall c :: c in lists && c != this ==> c.Space() == old(c.Space())
    {
      hide AgreeOutside, Run, CS.GrowsSoundly, CS.Reallocate, Distinct, BlocksFor, Slice, ConsecutivePool.Valid, Apart, Others,
        Space, Contents, Cursor, Owned;
      ghost var m, s, b, n := CPA.buf[..], CPA.State(), first, numBlocks;
      OthersBeside(lists);
      PoolDistinct(CPA);
      var needed := nextFreeByteOffset - offset + size;
      MoreBlocks(CPA.layout, first, numBlocks, needed);
      ok := Relocate(BlocksFor(needed, CPA.layout.blockSize));
      if ok {
        AfterGrowth(m, s, b, n, lists);
        HoldsSize(CPA.layout, first, numBlocks, needed);
      }
    }

    lemma OthersBeside(lists: set<ControlList>)
      requires Apart(lists, CPA) && this in lists
      ensures CPA.Valid() && Sound() && Others(lists - {this}, CPA, CPA.State(), first, numBlocks)
      ensures forall c :: c in lists ==> c.CPA == CPA && c.Placed() && c.Space() == c.Slice(CPA.buf[..])
      ensures forall c :: c in Run(first, numBlocks) ==> c in CPA.live && c !in CPA.free
    {
    }

    /** The reallocation itself, and the fields of the list after it. */
    method Relocate(newNumBlocks: uint32) returns (ok: bool)
      requires CPA.Valid() && Sound() && newNumBlocks > numBlocks
      modifies this, CPA, CPA.buf
      ensures CPA.Valid()
      ensures CPA.State() == CS.Reallocate(old(CPA.State()), old(first), old(numBlocks), newNumBlocks).0
      ensures ok <==> CS.GrowsSoundly(old(CPA.State()), old(first), old(numBlocks), newNumBlocks)
      ensures AgreeOutside(CPA.layout, old(CPA.buf[..]), CPA.buf[..], FreeSet(old(CPA.free)) + Run(old(first), old(numBlocks)))
      ensures ok ==>
        && CS.Reallocate(old(CPA.State()), old(first), old(numBlocks), newNumBlocks).1 == Some(first)
        && Placed() && numBlocks == newNumBlocks
        && Contents() == old(Contents()) && Cursor() == old(Cursor())
    {
      hide IsChain, AgreeOutside, Run, Distinct, CS.GrowsSoundly, CS.Reallocate, Plus, Minus, Slice, Owned, ConsecutivePool.Content, Contents;
      var L := CPA.layout;
      var currSize := nextFreeByteOffset - offset;
      var relMarker := Minus(currMarkerOffset, offset);
      ghost var s, b, n := CPA.State(), first, numBlocks;
      ghost var from, marker := offset, currMarkerOffset;
      var off := ReallocateBlocks(newNumBlocks);
      offset := off;
      nextFreeByteOffset := Plus(off, currSize);
      numBlocks := newNumBlocks;
      currMarkerOffset := if currMarkerOffset == NONE then NONE else Plus(off, relMarker);
      // the pool is lost if the request failed or took its last free block
      var head := CPA.nextFreeBlock;
      ok := off != NONE && !(head != 0 && L.base + off <= head < L.base + off + newNumBlocks * L.blockSize);
      ghost var (t, got) := CS.Reallocate(s, b, n, newNumBlocks);
      if got.Some? {
        first := got.value;
        HeadInRun(L, CPA.buf[..], head, CPA.free, first, newNumBlocks);
        FieldsMoved(b, n, from, marker, currSize);
      }
    }

    /** consecutivePoolReAllocate on the list's blocks, which takes their bytes along. */
    method ReallocateBlocks(newNumBlocks: uint32) returns (off: uint32)
      requires CPA.Valid() && Sound() && newNumBlocks > numBlocks
      modifies CPA, CPA.buf
      ensures CPA.Valid()
      ensures AgreeOutside(CPA.layout, old(CPA.buf[..]), CPA.buf[..], FreeSet(old(CPA.free)) + Run(first, numBlocks))
      ensures var (t, got) := CS.Reallocate(old(CPA.State()), first, numBlocks, newNumBlocks);
        && CPA.State() == t
        && (CS.GrowsSoundly(old(CPA.State()), first, numBlocks, newNumBlocks) <==>
            got.Some? && !(t.free != [] && t.free[0] in Run(got.value, newNumBlocks)))
        && (got.None? ==> off == NONE)
        && (got.Some? ==>
            && off == CPA.layout.Off(got.value) < NONE && got.value + newNumBlocks <= CPA.layout.count
            && old(|Contents()|) <= |CPA.Content(got.value, numBlocks)|
            && CPA.Content(got.value, numBlocks)[..old(|Contents()|)] == old(Contents()))
    {
      hide IsChain, AgreeOutside, Run, Distinct, CS.Reallocate, CS.GrowsSoundly, Slice;
      var L := CPA.layout;
      PoolDistinct(CPA);
      SoundExactly(CPA.State(), first, numBlocks, newNumBlocks);
      SlicePrefix(CPA.buf[..], offset, L.Off(first + numBlocks), |Contents()|);
      BlockInBuffer(L, first);
      off := CPA.Reallocate(L.base + offset, numBlocks, newNumBlocks, first);
    }

    /** The list's fields after its n blocks from b on have moved to first: the
        cursor and the marker stand where they stood, seen from the start. */
    lemma FieldsMoved(b: nat, n: nat, from: uint32, marker: uint32, currSize: uint32)
      requires CPA.layout.Valid() && CPA.buf.Length == CPA.layout.Off(CPA.layout.count)
      requires 0 < n <= numBlocks && first + numBlocks <= CPA.layout.count && b + n <= CPA.layout.count
      requires offset == CPA.layout.Off(first) && blockSize == CPA.layout.blockSize
      requires from == CPA.layout.Off(b) && from + currSize <= CPA.layout.Off(b + n)
      requires marker != NONE ==> from <= marker && marker - from + MARKER_SIZE <= currSize
      requires nextFreeByteOffset == Plus(offset, currSize)
      requires currMarkerOffset == if marker == NONE then NONE else Plus(offset, Minus(marker, from))
      ensures Placed() && |Contents()| == currSize
      ensures currSize <= |CPA.Content(first, n)| && Contents() == CPA.Content(first, n)[..currSize]
      ensures Cursor() == if marker == NONE then None else Some(marker - from)
    {
      var L := CPA.layout;
      hide Plus, Minus;
      FitsMoved(L, b, n, first, numBlocks, currSize);
      PlusExact(offset, currSize);
      if marker != NONE {
        PlusMinus(marker, from);
        PlusExact(offset, marker - from);
      }
      SlicePrefix(CPA.buf[..], offset, L.Off(first + n), currSize);
    }

    static lemma SlicePrefix(m: seq<byte>, lo: nat, hi: nat, k: nat)
      requires lo <= hi <= |m| && lo + k <= hi
      ensures m[lo..hi][..k] == m[lo..lo + k]
    {
    }

    static lemma PlusExact(a: uint32, b: uint32)
      requires a + b < 0x1_0000_0000
      ensures Plus(a, b) == a + b
    {
    }

    /** What fits n blocks at b fits them at f, with room up to newN blocks. */
    static lemma FitsMoved(L: Layout, b: nat, n: nat, f: nat, newN: nat, size: nat)
      requires L.Valid() && n <= newN && f + newN <= L.count && L.Off(b) + size <= L.Off(b + n)
      ensures L.Off(f) + size <= L.Off(f + n) <= L.Off(f + newN) <= L.Off(L.count) < 0x1_0000_0000
    {
      RangeInBuffer(L, f, newN);
      L.OffAdd(f, n);
      L.OffAdd(f, newN);
      L.OffAdd(b, n);
      OffRises(L, n, newN);
    }

    /** What sound growth leaves: the grown list in its new blocks, every other
        list where it was with its bytes. m, s, b and n are the buffer, the pool
        and the list's blocks before. */
    lemma AfterGrowth(m: seq<byte>, s: CS.PoolState, b: nat, n: nat, lists: set<ControlList>)
      requires CPA.Valid() && this in lists && Placed() && 0 < n < numBlocks && b + n <= CPA.layout.count
      requires Distinct(s.free) && CS.GrowsSoundly(s, b, n, numBlocks)
      requires CS.Reallocate(s, b, n, numBlocks) == (CPA.State(), Some(first))
      requires |m| == CPA.buf.Length && AgreeOutside(CPA.layout, m, CPA.buf[..], FreeSet(s.free) + Run(b, n))
      requires forall c :: c in Run(b, n) ==> c in s.live && c !in s.free
      requires Others(lists - {this}, CPA, s, b, n)
      ensures Apart(lists, CPA)
      ensures forall c :: c in lists && c != this ==> c.Space() == c.Slice(m)
    {
      hide IsChain, AgreeOutside, Run, CS.GrowsSoundly, CS.Reallocate, Distinct;
      CS.GrownBlocks(s, b, n, numBlocks);
      forall c | c in lists && c != this
        ensures c.Sound() && Disjoint(c, this) && c.Space() == c.Slice(m)
      {
        assert c in lists - {this};
        DisjointRuns(c.first, c.numBlocks, first, numBlocks, Run(b, n), s.free);
        RunUntouched(CPA.layout, m, CPA.buf[..], FreeSet(s.free) + Run(b, n), c.first, c.numBlocks);
      }
    }

    static lemma DisjointRuns(f: nat, n: nat, g: nat, k: nat, bs: set<nat>, free: seq<nat>)
      requires n > 0 && k > 0
      requires forall i :: i in Run(g, k) ==> i in free || i in bs
      requires forall i :: f <= i < f + n ==> i !in free && i !in bs
      ensures f + n <= g || g + k <= f
    {
      var i := if f <= g then g else f;
      assert f <= i < f + n && g <= i < g + k ==> i in Run(g, k);
    }

    /** The list head lies among the blocks f, ..., f + n - 1. */
    static lemma HeadInRun(L: Layout, m: seq<byte>, head: nat, free: seq<nat>, f: nat, n: nat)
      requires L.Valid() && IsChain(L, m, head, free)
      ensures (head != 0 && L.Addr(f) <= head < L.Addr(f) + n * L.blockSize) <==> free != [] && free[0] in Run(f, n)
    {
      L.OffIsProduct(n);
      L.OffAdd(f, n);
      ChainAddr(L, m, head, free, 0);
      if free != [] {
        var b := free[0];
        if b < f { L.OffOrder(b, f); }
        if f < b { L.OffOrder(f, b); }
        if b < f + n { L.OffOrder(b, f + n); }
        if f + n < b { L.OffOrder(f + n, b); }
      }
    }

    /** Growth is sound unless it failed or its blocks include the head of the list. */
    static lemma SoundExactly(s: CS.PoolState, b: nat, n: nat, newN: nat)
      requires 0 < n < newN && Distinct(s.free)
      requires forall c :: c in Run(b, n) ==> c in s.live && c !in s.free
      ensures var (t, got) := CS.Reallocate(s, b, n, newN);
        CS.GrowsSoundly(s, b, n, newN) <==> got.Some? && !(t.free != [] && t.free[0] in Run(got.value, newN))
    {
      if CS.GrowsSoundly(s, b, n, newN) {
        CS.GrownBlocks(s, b, n, newN);
      } else if CS.Reallocate(s, b, n, newN).1.Some? {
        assert s.free == [b + n];
      }
    }

    /** size / blockSize + 1 blocks are more than n if n do not hold size bytes. */
    static lemma MoreBlocks(L: Layout, b: nat, n: nat, size: nat)
      requires L.Valid() && b + n <= L.count && size > L.Off(b + n) - L.Off(b)
      ensures n < BlocksFor(size, L.blockSize) <= size
    {
      L.OffAdd(b, n);
      L.OffIsProduct(n);
      DivRounds(size, L.blockSize, n);
    }

    /** So many blocks hold size bytes, wherever they are. */
    static lemma HoldsSize(L: Layout, f: nat, n: nat, size: nat)
      requires L.Valid() && n == BlocksFor(size, L.blockSize)
      ensures size < L.Off(f + n) - L.Off(f)
    {
      L.OffAdd(f, n);
      L.OffIsProduct(n);
      RestInBlock(size, L.blockSize);
    }

    static lemma RestInBlock(size: nat, blockSize: nat)
      requires blockSize > 0
      ensures size < (size / blockSize + 1) * blockSize
    {
      assert size == size / blockSize * blockSize + size % blockSize;
    }

    // ------------------------------------------------------------- handles

    /** clGetHandleIndex: the index of a buffer handle in the table that starts
        at handlesOffset, rel bytes into the list, to which it is appended if it
        is not there. The table of a closed marker ends where the marker says,
        not at the cursor. */
    method GetHandleIndex(handlesOffset: uint32, handlesSize: uint32, handle: uint32, ghost rel: nat, ghost lists: set<ControlList>)
        returns (c: uint32)
      requires Apart(lists, CPA) && this in lists && |Contents()| + 4 <= |Space()|
      requires rel == handlesOffset - offset && rel + handlesSize <= |Contents()|
      modifies this`nextFreeByteOffset, CPA.buf
      ensures Apart(lists, CPA) && Cursor() == old(Cursor()) && Room() >= old(Room()) - 4
      ensures var table := Table(TableBytes(old(Contents()), rel, handlesSize));
        && c == IndexOf(table, handle)
        && Contents() == if c < |table| then old(Contents()) else old(Contents()) + WordBytes(handle)
      ensures forall d :: d in lists && d != this ==> d.Space() == old(d.Space())
    {
      hide Apart, Owned, Word, Table, IndexOf, WordBytes;
      ListIn(this, lists, CPA);
      var numHandles := (if handlesSize != 0 then handlesSize else nextFreeByteOffset - handlesOffset) / 4;
      ghost var size := if handlesSize != 0 then handlesSize else nextFreeByteOffset - handlesOffset;
      ghost var recorded := Contents();
      SliceOfSlice(CPA.buf[..], offset, nextFreeByteOffset, rel, rel + size);
      assert TableBytes(recorded, rel, handlesSize) == recorded[rel..rel + size];
      var found;
      c, found := FindHandle(handlesOffset, numHandles, handle, size);
      if !found {
        InsertData(WordBytes(handle), lists);
      }
    }

    static function TableBytes(s: seq<byte>, rel: nat, handlesSize: nat): (t: seq<byte>)
      requires rel + handlesSize <= |s|
    {
      if handlesSize != 0 then s[rel..rel + handlesSize] else s[rel..]
    }

    /** The search loop of clGetHandleIndex. */
    method FindHandle(handlesOffset: uint32, numHandles: nat, handle: uint32, ghost size: nat) returns (c: nat, found: bool)
      requires handlesOffset + size <= CPA.buf.Length && numHandles == size / 4
      ensures c == IndexOf(Table(CPA.buf[..][handlesOffset..handlesOffset + size]), handle)
      ensures c <= numHandles && (found <==> c < numHandles)
    {
      ghost var table := Table(CPA.buf[..][handlesOffset..handlesOffset + size]);
      c, found := 0, false;
      while c < numHandles
        invariant c <= numHandles
        invariant forall j :: 0 <= j < c ==> table[j] != handle
      {
        var w := LoadWord(CPA.buf, handlesOffset + 4 * c);
        TableEntry(CPA.buf[..], handlesOffset, size, c);
        if w == handle {
          return c, true;
        }
        c := c + 1;
      }
    }
  
    /** A position in the list is a position in the pool. */
    lemma OffsetExact(rel: nat)
      requires Placed() && rel <= |Contents()|
      ensures offset + rel < 0x1_0000_0000 && Plus(rel, offset) == offset + rel
    {
    }

    /** A load from the recorded bytes. */
    method LoadAt(rel: uint32) returns (w: uint32)
      requires Placed() && rel + 4 <= |Contents()|
      ensures w == Word(Contents(), rel)
    {
      w := LoadWord(CPA.buf, offset + rel);
      WordInSlice(CPA.buf[..], offset, nextFreeByteOffset, rel);
    }

    /** A load of the k-th word of a list of words. */
    method LoadEntry(k: uint32) returns (w: uint32)
      requires Placed() && k < |Table(Contents())|
      ensures w == Table(Contents())[k]
    {
      w := LoadWord(CPA.buf, offset + 4 * k);
      WordInSlice(CPA.buf[..], offset, nextFreeByteOffset, 4 * k);
    }

    /** A store to the recorded bytes. */
    method StoreAt(rel: uint32, w: uint32, ghost lists: set<ControlList>)
      requires Apart(lists, CPA) && this in lists && rel + 4 <= |Contents()|
      modifies CPA.buf
      ensures Apart(lists, CPA) && Contents() == SetWord(old(Contents()), rel, w)
      ensures forall d :: d in lists && d != this ==> d.Space() == old(d.Space())
    {
      hide Apart, Owned, Splice, WordBytes, Word;
      ListIn(this, lists, CPA);
      ghost var before, n := Space(), |Contents()|;
      ContentsInSpace();
      Write(rel, WordBytes(w), lists);
      ListIn(this, lists, CPA);
      ContentsInSpace();
      WordStored(before, n, rel, w);
    }

    static lemma WordStored(m: seq<byte>, n: nat, rel: nat, w: uint32)
      requires rel + 4 <= n <= |m|
      ensures Splice(m, rel, WordBytes(w))[..n] == SetWord(m[..n], rel, w)
    {
      hide WordBytes, Word;
    }

    // ------------------------------------------------------------- markers

    /** The bytes of the current marker's struct. */
    ghost function Struct(): (s: seq<byte>)
      requires Placed() && currMarkerOffset != NONE
      reads this, CPA.buf
      ensures |s| == MARKER_SIZE
    {
      CPA.buf[currMarkerOffset..currMarkerOffset + MARKER_SIZE]
    }

    lemma StructInContents(cur: nat)
      requires Placed() && currMarkerOffset != NONE && cur == currMarkerOffset - offset
      ensures Struct() == Contents()[cur..cur + MARKER_SIZE]
    {
      SliceOfSlice(CPA.buf[..], offset, nextFreeByteOffset, cur, cur + MARKER_SIZE);
    }

    /** A load from a field of the current marker. */
    method LoadField(f: nat) returns (w: uint32)
      requires Placed() && currMarkerOffset != NONE && f + 4 <= MARKER_SIZE
      ensures w == Word(Struct(), f)
    {
      w := LoadWord(CPA.buf, currMarkerOffset + f);
      WordInSlice(CPA.buf[..], currMarkerOffset, currMarkerOffset + MARKER_SIZE, f);
    }

    /** A store to a field of the current marker changes that struct only. */
    method StoreField(f: nat, w: uint32, ghost cur: nat, ghost lists: set<ControlList>)
      requires Apart(lists, CPA) && this in lists
      requires currMarkerOffset != NONE && cur == currMarkerOffset - offset && f + 4 <= MARKER_SIZE
      modifies CPA.buf
      ensures Apart(lists, CPA)
      ensures Struct() == SetWord(old(Struct()), f, w)
      ensures Contents() == Splice(old(Contents()), cur, Struct())
      ensures forall d :: d in lists && d != this ==> d.Space() == old(d.Space())
    {
      hide ConsecutivePool.Valid, Splice, SetWord, Owned;
      ghost var before, recorded := Space(), Contents();
      StructInContents(cur);
      ContentsInSpace();
      Write(currMarkerOffset - offset + f, WordBytes(w), lists);
      ContentsInSpace();
      FieldStored(before, |recorded|, cur, f, w);
      StructInContents(cur);
    }

    static lemma FieldStored(m: seq<byte>, n: nat, cur: nat, f: nat, w: uint32)
      requires cur + MARKER_SIZE <= n <= |m| && f + 4 <= MARKER_SIZE
      ensures var r := Splice(m, cur + f, WordBytes(w))[..n];
        var s := SetWord(m[..n][cur..cur + MARKER_SIZE], f, w);
        r[cur..cur + MARKER_SIZE] == s && r == Splice(m[..n], cur, s)
    {
      var r := Splice(m, cur + f, WordBytes(w))[..n];
      assert r == Splice(m[..n], cur + f, WordBytes(w)) == SetWord(m[..n], cur + f, w);
      SetInside(m[..n], cur, f, w);
    }

    static lemma SpliceTwice(m: seq<byte>, at: nat, s: seq<byte>, t: seq<byte>)
      requires |s| == |t| && at + |s| <= |m|
      ensures Splice(Splice(m, at, s), at, t) == Splice(m, at, t)
      ensures Splice(m, at, m[at..at + |s|]) == m
    {
    }

    /** How long the four lists of a command buffer are. */
    static function ExtentOf(bin: ControlList, handles: ControlList, shaderRec: ControlList, count: uint32, uniforms: ControlList): (e: Extent)
      requires bin.Placed() && handles.Placed() && shaderRec.Placed() && uniforms.Placed()
      reads bin, handles, shaderRec, uniforms
    {
      Extent(bin.nextFreeByteOffset - bin.offset, handles.nextFreeByteOffset - handles.offset,
        shaderRec.nextFreeByteOffset - shaderRec.offset, count, uniforms.nextFreeByteOffset - uniforms.offset)
    }

    /** clCloseCurrentMarker. cur is the current marker's position and e how long
        the lists are. */
    method CloseCurrentMarker(handlesCL: ControlList, shaderRecCL: ControlList, shaderRecCount: uint32, uniformsCL: ControlList,
        ghost cur: nat, ghost e: Extent, ghost lists: set<ControlList>)
      requires Apart(lists, CPA) && {this, handlesCL, shaderRecCL, uniformsCL} <= lists
      requires currMarkerOffset != NONE && cur == currMarkerOffset - offset
      requires e == ExtentOf(this, handlesCL, shaderRecCL, shaderRecCount, uniformsCL)
      modifies CPA.buf
      ensures Apart(lists, CPA)
      ensures Contents() == Close(old(Contents()), cur, e)
      ensures forall d :: d in lists && d != this ==> d.Space() == old(d.Space())
    {
      hide Apart, Owned, Splice, SetWord, Minus, Plus, Word, CloseStruct, Close, Contents;
      ListIn(this, lists, CPA);
      ListIn(handlesCL, lists, CPA);
      ListIn(shaderRecCL, lists, CPA);
      ListIn(uniformsCL, lists, CPA);
      ghost var recorded, s0 := Contents(), Struct();
      StructInContents(cur);
      CloseIs(recorded, s0, cur, e);
      StoreSizes(handlesCL, shaderRecCL, uniformsCL, e, recorded, cur, lists);
      StoreCount(shaderRecCount, recorded, s0, cur, e, lists);
    }

    /** currMarker->shaderRecCount = shaderRecCount - currMarker->shaderRecCount */
    method StoreCount(shaderRecCount: uint32, ghost recorded: seq<byte>, ghost s0: seq<byte>, ghost cur: nat, ghost e: Extent, ghost lists: set<ControlList>)
      requires Apart(lists, CPA) && this in lists
      requires currMarkerOffset != NONE && cur == currMarkerOffset - offset && shaderRecCount == e.count
      requires |s0| == MARKER_SIZE && cur + MARKER_SIZE <= e.bin && Struct() == SizedStruct(s0, cur, e)
      requires |recorded| == |Contents()| && Contents() == Splice(recorded, cur, Struct())
      modifies CPA.buf
      ensures Apart(lists, CPA)
      ensures Contents() == Splice(recorded, cur, CloseStruct(s0, cur, e))
      ensures forall d :: d in lists && d != this ==> d.Space() == old(d.Space())
    {
      hide Apart, Owned, Splice, SetWord, Minus, Plus, Word, CloseStruct, SizedStruct, Contents;
      ListIn(this, lists, CPA);
      ghost var sized := Struct();
      var c := LoadField(SHADER_REC_COUNT);
      CloseStructIs(s0, cur, e, c);
      StoreField(SHADER_REC_COUNT, Minus(shaderRecCount, c), cur, lists);
      SpliceTwice(recorded, cur, sized, Struct());
    }

    static lemma CloseIs(bin: seq<byte>, s: seq<byte>, cur: nat, e: Extent)
      requires cur + MARKER_SIZE <= |bin| == e.bin && s == bin[cur..cur + MARKER_SIZE]
      ensures Close(bin, cur, e) == Splice(bin, cur, CloseStruct(s, cur, e))
    {
    }

    /** The four sizes that clCloseCurrentMarker stores. */
    method StoreSizes(handlesCL: ControlList, shaderRecCL: ControlList, uniformsCL: ControlList,
        ghost e: Extent, ghost recorded: seq<byte>, ghost cur: nat, ghost lists: set<ControlList>)
      requires Apart(lists, CPA) && {this, handlesCL, shaderRecCL, uniformsCL} <= lists
      requires currMarkerOffset != NONE && cur == currMarkerOffset - offset
      requires e == ExtentOf(this, handlesCL, shaderRecCL, e.count, uniformsCL) && recorded == Contents()
      modifies CPA.buf
      ensures Apart(lists, CPA)
      ensures Struct() == SizedStruct(old(Struct()), cur, e)
      ensures Contents() == Splice(recorded, cur, Struct())
      ensures forall d :: d in lists && d != this ==> d.Space() == old(d.Space())
    {
      hide Apart, Owned, Splice, SetWord, Minus, Plus, Word, SizedStruct, Contents;
      ListIn(this, lists, CPA);
      ListIn(handlesCL, lists, CPA);
      ListIn(shaderRecCL, lists, CPA);
      ListIn(uniformsCL, lists, CPA);
      ghost var s0 := Struct();
      var size := nextFreeByteOffset - (currMarkerOffset + MARKER_SIZE);
      assert size == e.bin - cur - MARKER_SIZE;
      StoreField(SIZE, size, cur, lists);
      ghost var s1 := Struct();
      assert s1 == SetWord(s0, SIZE, e.bin - cur - MARKER_SIZE);
      StoreSize(HANDLES_OFFSET, HANDLES_SIZE, handlesCL, e.handles, recorded, cur, lists);
      ghost var s2 := Struct();
      assert s2 == SetWord(s1, HANDLES_SIZE, Minus(e.handles, Word(s1, HANDLES_OFFSET)));
      StoreSize(SHADER_REC_OFFSET, SHADER_REC_SIZE, shaderRecCL, e.shaderRec, recorded, cur, lists);
      ghost var s3 := Struct();
      assert s3 == SetWord(s2, SHADER_REC_SIZE, Minus(e.shaderRec, Word(s2, SHADER_REC_OFFSET)));
      StoreSize(UNIFORMS_OFFSET, UNIFORMS_SIZE, uniformsCL, e.uniforms, recorded, cur, lists);
      Sized(s0, s1, s2, s3, cur, e);
    }

    /** currMarker->xSize = xCL->nextFreeByteOffset - (currMarker->xBufOffset + xCL->offset) */
    method StoreSize(from: nat, to: nat, list: ControlList, ghost length: uint32, ghost recorded: seq<byte>, ghost cur: nat, ghost lists: set<ControlList>)
      requires Apart(lists, CPA) && this in lists && list.offset <= list.nextFreeByteOffset
      requires length == list.nextFreeByteOffset - list.offset
      requires currMarkerOffset != NONE && cur == currMarkerOffset - offset && from + 4 <= MARKER_SIZE && to + 4 <= MARKER_SIZE
      requires |recorded| == |Contents()| && Contents() == Splice(recorded, cur, Struct())
      modifies CPA.buf
      ensures Apart(lists, CPA)
      ensures Struct() == SetWord(old(Struct()), to, Minus(length, Word(old(Struct()), from)))
      ensures Contents() == Splice(recorded, cur, Struct())
      ensures forall d :: d in lists && d != this ==> d.Space() == old(d.Space())
    {
      hide ConsecutivePool.Valid, Splice, SetWord, Owned, Minus, Plus, Word;
      ghost var s := Struct();
      var at := LoadField(from);
      MinusShift(list.nextFreeByteOffset, list.offset, at);
      StoreField(to, Minus(list.nextFreeByteOffset, Plus(at, list.offset)), cur, lists);
      SpliceTwice(recorded, cur, s, Struct());
    }

    static lemma MinusShift(a: uint32, off: uint32, h: uint32)
      requires off <= a
      ensures Minus(a, Plus(h, off)) == Minus(a - off, h)
    {
    }

    /** The size stores, one after the other, size the struct. */
    static lemma Sized(s0: seq<byte>, s1: seq<byte>, s2: seq<byte>, s3: seq<byte>, cur: nat, e: Extent)
      requires |s0| == |s1| == |s2| == |s3| == MARKER_SIZE && cur + MARKER_SIZE <= e.bin
      requires s1 == SetWord(s0, SIZE, e.bin - cur - MARKER_SIZE)
      requires s2 == SetWord(s1, HANDLES_SIZE, Minus(e.handles, Word(s1, HANDLES_OFFSET)))
      requires s3 == SetWord(s2, SHADER_REC_SIZE, Minus(e.shaderRec, Word(s2, SHADER_REC_OFFSET)))
      ensures SetWord(s3, UNIFORMS_SIZE, Minus(e.uniforms, Word(s3, UNIFORMS_OFFSET))) == SizedStruct(s0, cur, e)
    {
      hide SetWord, Minus, Word;
      SetWordKeeps(s0, SIZE, e.bin - cur - MARKER_SIZE);
      SetWordKeeps(s1, HANDLES_SIZE, Minus(e.handles, Word(s1, HANDLES_OFFSET)));
      SetWordKeeps(s2, SHADER_REC_SIZE, Minus(e.shaderRec, Word(s2, SHADER_REC_OFFSET)));
    }

    static lemma CloseStructIs(s: seq<byte>, cur: nat, e: Extent, c: uint32)
      requires |s| == MARKER_SIZE && cur + MARKER_SIZE <= e.bin && c == Word(SizedStruct(s, cur, e), SHADER_REC_COUNT)
      ensures SetWord(SizedStruct(s, cur, e), SHADER_REC_COUNT, Minus(e.count, c)) == CloseStruct(s, cur, e)
    {
      hide SizedStruct, SetWord, Word, Minus;
      assert c == Fields(SizedStruct(s, cur, e)).shaderRecCount;
    }
  
    /** Where the current marker is, or 0. */
    ghost function Current(): (cur: nat)
      requires Placed()
      reads this
    {
      if currMarkerOffset == NONE then 0 else currMarkerOffset - offset
    }

    /** clInsertNewCLMarker. cur is the current marker's position, or 0, and e how
        long the lists are. */
    method InsertNewMarker(handlesCL: ControlList, shaderRecCL: ControlList, shaderRecCount: uint32, uniformsCL: ControlList,
        ghost cur: nat, ghost e: Extent, ghost lists: set<ControlList>)
      requires Apart(lists, CPA) && {this, handlesCL, shaderRecCL, uniformsCL} <= lists
      requires |Contents()| + MARKER_SIZE <= |Space()| && cur == Current()
      requires e == ExtentOf(this, handlesCL, shaderRecCL, shaderRecCount, uniformsCL) && e.bin + MARKER_SIZE < NONE
      modifies this`nextFreeByteOffset, this`currMarkerOffset, CPA.buf
      ensures Apart(lists, CPA)
      ensures Contents() == InsertMarker(old(Contents()), cur, old(Cursor()).None?, e)
      ensures Cursor() == Some(e.bin) && IsNew(Struct()) && (old(Cursor()).None? ==> NewStruct(Struct(), 0, 0, 0, 0))
      ensures forall d :: d in lists && d != this ==> d.Space() == old(d.Space())
    {
      hide Apart, Owned, InsertMarker, Contents, NewStruct, IsNew;
      ListIn(this, lists, CPA);
      InsertedIsNew(Contents(), cur, currMarkerOffset == NONE, e);
      InsertBytes(handlesCL, shaderRecCL, shaderRecCount, uniformsCL, cur, e, lists);
      ListIn(this, lists, CPA);
      StructInContents(e.bin);
    }

    method InsertBytes(handlesCL: ControlList, shaderRecCL: ControlList, shaderRecCount: uint32, uniformsCL: ControlList,
        ghost cur: nat, ghost e: Extent, ghost lists: set<ControlList>)
      requires Apart(lists, CPA) && {this, handlesCL, shaderRecCL, uniformsCL} <= lists
      requires |Contents()| + MARKER_SIZE <= |Space()| && cur == Current()
      requires e == ExtentOf(this, handlesCL, shaderRecCL, shaderRecCount, uniformsCL) && e.bin + MARKER_SIZE < NONE
      modifies this`nextFreeByteOffset, this`currMarkerOffset, CPA.buf
      ensures Apart(lists, CPA)
      ensures Contents() == InsertMarker(old(Contents()), cur, old(Cursor()).None?, e)
      ensures Cursor() == Some(e.bin)
      ensures forall d :: d in lists && d != this ==> d.Space() == old(d.Space())
    {
      hide Apart, Owned, Splice, SetWord, Close, FreshMarker, MarkerAt, InsertMarker, Contents, Fields, Word, Linked;
      ListIn(this, lists, CPA);
      ListIn(handlesCL, lists, CPA);
      ListIn(shaderRecCL, lists, CPA);
      ListIn(uniformsCL, lists, CPA);
      InsertMarkerIs(Contents(), cur, e);
      var at: uint32 := nextFreeByteOffset - offset;
      assert at == e.bin;
      if currMarkerOffset == NONE {
        AppendMarker(0, 0, 0, 0, lists);
      } else {
        CloseIfOpen(handlesCL, shaderRecCL, shaderRecCount, uniformsCL, cur, e, lists);
        InsertBehind(at, cur, lists);
      }
      ListIn(this, lists, CPA);
      MoveCursor(at, lists);
    }

    method AppendMarker(handles: uint32, shaderRec: uint32, count: uint32, uniforms: uint32, ghost lists: set<ControlList>)
      requires Apart(lists, CPA) && this in lists && |Contents()| + MARKER_SIZE <= |Space()|
      modifies this`nextFreeByteOffset, CPA.buf
      ensures Apart(lists, CPA) && Cursor() == old(Cursor())
      ensures Contents() == old(Contents()) + FreshMarker(handles, shaderRec, count, uniforms)
      ensures forall d :: d in lists && d != this ==> d.Space() == old(d.Space())
    {
      hide Apart, Owned, FreshMarker, Fields, Word;
      ListIn(this, lists, CPA);
      InsertData(FreshMarker(handles, shaderRec, count, uniforms), lists);
    }

    static lemma InsertMarkerIs(bin: seq<byte>, cur: nat, e: Extent)
      requires |bin| == e.bin && |bin| + MARKER_SIZE < NONE
      ensures InsertMarker(bin, cur, true, e) == bin + FreshMarker(0, 0, 0, 0)
      ensures cur + MARKER_SIZE <= |bin| ==>
        var closed := if MarkerAt(bin, cur).size == 0 then Close(bin, cur, e) else bin;
        InsertMarker(bin, cur, false, e) == Linked(closed, cur)
    {
      hide MarkerAt, Close, FreshMarker, SetWord;
    }

    /** The recorded bytes with a marker appended behind the marker at cur. */
    static ghost function Linked(m: seq<byte>, cur: nat): (r: seq<byte>)
      requires cur + MARKER_SIZE <= |m| < 0x1_0000_0000
      ensures |r| == |m| + MARKER_SIZE
    {
      var k := MarkerAt(m, cur);
      SetWord(m + FreshMarker(Plus(k.handles, k.handlesSize), Plus(k.shaderRec, k.shaderRecSize),
        k.shaderRecCount, Plus(k.uniforms, k.uniformsSize)), cur + NEXT_MARKER, |m|)
    }

    /** The new marker becomes the current one. */
    method MoveCursor(at: uint32, ghost lists: set<ControlList>)
      requires Apart(lists, CPA) && this in lists && at + MARKER_SIZE == |Contents()|
      modifies this`currMarkerOffset
      ensures Apart(lists, CPA) && Contents() == old(Contents()) && Cursor() == Some(at)
      ensures forall d :: d in lists && d != this ==> d.Space() == old(d.Space())
    {
      hide ConsecutivePool.Valid;
      currMarkerOffset := offset + at;
    }

    /** The current marker is closed unless it already has a size. */
    method CloseIfOpen(handlesCL: ControlList, shaderRecCL: ControlList, shaderRecCount: uint32, uniformsCL: ControlList,
        ghost cur: nat, ghost e: Extent, ghost lists: set<ControlList>)
      requires Apart(lists, CPA) && {this, handlesCL, shaderRecCL, uniformsCL} <= lists
      requires currMarkerOffset != NONE && cur == currMarkerOffset - offset
      requires e == ExtentOf(this, handlesCL, shaderRecCL, shaderRecCount, uniformsCL)
      modifies CPA.buf
      ensures Apart(lists, CPA)
      ensures var bin := old(Contents()); Contents() == if MarkerAt(bin, cur).size == 0 then Close(bin, cur, e) else bin
      ensures forall d :: d in lists && d != this ==> d.Space() == old(d.Space())
    {
      hide Apart, Owned, Close, Word;
      ListIn(this, lists, CPA);
      ListIn(handlesCL, lists, CPA);
      ListIn(shaderRecCL, lists, CPA);
      ListIn(uniformsCL, lists, CPA);
      StructInContents(cur);
      var size := LoadField(SIZE);
      if size == 0 {
        CloseCurrentMarker(handlesCL, shaderRecCL, shaderRecCount, uniformsCL, cur, e, lists);
      }
    }

    /** Appends a marker that goes on where the current one ends, and links the
        current one to it. */
    method InsertBehind(at: uint32, ghost cur: nat, ghost lists: set<ControlList>)
      requires Apart(lists, CPA) && this in lists && |Contents()| + MARKER_SIZE <= |Space()|
      requires currMarkerOffset != NONE && cur == currMarkerOffset - offset && at == |Contents()|
      modifies this`nextFreeByteOffset, CPA.buf
      ensures Apart(lists, CPA) && Cursor() == old(Cursor())
      ensures Contents() == Linked(old(Contents()), cur)
      ensures forall d :: d in lists && d != this ==> d.Space() == old(d.Space())
    {
      hide Apart, Owned, Splice, SetWord, Plus, FreshMarker, MarkerAt;
      ListIn(this, lists, CPA);
      var k := ReadMarker(cur);
      AppendMarker(Plus(k.handles, k.handlesSize), Plus(k.shaderRec, k.shaderRecSize),
        k.shaderRecCount, Plus(k.uniforms, k.uniformsSize), lists);
      ListIn(this, lists, CPA);
      ghost var r := Contents();
      StructInContents(cur);
      StoreField(NEXT_MARKER, at, cur, lists);
      SetInside(r, cur, NEXT_MARKER, at);
    }

    /** The fields of the current marker. */
    method ReadMarker(ghost cur: nat) returns (k: Marker)
      requires Placed() && currMarkerOffset != NONE && cur == currMarkerOffset - offset
      ensures k == MarkerAt(Contents(), cur)
    {
      hide Word;
      StructInContents(cur);
      var guard := LoadField(MEM_GUARD);
      var next := LoadField(NEXT_MARKER);
      var size := LoadField(SIZE);
      var h := LoadField(HANDLES_OFFSET);
      var hs := LoadField(HANDLES_SIZE);
      var s := LoadField(SHADER_REC_OFFSET);
      var ss := LoadField(SHADER_REC_SIZE);
      var c := LoadField(SHADER_REC_COUNT);
      var u := LoadField(UNIFORMS_OFFSET);
      var us := LoadField(UNIFORMS_SIZE);
      k := Marker(guard, next, size, h, hs, s, ss, c, u, us);
    }
  }

  /** The 32-bit words of a byte string, as a handle table is read. */
  function Table(s: seq<byte>): (t: seq<uint32>)
    ensures |t| == |s| / 4
    ensures forall k :: 0 <= k < |t| ==> t[k] == Word(s, 4 * k)
  {
    seq(|s| / 4, k requires 0 <= k < |s| / 4 => Word(s, 4 * k))
  }

  lemma TableEntry(m: seq<byte>, at: nat, n: nat, k: nat)
    requires at + n <= |m| && k < n / 4
    ensures Table(m[at..at + n])[k] == Word(m, at + 4 * k)
  {
    WordInSlice(m, at, at + n, 4 * k);
  }
}
