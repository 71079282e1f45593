/** driver/ConsecutivePoolAllocator.c: runs of equal blocks handed out from one
    buffer, with the free list threaded through the free blocks themselves.

    Blocks are named by number in the ghost state and by 32-bit address in the
    code. Each method does on bytes what ConsecutiveSpec says on numbers. */
module ConsecutivePool {
  import opened Bytes
  import opened FreeList
  import opened ConsecutiveSpec
  import opened Seqs

  ghost function FreeSet(free: seq<nat>): (bs: set<nat>) {
    set b | b in free
  }

  lemma ChainAddr(L: Layout, m: seq<byte>, head: nat, free: seq<nat>, i: nat)
    requires L.Valid() && IsChain(L, m, head, free) && i <= |free|
    ensures AddrAt(L, free, i) < 0x1_0000_0000
    ensures AddrAt(L, free, i) == 0 <==> i == |free|
    ensures i < |free| ==> L.Off(free[i]) + L.blockSize <= |m|
  {
    if i < |free| {
      assert InList(L, m, free, i);
      BlockInBuffer(L, free[i]);
    }
  }

  lemma ChainStart(L: Layout, m: seq<byte>, head: nat, free: seq<nat>)
    requires L.Valid() && IsChain(L, m, head, free)
    ensures head == AddrAt(L, free, 0) && |m| == L.Off(L.count) && Distinct(free)
  {
  }

  /** Writing blocks that are not on the list leaves the chain as it is. */
  lemma ChainKept(L: Layout, m: seq<byte>, r: seq<byte>, head: nat, free: seq<nat>, bs: set<nat>)
    requires L.Valid() && IsChain(L, m, head, free)
    requires AgreeOutside(L, m, r, bs) && forall c :: c in bs ==> c !in free
    ensures IsChain(L, r, head, free)
  {
    forall j | 0 <= j < |free| ensures InList(L, r, free, j) {
      assert InList(L, m, free, j);
      LinkKept(L, m, r, bs, free[j]);
    }
  }

  /** Unlinking a run at the head of the list writes nothing. */
  lemma ChainDrop(L: Layout, m: seq<byte>, head: nat, free: seq<nat>, n: nat)
    requires L.Valid() && IsChain(L, m, head, free) && n <= |free|
    ensures IsChain(L, m, AddrAt(L, free, n), WithoutRun(free, 0, n))
  {
    var r := WithoutRun(free, 0, n);
    assert r == free[n..];
    forall j | 0 <= j < |r| ensures InList(L, m, r, j) {
      assert InList(L, m, free, n + j);
    }
  }

  /** Unlinking a run further down rewrites the link of its predecessor. */
  lemma ChainUnlink(L: Layout, m: seq<byte>, head: nat, free: seq<nat>, i: nat, n: nat)
    requires L.Valid() && IsChain(L, m, head, free) && 0 < i && i + n <= |free|
    requires AddrAt(L, free, i + n) < 0x1_0000_0000 && L.Off(free[i - 1]) + 4 <= |m|
    ensures var r := SetWord(m, L.Off(free[i - 1]), AddrAt(L, free, i + n));
      && IsChain(L, r, head, WithoutRun(free, i, n))
      && AgreeOutside(L, m, r, {free[i - 1]})
  {
    hide SetWord, Word, AgreeOutside;
    assert InList(L, m, free, i - 1);
    LinkWrite(L, m, free[i - 1], AddrAt(L, free, i + n));
    var r := SetWord(m, L.Off(free[i - 1]), AddrAt(L, free, i + n));
    var f := WithoutRun(free, i, n);
    forall j | 0 <= j < |f| ensures InList(L, r, f, j) {
      var k := if j < i then j else j + n;
      assert f[j] == free[k] && InList(L, m, free, k);
      if j != i - 1 {
        LinkKept(L, m, r, {free[i - 1]}, free[k]);
      }
      assert AddrAt(L, f, j + 1) == AddrAt(L, free, if j == i - 1 then i + n else k + 1);
    }
    RestDistinct(free, i, n);
  }

  lemma RestDistinct(free: seq<nat>, i: nat, n: nat)
    requires Distinct(free) && i + n <= |free|
    ensures Distinct(WithoutRun(free, i, n))
  {
    var f := WithoutRun(free, i, n);
    forall j, k | 0 <= j < k < |f| ensures f[j] != f[k] {
      assert f[j] == free[if j < i then j else j + n];
      assert f[k] == free[if k < i then k else k + n];
    }
  }

  /** Entering the list at the predecessor of its k-th block and linking that
      predecessor to the successor leaves the two tails, without the k-th block. */
  lemma ChainTake(L: Layout, m: seq<byte>, head: nat, free: seq<nat>, k: nat)
    requires L.Valid() && IsChain(L, m, head, free) && 0 < k < |free|
    requires AddrAt(L, free, k + 1) < 0x1_0000_0000 && L.Off(free[k - 1]) + 4 <= |m|
    ensures var r := SetWord(m, L.Off(free[k - 1]), AddrAt(L, free, k + 1));
      && IsChain(L, r, AddrAt(L, free, k - 1), TakenInPlace(free, k))
      && AgreeOutside(L, m, r, {free[k - 1]})
  {
    hide IsChain, AgreeOutside, SetWord, Word, WithoutRun, TakenInPlace, AddrAt;
    ChainDrop(L, m, head, free, k - 1);
    TailFrom(L, free, k);
    ChainUnlink(L, m, AddrAt(L, free, k - 1), WithoutRun(free, 0, k - 1), 1, 1);
  }

  /** The list from the predecessor of its k-th block on. */
  lemma TailFrom(L: Layout, free: seq<nat>, k: nat)
    requires 0 < k < |free|
    ensures var rest := WithoutRun(free, 0, k - 1);
      && |rest| >= 2 && rest[0] == free[k - 1] && AddrAt(L, rest, 2) == AddrAt(L, free, k + 1)
      && WithoutRun(rest, 1, 1) == TakenInPlace(free, k)
  {
    var rest := WithoutRun(free, 0, k - 1);
    assert rest == free[k - 1..];
  }

  lemma ChainTakeFirst(L: Layout, m: seq<byte>, head: nat, free: seq<nat>)
    requires L.Valid() && IsChain(L, m, head, free) && |free| > 1
    ensures IsChain(L, m, AddrAt(L, free, 1), TakenInPlace(free, 0))
  {
    ChainDrop(L, m, head, free, 1);
    assert WithoutRun(free, 0, 1) == TakenInPlace(free, 0);
  }

  /** f is the list free with the unlisted run b, ..., b + n - 1 inserted at at. */
  ghost predicate Extends(L: Layout, free: seq<nat>, at: nat, b: nat, n: nat, f: seq<nat>) {
    && n > 0 && b + n <= L.count
    && Inserted(free, at, b, n, f) && Distinct(f)
    && (forall c :: c in Run(b, n) ==> c !in free)
    && (at > 0 ==> free[at - 1] + 1 == b)
    && (at == 0 ==> forall j :: 0 <= j < |free| ==> free[j] + 1 != b)
  }

  /** The blocks written when the run is inserted at position at. */
  ghost function Written(free: seq<nat>, at: nat, b: nat, n: nat): (bs: set<nat>)
    requires at <= |free|
  {
    (if at > 0 then {free[at - 1]} else {}) + Run(b, n)
  }

  /** A run of blocks that links its own members and then the old successor,
      entered from the predecessor or from the head, extends the chain. */
  lemma ChainInsert(L: Layout, m: seq<byte>, head: nat, free: seq<nat>, r: seq<byte>, at: nat, b: nat, n: nat, f: seq<nat>)
    requires L.Valid() && IsChain(L, m, head, free) && Extends(L, free, at, b, n, f)
    requires AgreeOutside(L, m, r, Written(free, at, b, n))
    requires at > 0 ==> L.Off(free[at - 1]) + 4 <= |r| && Word(r, L.Off(free[at - 1])) == L.Addr(b)
    requires RunLinks(L, r, b, n, AddrAt(L, free, at))
    ensures IsChain(L, r, if at > 0 then head else L.Addr(b), f)
    ensures AgreeOutside(L, m, r, FreeSet(f))
  {
    hide Word;
    forall j | 0 <= j < |f| ensures InList(L, r, f, j) {
      if at <= j < at + n {
        BlockInBuffer(L, f[j]);
        assert Links(L, r, b, n, AddrAt(L, free, at), f[j]);
      } else {
        var k := if j < at then j else j - n;
        assert f[j] == free[k] && InList(L, m, free, k);
        if k != at - 1 {
          LinkKept(L, m, r, Written(free, at, b, n), free[k]);
        }
      }
    }
    InsertedElements(free, at, b, n, f);
    AgreeWiden(L, m, r, Written(free, at, b, n), FreeSet(f));
  }

  class ConsecutivePool {
    const layout: Layout
    const buf: array<byte>
    var nextFreeBlock: uint32
    var numFreeBlocks: uint32
    ghost var free: seq<nat>
    ghost var live: set<nat>

    ghost predicate Valid()
      reads this, buf
    {
      && layout.Valid()
      && buf.Length == layout.Off(layout.count)
      && IsChain(layout, buf[..], nextFreeBlock, free)
    }

    ghost function State(): (s: PoolState)
      reads this
    {
      PoolState(free, live, numFreeBlocks)
    }

    /** createConsecutivePoolAllocator: every block of the buffer is free, in
        address order. */
    constructor Create(buffer: array<byte>, base: uint32, blockSize: uint32)
      requires blockSize >= 4 && base > 0 && base + buffer.Length < 0x1_0000_0000
      requires buffer.Length % blockSize == 0 && buffer.Length >= blockSize
      modifies buffer
      ensures Valid() && buf == buffer && layout == Layout(base, blockSize, buffer.Length / blockSize)
      ensures State() == Created(layout.count)
    {
      var count := buffer.Length / blockSize;
      layout := Layout(base, blockSize, count);
      buf := buffer;
      nextFreeBlock := base;
      numFreeBlocks := count;
      free, live := RunSeq(0, count), {};
      new;
      layout.OffIsProduct(count);
      assert count >= 1 && count * blockSize == buffer.Length;
      LinkRun(layout, buf, base, count, 0, 0);
      forall i | 0 <= i < |free| ensures InList(layout, buf[..], free, i) {
        BlockInBuffer(layout, i);
        assert Links(layout, buf[..], 0, count, 0, i);
      }
    }

    /** *ptr, for a pointer to a block. */
    method Load(ptr: uint32, ghost b: nat) returns (w: uint32)
      requires layout.Valid() && buf.Length == layout.Off(layout.count)
      requires b < layout.count && ptr == layout.Addr(b)
      ensures layout.Off(b) + 4 <= buf.Length && w == Word(buf[..], layout.Off(b))
    {
      BlockInBuffer(layout, b);
      w := LoadWord(buf, ptr - layout.base);
    }

    /** The inner loop of consecutivePoolAllocate: do numBlocks list neighbours
        from ptr on follow each other in memory as well? */
    method FitsAt(ptr: uint32, numBlocks: uint32, ghost i: nat) returns (found: bool)
      requires Valid() && numBlocks > 0 && i < |free| && ptr == AddrAt(layout, free, i)
      ensures found <==> RunAt(free, i, numBlocks)
    {
      hide Word, Distinct;
      ghost var m := buf[..];
      assert InList(layout, m, free, i);
      found := true;
      var nextBlock: nat := ptr + layout.blockSize;
      var nextFree := Load(ptr, free[i]);
      var c := 1;
      while c != numBlocks
        invariant 1 <= c <= numBlocks
        invariant i + c <= |free| && RunAt(free, i, c)
        invariant nextBlock == layout.Addr(free[i] + c)
        invariant nextFree == AddrAt(layout, free, i + c)
        decreases numBlocks - c
      {
        ChainAddr(layout, m, nextFreeBlock, free, i + c);
        if i + c < |free| {
          assert InList(layout, m, free, i + c);
          AddrInjective(layout, free[i + c], free[i] + c);
        }
        if nextBlock != nextFree {
          return false;
        }
        nextFree := Load(nextFree, free[i + c]);
        nextBlock := nextBlock + layout.blockSize;
        c := c + 1;
      }
    }

    /** The outer loop of consecutivePoolAllocate: the first list position where
        a run of numBlocks starts, or 0. */
    method FindRun(numBlocks: uint32) returns (ptr: uint32, ghost i: nat)
      requires Valid() && numBlocks > 0
      ensures ptr == 0 <==> FirstFit(free, numBlocks, 0).None?
      ensures ptr != 0 ==> FirstFit(free, numBlocks, 0) == Some(i)
      ensures ptr != 0 ==> ptr == AddrAt(layout, free, i)
    {
      ghost var m := buf[..];
      ptr := nextFreeBlock;
      i := 0;
      ChainAddr(layout, m, nextFreeBlock, free, 0);
      while ptr != 0
        invariant i <= |free| && ptr == AddrAt(layout, free, i)
        invariant FirstFit(free, numBlocks, 0) == FirstFit(free, numBlocks, i)
        decreases |free| - i
      {
        ChainAddr(layout, m, nextFreeBlock, free, i);
        assert InList(layout, m, free, i);
        var found := FitsAt(ptr, numBlocks, i);
        if found {
          return;
        }
        ptr := Load(ptr, free[i]);
        i := i + 1;
      }
      ChainAddr(layout, m, nextFreeBlock, free, i);
    }

    /** The walk that finds the list element in front of ptr. */
    method Predecessor(ptr: uint32, ghost i: nat) returns (prevPtr: uint32)
      requires Valid() && 0 < i < |free| && ptr == AddrAt(layout, free, i)
      ensures prevPtr == AddrAt(layout, free, i - 1)
    {
      prevPtr := nextFreeBlock;
      var currPtr := prevPtr;
      ghost var j := 0;
      while currPtr != ptr
        invariant j <= i && currPtr == AddrAt(layout, free, j)
        invariant prevPtr == AddrAt(layout, free, if j == 0 then 0 else j - 1)
        decreases i - j
      {
        assert InList(layout, buf[..], free, j);
        prevPtr := currPtr;
        currPtr := Load(currPtr, free[j]);
        j := j + 1;
      }
      assert InList(layout, buf[..], free, i) && InList(layout, buf[..], free, j);
      AddrInjective(layout, free[j], free[i]);
    }

    /** What the last block of the run at ptr points to. */
    method BehindRun(ptr: uint32, numBlocks: uint32, ghost i: nat) returns (candidate: uint32)
      requires Valid() && numBlocks > 0 && RunAt(free, i, numBlocks)
      requires ptr == AddrAt(layout, free, i)
      ensures candidate == AddrAt(layout, free, i + numBlocks)
    {
      ghost var last := i + numBlocks - 1;
      assert InList(layout, buf[..], free, last);
      layout.OffAdd(free[i], numBlocks - 1);
      layout.OffIsProduct(numBlocks - 1);
      ChainAddr(layout, buf[..], nextFreeBlock, free, last);
      candidate := Load(ptr + (numBlocks - 1) * layout.blockSize, free[last]);
    }

    static lemma FirstOf(free: seq<nat>, i: nat)
      requires Distinct(free) && i < |free| && free[0] == free[i]
      ensures i == 0
    {
    }

    /** The found run leaves the list: the head or the predecessor's link is set
        to what its last block points to, and the counter goes down. */
    method Unlink(ptr: uint32, numBlocks: uint32, ghost i: nat)
      requires Valid() && numBlocks > 0 && RunAt(free, i, numBlocks)
      requires ptr == AddrAt(layout, free, i)
      modifies this, buf
      ensures Valid()
      ensures State() == PoolState(WithoutRun(old(free), i, numBlocks),
        old(live) + Run(old(free)[i], numBlocks), Sub32(old(numFreeBlocks), numBlocks))
      ensures AgreeOutside(layout, old(buf[..]), buf[..], FreeSet(free))
    {
      hide AgreeOutside, Distinct, Word, Run, IsChain, SetWord;
      ghost var m := buf[..];
      var candidate := BehindRun(ptr, numBlocks, i);
      ChainStart(layout, m, nextFreeBlock, free);
      ghost var rest := WithoutRun(free, i, numBlocks);
      live := live + Run(free[i], numBlocks);
      numFreeBlocks := Sub32(numFreeBlocks, numBlocks);
      if nextFreeBlock == ptr {
        AddrInjective(layout, free[0], free[i]);
        FirstOf(free, i);
        ChainDrop(layout, m, nextFreeBlock, free, numBlocks);
        AgreeSame(layout, m, FreeSet(rest));
        nextFreeBlock := candidate;
      } else {
        var prevPtr := Predecessor(ptr, i);
        ChainAddr(layout, m, nextFreeBlock, free, i - 1);
        ChainUnlink(layout, m, nextFreeBlock, free, i, numBlocks);
        assert rest[i - 1] == free[i - 1];
        StoreWord(buf, prevPtr - layout.base, candidate);
        AgreeWiden(layout, m, buf[..], {free[i - 1]}, FreeSet(rest));
      }
      free := rest;
    }

    /** consecutivePoolAllocate: the first run of numBlocks list neighbours that
        are also neighbours in memory is unlinked and its offset returned. */
    method Allocate(numBlocks: uint32) returns (r: uint32)
      requires Valid() && numBlocks > 0
      modifies this, buf
      ensures Valid()
      ensures var (t, got) := ConsecutiveSpec.Allocate(old(State()), numBlocks);
        && State() == t
        && (got.None? ==> r == NONE)
        && (got.Some? ==> got.value + numBlocks <= layout.count && r == layout.Off(got.value) < NONE)
      ensures AgreeOutside(layout, old(buf[..]), buf[..], FreeSet(free))
    {
      var ptr;
      ghost var i;
      ptr, i := FindRun(numBlocks);
      if ptr == 0 {
        return NONE;
      }
      assert InList(layout, buf[..], free, i) && InList(layout, buf[..], free, i + numBlocks - 1);
      BlockInBuffer(layout, free[i]);
      Unlink(ptr, numBlocks, i);
      r := ptr - layout.base;
    }
  
    /** consecutivePoolFree: a run goes back behind the block in front of it in
        memory when that one is free, otherwise to the front of the list. */
    method Release(p: uint32, numBlocks: uint32, ghost b: nat)
      requires Valid() && numBlocks > 0 && b + numBlocks <= layout.count
      requires p == layout.Addr(b)
      requires forall c :: c in Run(b, numBlocks) ==> c !in free
      modifies this, buf
      ensures Valid() && State() == ConsecutiveSpec.Release(old(State()), b, numBlocks)
      ensures AgreeOutside(layout, old(buf[..]), buf[..], FreeSet(free))
    {
      ghost var longer := WithRun(free, b, numBlocks);
      WithRunElements(free, b, numBlocks);
      ghost var at := WithRunPositions(free, b, numBlocks);
      GiveBack(p, numBlocks, b, at, longer);
      live := live - Run(b, numBlocks);
      numFreeBlocks := Add32(numFreeBlocks, numBlocks);
    }

    method GiveBack(p: uint32, numBlocks: uint32, ghost b: nat, ghost at: nat, ghost longer: seq<nat>)
      requires Valid() && Extends(layout, free, at, b, numBlocks, longer) && p == layout.Addr(b)
      modifies this`nextFreeBlock, this`free, buf
      ensures Valid() && free == longer
      ensures AgreeOutside(layout, old(buf[..]), buf[..], FreeSet(free))
    {
      var found := false;
      if nextFreeBlock != 0 {
        found := SpliceIn(p, numBlocks, b, at, longer);
      } else {
        ChainAddr(layout, buf[..], nextFreeBlock, free, 0);
      }
      if !found {
        ghost var m := buf[..];
        ChainAddr(layout, m, nextFreeBlock, free, 0);
        var tmp := nextFreeBlock;
        LinkRun(layout, buf, p, numBlocks, tmp, b);
        ChainInsert(layout, m, tmp, free, buf[..], 0, b, numBlocks, longer);
        nextFreeBlock := p;
      }
      free := longer;
    }

    /** The search loop of consecutivePoolFree. It goes on after it has spliced
        the run in, over the spliced run and the rest, and never splices again. */
    method SpliceIn(p: uint32, numBlocks: uint32, ghost b: nat, ghost at: nat, ghost longer: seq<nat>) returns (found: bool)
      requires Valid() && Extends(layout, free, at, b, numBlocks, longer) && p == layout.Addr(b)
      modifies buf
      ensures found <==> at > 0
      ensures !found ==> buf[..] == old(buf[..])
      ensures found ==> IsChain(layout, buf[..], nextFreeBlock, longer)
      ensures found ==> AgreeOutside(layout, old(buf[..]), buf[..], FreeSet(longer))
    {
      ghost var m, list, i := buf[..], free, 0;
      found := false;
      var listPtr := nextFreeBlock;
      while listPtr != 0
        invariant IsChain(layout, buf[..], nextFreeBlock, list)
        invariant i <= |list| && listPtr == AddrAt(layout, list, i)
        invariant !found ==> buf[..] == m && list == free && (at > 0 ==> i < at)
        invariant found ==> at > 0 && i >= at && list == longer
        invariant found ==> AgreeOutside(layout, m, buf[..], FreeSet(longer))
        decreases |list| - i + (if found then 0 else numBlocks + 1)
      {
        ChainAddr(layout, buf[..], nextFreeBlock, list, i);
        assert InList(layout, buf[..], list, i);
        AddrInjective(layout, list[i] + 1, b);
        assert found ==> longer[at - 1] == free[at - 1];
        if listPtr + layout.blockSize == p {
          SpliceBehind(listPtr, p, numBlocks, b, at, longer);
          found := true;
          list := longer;
          assert InList(layout, buf[..], list, i);
        }
        listPtr := Load(listPtr, list[i]);
        i := i + 1;
      }
      ChainAddr(layout, buf[..], nextFreeBlock, list, i);
    }

    method SpliceBehind(listPtr: uint32, p: uint32, numBlocks: uint32, ghost b: nat, ghost at: nat, ghost longer: seq<nat>)
      requires Valid() && Extends(layout, free, at, b, numBlocks, longer) && p == layout.Addr(b)
      requires 0 < at && listPtr == AddrAt(layout, free, at - 1)
      modifies buf
      ensures IsChain(layout, buf[..], nextFreeBlock, longer)
      ensures AgreeOutside(layout, old(buf[..]), buf[..], FreeSet(longer))
    {
      ghost var m := buf[..];
      ghost var prev := free[at - 1];
      assert InList(layout, m, free, at - 1);
      BlockInBuffer(layout, prev);
      ChainAddr(layout, m, nextFreeBlock, free, at);
      var tmp := Load(listPtr, prev);
      LinkWrite(layout, m, prev, p);
      StoreWord(buf, listPtr - layout.base, p);
      ghost var r := buf[..];
      LinkRun(layout, buf, p, numBlocks, tmp, b);
      AgreeTrans(layout, m, r, buf[..], {prev}, Run(b, numBlocks));
      LinkKept(layout, r, buf[..], Run(b, numBlocks), prev);
      ChainInsert(layout, m, nextFreeBlock, free, buf[..], at, b, numBlocks, longer);
    }
  
    /** The in-place path of consecutivePoolReAllocate takes listPtr, the list's
        k-th block, and leaves the head at its predecessor or its successor. */
    method TakeInPlace(listPtr: uint32, prevPtr: uint32, ghost k: nat)
      requires Valid() && k < |free| && listPtr == AddrAt(layout, free, k)
      requires prevPtr == if k == 0 then 0 else AddrAt(layout, free, k - 1)
      modifies this`nextFreeBlock, this`numFreeBlocks, this`free, buf
      ensures Valid() && free == TakenInPlace(old(free), k)
      ensures numFreeBlocks == Sub32(old(numFreeBlocks), 1)
      ensures AgreeOutside(layout, old(buf[..]), buf[..], FreeSet(old(free)))
    {
      hide AgreeOutside, SetWord;
      ghost var m := buf[..];
      assert InList(layout, m, free, k);
      ChainAddr(layout, m, nextFreeBlock, free, k + 1);
      var next := Load(listPtr, free[k]);
      numFreeBlocks := Sub32(numFreeBlocks, 1);
      if k > 0 { ChainAddr(layout, m, nextFreeBlock, free, k - 1); }
      if prevPtr != 0 {
        ChainTake(layout, m, nextFreeBlock, free, k);
        StoreWord(buf, prevPtr - layout.base, next);
        AgreeWiden(layout, m, buf[..], {free[k - 1]}, FreeSet(free));
        nextFreeBlock := prevPtr;
      } else if next != 0 {
        ChainTakeFirst(layout, m, nextFreeBlock, free);
        nextFreeBlock := next;
        AgreeSame(layout, m, FreeSet(free));
      } else {
        AgreeSame(layout, m, FreeSet(free));
      }
      free := TakenInPlace(free, k);
    }

    /** The search of the in-place path for the block behind the current ones. */
    method FindBehind(nextCandidate: uint32, ghost c: nat) returns (listPtr: uint32, prevPtr: uint32, ghost k: nat)
      requires Valid() && nextCandidate == layout.Addr(c)
      ensures k == IndexOf(free, c) && listPtr == AddrAt(layout, free, k)
      ensures listPtr != 0 <==> k < |free|
      ensures k < |free| ==> prevPtr == if k == 0 then 0 else AddrAt(layout, free, k - 1)
    {
      prevPtr, listPtr, k := 0, nextFreeBlock, 0;
      while listPtr != 0
        invariant k <= |free| && listPtr == AddrAt(layout, free, k)
        invariant prevPtr == if k == 0 then 0 else AddrAt(layout, free, k - 1)
        invariant forall j :: 0 <= j < k ==> free[j] != c
        decreases |free| - k
      {
        ChainAddr(layout, buf[..], nextFreeBlock, free, k);
        assert InList(layout, buf[..], free, k);
        AddrInjective(layout, free[k], c);
        if listPtr == nextCandidate {
          return;
        }
        prevPtr := listPtr;
        listPtr := Load(listPtr, free[k]);
        k := k + 1;
      }
      ChainAddr(layout, buf[..], nextFreeBlock, free, k);
    }

    /** The bytes of n blocks from block b on. */
    ghost function Content(b: nat, n: nat): (s: seq<byte>)
      requires layout.Valid() && buf.Length == layout.Off(layout.count) && b + n <= layout.count
      reads buf
    {
      RangeInBuffer(layout, b, n);
      buf[layout.Off(b)..layout.Off(b + n)]
    }

    /** The in-place path of consecutivePoolReAllocate. */
    method ExtendInPlace(currentMem: uint32, listPtr: uint32, prevPtr: uint32, ghost k: nat, ghost b: nat, ghost n: nat, ghost newN: nat)
        returns (r: uint32)
      requires Valid() && 0 < n <= newN && b + n <= layout.count && currentMem == layout.Addr(b)
      requires GrowsInPlace(free, b, n, newN) && k == IndexOf(free, b + n) && listPtr == AddrAt(layout, free, k)
      requires prevPtr == if k == 0 then 0 else AddrAt(layout, free, k - 1)
      requires forall c :: c in Run(b, n) ==> c !in free
      modifies this, buf
      ensures Valid() && State() == ConsecutiveSpec.Reallocate(old(State()), b, n, newN).0
      ensures r == layout.Off(b) < NONE && b + newN <= layout.count && Content(b, n) == old(Content(b, n))
      ensures AgreeOutside(layout, old(buf[..]), buf[..], FreeSet(old(free)) + Run(b, n))
    {
      hide AgreeOutside, Word, TakenInPlace;
      ghost var m, f := buf[..], free;
      assert InList(layout, m, free, k);
      RangeInBuffer(layout, b, n);
      TakeInPlace(listPtr, prevPtr, k);
      live := live + Run(b, newN);
      RunUntouched(layout, m, buf[..], FreeSet(f), b, n);
      AgreeWiden(layout, m, buf[..], FreeSet(f), FreeSet(f) + Run(b, n));
      r := currentMem - layout.base;
    }

    /** consecutivePoolReAllocate. A growth by at most one block takes the block
        behind the current ones if it is free; otherwise the blocks are copied
        to a new run and given back. A caller that shrinks would be copied past
        the end of its new run, so callers may only grow. */
    method Reallocate(currentMem: uint32, currNumBlocks: uint32, newNumBlocks: uint32, ghost b: nat) returns (r: uint32)
      requires Valid() && 0 < currNumBlocks <= newNumBlocks && b + currNumBlocks <= layout.count
      requires currentMem == layout.Addr(b)
      requires forall c :: c in Run(b, currNumBlocks) ==> c !in free
      modifies this, buf
      ensures Valid()
      ensures var (t, got) := ConsecutiveSpec.Reallocate(old(State()), b, currNumBlocks, newNumBlocks);
        && State() == t
        && (got.None? ==> r == NONE)
        && (got.Some? ==>
             && r == layout.Off(got.value) < NONE && got.value + newNumBlocks <= layout.count
             && Content(got.value, currNumBlocks) == old(Content(b, currNumBlocks)))
      ensures AgreeOutside(layout, old(buf[..]), buf[..], FreeSet(old(free)) + Run(b, currNumBlocks))
    {
      hide AgreeOutside, Distinct, Word, Run, FreeSet;
      RangeInBuffer(layout, b, currNumBlocks);
      layout.OffIsProduct(currNumBlocks);
      layout.OffAdd(b, currNumBlocks);
      if newNumBlocks - currNumBlocks < 2 {
        var nextCandidate := currentMem + layout.blockSize * currNumBlocks;
        var listPtr, prevPtr;
        ghost var k;
        listPtr, prevPtr, k := FindBehind(nextCandidate, b + currNumBlocks);
        if listPtr != 0 {
          r := ExtendInPlace(currentMem, listPtr, prevPtr, k, b, currNumBlocks, newNumBlocks);
          return;
        }
      }
      r := Move(currentMem, currNumBlocks, newNumBlocks, b);
    }

    method Move(currentMem: uint32, currNumBlocks: uint32, newNumBlocks: uint32, ghost b: nat) returns (r: uint32)
      requires Valid() && 0 < currNumBlocks <= newNumBlocks && b + currNumBlocks <= layout.count
      requires currentMem == layout.Addr(b)
      requires forall c :: c in Run(b, currNumBlocks) ==> c !in free
      requires !GrowsInPlace(free, b, currNumBlocks, newNumBlocks)
      modifies this, buf
      ensures Valid()
      ensures var (t, got) := ConsecutiveSpec.Reallocate(old(State()), b, currNumBlocks, newNumBlocks);
        && State() == t
        && (got.None? ==> r == NONE)
        && (got.Some? ==>
             && r == layout.Off(got.value) < NONE && got.value + newNumBlocks <= layout.count
             && Content(got.value, currNumBlocks) == old(Content(b, currNumBlocks)))
      ensures AgreeOutside(layout, old(buf[..]), buf[..], FreeSet(old(free)) + Run(b, currNumBlocks))
    {
      ghost var m, s, list := buf[..], State(), free;
      r := Allocate(newNumBlocks);
      ghost var m1, rest := buf[..], free;
      ghost var covered := FreeSet(list) + Run(b, currNumBlocks);
      AllocatedElements(s, newNumBlocks);
      AgreeWiden(layout, m, m1, FreeSet(rest), covered);
      if r == NONE {
        return;
      }
      ghost var to := ConsecutiveSpec.Allocate(s, newNumBlocks).1.value;
      RunUntouched(layout, m, m1, FreeSet(rest), b, currNumBlocks);
      numFreeBlocks := Sub32(numFreeBlocks, newNumBlocks - currNumBlocks);
      CopyAndRelease(r, currentMem, currNumBlocks, b, to);
      AgreeWiden(layout, m1, buf[..], FreeSet(rest) + Run(to, currNumBlocks) + Run(b, currNumBlocks), covered);
      AgreeTrans(layout, m, m1, buf[..], covered, covered);
      assert covered + covered == covered;
    }

    method CopyAndRelease(dst: nat, src: uint32, n: uint32, ghost b: nat, ghost to: nat)
      requires Valid() && n > 0 && b + n <= layout.count && to + n <= layout.count
      requires src == layout.Addr(b) && dst == layout.Off(to)
      requires forall c :: c in Run(to, n) ==> c !in free
      requires forall c :: c in Run(b, n) ==> c !in free
      requires Run(to, n) !! Run(b, n)
      modifies this, buf
      ensures Valid() && State() == ConsecutiveSpec.Release(old(State()), b, n)
      ensures AgreeOutside(layout, old(buf[..]), buf[..], FreeSet(old(free)) + Run(to, n) + Run(b, n))
      ensures Content(to, n) == old(Content(b, n))
    {
      ghost var m, list := buf[..], free;
      Copy(dst, src, n, b, to);
      ghost var m1 := buf[..];
      Release(src, n, b);
      WithRunElements(list, b, n);
      RunUntouched(layout, m1, buf[..], FreeSet(free), to, n);
      AgreeTrans(layout, m, m1, buf[..], Run(to, n), FreeSet(free));
      AgreeWiden(layout, m, buf[..], Run(to, n) + FreeSet(free), FreeSet(list) + Run(to, n) + Run(b, n));
    }

    /** memcpy of n blocks into blocks that are not on the free list. */
    method Copy(dst: nat, src: uint32, n: nat, ghost b: nat, ghost to: nat)
      requires Valid() && b + n <= layout.count && to + n <= layout.count
      requires src == layout.Addr(b) && dst == layout.Off(to)
      requires forall c :: c in Run(to, n) ==> c !in free
      modifies buf
      ensures Valid()
      ensures AgreeOutside(layout, old(buf[..]), buf[..], Run(to, n))
      ensures Content(to, n) == old(Content(b, n))
    {
      ghost var m := buf[..];
      RangeInBuffer(layout, b, n);
      RangeInBuffer(layout, to, n);
      layout.OffIsProduct(n);
      layout.OffAdd(b, n);
      layout.OffAdd(to, n);
      var from := src - layout.base;
      Store(buf, dst, buf[from..from + n * layout.blockSize]);
      RangeInRun(layout, to, n);
      ChainKept(layout, m, buf[..], nextFreeBlock, free, Run(to, n));
    }
  }
}
