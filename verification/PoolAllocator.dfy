/** driver/PoolAllocator.c: one block at a time from a buffer, the last one freed
    first. The link of a free block overlays the first word of the block. */
module PoolAllocator {
  import opened Bytes
  import opened FreeList
  import opened ConsecutivePool
  import ConsecutiveSpec

  class Pool {
    const layout: Layout
    const buf: array<byte>
    var nextFreeBlock: uint32
    ghost var free: seq<nat>

    ghost predicate Valid()
      reads this, buf
    {
      && layout.Valid() && buf.Length == layout.Off(layout.count)
      && IsChain(layout, buf[..], nextFreeBlock, free)
    }

    /** createPoolAllocator */
    constructor Create(buffer: array<byte>, base: uint32, blockSize: uint32)
      requires blockSize >= 4 && base > 0 && base + buffer.Length < 0x1_0000_0000
      requires buffer.Length % blockSize == 0 && buffer.Length >= blockSize
      modifies buffer
      ensures Valid() && buf == buffer && layout == Layout(base, blockSize, buffer.Length / blockSize)
      ensures free == RunSeq(0, layout.count)
    {
      var count := buffer.Length / blockSize;
      layout := Layout(base, blockSize, count);
      buf := buffer;
      nextFreeBlock := base;
      free := RunSeq(0, count);
      new;
      layout.OffIsProduct(count);
      assert count >= 1 && count * blockSize == buffer.Length;
      LinkRun(layout, buf, base, count, 0, 0);
      WholeChain(layout, buf[..]);
    }

    static lemma WholeChain(L: Layout, m: seq<byte>)
      requires L.Valid() && |m| == L.Off(L.count) && RunLinks(L, m, 0, L.count, 0)
      ensures IsChain(L, m, L.base, RunSeq(0, L.count))
    {
      var f := RunSeq(0, L.count);
      forall i | 0 <= i < |f| ensures InList(L, m, f, i) {
        BlockInBuffer(L, i);
        assert Links(L, m, 0, L.count, 0, i);
      }
    }

    /** poolAllocate: the head of the list, or 0. No byte changes. */
    method Allocate() returns (p: uint32)
      requires Valid()
      modifies this
      ensures Valid()
      ensures old(free) == [] ==> p == 0 && free == [] && nextFreeBlock == old(nextFreeBlock)
      ensures old(free) != [] ==> p == layout.Addr(old(free)[0]) != 0 && free == old(free)[1..]
    {
      hide IsChain;
      ChainAddr(layout, buf[..], nextFreeBlock, free, 0);
      ChainHead(layout, buf[..], nextFreeBlock, free);
      if nextFreeBlock == 0 {
        return 0;
      }
      p := nextFreeBlock;
      ChainDrop(layout, buf[..], nextFreeBlock, free, 1);
      nextFreeBlock := LoadWord(buf, p - layout.base);
      free := free[1..];
    }

    /** poolFree: the block becomes the head of the list. */
    method Free(p: uint32, ghost b: nat)
      requires Valid() && b < layout.count && p == layout.Addr(b) && b !in free
      modifies this, buf
      ensures Valid() && free == [b] + old(free)
      ensures AgreeOutside(layout, old(buf[..]), buf[..], {b})
    {
      hide AgreeOutside;
      ghost var m := buf[..];
      BlockInBuffer(layout, b);
      StoreWord(buf, p - layout.base, nextFreeBlock);
      ChainPush(layout, m, nextFreeBlock, free, b);
      nextFreeBlock := p;
      free := [b] + free;
    }
  }

  lemma ChainHead(L: Layout, m: seq<byte>, head: nat, free: seq<nat>)
    requires L.Valid() && IsChain(L, m, head, free)
    ensures head == AddrAt(L, free, 0)
    ensures free != [] ==> L.Off(free[0]) + 4 <= |m| && Word(m, L.Off(free[0])) == AddrAt(L, free, 1)
    ensures free != [] ==> ConsecutiveSpec.WithoutRun(free, 0, 1) == free[1..]
  {
    if free != [] { assert InList(L, m, free, 0); }
  }

  lemma ChainPush(L: Layout, m: seq<byte>, head: uint32, free: seq<nat>, b: nat)
    requires L.Valid() && IsChain(L, m, head, free) && b < L.count && b !in free
    ensures L.Off(b) + 4 <= |m|
    ensures IsChain(L, SetWord(m, L.Off(b), head), L.Addr(b), [b] + free)
    ensures AgreeOutside(L, m, SetWord(m, L.Off(b), head), {b})
  {
    hide Word, AgreeOutside, SetWord;
    LinkWrite(L, m, b, head);
    var r, f := SetWord(m, L.Off(b), head), [b] + free;
    forall j | 0 <= j < |f| ensures InList(L, r, f, j) {
      if j == 0 {
        BlockInBuffer(L, b);
      } else {
        assert InList(L, m, free, j - 1);
        LinkKept(L, m, r, {b}, free[j - 1]);
      }
    }
  }
}
