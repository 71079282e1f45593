/** driver/fifo.c: a queue of byte records. Its elements form a doubly linked list
    inside the blocks of one pool, its records lie in the blocks of another. */
module FifoQueue {
  import opened Arithmetic
  import opened Bytes
  import opened FreeList
  import opened ConsecutivePool
  import opened PoolAllocator

  // 32-bit layout of struct FifoElem; a free block's link overlays next
  const ELEM_SIZE := 12
  const NEXT := 0
  const PREV := 4
  const DATA := 8

  /** The bytes of block b. */
  ghost function Block(L: Layout, m: seq<byte>, b: nat): (s: seq<byte>)
    requires L.Valid() && |m| == L.Off(L.count) && b < L.count
    ensures |s| == L.blockSize
  {
    BlockInBuffer(L, b);
    m[L.Off(b)..L.Off(b) + L.blockSize]
  }

  /** Every block of a pool is on its free list or in use, and not both. */
  ghost predicate Split(count: nat, used: seq<nat>, free: seq<nat>) {
    && Distinct(used) && Distinct(free) && |used| + |free| == count
    && (forall i :: 0 <= i < |used| ==> used[i] < count) && (forall i :: 0 <= i < |free| ==> free[i] < count)
    && (forall b :: 0 <= b < count ==> (b in used <==> b !in free))
  }

  lemma SplitFirst(count: nat, used: seq<nat>, free: seq<nat>)
    requires Split(count, used, free)
    ensures |used| + |free| == count
    ensures free != [] ==> free[0] < count && free[0] !in used && free[0] !in free[1..]
    ensures used != [] ==> used[0] < count && used[0] !in free
    ensures forall b :: b in used ==> b !in free
  {
  }

  lemma SplitTake(count: nat, used: seq<nat>, free: seq<nat>)
    requires Split(count, used, free) && free != []
    ensures Split(count, used + [free[0]], free[1..])
  {
    var u, f := used + [free[0]], free[1..];
    assert forall b :: b in free <==> b == free[0] || b in f;
    assert free[0] !in f;
    assert forall b :: b in u <==> b in used || b == free[0];
  }

  lemma SplitGive(count: nat, used: seq<nat>, free: seq<nat>)
    requires Split(count, used, free) && used != []
    ensures used[0] !in free && Split(count, used[1..], [used[0]] + free)
  {
    var u, f := used[1..], [used[0]] + free;
    assert forall b :: b in used <==> b == used[0] || b in u;
    assert used[0] !in u;
    assert forall b :: b in f <==> b in free || b == used[0];
  }

  /** nodes[0] is the element that leaves next. Each element's prev is the one
      behind it in the queue, its next the one before it. */
  ghost predicate Linked(L: Layout, m: seq<byte>, D: Layout, nodes: seq<nat>, slots: seq<nat>, i: nat)
    requires L.Valid() && |m| == L.Off(L.count) && i < |nodes| == |slots|
  {
    && nodes[i] < L.count && slots[i] < D.count && L.Off(nodes[i]) + ELEM_SIZE <= |m|
    && Word(m, L.Off(nodes[i]) + NEXT) == (if i == 0 then 0 else L.Addr(nodes[i - 1]))
    && Word(m, L.Off(nodes[i]) + PREV) == AddrAt(L, nodes, i + 1)
    && Word(m, L.Off(nodes[i]) + DATA) == D.Addr(slots[i])
  }

  ghost predicate IsQueue(L: Layout, m: seq<byte>, D: Layout, nodes: seq<nat>, slots: seq<nat>)
    requires L.Valid() && |m| == L.Off(L.count)
  {
    && |nodes| == |slots| && Distinct(nodes) && Distinct(slots)
    && forall i :: 0 <= i < |nodes| ==> Linked(L, m, D, nodes, slots, i)
  }

  /** A word of a block that was not written is as it was. */
  lemma WordKept(L: Layout, m: seq<byte>, r: seq<byte>, bs: set<nat>, b: nat, k: nat)
    requires L.Valid() && |m| == L.Off(L.count) && b < L.count && b !in bs && k + 4 <= L.blockSize
    requires AgreeOutside(L, m, r, bs)
    ensures L.Off(b) + L.blockSize <= |m| && Word(r, L.Off(b) + k) == Word(m, L.Off(b) + k)
  {
    hide AgreeOutside, Word;
    BlockKept(L, m, r, bs, b);
    BlockInBuffer(L, b);
    WordInSlice(m, L.Off(b), L.Off(b) + L.blockSize, k);
    WordInSlice(r, L.Off(b), L.Off(b) + L.blockSize, k);
  }

  lemma BlockKept(L: Layout, m: seq<byte>, r: seq<byte>, bs: set<nat>, b: nat)
    requires L.Valid() && |m| == L.Off(L.count) && b < L.count && b !in bs
    requires AgreeOutside(L, m, r, bs)
    ensures |r| == |m| && Block(L, r, b) == Block(L, m, b)
  {
    BlockInBuffer(L, b);
    assert L.Off(b + 1) == L.Off(b) + L.blockSize;
    RunUntouched(L, m, r, bs, b, 1);
  }

  /** A store into a block changes no other block. */
  lemma BlockWrite(L: Layout, m: seq<byte>, b: nat, k: nat, w: uint32)
    requires L.Valid() && |m| == L.Off(L.count) && b < L.count && k + 4 <= L.blockSize
    ensures L.Off(b) + L.blockSize <= |m|
    ensures AgreeOutside(L, m, SetWord(m, L.Off(b) + k, w), {b})
  {
    hide Word;
    BlockInBuffer(L, b);
    var r := SetWord(m, L.Off(b) + k, w);
    forall i | 0 <= i < |m| && !InBlocks(L, i, {b}) ensures r[i] == m[i] {
      assert b in {b};
    }
  }

  /** The three words of an element. */
  datatype Elem = Elem(next: nat, prev: nat, data: nat)

  function ElemAt(L: Layout, m: seq<byte>, b: nat): (e: Elem)
    requires L.Off(b) + ELEM_SIZE <= |m|
  {
    Elem(Word(m, L.Off(b) + NEXT), Word(m, L.Off(b) + PREV), Word(m, L.Off(b) + DATA))
  }

  /** A store to one word of an element. */
  lemma ElemWrite(L: Layout, m: seq<byte>, b: nat, k: nat, w: uint32)
    requires L.Valid() && |m| == L.Off(L.count) && b < L.count && L.blockSize == ELEM_SIZE && k in {NEXT, PREV, DATA}
    ensures L.Off(b) + ELEM_SIZE <= |m|
    ensures AgreeOutside(L, m, SetWord(m, L.Off(b) + k, w), {b})
    ensures var e := ElemAt(L, m, b);
      ElemAt(L, SetWord(m, L.Off(b) + k, w), b) == if k == NEXT then e.(next := w) else if k == PREV then e.(prev := w) else e.(data := w)
  {
    hide Word, AgreeOutside;
    BlockWrite(L, m, b, k, w);
    var r := SetWord(m, L.Off(b) + k, w);
    if k != NEXT { WordFrame(m, r, L.Off(b) + NEXT); }
    if k != PREV { WordFrame(m, r, L.Off(b) + PREV); }
    if k != DATA { WordFrame(m, r, L.Off(b) + DATA); }
  }

  /** memcpy of a whole record into its block. */
  lemma BlockStore(L: Layout, m: seq<byte>, b: nat, s: seq<byte>)
    requires L.Valid() && |m| == L.Off(L.count) && b < L.count && |s| == L.blockSize
    ensures L.Off(b) + L.blockSize <= |m|
    ensures AgreeOutside(L, m, Splice(m, L.Off(b), s), {b}) && Block(L, Splice(m, L.Off(b), s), b) == s
  {
    BlockInBuffer(L, b);
    var r := Splice(m, L.Off(b), s);
    forall i | 0 <= i < |m| && !InBlocks(L, i, {b}) ensures r[i] == m[i] {
      assert b in {b};
    }
  }

  lemma RecordsSnoc(L: Layout, m: seq<byte>, slots: seq<nat>, b: nat)
    requires L.Valid() && |m| == L.Off(L.count) && (forall i :: 0 <= i < |slots| ==> slots[i] < L.count) && b < L.count
    ensures Records(L, m, slots + [b]) == Records(L, m, slots) + [Block(L, m, b)]
  {
    hide Block;
  }

  lemma RecordsKept(L: Layout, m: seq<byte>, r: seq<byte>, slots: seq<nat>, b: nat)
    requires L.Valid() && |m| == |r| == L.Off(L.count) && (forall i :: 0 <= i < |slots| ==> slots[i] < L.count)
    requires AgreeOutside(L, m, r, {b}) && b !in slots
    ensures Records(L, r, slots) == Records(L, m, slots)
  {
    hide AgreeOutside, Block;
    forall i | 0 <= i < |slots| ensures Block(L, r, slots[i]) == Block(L, m, slots[i]) {
      BlockKept(L, m, r, {b}, slots[i]);
    }
  }

  lemma ElemKept(L: Layout, m: seq<byte>, r: seq<byte>, bs: set<nat>, b: nat)
    requires L.Valid() && |m| == L.Off(L.count) && b < L.count && b !in bs && L.blockSize == ELEM_SIZE
    requires AgreeOutside(L, m, r, bs)
    ensures L.Off(b) + ELEM_SIZE <= |m| == |r| && ElemAt(L, r, b) == ElemAt(L, m, b)
  {
    hide Word;
    WordKept(L, m, r, bs, b, NEXT);
    WordKept(L, m, r, bs, b, PREV);
    WordKept(L, m, r, bs, b, DATA);
  }

  /** The queue with a new element e for record slot d behind the others: e links
      to what was the first element, and that one back to e. */
  lemma QueuePush(L: Layout, m: seq<byte>, D: Layout, nodes: seq<nat>, slots: seq<nat>, r: seq<byte>, e: nat, d: nat, bs: set<nat>)
    requires L.Valid() && |m| == |r| == L.Off(L.count) && L.blockSize == ELEM_SIZE && IsQueue(L, m, D, nodes, slots)
    requires e < L.count && e !in nodes && d < D.count && d !in slots && L.Off(e) + ELEM_SIZE <= |m|
    requires bs == {e} + (if nodes == [] then {} else {nodes[|nodes| - 1]}) && AgreeOutside(L, m, r, bs)
    requires D.Addr(d) < 0x1_0000_0000 && L.Addr(e) < 0x1_0000_0000
    requires ElemAt(L, r, e) == Elem(if nodes == [] then 0 else AddrAt(L, nodes, |nodes| - 1), 0, D.Addr(d))
    requires nodes != [] ==>
      (var f := nodes[|nodes| - 1];
       L.Off(f) + ELEM_SIZE <= |m| && ElemAt(L, r, f) == ElemAt(L, m, f).(prev := L.Addr(e)))
    ensures IsQueue(L, r, D, nodes + [e], slots + [d])
  {
    hide Word, AgreeOutside;
    var ns, ss, n := nodes + [e], slots + [d], |nodes|;
    forall i | 0 <= i < n + 1 ensures Linked(L, r, D, ns, ss, i) {
      if i < n {
        assert Linked(L, m, D, nodes, slots, i);
        if i < n - 1 {
          assert nodes[i] != nodes[n - 1] && nodes[i] != e;
          ElemKept(L, m, r, bs, nodes[i]);
        }
      }
    }
  }

  /** The queue without its oldest element: the next one loses its next. */
  lemma QueuePop(L: Layout, m: seq<byte>, D: Layout, nodes: seq<nat>, slots: seq<nat>, r: seq<byte>, bs: set<nat>)
    requires L.Valid() && |m| == |r| == L.Off(L.count) && L.blockSize == ELEM_SIZE && IsQueue(L, m, D, nodes, slots) && nodes != []
    requires bs == {nodes[0]} + (if |nodes| == 1 then {} else {nodes[1]}) && AgreeOutside(L, m, r, bs)
    requires |nodes| > 1 ==> L.Off(nodes[1]) + ELEM_SIZE <= |m| && ElemAt(L, r, nodes[1]) == ElemAt(L, m, nodes[1]).(next := 0)
    ensures IsQueue(L, r, D, nodes[1..], slots[1..])
  {
    hide Word, AgreeOutside;
    var ns, ss, n := nodes[1..], slots[1..], |nodes|;
    forall i | 0 <= i < n - 1 ensures Linked(L, r, D, ns, ss, i) {
      assert Linked(L, m, D, nodes, slots, i + 1);
      if i > 0 {
        assert nodes[i + 1] != nodes[1] && nodes[i + 1] != nodes[0];
        ElemKept(L, m, r, bs, nodes[i + 1]);
      }
    }
  }

  /** The blocks named by slots. */
  ghost function Records(L: Layout, m: seq<byte>, slots: seq<nat>): (q: seq<seq<byte>>)
    requires L.Valid() && |m| == L.Off(L.count) && forall i :: 0 <= i < |slots| ==> slots[i] < L.count
    ensures |q| == |slots|
  {
    seq(|slots|, i requires 0 <= i < |slots| => Block(L, m, slots[i]))
  }

  class Fifo {
    const data: Pool
    const elems: Pool
    const dataSize: uint32
    var first: uint32
    var last: uint32
    ghost var nodes: seq<nat>
    ghost var slots: seq<nat>

    ghost predicate Valid()
      reads this, data, data.buf, elems, elems.buf
    {
      && data != elems && data.buf != elems.buf && data.Valid() && elems.Valid()
      && data.layout.blockSize == dataSize && elems.layout.blockSize == ELEM_SIZE && data.layout.count == elems.layout.count
      && IsQueue(elems.layout, elems.buf[..], data.layout, nodes, slots)
      && Split(data.layout.count, slots, data.free) && Split(elems.layout.count, nodes, elems.free)
      && first == (if nodes == [] then 0 else elems.layout.Addr(nodes[|nodes| - 1]))
      && last == AddrAt(elems.layout, nodes, 0)
    }

    /** The queued records, the one to leave next first. */
    ghost function Contents(): (q: seq<seq<byte>>)
      requires Valid()
      reads this, data, data.buf, elems, elems.buf
    {
      Records(data.layout, data.buf[..], slots)
    }

    /** How many records the queue can hold. */
    function MaxElems(): (n: nat) {
      data.layout.count
    }

    /** createFifo */
    constructor Create(dataMem: array<byte>, dataBase: uint32, elemMem: array<byte>, elemBase: uint32, maxElems: uint32, size: uint32)
      requires dataMem != elemMem && maxElems > 0 && size >= 4
      requires dataMem.Length == maxElems * size && elemMem.Length == maxElems * 12
      requires dataBase > 0 && dataBase + dataMem.Length < 0x1_0000_0000 && elemBase > 0 && elemBase + elemMem.Length < 0x1_0000_0000
      modifies dataMem, elemMem
      ensures Valid() && Contents() == [] && MaxElems() == maxElems && dataSize == size
      ensures data.buf == dataMem && elems.buf == elemMem && fresh(data) && fresh(elems)
    {
      Multiples(maxElems, size);
      Multiples(maxElems, ELEM_SIZE);
      data := new Pool.Create(dataMem, dataBase, size);
      elems := new Pool.Create(elemMem, elemBase, ELEM_SIZE);
      dataSize := size;
      first, last := 0, 0;
      nodes, slots := [], [];
      SplitAll(maxElems);
    }

    /** p->next, p->prev or p->data, for a pointer to an element. */
    method SetElem(p: uint32, k: nat, w: uint32, ghost b: nat)
      requires elems.layout.Valid() && elems.buf.Length == elems.layout.Off(elems.layout.count) && elems.layout.blockSize == ELEM_SIZE
      requires b < elems.layout.count && p == elems.layout.Addr(b) && k in {NEXT, PREV, DATA}
      modifies elems.buf
      ensures elems.layout.Off(b) + ELEM_SIZE <= elems.buf.Length
      ensures AgreeOutside(elems.layout, old(elems.buf[..]), elems.buf[..], {b})
      ensures var e := ElemAt(elems.layout, old(elems.buf[..]), b);
        ElemAt(elems.layout, elems.buf[..], b) == if k == NEXT then e.(next := w) else if k == PREV then e.(prev := w) else e.(data := w)
    {
      hide AgreeOutside, ElemAt;
      BlockInBuffer(elems.layout, b);
      ElemWrite(elems.layout, elems.buf[..], b, k, w);
      StoreWord(elems.buf, p - elems.layout.base + k, w);
    }

    method GetElem(p: uint32, k: nat, ghost b: nat) returns (w: uint32)
      requires elems.layout.Valid() && elems.buf.Length == elems.layout.Off(elems.layout.count) && elems.layout.blockSize == ELEM_SIZE
      requires b < elems.layout.count && p == elems.layout.Addr(b) && k in {NEXT, PREV, DATA}
      ensures elems.layout.Off(b) + ELEM_SIZE <= elems.buf.Length
      ensures var e := ElemAt(elems.layout, elems.buf[..], b);
        w == if k == NEXT then e.next else if k == PREV then e.prev else e.data
    {
      BlockInBuffer(elems.layout, b);
      w := LoadWord(elems.buf, p - elems.layout.base + k);
    }

    /** The new element's three words. */
    method FillElem(p: uint32, next: uint32, dataPtr: uint32, ghost b: nat)
      requires elems.layout.Valid() && elems.buf.Length == elems.layout.Off(elems.layout.count) && elems.layout.blockSize == ELEM_SIZE
      requires b < elems.layout.count && p == elems.layout.Addr(b)
      modifies elems.buf
      ensures elems.layout.Off(b) + ELEM_SIZE <= elems.buf.Length
      ensures AgreeOutside(elems.layout, old(elems.buf[..]), elems.buf[..], {b})
      ensures ElemAt(elems.layout, elems.buf[..], b) == Elem(next, 0, dataPtr)
    {
      hide AgreeOutside, ElemAt;
      ghost var L, m := elems.layout, elems.buf[..];
      SetElem(p, DATA, dataPtr, b);
      ghost var m1 := elems.buf[..];
      SetElem(p, NEXT, next, b);
      ghost var m2 := elems.buf[..];
      SetElem(p, PREV, 0, b);
      AgreeTrans(L, m, m1, m2, {b}, {b});
      AgreeTrans(L, m, m2, elems.buf[..], {b} + {b}, {b});
      assert {b} + {b} + {b} == {b};
    }

    /** fifoAdd behind its two allocations: the element is filled in and put in
        front of the first. */
    method LinkFirst(elemPtr: uint32, dataPtr: uint32, ghost e: nat, ghost d: nat)
      requires elems.layout.Valid() && elems.buf.Length == elems.layout.Off(elems.layout.count) && elems.layout.blockSize == ELEM_SIZE
      requires IsQueue(elems.layout, elems.buf[..], data.layout, nodes, slots)
      requires first == (if nodes == [] then 0 else elems.layout.Addr(nodes[|nodes| - 1])) && last == AddrAt(elems.layout, nodes, 0)
      requires e < elems.layout.count && e !in nodes && elemPtr == elems.layout.Addr(e)
      requires d < data.layout.count && d !in slots && dataPtr == data.layout.Addr(d)
      modifies this, elems.buf
      ensures nodes == old(nodes) + [e] && slots == old(slots) + [d]
      ensures IsQueue(elems.layout, elems.buf[..], data.layout, nodes, slots)
      ensures first == elems.layout.Addr(e) && last == AddrAt(elems.layout, nodes, 0)
      ensures AgreeOutside(elems.layout, old(elems.buf[..]), elems.buf[..], {e} + (if old(nodes) == [] then {} else {old(nodes)[|old(nodes)| - 1]}))
    {
      hide AgreeOutside, ElemAt, IsQueue;
      ghost var L, m := elems.layout, elems.buf[..];
      NoFirst(L, m, data.layout, nodes, slots);
      BlockInBuffer(L, e);
      FillElem(elemPtr, first, dataPtr, e);
      if first == 0 {
        QueuePush(L, m, data.layout, nodes, slots, elems.buf[..], e, d, {e});
        first := elemPtr;
        last := elemPtr;
      } else {
        ghost var f, m1 := nodes[|nodes| - 1], elems.buf[..];
        assert f != e;
        ElemKept(L, m, m1, {e}, f);
        SetElem(first, PREV, elemPtr, f);
        ElemKept(L, m1, elems.buf[..], {f}, e);
        AgreeTrans(L, m, m1, elems.buf[..], {e}, {f});
        QueuePush(L, m, data.layout, nodes, slots, elems.buf[..], e, d, {e} + {f});
        first := elemPtr;
      }
      nodes, slots := nodes + [e], slots + [d];
    }

    /** fifoAdd. It copies the record before it looks whether it got a block for it:
        on a full queue that goes through a null pointer, and the method stops. */
    method Add(record: seq<byte>) returns (added: bool)
      requires Valid() && |record| == dataSize
      modifies this, data, data.buf, elems, elems.buf
      ensures Valid() && (added <==> |old(Contents())| < MaxElems())
      ensures added ==> Contents() == old(Contents()) + [record] && slots == old(slots) + [old(data.free)[0]]
      ensures !added ==> Contents() == old(Contents()) && slots == old(slots)
    {
      hide AgreeOutside, ElemAt, IsQueue, IsChain, Split, Block, Records;
      FullMeansNoBlock();
      if data.nextFreeBlock == 0 {
        return false;
      }
      AddRecord(record);
      return true;
    }

    /** The queue is full exactly when its pools are. */
    lemma FullMeansNoBlock()
      requires Valid()
      ensures |Contents()| <= MaxElems() && (|Contents()| == MaxElems() <==> data.nextFreeBlock == 0)
    {
      hide AgreeOutside, ElemAt, IsQueue, IsChain, Split, Block;
      SplitFirst(data.layout.count, slots, data.free);
      ChainHead(data.layout, data.buf[..], data.nextFreeBlock, data.free);
      ChainAddr(data.layout, data.buf[..], data.nextFreeBlock, data.free, 0);
    }

    method AddRecord(record: seq<byte>)
      requires Valid() && |record| == dataSize && |Contents()| < MaxElems()
      modifies this, data, data.buf, elems, elems.buf
      ensures Valid() && Contents() == old(Contents()) + [record]
      ensures slots == old(slots) + [old(data.free)[0]]
    {
      hide AgreeOutside, ElemAt, IsQueue, IsChain, Split, Block, Records;
      ghost var D, L := data.layout, elems.layout;
      QueueSizes(L, elems.buf[..], D, nodes, slots);
      SplitFirst(D.count, slots, data.free);
      SplitFirst(L.count, nodes, elems.free);
      ghost var d, e := data.free[0], elems.free[0];
      SplitTake(D.count, slots, data.free);
      SplitTake(L.count, nodes, elems.free);
      var dataPtr := data.Allocate();
      var elemPtr := elems.Allocate();
      RecordsSnoc(D, data.buf[..], slots, d);
      PutRecord(dataPtr, record, d);
      RecordsSnoc(D, data.buf[..], slots, d);
      PutElem(elemPtr, dataPtr, e, d);
    }

    /** memcpy into a block that is on no list. */
    method PutRecord(p: uint32, record: seq<byte>, ghost d: nat)
      requires data.Valid() && data.layout.blockSize == dataSize == |record|
      requires d < data.layout.count && p == data.layout.Addr(d) && d !in data.free && d !in slots
      requires forall i :: 0 <= i < |slots| ==> slots[i] < data.layout.count
      modifies data.buf
      ensures data.Valid() && Block(data.layout, data.buf[..], d) == record
      ensures Records(data.layout, data.buf[..], slots) == old(Records(data.layout, data.buf[..], slots))
    {
      hide AgreeOutside, IsChain, Block, Records;
      ghost var D, m := data.layout, data.buf[..];
      BlockInBuffer(D, d);
      Store(data.buf, p - data.layout.base, record);
      BlockStore(D, m, d, record);
      ChainKept(D, m, data.buf[..], data.nextFreeBlock, data.free, {d});
      RecordsKept(D, m, data.buf[..], slots, d);
    }

    /** A new element is in front; the list of free elements is left alone. */
    method PutElem(elemPtr: uint32, dataPtr: uint32, ghost e: nat, ghost d: nat)
      requires elems.Valid() && elems.layout.blockSize == ELEM_SIZE && e !in elems.free
      requires IsQueue(elems.layout, elems.buf[..], data.layout, nodes, slots) && forall b :: b in nodes ==> b !in elems.free
      requires first == (if nodes == [] then 0 else elems.layout.Addr(nodes[|nodes| - 1])) && last == AddrAt(elems.layout, nodes, 0)
      requires e < elems.layout.count && e !in nodes && elemPtr == elems.layout.Addr(e)
      requires d < data.layout.count && d !in slots && dataPtr == data.layout.Addr(d)
      modifies this, elems.buf
      ensures nodes == old(nodes) + [e] && slots == old(slots) + [d] && elems.Valid()
      ensures IsQueue(elems.layout, elems.buf[..], data.layout, nodes, slots)
      ensures first == elems.layout.Addr(e) && last == AddrAt(elems.layout, nodes, 0)
    {
      hide AgreeOutside, ElemAt, IsQueue, IsChain;
      ghost var q := elems.buf[..];
      ghost var touched := {e} + (if nodes == [] then {} else {nodes[|nodes| - 1]});
      LinkFirst(elemPtr, dataPtr, e, d);
      ChainKept(elems.layout, q, elems.buf[..], elems.nextFreeBlock, elems.free, touched);
    }

    /** fifoGetLast: a pointer to the record that leaves next, or 0. */
    method GetLast() returns (p: uint32)
      requires Valid()
      ensures p == 0 <==> slots == []
      ensures slots != [] ==> p == data.layout.Addr(slots[0]) && slots[0] < data.layout.count
    {
      hide IsChain, Split, Word;
      p := 0;
      if last != 0 {
        assert Linked(elems.layout, elems.buf[..], data.layout, nodes, slots, 0);
        p := GetElem(last, DATA, nodes[0]);
        BlockInBuffer(data.layout, slots[0]);
      } else {
        NoLast();
      }
    }

    lemma FreeSlot()
      requires Valid() && |Contents()| < MaxElems()
      ensures data.free != [] && data.free[0] < MaxElems() && data.free[0] !in slots
    {
      hide IsQueue, IsChain, Block;
      SplitFirst(data.layout.count, slots, data.free);
    }

    lemma NoLast()
      requires Valid() && last == 0
      ensures nodes == [] && slots == []
    {
      hide IsChain, Split;
    }

    /** fifoRemove up to its two frees: the oldest element is taken off the list. */
    method UnlinkLast()
      requires elems.layout.Valid() && elems.buf.Length == elems.layout.Off(elems.layout.count) && elems.layout.blockSize == ELEM_SIZE
      requires IsQueue(elems.layout, elems.buf[..], data.layout, nodes, slots) && nodes != []
      requires first == elems.layout.Addr(nodes[|nodes| - 1]) && last == AddrAt(elems.layout, nodes, 0)
      modifies this, elems.buf
      ensures nodes == old(nodes)[1..] && slots == old(slots)[1..]
      ensures IsQueue(elems.layout, elems.buf[..], data.layout, nodes, slots)
      ensures first == (if nodes == [] then 0 else elems.layout.Addr(nodes[|nodes| - 1])) && last == AddrAt(elems.layout, nodes, 0)
      ensures AgreeOutside(elems.layout, old(elems.buf[..]), elems.buf[..], if nodes == [] then {} else {nodes[0]})
    {
      hide AgreeOutside, ElemAt, IsQueue;
      ghost var L, m := elems.layout, elems.buf[..];
      ghost var bs := if |nodes| == 1 then {} else {nodes[1]};
      SecondLast(L, m, data.layout, nodes, slots);
      last := GetElem(last, PREV, nodes[0]);
      if last != 0 {
        SetElem(last, NEXT, 0, nodes[1]);
      } else {
        first := 0;
        AgreeSame(L, m, {});
      }
      AgreeWiden(L, m, elems.buf[..], bs, {nodes[0]} + bs);
      QueuePop(L, m, data.layout, nodes, slots, elems.buf[..], {nodes[0]} + bs);
      nodes, slots := nodes[1..], slots[1..];
    }

    /** fifoRemove: the oldest record leaves; both its blocks are freed. */
    method Remove() returns (removed: bool, record: seq<byte>)
      requires Valid()
      modifies this, data, data.buf, elems, elems.buf
      ensures Valid() && (removed <==> old(Contents()) != [])
      ensures removed ==> record == old(Contents())[0] && Contents() == old(Contents())[1..] && slots == old(slots)[1..]
      ensures !removed ==> record == [] && Contents() == old(Contents()) && slots == old(slots)
    {
      hide AgreeOutside, ElemAt, IsQueue, IsChain, Split, Block;
      if last == 0 {
        NoLast();
        return false, [];
      }
      ghost var D, L, m, q := data.layout, elems.layout, data.buf[..], elems.buf[..];
      ghost var ns, ss := nodes, slots;
      HasLast();
      SecondLast(L, q, D, ns, ss);
      SplitFirst(D.count, ss, data.free);
      SplitFirst(L.count, ns, elems.free);
      SplitGive(D.count, ss, data.free);
      SplitGive(L.count, ns, elems.free);
      var dataPtr := GetLast();
      record := ReadRecord(dataPtr, ss[0]);
      var tmp := last;
      UnlinkLast();
      ghost var q1 := elems.buf[..];
      ChainKept(L, q, q1, elems.nextFreeBlock, elems.free, if nodes == [] then {} else {nodes[0]});
      data.Free(dataPtr, ss[0]);
      elems.Free(tmp, ns[0]);
      QueueKept(L, q1, D, nodes, slots, elems.buf[..], ns[0]);
      QueueSizes(L, elems.buf[..], D, nodes, slots);
      RecordsKept(D, m, data.buf[..], slots, ss[0]);
      removed := true;
    }

    lemma HasLast()
      requires Valid() && last != 0
      ensures nodes != [] && slots != []
    {
    }

    /** memcpy of a record out of its block. */
    method ReadRecord(p: uint32, ghost b: nat) returns (record: seq<byte>)
      requires data.layout.Valid() && data.buf.Length == data.layout.Off(data.layout.count) && data.layout.blockSize == dataSize
      requires b < data.layout.count && p == data.layout.Addr(b)
      ensures record == Block(data.layout, data.buf[..], b)
    {
      BlockInBuffer(data.layout, b);
      record := data.buf[p - data.layout.base..p - data.layout.base + dataSize];
    }

    /** A load through a pointer to the i-th record. */
    method GetField(p: uint32, k: nat, ghost i: nat) returns (w: uint32)
      requires Valid() && i < |slots| && p == data.layout.Addr(slots[i]) && k + 4 <= dataSize
      ensures w == Word(Contents()[i], k)
    {
      hide IsChain, Split, Word;
      QueueSizes(elems.layout, elems.buf[..], data.layout, nodes, slots);
      BlockInBuffer(data.layout, slots[i]);
      w := LoadWord(data.buf, p - data.layout.base + k);
      WordInSlice(data.buf[..], data.layout.Off(slots[i]), data.layout.Off(slots[i]) + dataSize, k);
    }

    /** A store through a pointer to the i-th record. */
    method SetField(p: uint32, k: nat, w: uint32, ghost i: nat)
      requires Valid() && i < |slots| && p == data.layout.Addr(slots[i]) && k + 4 <= dataSize
      modifies data.buf
      ensures Valid() && |Contents()| == old(|Contents()|) && Contents() == old(Contents())[i := SetWord(old(Contents())[i], k, w)]
    {
      hide AgreeOutside, ElemAt, IsChain, Split, Word, IsQueue, Records, SetWord, Distinct;
      ghost var D, m, b := data.layout, data.buf[..], slots[i];
      QueueSizes(elems.layout, elems.buf[..], D, nodes, slots);
      BlockWrite(D, m, b, k, w);
      StoreWord(data.buf, p - data.layout.base + k, w);
      SplitFirst(D.count, slots, data.free);
      ChainKept(D, m, data.buf[..], data.nextFreeBlock, data.free, {b});
      RecordSet(D, m, slots, i, k, w);
    }
  }

  lemma RecordSet(L: Layout, m: seq<byte>, slots: seq<nat>, i: nat, k: nat, w: uint32)
    requires L.Valid() && |m| == L.Off(L.count) && (forall j :: 0 <= j < |slots| ==> slots[j] < L.count) && Distinct(slots)
    requires i < |slots| && k + 4 <= L.blockSize
    ensures L.Off(slots[i]) + L.blockSize <= |m|
    ensures Records(L, SetWord(m, L.Off(slots[i]) + k, w), slots) == Records(L, m, slots)[i := SetWord(Records(L, m, slots)[i], k, w)]
  {
    hide AgreeOutside, Word;
    var b := slots[i];
    BlockWrite(L, m, b, k, w);
    var r := SetWord(m, L.Off(b) + k, w);
    BlockInBuffer(L, b);
    SetInBlock(m, L.Off(b), L.blockSize, k, w);
    OneRecordChanged(L, m, r, slots, i);
  }

  lemma OneRecordChanged(L: Layout, m: seq<byte>, r: seq<byte>, slots: seq<nat>, i: nat)
    requires L.Valid() && |m| == |r| == L.Off(L.count) && (forall j :: 0 <= j < |slots| ==> slots[j] < L.count) && Distinct(slots)
    requires i < |slots| && AgreeOutside(L, m, r, {slots[i]})
    ensures Records(L, r, slots) == Records(L, m, slots)[i := Records(L, r, slots)[i]]
  {
    hide AgreeOutside;
    var l, q := Records(L, r, slots), Records(L, m, slots);
    forall j | 0 <= j < |slots| && j != i ensures l[j] == q[j] {
      assert slots[j] != slots[i];
      BlockKept(L, m, r, {slots[i]}, slots[j]);
    }
  }

  lemma SetInBlock(m: seq<byte>, lo: nat, n: nat, k: nat, w: uint32)
    requires lo + n <= |m| && k + 4 <= n
    ensures SetWord(m, lo + k, w)[lo..lo + n] == SetWord(m[lo..lo + n], k, w)
  {
    hide Word, WordBytes;
    var l, r := SetWord(m, lo + k, w)[lo..lo + n], SetWord(m[lo..lo + n], k, w);
    assert SetWord(m, lo + k, w) == m[..lo + k] + WordBytes(w) + m[lo + k + 4..];
    assert r == m[lo..lo + n][..k] + WordBytes(w) + m[lo..lo + n][k + 4..];
    assert forall j :: 0 <= j < n ==> l[j] == r[j];
  }

  /** Writing blocks that hold no element leaves the queue as it is. */
  lemma QueueKept(L: Layout, m: seq<byte>, D: Layout, nodes: seq<nat>, slots: seq<nat>, r: seq<byte>, b: nat)
    requires L.Valid() && |m| == |r| == L.Off(L.count) && L.blockSize == ELEM_SIZE && IsQueue(L, m, D, nodes, slots)
    requires AgreeOutside(L, m, r, {b}) && b !in nodes
    ensures IsQueue(L, r, D, nodes, slots)
  {
    hide Word, AgreeOutside;
    forall i | 0 <= i < |nodes| ensures Linked(L, r, D, nodes, slots, i) {
      assert Linked(L, m, D, nodes, slots, i);
      ElemKept(L, m, r, {b}, nodes[i]);
    }
  }

  /** The element behind the oldest one. */
  lemma SecondLast(L: Layout, m: seq<byte>, D: Layout, nodes: seq<nat>, slots: seq<nat>)
    requires L.Valid() && |m| == L.Off(L.count) && IsQueue(L, m, D, nodes, slots) && nodes != []
    ensures |nodes| == |slots| && nodes[0] < L.count && slots[0] < D.count && nodes[0] !in nodes[1..] && slots[0] !in slots[1..]
    ensures L.Off(nodes[0]) + ELEM_SIZE <= |m| && ElemAt(L, m, nodes[0]).prev == AddrAt(L, nodes, 1)
    ensures |nodes| > 1 ==> nodes[1] < L.count && AddrAt(L, nodes, 1) != 0
    ensures AddrAt(L, nodes[1..], 0) == AddrAt(L, nodes, 1)
    ensures |nodes| > 1 ==> nodes[1..][|nodes| - 2] == nodes[|nodes| - 1]
  {
    assert Linked(L, m, D, nodes, slots, 0);
    if |nodes| > 1 {
      assert Linked(L, m, D, nodes, slots, 1);
      BlockInBuffer(L, nodes[1]);
    }
  }

  lemma QueueSizes(L: Layout, m: seq<byte>, D: Layout, nodes: seq<nat>, slots: seq<nat>)
    requires L.Valid() && |m| == L.Off(L.count) && IsQueue(L, m, D, nodes, slots)
    ensures |nodes| == |slots| && forall i :: 0 <= i < |slots| ==> nodes[i] < L.count && slots[i] < D.count
    ensures Distinct(nodes) && Distinct(slots)
  {
    forall i | 0 <= i < |slots| ensures nodes[i] < L.count && slots[i] < D.count {
      assert Linked(L, m, D, nodes, slots, i);
    }
  }

  lemma NoFirst(L: Layout, m: seq<byte>, D: Layout, nodes: seq<nat>, slots: seq<nat>)
    requires L.Valid() && |m| == L.Off(L.count) && IsQueue(L, m, D, nodes, slots)
    ensures nodes != [] ==> L.Addr(nodes[|nodes| - 1]) != 0 && nodes[|nodes| - 1] < L.count && L.Off(nodes[|nodes| - 1]) + ELEM_SIZE <= |m|
    ensures nodes != [] ==> L.Addr(nodes[|nodes| - 1]) < 0x1_0000_0000
  {
    if nodes != [] {
      assert Linked(L, m, D, nodes, slots, |nodes| - 1);
      BlockInBuffer(L, nodes[|nodes| - 1]);
    }
  }

  lemma SplitAll(count: nat)
    ensures Split(count, [], RunSeq(0, count))
  {
    forall b | 0 <= b < count ensures b in RunSeq(0, count) { assert RunSeq(0, count)[b] == b; }
  }
}
