/** The intrusive free list both pool allocators keep inside their buffer.

    A buffer is carved into equal blocks. The first word of every free block
    holds the absolute 32-bit address of the next free block, 0 ends the list.
    The ghost value of a list is the sequence of block numbers it links. */
module FreeList {
  import opened Bytes

  /** Where a pool's buffer lies and how it is divided. */
  datatype Layout = Layout(base: nat, blockSize: nat, count: nat) {

    ghost predicate Valid() {
      base > 0 && blockSize >= 4 && count >= 1 && base + Off(count) < 0x1_0000_0000
    }

    /** The byte offset of block b in the buffer. Written as a recursion so
        that proofs about blocks stay free of products of variables. */
    function Off(b: nat): (off: nat) {
      if b == 0 then 0 else Off(b - 1) + blockSize
    }

    function Addr(b: nat): (a: nat) {
      base + Off(b)
    }

    lemma {:induction false} OffIsProduct(b: nat)
      ensures Off(b) == b * blockSize
    {
      if b > 0 { OffIsProduct(b - 1); }
    }

    lemma {:induction false} OffAdd(b: nat, k: nat)
      ensures Off(b + k) == Off(b) + Off(k)
    {
      if k > 0 { OffAdd(b, k - 1); }
    }

    lemma {:induction false} OffOrder(b: nat, c: nat)
      requires b < c
      ensures Off(b) + blockSize <= Off(c)
      decreases c
    {
      if b < c - 1 { OffOrder(b, c - 1); }
    }

  }

  /** Does byte i of the buffer lie in one of the blocks bs? */
  ghost predicate InBlocks(L: Layout, i: nat, bs: set<nat>) {
    exists b :: b in bs && L.Off(b) <= i < L.Off(b) + L.blockSize
  }

  /** Buffers m and r hold the same bytes outside the blocks bs. */
  ghost predicate AgreeOutside(L: Layout, m: seq<byte>, r: seq<byte>, bs: set<nat>) {
    |m| == |r| &&
    forall i :: 0 <= i < |m| && !InBlocks(L, i, bs) ==> r[i] == m[i]
  }

  /** The blocks first, first + 1, ..., first + n - 1. */
  ghost function Run(first: nat, n: nat): (bs: set<nat>)
    ensures forall b: nat :: b in bs <==> first <= b < first + n
  {
    if n == 0 then {} else Run(first, n - 1) + {first + n - 1}
  }

  /** The same blocks as a sequence. */
  function RunSeq(first: nat, n: nat): (s: seq<nat>)
    ensures |s| == n
    ensures forall k :: 0 <= k < n ==> s[k] == first + k
  {
    seq(n, k requires 0 <= k => first + k)
  }

  function AddrAt(L: Layout, free: seq<nat>, i: nat): (a: nat)
  {
    if i < |free| then L.Addr(free[i]) else 0
  }

  ghost predicate Distinct(s: seq<nat>) {
    forall i, j :: 0 <= i < j < |s| ==> s[i] != s[j]
  }

  /** The list that starts at address head inside buffer m links exactly the
      blocks free, in that order. */
  ghost predicate IsChain(L: Layout, m: seq<byte>, head: nat, free: seq<nat>)
    requires L.Valid()
  {
    && |m| == L.Off(L.count)
    && head == AddrAt(L, free, 0)
    && Distinct(free)
    && (forall i :: 0 <= i < |free| ==> InList(L, m, free, i))
  }

  ghost predicate InList(L: Layout, m: seq<byte>, free: seq<nat>, i: nat)
    requires i < |free| && L.Valid() && |m| == L.Off(L.count)
  {
    && free[i] < L.count
    && L.Off(free[i]) + 4 <= |m|
    && Word(m, L.Off(free[i])) == AddrAt(L, free, i + 1)
  }

  lemma BlockInBuffer(L: Layout, b: nat)
    requires L.Valid() && b < L.count
    ensures L.Off(b) + L.blockSize <= L.Off(L.count)
    ensures 0 < L.Addr(b) < 0x1_0000_0000
  {
    L.OffOrder(b, L.count);
  }

  /** Distinct blocks have distinct addresses. */
  lemma AddrInjective(L: Layout, b: nat, c: nat)
    requires L.Valid()
    ensures L.Addr(b) == L.Addr(c) <==> b == c
  {
    if b < c { L.OffOrder(b, c); }
    if c < b { L.OffOrder(c, b); }
  }

  lemma RangeInBuffer(L: Layout, b: nat, n: nat)
    requires b + n <= L.count
    ensures L.Off(b) <= L.Off(b + n) <= L.Off(L.count)
  {
    L.OffAdd(b, n);
    L.OffAdd(b + n, L.count - b - n);
  }

  /** Every byte between two block boundaries lies in a block between them. */
  lemma {:induction false} RangeInRun(L: Layout, b: nat, n: nat)
    ensures forall i :: L.Off(b) <= i < L.Off(b + n) ==> InBlocks(L, i, Run(b, n))
  {
    if n > 0 {
      RangeInRun(L, b, n - 1);
      forall i | L.Off(b) <= i < L.Off(b + n) ensures InBlocks(L, i, Run(b, n)) {
        if i < L.Off(b + n - 1) {
          assert InBlocks(L, i, Run(b, n - 1));
          var c :| c in Run(b, n - 1) && L.Off(c) <= i < L.Off(c) + L.blockSize;
          assert c in Run(b, n);
        } else {
          assert b + n - 1 in Run(b, n);
        }
      }
    }
  }

  /** A range of blocks none of which was written still holds its bytes. */
  lemma RunUntouched(L: Layout, m: seq<byte>, r: seq<byte>, bs: set<nat>, first: nat, n: nat)
    requires L.Valid() && |m| == L.Off(L.count) && first + n <= L.count
    requires AgreeOutside(L, m, r, bs) && forall b :: b in bs ==> !(first <= b < first + n)
    ensures L.Off(first) <= L.Off(first + n) <= |m|
    ensures r[L.Off(first)..L.Off(first + n)] == m[L.Off(first)..L.Off(first + n)]
  {
    L.OffAdd(first, n);
    L.OffAdd(first + n, L.count - first - n);
    var lo, hi := L.Off(first), L.Off(first + n);
    forall i | lo <= i < hi ensures r[i] == m[i] {
      if InBlocks(L, i, bs) {
        var b :| b in bs && L.Off(b) <= i < L.Off(b) + L.blockSize;
        if b < first { L.OffOrder(b, first); }
        if first + n < b { L.OffOrder(first + n, b); }
        assert false;
      }
    }
  }

  lemma AgreeSame(L: Layout, m: seq<byte>, bs: set<nat>)
    ensures AgreeOutside(L, m, m, bs)
  {
  }

  lemma AgreeTrans(L: Layout, m: seq<byte>, r: seq<byte>, q: seq<byte>, bs: set<nat>, cs: set<nat>)
    requires AgreeOutside(L, m, r, bs) && AgreeOutside(L, r, q, cs)
    ensures AgreeOutside(L, m, q, bs + cs)
  {
    forall i | 0 <= i < |m| && !InBlocks(L, i, bs + cs) ensures q[i] == m[i] {
    }
  }

  lemma AgreeWiden(L: Layout, m: seq<byte>, r: seq<byte>, bs: set<nat>, cs: set<nat>)
    requires AgreeOutside(L, m, r, bs) && bs <= cs
    ensures AgreeOutside(L, m, r, cs)
  {
    forall i | 0 <= i < |m| && !InBlocks(L, i, cs) ensures r[i] == m[i] {
    }
  }

  /** Writing the link of block b changes no other block. */
  lemma LinkWrite(L: Layout, m: seq<byte>, b: nat, w: uint32)
    requires L.Valid() && |m| == L.Off(L.count) && b < L.count
    ensures L.Off(b) + 4 <= |m|
    ensures AgreeOutside(L, m, SetWord(m, L.Off(b), w), {b})
    ensures Word(SetWord(m, L.Off(b), w), L.Off(b)) == w
  {
    BlockInBuffer(L, b);
    var r := SetWord(m, L.Off(b), w);
    forall i | 0 <= i < |m| && !InBlocks(L, i, {b}) ensures r[i] == m[i] {
      assert b in {b};
    }
  }

  /** The link of a block outside bs is the same in both buffers. */
  lemma LinkKept(L: Layout, m: seq<byte>, r: seq<byte>, bs: set<nat>, b: nat)
    requires L.Valid() && |m| == L.Off(L.count) && b < L.count && b !in bs
    requires AgreeOutside(L, m, r, bs)
    ensures L.Off(b) + 4 <= |m| && Word(r, L.Off(b)) == Word(m, L.Off(b))
  {
    BlockInBuffer(L, b);
    assert L.Off(b + 1) == L.Off(b) + L.blockSize;
    RunUntouched(L, m, r, bs, b, 1);
    WordInSlice(m, L.Off(b), L.Off(b + 1), 0);
    WordInSlice(r, L.Off(b), L.Off(b + 1), 0);
  }

  /** The blocks b, ..., b + n - 1 link one to the next and the last to tail. */
  ghost predicate RunLinks(L: Layout, m: seq<byte>, b: nat, n: nat, tail: nat) {
    forall j :: b <= j < b + n ==> Links(L, m, b, n, tail, j)
  }

  /** The link of block j: to its neighbour, or to tail if it is the last one. */
  ghost predicate Links(L: Layout, m: seq<byte>, b: nat, n: nat, tail: nat, j: nat) {
    L.Off(j) + 4 <= |m| && Word(m, L.Off(j)) == if j == b + n - 1 then tail else L.Addr(j + 1)
  }

  /** The loop with which lists are built and extended. */
  method LinkRun(L: Layout, buf: array<byte>, p: uint32, n: nat, tail: uint32, ghost b: nat)
    requires L.Valid() && buf.Length == L.Off(L.count)
    requires n > 0 && b + n <= L.count && p == L.Addr(b)
    modifies buf
    ensures AgreeOutside(L, old(buf[..]), buf[..], Run(b, n))
    ensures RunLinks(L, buf[..], b, n, tail)
  {
    ghost var m := buf[..];
    var ptr: nat := p;
    var c := 0;
    while c < n - 1
      invariant 0 <= c <= n - 1 && ptr == L.Addr(b + c)
      invariant AgreeOutside(L, m, buf[..], Run(b, c))
      invariant RunLinks(L, buf[..], b, c, L.Addr(b + c))
    {
      BlockInBuffer(L, b + c + 1);
      LinkOne(L, buf, ptr, ptr + L.blockSize, b, c, m);
      ptr := ptr + L.blockSize;
      c := c + 1;
    }
    LinkOne(L, buf, ptr, tail, b, n - 1, m);
  }

  method LinkOne(L: Layout, buf: array<byte>, ptr: nat, w: uint32, ghost b: nat, ghost c: nat, ghost m: seq<byte>)
    requires L.Valid() && buf.Length == L.Off(L.count)
    requires b + c < L.count && ptr == L.Addr(b + c)
    requires AgreeOutside(L, m, buf[..], Run(b, c))
    requires RunLinks(L, buf[..], b, c, L.Addr(b + c))
    modifies buf
    ensures AgreeOutside(L, m, buf[..], Run(b, c + 1))
    ensures RunLinks(L, buf[..], b, c + 1, w)
  {
    hide Word, SetWord, AgreeOutside;
    ghost var r := buf[..];
    BlockInBuffer(L, b + c);
    LinkWrite(L, r, b + c, w);
    StoreWord(buf, ptr - L.base, w);
    AgreeTrans(L, m, r, buf[..], Run(b, c), {b + c});
    assert Run(b, c + 1) == Run(b, c) + {b + c};
    ghost var n := c + 1;
    forall j | b <= j < b + n ensures Links(L, buf[..], b, n, w, j) {
      if j < b + c {
        assert Links(L, r, b, c, L.Addr(b + c), j);
        LinkKept(L, r, buf[..], {b + c}, j);
      }
    }
  }
}
