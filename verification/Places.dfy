/** Where control lists lie in their pool, and what clFit makes of that: whether a list
    can grow, where it is then, and what is left of the pool, foretold from the blocks
    alone. */
module Places {
  import opened Seqs
  import opened FreeList
  import CS = ConsecutiveSpec

  /** How many blocks clFit asks for when a list must hold size bytes. */
  function BlocksFor(size: nat, blockSize: nat): (n: nat)
    requires blockSize > 0
  {
    size / blockSize + 1
  }

  /** Enough for one byte more, and no block too many. */
  lemma BlocksSuffice(size: nat, blockSize: nat)
    requires blockSize > 0
    ensures var n := BlocksFor(size, blockSize); (n - 1) * blockSize <= size < n * blockSize
  {
    assert size == size / blockSize * blockSize + size % blockSize;
  }

  /** A list's blocks, and how many bytes it holds. */
  datatype Place = Place(first: nat, blocks: nat, used: nat)

  ghost function RoomAt(L: Layout, p: Place): (n: int) {
    L.Off(p.first + p.blocks) - L.Off(p.first) - p.used
  }

  /** The pool and the list's place after a clFit that is served. */
  ghost function Fitted(L: Layout, s: CS.PoolState, p: Place, size: nat): (r: Option<(CS.PoolState, Place)>)
    requires L.blockSize > 0
    ensures r.Some? ==> r.value.1.used == p.used
  {
    if size <= RoomAt(L, p) then Some((s, p))
    else
      var newN := BlocksFor(p.used + size, L.blockSize);
      if p.blocks == 0 || newN < p.blocks || !CS.GrowsSoundly(s, p.first, p.blocks, newN) then None
      else
        var (t, got) := CS.Reallocate(s, p.first, p.blocks, newN);
        if got.None? then None else Some((t, Place(got.value, newN, p.used)))
  }

  /** A clFit ended as foretold: ok says whether it was served, t is the pool and q the
      list's place then. How many bytes the list holds by then does not matter. */
  ghost predicate FitsAs(L: Layout, s: CS.PoolState, p: Place, size: nat, ok: bool, t: CS.PoolState, q: Place)
    requires L.blockSize > 0
  {
    match Fitted(L, s, p, size)
    case None => !ok
    case Some((u, r)) => ok && t == u && q.first == r.first && q.blocks == r.blocks
  }

  /** Where there is room nothing is asked of the pool. */
  lemma InRoom(L: Layout, s: CS.PoolState, p: Place, size: nat)
    requires L.blockSize > 0 && size <= RoomAt(L, p)
    ensures Fitted(L, s, p, size) == Some((s, p))
  {
  }

  /** The two branches of clFit. */
  lemma FitsAsGrown(L: Layout, s: CS.PoolState, p: Place, size: nat, ok: bool, t: CS.PoolState, q: Place)
    requires L.blockSize > 0 && p.blocks > 0
    requires size <= RoomAt(L, p) ==> ok && t == s && q.first == p.first && q.blocks == p.blocks
    requires size > RoomAt(L, p) ==>
      var newN := BlocksFor(p.used + size, L.blockSize);
      && newN > p.blocks && t == CS.Reallocate(s, p.first, p.blocks, newN).0
      && (ok <==> CS.GrowsSoundly(s, p.first, p.blocks, newN))
      && (ok ==> Some(q.first) == CS.Reallocate(s, p.first, p.blocks, newN).1 && q.blocks == newN)
    ensures FitsAs(L, s, p, size, ok, t, q)
  {
    hide CS.GrowsSoundly, CS.Reallocate, BlocksFor, RoomAt;
  }

  /** clFit and clInsertData. */
  ghost function Extended(L: Layout, s: CS.PoolState, p: Place, size: nat): (r: Option<(CS.PoolState, Place)>)
    requires L.blockSize > 0
  {
    match Fitted(L, s, p, size)
    case None => None
    case Some((t, q)) => Some((t, q.(used := q.used + size)))
  }

  lemma ExtendedAs(L: Layout, s: CS.PoolState, p: Place, size: nat, ok: bool, t: CS.PoolState, q: Place, r: Place)
    requires L.blockSize > 0 && FitsAs(L, s, p, size, ok, t, q)
    requires ok ==> r == q.(used := p.used + size)
    ensures if ok then Extended(L, s, p, size) == Some((t, r)) else Extended(L, s, p, size) == None
  {
    hide Fitted;
  }

  /** What is asked of a list: room for each of sizes, which is filled before the next
      is asked for. */
  datatype Ask = Ask(place: Place, sizes: seq<nat>)

  ghost function Serve(L: Layout, s: CS.PoolState, a: Ask): (r: Option<CS.PoolState>)
    requires L.blockSize > 0
    decreases |a.sizes|
  {
    if a.sizes == [] then Some(s)
    else
      match Extended(L, s, a.place, a.sizes[0])
      case None => None
      case Some((t, q)) => Serve(L, t, Ask(q, a.sizes[1..]))
  }

  /** The pool after requests on several lists, if all of them are served. */
  ghost function ServeAll(L: Layout, s: CS.PoolState, asks: seq<Ask>): (r: Option<CS.PoolState>)
    requires L.blockSize > 0
    decreases |asks|
  {
    if asks == [] then Some(s)
    else
      match Serve(L, s, asks[0])
      case None => None
      case Some(t) => ServeAll(L, t, asks[1..])
  }

  function Sum(sizes: seq<nat>): (n: nat)
    ensures sizes == [] ==> n == 0
  {
    if sizes == [] then 0 else sizes[0] + Sum(sizes[1..])
  }

  lemma {:induction false} ServedInRoom(L: Layout, s: CS.PoolState, a: Ask)
    requires L.blockSize > 0 && Sum(a.sizes) <= RoomAt(L, a.place)
    ensures Serve(L, s, a) == Some(s)
    decreases |a.sizes|
  {
    if a.sizes != [] {
      InRoom(L, s, a.place, a.sizes[0]);
      ServedInRoom(L, s, Ask(a.place.(used := a.place.used + a.sizes[0]), a.sizes[1..]));
    }
  }

  /** Where every list has room for what is asked of it, everything is served and the
      pool is left alone. */
  lemma {:induction false} AllServedInRoom(L: Layout, s: CS.PoolState, asks: seq<Ask>)
    requires L.blockSize > 0 && forall a :: a in asks ==> Sum(a.sizes) <= RoomAt(L, a.place)
    ensures ServeAll(L, s, asks) == Some(s)
    decreases |asks|
  {
    hide RoomAt, Sum, Serve;
    if asks != [] {
      ServedInRoom(L, s, asks[0]);
      AllServedInRoom(L, s, asks[1..]);
    }
  }

  /** A clFit, and what else is asked of the list once its bytes have been filled. */
  lemma AskNext(L: Layout, s: CS.PoolState, a: Ask, ok: bool, t: CS.PoolState, q: Place)
    requires L.blockSize > 0 && a.sizes != [] && FitsAs(L, s, a.place, a.sizes[0], ok, t, q)
    ensures Serve(L, s, a) == if ok then Serve(L, t, Ask(q.(used := a.place.used + a.sizes[0]), a.sizes[1..])) else None
  {
    hide Fitted;
  }

  /** All that is asked of the first list, and then the others. */
  lemma AskAll(L: Layout, s: CS.PoolState, asks: seq<Ask>, ok: bool, t: CS.PoolState)
    requires L.blockSize > 0 && asks != [] && Serve(L, s, asks[0]) == if ok then Some(t) else None
    ensures ServeAll(L, s, asks) == if ok then ServeAll(L, t, asks[1..]) else None
  {
    hide Serve;
  }

  /** The last clFit on a list. */
  lemma AskLast(L: Layout, s: CS.PoolState, p: Place, size: nat, ok: bool, t: CS.PoolState, q: Place, asks: seq<Ask>)
    requires L.blockSize > 0 && asks != [] && asks[0] == Ask(p, [size]) && FitsAs(L, s, p, size, ok, t, q)
    ensures ServeAll(L, s, asks) == if ok then ServeAll(L, t, asks[1..]) else None
  {
    hide Fitted, FitsAs, Extended;
    AskNext(L, s, asks[0], ok, t, q);
    assert [size][1..] == [];
  }
}
