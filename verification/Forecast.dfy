/** How vkCmdExecuteCommands of driver/command.c ends, foretold from where the primary's
    lists lie in the pool before it starts. */
module Forecast {
  import opened Bytes
  import opened Seqs
  import opened FreeList
  import opened Markers
  import opened Places
  import CS = ConsecutiveSpec
  import R = Relocation

  /** Completed; the pool could not serve a list, or lost its free list doing so; the
      pointer to the primary's marker was used after the marker had moved. */
  datatype Outcome = Done | PoolLost | StaleMarker

  /** The handles that the index words of a list stand for. */
  ghost function HandlesAt(m: seq<byte>, offs: seq<uint32>, src: seq<uint32>): (hs: seq<uint32>)
    requires R.IndexWords(m, offs, src)
    ensures |hs| == |offs|
  {
    seq(|offs|, k requires 0 <= k < |offs| => src[Word(m, offs[k])])
  }

  ghost function HandlesOf(s: R.Secondary): (hs: seq<uint32>)
    requires R.Recorded(s)
    ensures |hs| == R.Relocations(s)
  {
    HandlesAt(s.uniforms, s.uniformOffs, s.handles) + HandlesAt(s.bin, s.binOffs, s.handles)
    + HandlesAt(s.shaderRec, s.shaderRecOffs, s.handles)
  }

  /** A handle table after all of hs have been entered. */
  function WithAll(table: seq<uint32>, hs: seq<uint32>): (t: seq<uint32>)
    ensures |table| <= |t| <= |table| + |hs|
    decreases |hs|
  {
    if hs == [] then table else WithAll(R.WithHandle(table, hs[0]), hs[1..])
  }

  lemma {:induction false} WithAllSplit(table: seq<uint32>, hs: seq<uint32>, gs: seq<uint32>)
    ensures WithAll(table, hs + gs) == WithAll(WithAll(table, hs), gs)
    decreases |hs|
  {
    if hs == [] {
      assert hs + gs == gs;
    } else {
      assert (hs + gs)[1..] == hs[1..] + gs;
      WithAllSplit(R.WithHandle(table, hs[0]), hs[1..], gs);
    }
  }

  /** A relocation loop enters the handles of its index words, one after the other. */
  lemma {:induction false} RewriteEnters(m: seq<byte>, offs: seq<uint32>, src: seq<uint32>, table: seq<uint32>)
    requires R.IndexWords(m, offs, src) && |table| + |offs| < 0x1_0000_0000
    ensures R.Rewrite(m, offs, src, table).1 == WithAll(table, HandlesAt(m, offs, src))
    decreases |offs|
  {
    hide Word, SetWord;
    if offs != [] {
      var h := src[Word(m, offs[0])];
      var t := R.WithHandle(table, h);
      NextHandles(m, offs, src, IndexOf(t, h));
      RewriteEnters(SetWord(m, offs[0], IndexOf(t, h)), offs[1..], src, t);
    }
  }

  /** Rewriting the first index word leaves what the others stand for. */
  lemma NextHandles(m: seq<byte>, offs: seq<uint32>, src: seq<uint32>, idx: uint32)
    requires offs != [] && R.IndexWords(m, offs, src)
    ensures R.IndexWords(SetWord(m, offs[0], idx), offs[1..], src)
    ensures HandlesAt(m, offs, src) == [src[Word(m, offs[0])]] + HandlesAt(SetWord(m, offs[0], idx), offs[1..], src)
  {
    hide Word, SetWord;
    R.RestOfWords(m, offs, src, idx);
  }

  lemma RewriteAllEnters(s: R.Secondary, table: seq<uint32>)
    requires R.Recorded(s) && |table| + R.Relocations(s) < 0x1_0000_0000
    ensures R.RewriteAll(s, table).handles == WithAll(table, HandlesOf(s))
  {
    hide R.IndexWords, R.Rewrite, WithAll, HandlesAt;
    var a, b, c := HandlesAt(s.uniforms, s.uniformOffs, s.handles), HandlesAt(s.bin, s.binOffs, s.handles), HandlesAt(s.shaderRec, s.shaderRecOffs, s.handles);
    RewriteEnters(s.uniforms, s.uniformOffs, s.handles, table);
    var t1 := WithAll(table, a);
    RewriteEnters(s.bin, s.binOffs, s.handles, t1);
    var t2 := WithAll(t1, b);
    RewriteEnters(s.shaderRec, s.shaderRecOffs, s.handles, t2);
    WithAllSplit(table, a, b);
    WithAllSplit(table, a + b, c);
  }

  /** The primary's table after the three loops: first the handles that uniforms name, then
      those of the binning commands, then those of the shader records. */
  lemma TableInOrder(s: R.Secondary, table: seq<uint32>)
    requires R.Recorded(s) && |table| + R.Relocations(s) < 0x1_0000_0000
    ensures R.RewriteAll(s, table).handles ==
      WithAll(WithAll(WithAll(table, HandlesAt(s.uniforms, s.uniformOffs, s.handles)), HandlesAt(s.bin, s.binOffs, s.handles)),
        HandlesAt(s.shaderRec, s.shaderRecOffs, s.handles))
  {
    hide R.IndexWords, R.RewriteAll, WithAll, HandlesAt;
    var a, b, c := HandlesAt(s.uniforms, s.uniformOffs, s.handles), HandlesAt(s.bin, s.binOffs, s.handles), HandlesAt(s.shaderRec, s.shaderRecOffs, s.handles);
    RewriteAllEnters(s, table);
    WithAllSplit(table, a, b);
    WithAllSplit(table, a + b, c);
  }

  // ------------------------------------------------------------ the relocations

  /** The blocks of a list of which it is known elsewhere how many bytes it holds. */
  function Blocks(p: Place): (q: Place) { p.(used := 0) }

  /** How entering handles ends, and where pool and handle list are then. */
  datatype Entry = Entry(out: Outcome, pool: CS.PoolState, place: Place)

  /** clFit and clGetHandleIndex for each of hs. The table starts from bytes into the
      list. stale: the marker is not where it was before the command. */
  ghost function EnterAll(L: Layout, s: CS.PoolState, h: Place, from: nat, table: seq<uint32>, hs: seq<uint32>, stale: bool): (e: Entry)
    requires L.blockSize > 0
    decreases |hs|
  {
    if hs == [] then Entry(Done, s, Blocks(h))
    else
      match Fitted(L, s, h.(used := from + 4 * |table|), 4)
      case None => Entry(PoolLost, s, Blocks(h))
      case Some((t, q)) =>
        if stale then Entry(StaleMarker, t, Blocks(q))
        else EnterAll(L, t, q, from, R.WithHandle(table, hs[0]), hs[1..], stale)
  }

  lemma {:induction false} EnterAllSplit(L: Layout, s: CS.PoolState, h: Place, from: nat, table: seq<uint32>, hs: seq<uint32>, gs: seq<uint32>, stale: bool)
    requires L.blockSize > 0
    ensures EnterAll(L, s, h, from, table, hs + gs, stale) ==
      var e := EnterAll(L, s, h, from, table, hs, stale);
      if e.out != Done then e else EnterAll(L, e.pool, e.place, from, WithAll(table, hs), gs, stale)
    decreases |hs|
  {
    hide Fitted;
    if hs == [] {
      assert hs + gs == gs;
      EnterAllBlocks(L, s, h, Blocks(h), from, table, gs, stale);
    } else {
      assert (hs + gs)[1..] == hs[1..] + gs;
      match Fitted(L, s, h.(used := from + 4 * |table|), 4)
      case None =>
      case Some((t, q)) =>
        if !stale { EnterAllSplit(L, t, q, from, R.WithHandle(table, hs[0]), hs[1..], gs, stale); }
    }
  }

  /** Only the blocks matter, not how many bytes the list is said to hold. */
  lemma EnterAllBlocks(L: Layout, s: CS.PoolState, h: Place, k: Place, from: nat, table: seq<uint32>, hs: seq<uint32>, stale: bool)
    requires L.blockSize > 0 && Blocks(h) == Blocks(k)
    ensures EnterAll(L, s, h, from, table, hs, stale) == EnterAll(L, s, k, from, table, hs, stale)
  {
    hide Fitted;
  }

  // ---------------------------------------------------------------- the command

  /** The pool, and where the lists of the primary lie. */
  datatype Claims = Claims(pool: CS.PoolState, bin: Place, handles: Place, uniforms: Place, shaderRec: Place)

  function Commands(s: R.Secondary): (n: nat) {
    if MARKER_SIZE <= |s.bin| then |s.bin| - MARKER_SIZE else 0
  }

  /** The uniforms and the shader records. */
  ghost function RestTo(L: Layout, s: CS.PoolState, u: Place, c: Place, uniforms: nat, shaderRec: nat): (r: Option<(CS.PoolState, Place, Place)>)
    requires L.blockSize > 0
  {
    match Extended(L, s, u, uniforms)
    case None => None
    case Some((t, v)) =>
      match Extended(L, t, c, shaderRec)
      case None => None
      case Some((w, d)) => Some((w, v, d))
  }

  /** The appending part of the loop body. */
  ghost function AppendedTo(L: Layout, g: Claims, bin: nat, uniforms: nat, shaderRec: nat): (r: Option<Claims>)
    requires L.blockSize > 0
  {
    match Extended(L, g.pool, g.bin, bin)
    case None => None
    case Some((s, b)) =>
      match RestTo(L, s, g.uniforms, g.shaderRec, uniforms, shaderRec)
      case None => None
      case Some((t, u, c)) => Some(Claims(t, b, g.handles, u, c))
  }

  /** A secondary is appended exactly if the clFits of the binning list, the uniforms and the
      shader records are served in this order, and leaves the pool they leave. */
  lemma AppendsInTurn(L: Layout, g: Claims, bin: nat, uniforms: nat, shaderRec: nat)
    requires L.blockSize > 0
    ensures var r := AppendedTo(L, g, bin, uniforms, shaderRec);
      ServeAll(L, g.pool, [Ask(g.bin, [bin]), Ask(g.uniforms, [uniforms]), Ask(g.shaderRec, [shaderRec])])
        == if r.None? then None else Some(r.value.pool)
  {
    hide Extended;
    var asks := [Ask(g.bin, [bin]), Ask(g.uniforms, [uniforms]), Ask(g.shaderRec, [shaderRec])];
    var rest, last := asks[1..], asks[2..];
    assert rest[1..] == last && last[1..] == [];
    OneAsk(L, g.pool, g.bin, bin);
    var s := Extended(L, g.pool, g.bin, bin);
    if s.Some? {
      OneAsk(L, s.value.0, g.uniforms, uniforms);
      var t := Extended(L, s.value.0, g.uniforms, uniforms);
      assert ServeAll(L, g.pool, asks) == ServeAll(L, s.value.0, rest);
      if t.Some? {
        OneAsk(L, t.value.0, g.shaderRec, shaderRec);
        assert ServeAll(L, s.value.0, rest) == ServeAll(L, t.value.0, last);
      }
    }
  }

  lemma OneAsk(L: Layout, s: CS.PoolState, p: Place, size: nat)
    requires L.blockSize > 0
    ensures Serve(L, s, Ask(p, [size])) == match Extended(L, s, p, size) case None => None case Some((t, _)) => Some(t)
  {
    hide Extended;
    assert [size][1..] == [];
  }

  datatype Reached = Reached(out: Outcome, claims: Claims)

  /** The loop body. The marker was in a list that started at block origin. */
  ghost function Body(L: Layout, g: Claims, from: nat, table: seq<uint32>, s: R.Secondary, origin: nat): (r: Reached)
    requires L.blockSize > 0 && R.Recorded(s)
  {
    var e := EnterAll(L, g.pool, g.handles, from, table, HandlesOf(s), g.bin.first != origin);
    if e.out != Done then Reached(e.out, g)
    else
      match AppendedTo(L, g.(pool := e.pool, handles := e.place), Commands(s), |s.uniforms|, |s.shaderRec|)
      case None => Reached(PoolLost, g)
      case Some(h) => Reached(Done, h)
  }

  /** The command: what becomes of it, seen from where the lists lie before it. */
  ghost function Foretold(L: Layout, g: Claims, from: nat, table: seq<uint32>, ss: seq<R.Secondary>, origin: nat): (out: Outcome)
    requires L.blockSize > 0 && forall s :: s in ss ==> R.Recorded(s)
    decreases |ss|
  {
    if ss == [] then Done
    else
      var r := Body(L, g, from, table, ss[0], origin);
      if r.out != Done then r.out
      else Foretold(L, r.claims, from, WithAll(table, HandlesOf(ss[0])), ss[1..], origin)
  }

  // ------------------------------------------------------ what that comes to

  /** The other lists of the primary have room for all of ss. */
  ghost predicate OthersHaveRoom(L: Layout, g: Claims, from: nat, table: seq<uint32>, ss: seq<R.Secondary>) {
    var n := R.NeedsOf(ss);
    && n.handles <= RoomAt(L, g.handles.(used := from + 4 * |table|))
    && n.uniforms <= RoomAt(L, g.uniforms) && n.shaderRec <= RoomAt(L, g.shaderRec)
  }

  /** The binning list alone, after the commands of the first c secondaries. */
  ghost function BinAfter(L: Layout, s: CS.PoolState, bin: Place, ss: seq<R.Secondary>, c: nat): (r: Option<(CS.PoolState, Place)>)
    requires L.blockSize > 0 && c <= |ss|
    decreases c
  {
    if c == 0 then Some((s, bin))
    else
      match Extended(L, s, bin, Commands(ss[0]))
      case None => None
      case Some((t, b)) => BinAfter(L, t, b, ss[1..], c - 1)
  }

  /** The c-th secondary has an index word, and by its turn the binning list has moved. */
  ghost predicate ReadsStale(L: Layout, s: CS.PoolState, bin: Place, ss: seq<R.Secondary>, origin: nat, c: nat)
    requires L.blockSize > 0 && c < |ss|
  {
    var b := BinAfter(L, s, bin, ss, c);
    R.Relocations(ss[c]) > 0 && b.Some? && b.value.1.first != origin
  }

  lemma {:induction false} EnterInRoom(L: Layout, s: CS.PoolState, h: Place, from: nat, table: seq<uint32>, hs: seq<uint32>, stale: bool)
    requires L.blockSize > 0 && 4 * |hs| <= RoomAt(L, h.(used := from + 4 * |table|))
    ensures EnterAll(L, s, h, from, table, hs, stale) == Entry(if hs != [] && stale then StaleMarker else Done, s, Blocks(h))
    decreases |hs|
  {
    if hs != [] {
      InRoom(L, s, h.(used := from + 4 * |table|), 4);
      if !stale {
        var q, t := h.(used := from + 4 * |table|), R.WithHandle(table, hs[0]);
        assert |t| <= |table| + 1;
        EnterInRoom(L, s, q, from, t, hs[1..], stale);
      }
    }
  }

  /** With room elsewhere, the loop body asks the pool for the binning list only. */
  lemma BodyInRoom(L: Layout, g: Claims, from: nat, table: seq<uint32>, ss: seq<R.Secondary>, origin: nat)
    requires L.blockSize > 0 && ss != [] && (forall s :: s in ss ==> R.Recorded(s)) && OthersHaveRoom(L, g, from, table, ss)
    ensures var r, b := Body(L, g, from, table, ss[0], origin), Extended(L, g.pool, g.bin, Commands(ss[0]));
      && r.out == (if R.Relocations(ss[0]) > 0 && g.bin.first != origin then StaleMarker else if b.None? then PoolLost else Done)
      && (r.out == Done ==> r.claims.pool == b.value.0 && r.claims.bin == b.value.1)
      && (r.out == Done ==> OthersHaveRoom(L, r.claims, from, WithAll(table, HandlesOf(ss[0])), ss[1..]))
  {
    hide Fitted, R.Recorded, WithAll, HandlesOf;
    var s, n := ss[0], R.NeedsOf(ss[1..]);
    EnterInRoom(L, g.pool, g.handles, from, table, HandlesOf(s), g.bin.first != origin);
    match Extended(L, g.pool, g.bin, Commands(s))
    case None =>
    case Some((t, b)) =>
      InRoom(L, t, g.uniforms, |s.uniforms|);
      InRoom(L, t, g.shaderRec, |s.shaderRec|);
  }

  /** Where the other lists have room, the command completes if and only if the binning
      list can grow each time it must, and never has moved by the turn of a secondary
      with an index word; the marker is read where it no longer is if and only if it
      has. */
  lemma {:induction false} EndsExactly(L: Layout, g: Claims, from: nat, table: seq<uint32>, ss: seq<R.Secondary>, origin: nat)
    requires L.blockSize > 0 && (forall s :: s in ss ==> R.Recorded(s)) && OthersHaveRoom(L, g, from, table, ss)
    ensures var out := Foretold(L, g, from, table, ss, origin);
      && (out == StaleMarker <==> exists c :: 0 <= c < |ss| && ReadsStale(L, g.pool, g.bin, ss, origin, c))
      && (out == Done <==> BinAfter(L, g.pool, g.bin, ss, |ss|).Some? && out != StaleMarker)
    decreases |ss|
  {
    hide R.Recorded, OthersHaveRoom, Body, Extended, R.Relocations;
    if ss != [] {
      BodyInRoom(L, g, from, table, ss, origin);
      var r := Body(L, g, from, table, ss[0], origin);
      if r.out == Done { EndsExactly(L, r.claims, from, WithAll(table, HandlesOf(ss[0])), ss[1..], origin); }
      StaleNowOrLater(L, g.pool, g.bin, ss, origin);
    }
  }

  lemma StaleNowOrLater(L: Layout, s: CS.PoolState, bin: Place, ss: seq<R.Secondary>, origin: nat)
    requires L.blockSize > 0 && ss != []
    ensures (exists c :: 0 <= c < |ss| && ReadsStale(L, s, bin, ss, origin, c)) <==>
      || (R.Relocations(ss[0]) > 0 && bin.first != origin)
      || (var b := Extended(L, s, bin, Commands(ss[0]));
          b.Some? && exists c :: 0 <= c < |ss[1..]| && ReadsStale(L, b.value.0, b.value.1, ss[1..], origin, c))
  {
    hide Extended, R.Relocations;
    var b := Extended(L, s, bin, Commands(ss[0]));
    forall c: nat | c < |ss|
      ensures ReadsStale(L, s, bin, ss, origin, c) <==>
        if c == 0 then R.Relocations(ss[0]) > 0 && bin.first != origin
        else b.Some? && ReadsStale(L, b.value.0, b.value.1, ss[1..], origin, c - 1)
    {
    }
    if b.Some? && exists c :: 0 <= c < |ss[1..]| && ReadsStale(L, b.value.0, b.value.1, ss[1..], origin, c) {
      var c :| 0 <= c < |ss[1..]| && ReadsStale(L, b.value.0, b.value.1, ss[1..], origin, c);
      assert ReadsStale(L, s, bin, ss, origin, c + 1);
    }
    if R.Relocations(ss[0]) > 0 && bin.first != origin { assert ReadsStale(L, s, bin, ss, origin, 0); }
  }

  /** With room everywhere the command completes. */
  lemma {:induction false} RoomSuffices(L: Layout, g: Claims, from: nat, table: seq<uint32>, ss: seq<R.Secondary>)
    requires L.blockSize > 0 && (forall s :: s in ss ==> R.Recorded(s)) && OthersHaveRoom(L, g, from, table, ss)
    requires R.NeedsOf(ss).bin <= RoomAt(L, g.bin)
    ensures Foretold(L, g, from, table, ss, g.bin.first) == Done
    decreases |ss|
  {
    hide R.Recorded, OthersHaveRoom, Body, R.Relocations, HandlesOf;
    if ss != [] {
      BodyInRoom(L, g, from, table, ss, g.bin.first);
      InRoom(L, g.pool, g.bin, Commands(ss[0]));
      assert R.NeedsOf(ss).bin == Commands(ss[0]) + R.NeedsOf(ss[1..]).bin;
      RoomSuffices(L, Body(L, g, from, table, ss[0], g.bin.first).claims, from, WithAll(table, HandlesOf(ss[0])), ss[1..]);
    }
  }

  lemma {:induction false} EnterFresh(L: Layout, s: CS.PoolState, h: Place, from: nat, table: seq<uint32>, hs: seq<uint32>)
    requires L.blockSize > 0
    ensures EnterAll(L, s, h, from, table, hs, false).out != StaleMarker
    decreases |hs|
  {
    hide Fitted;
    if hs != [] {
      match Fitted(L, s, h.(used := from + 4 * |table|), 4)
      case None =>
      case Some((t, q)) => EnterFresh(L, t, q, from, R.WithHandle(table, hs[0]), hs[1..]);
    }
  }

  /** A single secondary never meets a stale marker, whatever room there is. */
  lemma SingleNeverStale(L: Layout, g: Claims, from: nat, table: seq<uint32>, s: R.Secondary)
    requires L.blockSize > 0 && R.Recorded(s)
    ensures Foretold(L, g, from, table, [s], g.bin.first) != StaleMarker
  {
    hide R.Recorded, HandlesOf, AppendedTo, EnterAll;
    EnterFresh(L, g.pool, g.handles, from, table, HandlesOf(s));
    assert [s][1..] == [];
  }

  /** There is room for all of ss in every list of the primary. */
  ghost predicate AllHaveRoom(L: Layout, g: Claims, from: nat, table: seq<uint32>, ss: seq<R.Secondary>) {
    OthersHaveRoom(L, g, from, table, ss) && R.NeedsOf(ss).bin <= RoomAt(L, g.bin)
  }

  /** Two cases in which nothing is stale. */
  lemma NeverStale(L: Layout, g: Claims, from: nat, table: seq<uint32>, ss: seq<R.Secondary>)
    requires L.blockSize > 0 && forall s :: s in ss ==> R.Recorded(s)
    ensures AllHaveRoom(L, g, from, table, ss) ==> Foretold(L, g, from, table, ss, g.bin.first) == Done
    ensures |ss| <= 1 ==> Foretold(L, g, from, table, ss, g.bin.first) != StaleMarker
  {
    hide R.Recorded, OthersHaveRoom, Body;
    if AllHaveRoom(L, g, from, table, ss) { RoomSuffices(L, g, from, table, ss); }
    if |ss| == 1 {
      assert ss == [ss[0]];
      SingleNeverStale(L, g, from, table, ss[0]);
    }
  }

  /** One more handle, and then the rest. */
  lemma EnterNext(L: Layout, s: CS.PoolState, p: Place, from: nat, table: seq<uint32>, hs: seq<uint32>, stale: bool, out: Outcome,
      t: CS.PoolState, q: Place)
    requires L.blockSize > 0 && hs != [] && p.used == from + 4 * |table|
    requires FitsAs(L, s, p, 4, out != PoolLost, t, q) && (out != PoolLost ==> (out == Done <==> !stale))
    ensures out != Done ==> EnterAll(L, s, p, from, table, hs, stale).out == out
    ensures out == Done ==> EnterAll(L, s, p, from, table, hs, stale) == EnterAll(L, t, q, from, R.WithHandle(table, hs[0]), hs[1..], stale)
  {
    hide Fitted;
    match Fitted(L, s, p, 4)
    case None =>
    case Some((u, r)) => if out == Done { EnterAllBlocks(L, t, r, q, from, R.WithHandle(table, hs[0]), hs[1..], stale); }
  }

  lemma EnterNone(L: Layout, s: CS.PoolState, h: Place, from: nat, table: seq<uint32>, hs: seq<uint32>, stale: bool)
    requires L.blockSize > 0 && hs == []
    ensures EnterAll(L, s, h, from, table, hs, stale) == Entry(Done, s, Blocks(h))
  {
  }

  /** It ended as foretold, and if it was completed, pool and list are as foretold. */
  ghost predicate EndsAs(e: Entry, out: Outcome, pool: CS.PoolState, place: Place) {
    out == e.out && (out == Done ==> pool == e.pool && Blocks(place) == e.place)
  }

  /** Handles entered after others that have been entered. */
  lemma EntersOn(L: Layout, s: CS.PoolState, h: Place, from: nat, table: seq<uint32>, hs: seq<uint32>, gs: seq<uint32>, stale: bool,
      t: CS.PoolState, q: Place, out: Outcome, u: CS.PoolState, r: Place)
    requires L.blockSize > 0 && EndsAs(EnterAll(L, s, h, from, table, hs, stale), Done, t, q)
    requires EndsAs(EnterAll(L, t, q, from, WithAll(table, hs), gs, stale), out, u, r)
    ensures EndsAs(EnterAll(L, s, h, from, table, hs + gs, stale), out, u, r)
  {
    hide EnterAll;
    EnterAllSplit(L, s, h, from, table, hs, gs, stale);
    EnterAllBlocks(L, t, EnterAll(L, s, h, from, table, hs, stale).place, q, from, WithAll(table, hs), gs, stale);
  }

  /** It ends early for more handles too. */
  lemma EntersShort(L: Layout, s: CS.PoolState, h: Place, from: nat, table: seq<uint32>, hs: seq<uint32>, gs: seq<uint32>, stale: bool,
      out: Outcome, t: CS.PoolState, q: Place)
    requires L.blockSize > 0 && EndsAs(EnterAll(L, s, h, from, table, hs, stale), out, t, q) && out != Done
    ensures EndsAs(EnterAll(L, s, h, from, table, hs + gs, stale), out, t, q)
  {
    hide EnterAll;
    EnterAllSplit(L, s, h, from, table, hs, gs, stale);
  }

  /** What lies in front of the index words does not matter to what they stand for. */
  lemma SameHandles(m: seq<byte>, n: seq<byte>, d: nat, offs: seq<uint32>, src: seq<uint32>)
    requires |m| == |n| && d <= |m| && m[d..] == n[d..] && (forall k :: 0 <= k < |offs| ==> d <= offs[k])
    requires R.IndexWords(m, offs, src)
    ensures R.IndexWords(n, offs, src) && HandlesAt(m, offs, src) == HandlesAt(n, offs, src)
  {
    hide Word;
    forall k | 0 <= k < |offs| ensures Word(m, offs[k]) == Word(n, offs[k]) {
      var o := offs[k];
      assert forall i :: o <= i < o + 4 ==> n[i] == n[d..][i - d] == m[d..][i - d] == m[i];
      WordFrame(m, n, o);
    }
  }

  /** The loop body, from how its two halves ended. */
  lemma BodyEnds(L: Layout, g: Claims, h: Place, from: nat, table: seq<uint32>, s: R.Secondary, origin: nat, out: Outcome, h': Claims)
    requires L.blockSize > 0 && R.Recorded(s) && g.handles == Blocks(h) && h'.handles == Blocks(h'.handles)
    requires EndsAs(EnterAll(L, g.pool, h, from, table, HandlesOf(s), g.bin.first != origin), out, h'.pool, h'.handles)
    requires h' == g.(pool := h'.pool, handles := h'.handles)
    ensures out != Done ==> Body(L, g, from, table, s, origin).out == out
    ensures out == Done ==>
      var r := AppendedTo(L, h', Commands(s), |s.uniforms|, |s.shaderRec|);
      Body(L, g, from, table, s, origin) == (if r.None? then Reached(PoolLost, g) else Reached(Done, r.value))
  {
    hide EnterAll, AppendedTo, R.Recorded, HandlesOf;
    EnterAllBlocks(L, g.pool, h, Blocks(h), from, table, HandlesOf(s), g.bin.first != origin);
  }
}
