/** A vkCmdExecuteCommands with two secondaries that uses its pointer to the primary's
    marker after the marker has moved. */
module StaleWitness {
  import opened Bytes
  import opened Seqs
  import opened FreeList
  import opened Markers
  import opened Places
  import opened Forecast
  import CS = ConsecutiveSpec
  import PF = PoolFailures
  import R = Relocation

  /** k lists are given a block each. */
  function Begun(k: nat): (ops: seq<CS.Op>) {
    seq(k, i => CS.Allocates(1))
  }

  /** They get the pool's first blocks. */
  lemma {:induction false} FirstBlocks(s: CS.PoolState, a: nat, k: nat, n: nat)
    requires a + k <= n && s.free == RunSeq(a, n - a)
    ensures CS.LegalRun(s, Begun(k)) && CS.After(s, Begun(k)).free == RunSeq(a + k, n - a - k)
    ensures s.live <= CS.After(s, Begun(k)).live && forall b :: a <= b < a + k ==> b in CS.After(s, Begun(k)).live
    decreases k
  {
    hide CS.Allocate;
    if k > 0 {
      PF.OneBlock(s);
      var t := CS.Apply(s, CS.Allocates(1));
      assert t.free == RunSeq(a + 1, n - a - 1);
      FirstBlocks(t, a + 1, k - 1, n);
      PF.First(s, CS.Allocates(1), Begun(k - 1));
      assert Begun(k) == [CS.Allocates(1)] + Begun(k - 1);
    }
  }

  /** 4000 bytes of commands and no index word. */
  const LONG: R.Secondary := R.Secondary(Zeros(MARKER_SIZE + 4000), [], [], [], [], [], [], 0, 0)

  /** One index word, among the uniforms. */
  const INDEXED: R.Secondary := R.Secondary(Zeros(MARKER_SIZE), [0, 0, 0, 0], [], [7], [], [0], [], 0, 0)

  function Pages(n: nat): (L: Layout) { Layout(4096, 4096, n) }

  /** In a pool, k lists have been begun, with a page each: seven for the primary, seven
      for the long secondary, seven for the indexed one, and maybe others. Then the long
      one has been recorded, and its binning list, at page 7, has grown to two pages. */
  function History(k: nat): (ops: seq<CS.Op>) {
    Begun(k) + [CS.Grows(7, 1, 2)]
  }

  /** The list has moved to the two pages behind all others, and page 7 is free. */
  lemma AfterHistory(n: nat, k: nat)
    requires 21 <= k && k + 4 <= n < 0xF_0000
    ensures CS.LegalRun(CS.Created(n), History(k)) && CS.After(CS.Created(n), History(k)).free == [7] + RunSeq(k + 2, n - k - 2)
  {
    hide CS.Created, CS.Reallocate;
    var s := CS.Created(n);
    assert s.free == RunSeq(0, n) by { FreshPages(n); }
    FirstBlocks(s, 0, k, n);
    PageSevenMoves(CS.After(s, Begun(k)), n, k);
    RunThen(s, Begun(k), CS.Grows(7, 1, 2));
  }

  lemma FreshPages(n: nat)
    requires n < 0x1_0000_0000
    ensures CS.Created(n).free == RunSeq(0, n)
  {
  }

  lemma PageSevenMoves(s: CS.PoolState, n: nat, k: nat)
    requires 21 <= k && k + 4 <= n && s.free == RunSeq(k, n - k) && 7 in s.live
    ensures CS.Legal(s, CS.Grows(7, 1, 2)) && CS.Apply(s, CS.Grows(7, 1, 2)).free == [7] + RunSeq(k + 2, n - k - 2)
  {
    PF.RunOf(7);
    assert CS.RunAt(s.free, 0, 2);
    assert CS.FirstFit(s.free, 2, 0) == Some(0);
    var t := CS.Allocate(s, 2).0;
    assert t.free == RunSeq(k + 2, n - k - 2);
    assert forall j :: 0 <= j < |t.free| ==> t.free[j] + 1 != 7;
    PF.InFront(t.free, 7);
  }

  lemma {:induction false} RunThen(s: CS.PoolState, ops: seq<CS.Op>, op: CS.Op)
    requires CS.LegalRun(s, ops) && CS.Legal(CS.After(s, ops), op)
    ensures CS.LegalRun(s, ops + [op]) && CS.After(s, ops + [op]) == CS.Apply(CS.After(s, ops), op)
    decreases |ops|
  {
    hide CS.Allocate, CS.Reallocate, CS.Release;
    if ops == [] {
      assert ops + [op] == [op] && [op][1..] == [];
    } else {
      RunThen(CS.Apply(s, ops[0]), ops[1..], op);
      assert (ops + [op])[1..] == ops[1..] + [op];
    }
  }

  /** Then the primary is begun: its marker is all that its four lists hold. */
  ghost function AtFirst(n: nat, k: nat): (g: Claims)
    requires 21 <= k && k + 4 <= n < 0xF_0000
  {
    AfterHistory(n, k);
    Claims(CS.After(CS.Created(n), History(k)), Place(0, 1, MARKER_SIZE), Place(1, 1, 0), Place(3, 1, 0), Place(2, 1, 0))
  }

  /** Each of the four lists lies in a block of its own, among those handed out first. */
  lemma PrimaryLies(n: nat, k: nat)
    requires 21 <= k && k + 4 <= n < 0xF_0000
    ensures var g := AtFirst(n, k);
      && g.bin.used == 164 && g.handles.used == g.uniforms.used == g.shaderRec.used == 0
      && g.bin.blocks == g.handles.blocks == g.uniforms.blocks == g.shaderRec.blocks == 1
      && g.bin.first < 7 && g.handles.first < 7 && g.uniforms.first < 7 && g.shaderRec.first < 7
      && |{g.bin.first, g.handles.first, g.uniforms.first, g.shaderRec.first}| == 4
      && forall b :: b in g.pool.free ==> b >= 7
  {
    hide CS.After, CS.LegalRun;
    AfterHistory(n, k);
  }

  /** The first secondary makes the binning list move, and the index word of the
      second one is entered through the pointer to where the marker was. */
  lemma StaleReached(n: nat, k: nat)
    requires 21 <= k && k + 4 <= n < 0xF_0000
    ensures Pages(n).Valid() && R.Recorded(LONG) && R.Recorded(INDEXED) && OthersHaveRoom(Pages(n), AtFirst(n, k), 0, [], [LONG, INDEXED])
    ensures Foretold(Pages(n), AtFirst(n, k), 0, [], [LONG, INDEXED], 0) == StaleMarker
  {
    hide CS.After, CS.LegalRun, Extended, Foretold, RoomAt, R.NeedsOf, Pages;
    var L, g, ss := Pages(n), AtFirst(n, k), [LONG, INDEXED];
    PagesFit(n);
    AfterHistory(n, k);
    BothRecorded();
    RoomInABlock(n, 1);
    RoomInABlock(n, 2);
    RoomInABlock(n, 3);
    NeedsOfBoth();
    BinMoves(n, k, g.pool);
    assert ss[1..] == [INDEXED];
    assert BinAfter(L, g.pool, g.bin, ss, 1) == Extended(L, g.pool, g.bin, 4000);
    assert ReadsStale(L, g.pool, g.bin, ss, 0, 1);
    EndsExactly(L, g, 0, [], ss, 0);
  }

  lemma PagesFit(n: nat)
    requires 1 <= n < 0xF_0000
    ensures Pages(n).Valid()
  {
    Pages(n).OffIsProduct(n);
  }

  lemma BothRecorded()
    ensures R.Recorded(LONG) && R.Recorded(INDEXED) && Commands(LONG) == 4000 && R.Relocations(INDEXED) == 1
  {
    assert [0, 0, 0, 0][0..4] == [0, 0, 0, 0];
  }

  lemma RoomInABlock(n: nat, b: nat)
    ensures Pages(n).blockSize == 4096 && RoomAt(Pages(n), Place(b, 1, 0)) == 4096
  {
  }

  lemma NeedsOfBoth()
    ensures R.NeedsOf([LONG, INDEXED]) == R.Needs(4000, 4, 0, 4)
  {
    assert [LONG, INDEXED][1..] == [INDEXED] && [INDEXED][1..] == [];
    assert R.NeedsOf([INDEXED]) == R.With(INDEXED, R.NeedsOf([])) == R.Needs(0, 4, 0, 4);
  }

  lemma BinMoves(n: nat, k: nat, s: CS.PoolState)
    requires 21 <= k && k + 4 <= n && s.free == [7] + RunSeq(k + 2, n - k - 2)
    ensures var r := Extended(Pages(n), s, Place(0, 1, MARKER_SIZE), 4000); r.Some? && r.value.1.first == k + 2
  {
    hide CS.Release;
    assert !CS.RunAt(s.free, 0, 2) && CS.RunAt(s.free, 1, 2);
    assert CS.FirstFit(s.free, 2, 0) == Some(1);
    assert RoomAt(Pages(n), Place(0, 1, MARKER_SIZE)) == 4096 - MARKER_SIZE;
    assert BlocksFor(MARKER_SIZE + 4000, 4096) == 2;
  }
}
