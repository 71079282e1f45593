/** Executing a secondary a second time. vkCmdExecuteCommands of driver/command.c
    rewrites the secondary's index words where they stand, but leaves its handle table
    as it was. */
module Reexecution {
  import opened Bytes
  import opened Seqs
  import opened Markers
  import opened ControlLists
  import opened CommandBuffers
  import opened ExecuteCommands
  import opened Forecast
  import R = Relocation

  /** The old table src has each of the handles hs where the table t has it first. */
  ghost predicate Agree(src: seq<uint32>, t: seq<uint32>, hs: seq<uint32>) {
    forall k :: 0 <= k < |hs| ==> IndexOf(t, hs[k]) < |src| && src[IndexOf(t, hs[k])] == hs[k]
  }

  // --------------------------------------------------------------- one list

  lemma IndexStays(t: seq<uint32>, longer: seq<uint32>, h: uint32)
    requires t <= longer && h in t
    ensures IndexOf(longer, h) == IndexOf(t, h)
  {
    assert longer[IndexOf(t, h)] == h;
    assert forall j :: 0 <= j < IndexOf(t, h) ==> longer[j] == t[j];
  }

  lemma {:induction false} WithAllGrows(table: seq<uint32>, hs: seq<uint32>)
    ensures table <= WithAll(table, hs) && forall k :: 0 <= k < |hs| ==> hs[k] in WithAll(table, hs)
    decreases |hs|
  {
    if hs != [] {
      var t := R.WithHandle(table, hs[0]);
      WithAllGrows(t, hs[1..]);
      assert t[IndexOf(table, hs[0])] == hs[0];
      assert forall k :: 1 <= k < |hs| ==> hs[k] == hs[1..][k - 1];
    }
  }

  /** A rewritten word is the first position of its handle in the table that is left. */
  lemma {:induction false} RewrittenIndex(m: seq<byte>, offs: seq<uint32>, src: seq<uint32>, dst: seq<uint32>)
    requires R.IndexWords(m, offs, src) && |dst| + |offs| < 0x1_0000_0000
    ensures var (r, t) := R.Rewrite(m, offs, src, dst);
      var hs := HandlesAt(m, offs, src);
      && |r| == |m| && t == WithAll(dst, hs)
      && forall k :: 0 <= k < |offs| ==> hs[k] in t && Word(r, offs[k]) == IndexOf(t, hs[k])
    decreases |offs|
  {
    hide Word, SetWord;
    RewriteEnters(m, offs, src, dst);
    R.RewriteKeepsMeaning(m, offs, src, dst);
    if offs != [] {
      var hs := HandlesAt(m, offs, src);
      var h, rest := src[Word(m, offs[0])], offs[1..];
      var idx, next := IndexOf(dst, h), R.WithHandle(dst, h);
      var n := SetWord(m, offs[0], idx);
      NextHandles(m, offs, src, idx);
      R.RestOfWords(m, offs, src, idx);
      R.RewriteKeepsMeaning(n, rest, src, next);
      RewrittenIndex(n, rest, src, next);
      var (r, t) := R.Rewrite(n, rest, src, next);
      R.FirstWordKept(n, r, offs);
      FirstIndex(dst, h, t);
      forall k | 0 <= k < |offs| ensures hs[k] in t && Word(r, offs[k]) == IndexOf(t, hs[k]) {
        if k > 0 { assert rest[k - 1] == offs[k] && HandlesAt(n, rest, src)[k - 1] == hs[k]; }
      }
    }
  }

  lemma FirstIndex(dst: seq<uint32>, h: uint32, t: seq<uint32>)
    requires R.WithHandle(dst, h) <= t
    ensures h in t && IndexOf(t, h) == IndexOf(dst, h)
  {
    var next := R.WithHandle(dst, h);
    assert next[IndexOf(dst, h)] == h;
    if h in dst { IndexStays(dst, next, h); } else { assert next == dst + [h]; }
    IndexStays(next, t, h);
  }

  /** With its old table, a rewritten list still names the same handles if and only if
      the old table has each of them where the later one has it. */
  lemma ListAgainExactly(m: seq<byte>, offs: seq<uint32>, src: seq<uint32>, dst: seq<uint32>, later: seq<uint32>)
    requires R.IndexWords(m, offs, src) && |dst| + |offs| < 0x1_0000_0000 && WithAll(dst, HandlesAt(m, offs, src)) <= later
    ensures var r, hs := R.Rewrite(m, offs, src, dst).0, HandlesAt(m, offs, src);
      |r| == |m| && ((R.IndexWords(r, offs, src) && HandlesAt(r, offs, src) == hs) <==> Agree(src, later, hs))
  {
    hide Word, R.Rewrite, WithAll;
    var hs := HandlesAt(m, offs, src);
    RewrittenIndex(m, offs, src, dst);
    var (r, t) := R.Rewrite(m, offs, src, dst);
    forall k | 0 <= k < |offs| ensures Word(r, offs[k]) == IndexOf(later, hs[k]) { IndexStays(t, later, hs[k]); }
    if R.IndexWords(r, offs, src) && HandlesAt(r, offs, src) == hs {
      forall k | 0 <= k < |hs| ensures src[Word(r, offs[k])] == hs[k] {
        assert HandlesAt(r, offs, src)[k] == hs[k];
      }
    }
  }

  // -------------------------------------------------------- whole secondaries

  /** What is left of a secondary that has been executed over a table. */
  ghost function Spent(s: R.Secondary, table: seq<uint32>): (r: R.Secondary)
    requires R.Recorded(s) && |table| + R.Relocations(s) < 0x1_0000_0000
  {
    var w := R.RewriteAll(s, table);
    s.(uniforms := w.uniforms, bin := w.bin, shaderRec := w.shaderRec)
  }

  /** It is what the secondary's lists hold after the three relocation loops. */
  lemma SpentIsLeft(i: Image, s: R.Secondary, count: uint32, table: seq<uint32>, j: Image)
    requires MARKER_SIZE <= |i.bin| && s == SecondaryOf(i, count) && R.Recorded(s) && |table| + R.Relocations(s) < 0x1_0000_0000
    requires RewrittenImage(i, R.RewriteAll(s, table), j)
    ensures MARKER_SIZE <= |j.bin| && SecondaryOf(j, count) == Spent(s, table)
  {
    hide R.RewriteAll, R.Recorded, R.SameMeaning, Word, Table;
    var w := R.RewriteAll(s, table);
    R.RewriteAllKeepsMeaning(s, table);
    R.MarkerNotRewritten(s, w.bin, w.handles);
    assert s.bin[..MARKER_SIZE] == Zeros(MARKER_SIZE);
    assert w.bin == w.bin[..MARKER_SIZE] + w.bin[MARKER_SIZE..];
  }

  lemma AgreeSplit(src: seq<uint32>, t: seq<uint32>, a: seq<uint32>, b: seq<uint32>)
    ensures Agree(src, t, a + b) <==> Agree(src, t, a) && Agree(src, t, b)
  {
    if Agree(src, t, a + b) {
      forall k | 0 <= k < |a| ensures IndexOf(t, a[k]) < |src| && src[IndexOf(t, a[k])] == a[k] { assert (a + b)[k] == a[k]; }
      forall k | 0 <= k < |b| ensures IndexOf(t, b[k]) < |src| && src[IndexOf(t, b[k])] == b[k] { assert (a + b)[|a| + k] == b[k]; }
    }
  }

  lemma SplitThree(a: seq<uint32>, b: seq<uint32>, c: seq<uint32>, d: seq<uint32>, e: seq<uint32>, f: seq<uint32>)
    requires |a| == |d| && |b| == |e| && |c| == |f|
    ensures a + b + c == d + e + f <==> a == d && b == e && c == f
  {
    if a + b + c == d + e + f {
      assert a == (a + b + c)[..|a|] && d == (d + e + f)[..|a|];
      assert b == (a + b + c)[|a|..|a| + |b|] && e == (d + e + f)[|a|..|a| + |b|];
      assert c == (a + b + c)[|a| + |b|..] && f == (d + e + f)[|a| + |b|..];
    }
  }

  /** A secondary that has been executed still names the same handles with its own
      table if and only if that table has each of them at the position where the
      primary's table has it first once they are entered. */
  lemma AgainExactly(s: R.Secondary, table: seq<uint32>)
    requires R.Recorded(s) && |table| + R.Relocations(s) < 0x1_0000_0000
    ensures var r, hs := Spent(s, table), HandlesOf(s);
      (R.Recorded(r) && HandlesOf(r) == hs) <==> Agree(s.handles, WithAll(table, hs), hs)
  {
    hide R.IndexWords, R.Rewrite, WithAll, HandlesAt, Agree;
    var u, b, c := HandlesAt(s.uniforms, s.uniformOffs, s.handles), HandlesAt(s.bin, s.binOffs, s.handles), HandlesAt(s.shaderRec, s.shaderRecOffs, s.handles);
    var t1 := WithAll(table, u);
    var t2 := WithAll(t1, b);
    var t3 := WithAll(t2, c);
    RewriteEnters(s.uniforms, s.uniformOffs, s.handles, table);
    RewriteEnters(s.bin, s.binOffs, s.handles, t1);
    WithAllSplit(table, u, b);
    WithAllSplit(table, u + b, c);
    WithAllGrows(t1, b);
    WithAllGrows(t2, c);
    ListAgainExactly(s.uniforms, s.uniformOffs, s.handles, table, t3);
    ListAgainExactly(s.bin, s.binOffs, s.handles, t1, t3);
    ListAgainExactly(s.shaderRec, s.shaderRecOffs, s.handles, t2, t3);
    AgreeSplit(s.handles, t3, u, b);
    AgreeSplit(s.handles, t3, u + b, c);
    var r := Spent(s, table);
    if R.Recorded(r) {
      SplitThree(HandlesAt(r.uniforms, r.uniformOffs, r.handles), HandlesAt(r.bin, r.binOffs, r.handles),
        HandlesAt(r.shaderRec, r.shaderRecOffs, r.handles), u, b, c);
    }
  }

  /** A list m, and r, which is m with other index words that name the same handles:
      what means the same as the one means the same as the other. */
  lemma MeaningThrough(m: seq<byte>, r: seq<byte>, x: seq<byte>, offs: seq<uint32>, src: seq<uint32>, t: seq<uint32>)
    requires R.IndexWords(m, offs, src) && R.IndexWords(r, offs, src) && |r| == |m|
    requires forall i :: 0 <= i < |m| && !R.InWords(i, offs) ==> r[i] == m[i]
    requires R.SameMeaning(r, src, x, t, offs)
    ensures R.SameMeaning(m, src, x, t, offs) <==> HandlesAt(r, offs, src) == HandlesAt(m, offs, src)
  {
    hide Word, R.InWords;
    var hs, gs := HandlesAt(m, offs, src), HandlesAt(r, offs, src);
    forall k | 0 <= k < |offs| ensures R.Resolves(m, src, x, t, offs[k]) <==> gs[k] == hs[k] {
      assert R.Resolves(r, src, x, t, offs[k]);
    }
  }

  /** A secondary that has been executed over a table is executed again, into any
      primary q: it stands there with the meaning it was recorded with if and only if
      its own table agrees. Otherwise an index is beyond that table, or names another
      handle. */
  lemma CarriedAgainExactly(q: R.Primary, s: R.Secondary, table: seq<uint32>)
    requires R.Recorded(s) && |table| + R.Relocations(s) < 0x1_0000_0000
    requires R.Open(q) && |q.handles| + R.Relocations(s) < 0x1_0000_0000
    ensures var r, hs := Spent(s, table), HandlesOf(s);
      (R.Recorded(r) && R.Carried(R.ExecuteOne(q, r), s, |q.bin|, |q.uniforms|, |q.shaderRec|)) <==>
        Agree(s.handles, WithAll(table, hs), hs)
  {
    hide R.SameMeaning, R.IndexWords, R.RewriteAll, R.ExecuteOne, R.Carried, R.Recorded, HandlesOf, Agree, WithAll;
    AgainExactly(s, table);
    R.RewriteAllKeepsMeaning(s, table);
    var r := Spent(s, table);
    if R.Recorded(r) {
      R.ExecuteOneCarries(q, r);
      OutsideKept(s, r, R.RewriteAll(s, table).handles);
      CarriedThrough(R.ExecuteOne(q, r), s, r, |q.bin|, |q.uniforms|, |q.shaderRec|);
    }
  }

  /** The only difference between r and s is in what the index words are. */
  ghost predicate Alike(s: R.Secondary, r: R.Secondary) {
    && r == s.(bin := r.bin, uniforms := r.uniforms, shaderRec := r.shaderRec)
    && |r.bin| == |s.bin| && |r.uniforms| == |s.uniforms| && |r.shaderRec| == |s.shaderRec|
    && (forall i :: 0 <= i < |s.bin| && !R.InWords(i, s.binOffs) ==> r.bin[i] == s.bin[i])
    && (forall i :: 0 <= i < |s.uniforms| && !R.InWords(i, s.uniformOffs) ==> r.uniforms[i] == s.uniforms[i])
    && (forall i :: 0 <= i < |s.shaderRec| && !R.InWords(i, s.shaderRecOffs) ==> r.shaderRec[i] == s.shaderRec[i])
    && (MARKER_SIZE <= |s.bin| ==> r.bin[..MARKER_SIZE] == s.bin[..MARKER_SIZE])
  }

  lemma CarriedThrough(p: R.Primary, s: R.Secondary, r: R.Secondary, b: int, u: nat, c: nat)
    requires R.Recorded(s) && R.Recorded(r) && Alike(s, r) && R.Carried(p, r, b, u, c)
    ensures R.Carried(p, s, b, u, c) <==> HandlesOf(r) == HandlesOf(s)
  {
    hide R.SameMeaning, R.IndexWords, HandlesAt, R.InWords;
    MeaningThrough(s.bin, r.bin, s.bin[..MARKER_SIZE] + p.bin[b..b + |s.bin| - MARKER_SIZE], s.binOffs, s.handles, p.handles);
    MeaningThrough(s.uniforms, r.uniforms, p.uniforms[u..u + |s.uniforms|], s.uniformOffs, s.handles, p.handles);
    MeaningThrough(s.shaderRec, r.shaderRec, p.shaderRec[c..c + |s.shaderRec|], s.shaderRecOffs, s.handles, p.handles);
    SplitThree(HandlesAt(r.uniforms, r.uniformOffs, r.handles), HandlesAt(r.bin, r.binOffs, r.handles), HandlesAt(r.shaderRec, r.shaderRecOffs, r.handles),
      HandlesAt(s.uniforms, s.uniformOffs, s.handles), HandlesAt(s.bin, s.binOffs, s.handles), HandlesAt(s.shaderRec, s.shaderRecOffs, s.handles));
  }

  /** Bytes that are in no index word stay. */
  lemma OutsideKept(s: R.Secondary, r: R.Secondary, t: seq<uint32>)
    requires R.Recorded(s) && R.SameMeaning(s.bin, s.handles, r.bin, t, s.binOffs)
    requires r == s.(bin := r.bin, uniforms := r.uniforms, shaderRec := r.shaderRec)
    requires R.SameMeaning(s.uniforms, s.handles, r.uniforms, t, s.uniformOffs) && R.SameMeaning(s.shaderRec, s.handles, r.shaderRec, t, s.shaderRecOffs)
    ensures Alike(s, r)
  {
    hide R.Resolves;
    R.MarkerNotRewritten(s, r.bin, t);
  }

  // --------------------------------------------------------- where it is lost

  function OneWord(handles: seq<uint32>): (s: R.Secondary) {
    R.Secondary(Zeros(MARKER_SIZE), [0, 0, 0, 0], [], handles, [], [0], [], 0, 0)
  }

  lemma OneWordRecorded(handles: seq<uint32>)
    requires handles != []
    ensures R.Recorded(OneWord(handles)) && HandlesOf(OneWord(handles)) == [handles[0]]
  {
    assert [0, 0, 0, 0][0..4] == [0, 0, 0, 0];
    assert Word([0, 0, 0, 0], 0) == 0;
  }

  /** One index word, for handle 7, executed over a table that holds another handle:
      it becomes 1. With nothing else in the secondary's table that is no index at
      all; with handle 9 there, the second execution names 9. */
  lemma LostAgain()
    ensures R.Recorded(OneWord([7])) && !R.Recorded(Spent(OneWord([7]), [3]))
    ensures R.Recorded(OneWord([7, 9])) && R.Recorded(Spent(OneWord([7, 9]), [3]))
    ensures HandlesOf(OneWord([7, 9])) == [7] && HandlesOf(Spent(OneWord([7, 9]), [3])) == [9]
  {
    hide Spent, OneWord, HandlesOf, R.Recorded;
    SevenBehindThree();
    SpentWord([7], [3]);
    SpentWord([7, 9], [3]);
    SpentNames([7], Spent(OneWord([7]), [3]), 1);
    SpentNames([7, 9], Spent(OneWord([7, 9]), [3]), 1);
  }

  lemma SevenBehindThree()
    ensures IndexOf(WithAll([3], [7]), 7) == 1
  {
    assert R.WithHandle([3], 7) == [3, 7];
    assert WithAll([3, 7], []) == [3, 7];
  }

  lemma SpentNames(handles: seq<uint32>, r: R.Secondary, i: nat)
    requires handles != [] && r == OneWord(handles).(uniforms := r.uniforms) && |r.uniforms| == 4 && Word(r.uniforms, 0) == i
    ensures R.Recorded(r) <==> i < |handles|
    ensures i < |handles| ==> HandlesOf(r) == [handles[i]]
  {
    hide Word;
    assert r.uniformOffs[0] == 0 && Word(r.uniforms, r.uniformOffs[0]) == i;
  }

  lemma SpentWord(handles: seq<uint32>, table: seq<uint32>)
    requires handles != [] && |table| + 1 < 0x1_0000_0000
    ensures R.Recorded(OneWord(handles))
    ensures HandlesOf(OneWord(handles)) == [handles[0]]
    ensures var r := Spent(OneWord(handles), table);
      && r == OneWord(handles).(uniforms := r.uniforms) && |r.uniforms| == 4 && Word(r.uniforms, 0) == IndexOf(WithAll(table, [handles[0]]), handles[0])
  {
    hide Word;
    var s := OneWord(handles);
    OneWordRecorded(handles);
    RewrittenIndex(s.uniforms, s.uniformOffs, s.handles, table);
    assert HandlesAt(s.uniforms, s.uniformOffs, s.handles) + [] + [] == HandlesOf(s);
  }
}
