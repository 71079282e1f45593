/** What vkCmdExecuteCommands means: secondary command buffers are copied into a
    primary one, and every word that is an index into the secondary's handle
    table is rewritten to an index into the primary's.

    Everything here is on values: the bytes of lists, tables of handles, and the
    offsets at which index words stand. */
module Relocation {
  import opened Bytes
  import opened Seqs
  import opened Markers

  /** clGetHandleIndex on a table: h is appended unless it is there. */
  function WithHandle(table: seq<uint32>, h: uint32): (t: seq<uint32>)
    ensures table <= t && IndexOf(table, h) < |t| && t[IndexOf(table, h)] == h
    ensures |t| == |table| + if h in table then 0 else 1
  {
    if IndexOf(table, h) < |table| then table else table + [h]
  }

  ghost predicate NoRepeats(t: seq<uint32>) {
    forall i, j :: 0 <= i < j < |t| ==> t[i] != t[j]
  }

  /** offs are positions of index words in m: inside it, apart from each other,
      and each word an index into the handle table src. */
  ghost predicate IndexWords(m: seq<byte>, offs: seq<uint32>, src: seq<uint32>) {
    && (forall k :: 0 <= k < |offs| ==> offs[k] + 4 <= |m| && Word(m, offs[k]) < |src|)
    && (forall j, k :: 0 <= j < k < |offs| ==> Apart(offs[j], offs[k]))
  }

  predicate Apart(a: nat, b: nat) { a + 4 <= b || b + 4 <= a }

  /** The loop over one relocation list: each index word is resolved in src, its
      handle entered into dst, and the word replaced by the index found there. */
  ghost function Rewrite(m: seq<byte>, offs: seq<uint32>, src: seq<uint32>, dst: seq<uint32>): (r: (seq<byte>, seq<uint32>))
    requires IndexWords(m, offs, src) && |dst| + |offs| < 0x1_0000_0000
    decreases |offs|
  {
    if offs == [] then (m, dst)
    else
      var h := src[Word(m, offs[0])];
      var n := SetWord(m, offs[0], IndexOf(dst, h));
      RestOfWords(m, offs, src, IndexOf(dst, h));
      Rewrite(n, offs[1..], src, WithHandle(dst, h))
  }

  /** Rewriting one index word leaves the others to be rewritten as they are. */
  lemma RestOfWords(m: seq<byte>, offs: seq<uint32>, src: seq<uint32>, idx: uint32)
    requires IndexWords(m, offs, src) && offs != []
    ensures IndexWords(SetWord(m, offs[0], idx), offs[1..], src)
    ensures forall k :: 1 <= k < |offs| ==> Word(SetWord(m, offs[0], idx), offs[k]) == Word(m, offs[k])
  {
    hide Word, SetWord;
    var r := SetWord(m, offs[0], idx);
    forall k | 1 <= k < |offs| ensures Word(r, offs[k]) == Word(m, offs[k]) {
      assert Apart(offs[0], offs[k]);
      WordFrame(m, r, offs[k]);
    }
    assert forall k :: 0 <= k < |offs| - 1 ==> offs[1..][k] == offs[k + 1];
  }

  /** r says with table dst what m says with table src: the index words resolve
      to the same handles, and no other byte differs. */
  ghost predicate SameMeaning(m: seq<byte>, src: seq<uint32>, r: seq<byte>, dst: seq<uint32>, offs: seq<uint32>)
    requires IndexWords(m, offs, src)
  {
    && |r| == |m|
    && (forall k :: 0 <= k < |offs| ==> Resolves(m, src, r, dst, offs[k]))
    && (forall i :: 0 <= i < |m| && !InWords(i, offs) ==> r[i] == m[i])
  }

  ghost predicate Resolves(m: seq<byte>, src: seq<uint32>, r: seq<byte>, dst: seq<uint32>, o: uint32)
    requires |r| == |m| && o + 4 <= |m| && Word(m, o) < |src|
  {
    Word(r, o) < |dst| && dst[Word(r, o)] == src[Word(m, o)]
  }

  ghost predicate InWords(i: nat, offs: seq<uint32>) {
    exists k :: 0 <= k < |offs| && 0 <= i - offs[k] < 4
  }

  /** Rewriting keeps the meaning, only appends to the table, and never enters a
      handle twice. */
  lemma {:induction false} RewriteKeepsMeaning(m: seq<byte>, offs: seq<uint32>, src: seq<uint32>, dst: seq<uint32>)
    requires IndexWords(m, offs, src) && |dst| + |offs| < 0x1_0000_0000
    ensures var (r, t) := Rewrite(m, offs, src, dst);
      && dst <= t && |t| <= |dst| + |offs| && |r| == |m|
      && (NoRepeats(dst) ==> NoRepeats(t))
      && SameMeaning(m, src, r, t, offs)
    decreases |offs|
  {
    hide Word, SetWord;
    if offs != [] {
      var h := src[Word(m, offs[0])];
      var idx := IndexOf(dst, h);
      var n := SetWord(m, offs[0], idx);
      var rest := offs[1..];
      RestOfWords(m, offs, src, idx);
      var (r, t) := Rewrite(n, rest, src, WithHandle(dst, h));
      RewriteKeepsMeaning(n, rest, src, WithHandle(dst, h));
      assert forall k :: 0 <= k < |rest| ==> rest[k] == offs[k + 1];
      FirstWordKept(n, r, offs);
      forall k | 0 <= k < |offs| ensures Resolves(m, src, r, t, offs[k]) {
        if k > 0 { assert Resolves(n, src, r, t, rest[k - 1]); }
      }
      forall i | 0 <= i < |m| && !InWords(i, offs) ensures r[i] == m[i] {
        assert !(0 <= i - offs[0] < 4);
        InRest(i, offs);
      }
    }
  }

  lemma InRest(i: nat, offs: seq<uint32>)
    requires offs != []
    ensures InWords(i, offs[1..]) ==> InWords(i, offs)
  {
    var rest := offs[1..];
    if InWords(i, rest) {
      var k :| 0 <= k < |rest| && 0 <= i - rest[k] < 4;
      assert 0 <= i - offs[k + 1] < 4;
    }
  }

  /** The words still to be rewritten do not touch the first one. */
  lemma FirstWordKept(n: seq<byte>, r: seq<byte>, offs: seq<uint32>)
    requires offs != [] && |r| == |n| && offs[0] + 4 <= |n|
    requires forall k :: 1 <= k < |offs| ==> Apart(offs[0], offs[k])
    requires forall i :: 0 <= i < |n| && !InWords(i, offs[1..]) ==> r[i] == n[i]
    ensures Word(r, offs[0]) == Word(n, offs[0])
  {
    forall i | offs[0] <= i < offs[0] + 4 ensures r[i] == n[i] {
      assert forall k :: 0 <= k < |offs| - 1 ==> offs[1..][k] == offs[k + 1];
    }
    WordFrame(n, r, offs[0]);
  }

  /** Rewriting behind byte d does not look at what stands before d. */
  lemma {:induction false} RewriteBehind(m: seq<byte>, n: seq<byte>, d: nat, offs: seq<uint32>, src: seq<uint32>, dst: seq<uint32>)
    requires d <= |m| == |n| && m[d..] == n[d..] && forall k :: 0 <= k < |offs| ==> d <= offs[k]
    requires IndexWords(m, offs, src) && |dst| + |offs| < 0x1_0000_0000
    ensures IndexWords(n, offs, src)
    ensures var (r, t) := Rewrite(m, offs, src, dst);
      var (q, w) := Rewrite(n, offs, src, dst);
      |r| == |q| == |m| && t == w && r[d..] == q[d..] && q[..d] == n[..d]
    decreases |offs|
  {
    hide Word, SetWord;
    forall k | 0 <= k < |offs| ensures Word(n, offs[k]) == Word(m, offs[k]) {
      assert forall i :: offs[k] <= i < offs[k] + 4 ==> n[i] == n[d..][i - d] == m[d..][i - d] == m[i];
      WordFrame(m, n, offs[k]);
    }
    if offs != [] {
      var h := src[Word(m, offs[0])];
      var idx, rest := IndexOf(dst, h), offs[1..];
      RestOfWords(m, offs, src, idx);
      RestOfWords(n, offs, src, idx);
      SetBehind(m, n, d, offs[0], idx);
      RewriteBehind(SetWord(m, offs[0], idx), SetWord(n, offs[0], idx), d, rest, src, WithHandle(dst, h));
    }
  }

  lemma SetBehind(m: seq<byte>, n: seq<byte>, d: nat, at: nat, w: uint32)
    requires d <= at && at + 4 <= |m| == |n| && m[d..] == n[d..]
    ensures SetWord(m, at, w)[d..] == SetWord(n, at, w)[d..] && SetWord(n, at, w)[..d] == n[..d]
  {
    hide Word, WordBytes;
    var r, q := SetWord(m, at, w), SetWord(n, at, w);
    forall i | d <= i < |m| ensures r[i] == q[i] {
      assert m[d..][i - d] == n[d..][i - d];
      assert r[at..at + 4] == WordBytes(w) == q[at..at + 4];
      if at <= i < at + 4 { assert r[at..at + 4][i - at] == q[at..at + 4][i - at]; }
    }
  }

  // ------------------------------------------------- whole command buffers

  /** A recorded single-marker secondary command buffer: its lists, its handle
      table, and where the index words of each list are. The binning list starts
      with the marker, which is not copied. */
  datatype Secondary = Secondary(
    bin: seq<byte>, uniforms: seq<byte>, shaderRec: seq<byte>, handles: seq<uint32>,
    binOffs: seq<uint32>, uniformOffs: seq<uint32>, shaderRecOffs: seq<uint32>,
    draws: uint32, count: uint32)

  /** A primary command buffer with an open marker at marker; handles is the
      table of that marker. */
  datatype Primary = Primary(
    bin: seq<byte>, uniforms: seq<byte>, shaderRec: seq<byte>, handles: seq<uint32>,
    marker: nat, count: uint32)

  ghost predicate Recorded(s: Secondary) {
    && MARKER_SIZE <= |s.bin| && (forall k :: 0 <= k < |s.binOffs| ==> MARKER_SIZE <= s.binOffs[k])
    && IndexWords(s.bin, s.binOffs, s.handles)
    && IndexWords(s.uniforms, s.uniformOffs, s.handles)
    && IndexWords(s.shaderRec, s.shaderRecOffs, s.handles)
  }

  function Relocations(s: Secondary): (n: nat) {
    |s.uniformOffs| + |s.binOffs| + |s.shaderRecOffs|
  }

  function AllRelocations(ss: seq<Secondary>): (n: nat)
    ensures ss == [] ==> n == 0
  {
    if ss == [] then 0 else Relocations(ss[0]) + AllRelocations(ss[1..])
  }

  /** What executing ss asks of the primary's lists, in bytes. */
  datatype Needs = Needs(bin: nat, uniforms: nat, shaderRec: nat, handles: nat)

  function NeedsOf(ss: seq<Secondary>): (n: Needs) {
    if ss == [] then Needs(0, 0, 0, 0) else With(ss[0], NeedsOf(ss[1..]))
  }

  function With(s: Secondary, n: Needs): (r: Needs) {
    Needs((if MARKER_SIZE <= |s.bin| then |s.bin| - MARKER_SIZE else 0) + n.bin,
      |s.uniforms| + n.uniforms, |s.shaderRec| + n.shaderRec, 4 * Relocations(s) + n.handles)
  }

  predicate Open(p: Primary) {
    p.marker + MARKER_SIZE <= |p.bin|
  }

  /** A secondary's lists after the three relocation loops, and the primary's table. */
  datatype Rewritten = Rewritten(uniforms: seq<byte>, bin: seq<byte>, shaderRec: seq<byte>, handles: seq<uint32>)

  /** The relocation loops, in the driver's order. */
  ghost function RewriteAll(s: Secondary, table: seq<uint32>): (w: Rewritten)
    requires Recorded(s) && |table| + Relocations(s) < 0x1_0000_0000
    ensures table <= w.handles && |w.handles| <= |table| + Relocations(s)
    ensures |w.uniforms| == |s.uniforms| && |w.bin| == |s.bin| && |w.shaderRec| == |s.shaderRec|
  {
    RewriteKeepsMeaning(s.uniforms, s.uniformOffs, s.handles, table);
    var (u, t1) := Rewrite(s.uniforms, s.uniformOffs, s.handles, table);
    RewriteKeepsMeaning(s.bin, s.binOffs, s.handles, t1);
    var (b, t2) := Rewrite(s.bin, s.binOffs, s.handles, t1);
    RewriteKeepsMeaning(s.shaderRec, s.shaderRecOffs, s.handles, t2);
    var (c, t3) := Rewrite(s.shaderRec, s.shaderRecOffs, s.handles, t2);
    Rewritten(u, b, c, t3)
  }

  /** What a secondary's lists say with the primary's table is what they said
      with their own. */
  lemma RewriteAllKeepsMeaning(s: Secondary, table: seq<uint32>)
    requires Recorded(s) && |table| + Relocations(s) < 0x1_0000_0000
    ensures var w := RewriteAll(s, table);
      && SameMeaning(s.uniforms, s.handles, w.uniforms, w.handles, s.uniformOffs)
      && SameMeaning(s.bin, s.handles, w.bin, w.handles, s.binOffs)
      && SameMeaning(s.shaderRec, s.handles, w.shaderRec, w.handles, s.shaderRecOffs)
      && (NoRepeats(table) ==> NoRepeats(w.handles))
  {
    hide SameMeaning, IndexWords, Rewrite, NoRepeats;
    RewriteKeepsMeaning(s.uniforms, s.uniformOffs, s.handles, table);
    var (u, t1) := Rewrite(s.uniforms, s.uniformOffs, s.handles, table);
    RewriteKeepsMeaning(s.bin, s.binOffs, s.handles, t1);
    var (b, t2) := Rewrite(s.bin, s.binOffs, s.handles, t1);
    RewriteKeepsMeaning(s.shaderRec, s.shaderRecOffs, s.handles, t2);
    var (c, t3) := Rewrite(s.shaderRec, s.shaderRecOffs, s.handles, t2);
    SameMeaningGrows(s.uniforms, s.handles, u, t1, t3, s.uniformOffs);
    SameMeaningGrows(s.bin, s.handles, b, t2, t3, s.binOffs);
  }

  /** The body of the loop in vkCmdExecuteCommands. */
  ghost function ExecuteOne(p: Primary, s: Secondary): (r: Primary)
    requires Open(p) && Recorded(s) && |p.handles| + Relocations(s) < 0x1_0000_0000
    ensures Open(r) && r.marker == p.marker
    ensures p.handles <= r.handles && |r.handles| <= |p.handles| + Relocations(s)
    ensures |r.bin| == |p.bin| + |s.bin| - MARKER_SIZE
    ensures |r.uniforms| == |p.uniforms| + |s.uniforms| && |r.shaderRec| == |p.shaderRec| + |s.shaderRec|
  {
    var w := RewriteAll(s, p.handles);
    Primary(AddDraws(p.bin + w.bin[MARKER_SIZE..], p.marker, s.draws), p.uniforms + w.uniforms, p.shaderRec + w.shaderRec,
      w.handles, p.marker, Plus(p.count, s.count))
  }

  /** numDrawCallsSubmitted of the marker at cur, n more. */
  function AddDraws(bin: seq<byte>, cur: nat, n: uint32): (r: seq<byte>)
    requires cur + MARKER_SIZE <= |bin|
    ensures |r| == |bin|
    ensures forall i :: 0 <= i < |bin| && !(0 <= i - cur - NUM_DRAW_CALLS < 4) ==> r[i] == bin[i]
  {
    SetWord(bin, cur + NUM_DRAW_CALLS, Plus(Word(bin, cur + NUM_DRAW_CALLS), n))
  }

  /** ss can be executed into p: recorded command buffers, and a handle table
      that its indices can address. */
  ghost predicate Executable(p: Primary, ss: seq<Secondary>) {
    Open(p) && (forall s :: s in ss ==> Recorded(s)) && |p.handles| + AllRelocations(ss) < 0x1_0000_0000
  }

  ghost function Execute(p: Primary, ss: seq<Secondary>): (r: Primary)
    requires Executable(p, ss)
    decreases |ss|
  {
    if ss == [] then p else Execute(ExecuteOne(p, ss[0]), ss[1..])
  }

  /** How far into what is appended the c-th secondary's bytes start. */
  function BinBefore(ss: seq<Secondary>, c: nat): (n: int)
    requires c <= |ss|
    decreases |ss|
  {
    if c == 0 then 0 else |ss[0].bin| - MARKER_SIZE + BinBefore(ss[1..], c - 1)
  }

  function UniformsBefore(ss: seq<Secondary>, c: nat): (n: nat)
    requires c <= |ss|
    decreases |ss|
  {
    if c == 0 then 0 else |ss[0].uniforms| + UniformsBefore(ss[1..], c - 1)
  }

  function ShaderRecBefore(ss: seq<Secondary>, c: nat): (n: nat)
    requires c <= |ss|
    decreases |ss|
  {
    if c == 0 then 0 else |ss[0].shaderRec| + ShaderRecBefore(ss[1..], c - 1)
  }

  /** s stands in p at the given offsets with its meaning. */
  ghost predicate Carried(p: Primary, s: Secondary, b: int, u: nat, c: nat)
    requires Recorded(s)
  {
    && 0 <= b && b + |s.bin| - MARKER_SIZE <= |p.bin|
    && u + |s.uniforms| <= |p.uniforms| && c + |s.shaderRec| <= |p.shaderRec|
    && SameMeaning(s.bin, s.handles, s.bin[..MARKER_SIZE] + p.bin[b..b + |s.bin| - MARKER_SIZE], p.handles, s.binOffs)
    && SameMeaning(s.uniforms, s.handles, p.uniforms[u..u + |s.uniforms|], p.handles, s.uniformOffs)
    && SameMeaning(s.shaderRec, s.handles, p.shaderRec[c..c + |s.shaderRec|], p.handles, s.shaderRecOffs)
  }

  /** r has grown out of p: nothing recorded before is lost or moved, no byte but
      the number of draws changes, and every index emitted before still names the
      same handle. */
  ghost predicate Grown(p: Primary, r: Primary) {
    && Open(p) && r.marker == p.marker
    && p.handles <= r.handles && (NoRepeats(p.handles) ==> NoRepeats(r.handles))
    && p.uniforms <= r.uniforms && p.shaderRec <= r.shaderRec
    && |p.bin| <= |r.bin|
    && (forall i :: 0 <= i < |p.bin| && !(0 <= i - p.marker - NUM_DRAW_CALLS < 4) ==> r.bin[i] == p.bin[i])
  }

  /** A longer table resolves the same. */
  lemma SameMeaningGrows(m: seq<byte>, src: seq<uint32>, r: seq<byte>, t: seq<uint32>, t': seq<uint32>, offs: seq<uint32>)
    requires IndexWords(m, offs, src) && SameMeaning(m, src, r, t, offs) && t <= t'
    ensures SameMeaning(m, src, r, t', offs)
  {
    hide Word;
    forall k | 0 <= k < |offs| ensures Resolves(m, src, r, t', offs[k]) {
      assert Resolves(m, src, r, t, offs[k]);
    }
  }

  lemma CarriedGrows(p: Primary, r: Primary, s: Secondary, b: int, u: nat, c: nat)
    requires Recorded(s) && Carried(p, s, b, u, c) && Grown(p, r) && p.marker + MARKER_SIZE <= b
    ensures Carried(r, s, b, u, c)
  {
    hide SameMeaning, IndexWords;
    var nb := |s.bin| - MARKER_SIZE;
    assert r.bin[b..b + nb] == p.bin[b..b + nb];
    assert r.uniforms[u..u + |s.uniforms|] == p.uniforms[u..u + |s.uniforms|];
    assert r.shaderRec[c..c + |s.shaderRec|] == p.shaderRec[c..c + |s.shaderRec|];
    SameMeaningGrows(s.bin, s.handles, s.bin[..MARKER_SIZE] + p.bin[b..b + nb], p.handles, r.handles, s.binOffs);
    SameMeaningGrows(s.uniforms, s.handles, p.uniforms[u..u + |s.uniforms|], p.handles, r.handles, s.uniformOffs);
    SameMeaningGrows(s.shaderRec, s.handles, p.shaderRec[c..c + |s.shaderRec|], p.handles, r.handles, s.shaderRecOffs);
  }

  /** One secondary, executed once. */
  lemma ExecuteOneCarries(p: Primary, s: Secondary)
    requires Open(p) && Recorded(s) && |p.handles| + Relocations(s) < 0x1_0000_0000
    ensures Grown(p, ExecuteOne(p, s))
    ensures Carried(ExecuteOne(p, s), s, |p.bin|, |p.uniforms|, |p.shaderRec|)
    ensures ExecuteOne(p, s).count == (p.count + s.count) % 0x1_0000_0000
    ensures Word(ExecuteOne(p, s).bin, p.marker + 108) == (Word(p.bin, p.marker + 108) + s.draws) % 0x1_0000_0000
  {
    hide SameMeaning, IndexWords, RewriteAll, NoRepeats, Word, SetWord;
    ExecuteOneCounts(p, s);
    RewriteAllKeepsMeaning(s, p.handles);
    var r, w := ExecuteOne(p, s), RewriteAll(s, p.handles);
    assert r.uniforms[|p.uniforms|..|p.uniforms| + |s.uniforms|] == w.uniforms;
    assert r.shaderRec[|p.shaderRec|..|p.shaderRec| + |s.shaderRec|] == w.shaderRec;
    assert r.bin[|p.bin|..|p.bin| + |s.bin| - MARKER_SIZE] == w.bin[MARKER_SIZE..];
    MarkerNotRewritten(s, w.bin, w.handles);
    assert s.bin[..MARKER_SIZE] + w.bin[MARKER_SIZE..] == w.bin;
  }

  lemma MarkerNotRewritten(s: Secondary, b: seq<byte>, t: seq<uint32>)
    requires Recorded(s) && SameMeaning(s.bin, s.handles, b, t, s.binOffs)
    ensures |b| == |s.bin| && b[..MARKER_SIZE] == s.bin[..MARKER_SIZE]
  {
    forall i | 0 <= i < MARKER_SIZE ensures b[i] == s.bin[i] {
      assert !InWords(i, s.binOffs);
    }
  }

  /** The c-th of the secondaries ss, executed into p, stands in r where its
      turn puts it. */
  ghost predicate CarriedNth(p: Primary, ss: seq<Secondary>, r: Primary, c: nat)
    requires c < |ss| && Recorded(ss[c])
  {
    Carried(r, ss[c], |p.bin| + BinBefore(ss, c), |p.uniforms| + UniformsBefore(ss, c), |p.shaderRec| + ShaderRecBefore(ss, c))
  }

  lemma GrownTrans(p: Primary, q: Primary, r: Primary)
    requires Grown(p, q) && Grown(q, r)
    ensures Grown(p, r)
  {
    hide NoRepeats;
  }

  lemma CarriedFirst(p: Primary, ss: seq<Secondary>, r: Primary)
    requires ss != [] && Recorded(ss[0]) && Carried(r, ss[0], |p.bin|, |p.uniforms|, |p.shaderRec|)
    ensures CarriedNth(p, ss, r, 0)
  {
    hide Carried, Recorded;
  }

  lemma CarriedShift(p: Primary, ss: seq<Secondary>, r: Primary, c: nat)
    requires 0 < c < |ss| && (forall s :: s in ss ==> Recorded(s))
    requires Open(p) && |p.handles| + Relocations(ss[0]) < 0x1_0000_0000
    requires Recorded(ss[1..][c - 1]) && CarriedNth(ExecuteOne(p, ss[0]), ss[1..], r, c - 1)
    ensures CarriedNth(p, ss, r, c)
  {
    hide Carried, Recorded, ExecuteOne;
    var q, rest := ExecuteOne(p, ss[0]), ss[1..];
    assert |p.bin| + BinBefore(ss, c) == |q.bin| + BinBefore(rest, c - 1);
    assert |p.uniforms| + UniformsBefore(ss, c) == |q.uniforms| + UniformsBefore(rest, c - 1);
    assert |p.shaderRec| + ShaderRecBefore(ss, c) == |q.shaderRec| + ShaderRecBefore(rest, c - 1);
  }

  /** Executing any list of secondaries keeps the meaning of each of them and of
      everything recorded in the primary before. */
  lemma {:induction false} ExecutePreservesMeaning(p: Primary, ss: seq<Secondary>)
    requires Executable(p, ss)
    ensures Grown(p, Execute(p, ss))
    ensures forall c :: 0 <= c < |ss| ==> CarriedNth(p, ss, Execute(p, ss), c)
    ensures Execute(p, ss).count == (p.count + SumCounts(ss)) % 0x1_0000_0000
    ensures p.marker + 112 <= |Execute(p, ss).bin|
    ensures Word(Execute(p, ss).bin, p.marker + 108) == (Word(p.bin, p.marker + 108) + SumDraws(ss)) % 0x1_0000_0000
    decreases |ss|
  {
    hide Carried, CarriedNth, Recorded, Grown, ExecuteOne, Word;
    ExecuteAddsUp(p, ss);
    if ss == [] {
      GrownSame(p);
    } else {
      ExecutePreservesMeaning(ExecuteOne(p, ss[0]), ss[1..]);
      FirstAndRest(p, ss, Execute(p, ss));
    }
  }

  lemma GrownSame(p: Primary)
    requires Open(p)
    ensures Grown(p, p)
  {
  }

  /** What holds of the rest, seen from behind the first, holds of all. */
  lemma FirstAndRest(p: Primary, ss: seq<Secondary>, r: Primary)
    requires Executable(p, ss) && ss != [] && Grown(ExecuteOne(p, ss[0]), r)
    requires forall c :: 0 <= c < |ss| - 1 ==> CarriedNth(ExecuteOne(p, ss[0]), ss[1..], r, c)
    ensures Grown(p, r) && forall c :: 0 <= c < |ss| ==> CarriedNth(p, ss, r, c)
  {
    hide Carried, CarriedNth, Recorded, Grown, ExecuteOne, Relocations, BinBefore, UniformsBefore, ShaderRecBefore;
    var s, q := ss[0], ExecuteOne(p, ss[0]);
    ExecuteOneCarries(p, s);
    GrownTrans(p, q, r);
    CarriedGrows(q, r, s, |p.bin|, |p.uniforms|, |p.shaderRec|);
    CarriedFirst(p, ss, r);
    forall c | 0 < c < |ss| ensures CarriedNth(p, ss, r, c) {
      assert CarriedNth(q, ss[1..], r, c - 1);
      CarriedShift(p, ss, r, c);
    }
  }

  /** The shader records that ss have counted. */
  function SumCounts(ss: seq<Secondary>): (n: nat) {
    if ss == [] then 0 else ss[0].count + SumCounts(ss[1..])
  }

  /** The draws that ss have counted. */
  function SumDraws(ss: seq<Secondary>): (n: nat) {
    if ss == [] then 0 else ss[0].draws + SumDraws(ss[1..])
  }

  lemma ExecuteOneCounts(p: Primary, s: Secondary)
    requires Open(p) && Recorded(s) && |p.handles| + Relocations(s) < 0x1_0000_0000
    ensures var r := ExecuteOne(p, s);
      r.count == (p.count + s.count) % 0x1_0000_0000
      && Word(r.bin, p.marker + 108) == (Word(p.bin, p.marker + 108) + s.draws) % 0x1_0000_0000
  {
    hide RewriteAll, IndexWords, Word, SetWord;
    WordOfPrefix(p.bin, RewriteAll(s, p.handles).bin[MARKER_SIZE..], p.marker + 108);
  }

  /** Executing any list of secondaries adds up what they have counted, in 32 bits. */
  lemma {:induction false} ExecuteAddsUp(p: Primary, ss: seq<Secondary>)
    requires Executable(p, ss)
    ensures var r := Execute(p, ss);
      && r.marker == p.marker && p.marker + 112 <= |r.bin|
      && r.count == (p.count + SumCounts(ss)) % 0x1_0000_0000
      && Word(r.bin, p.marker + 108) == (Word(p.bin, p.marker + 108) + SumDraws(ss)) % 0x1_0000_0000
    decreases |ss|
  {
    hide Recorded, ExecuteOne, Relocations, Word;
    if ss == [] {
      assert Execute(p, ss) == p;
    } else {
      ExecuteOneCounts(p, ss[0]);
      ExecuteAddsUp(ExecuteOne(p, ss[0]), ss[1..]);
      AddedAgain(p.count, ss[0].count, SumCounts(ss[1..]));
      AddedAgain(Word(p.bin, p.marker + 108), ss[0].draws, SumDraws(ss[1..]));
    }
  }

  lemma AddedAgain(a: nat, b: nat, c: nat)
    ensures ((a + b) % 0x1_0000_0000 + c) % 0x1_0000_0000 == (a + (b + c)) % 0x1_0000_0000
  {
  }

  /** Nothing but the secondaries' lists is appended. */
  lemma {:induction false} ExecuteLengths(p: Primary, ss: seq<Secondary>)
    requires Executable(p, ss)
    ensures var r := Execute(p, ss);
      && |r.bin| == |p.bin| + BinBefore(ss, |ss|) && |r.uniforms| == |p.uniforms| + UniformsBefore(ss, |ss|)
      && |r.shaderRec| == |p.shaderRec| + ShaderRecBefore(ss, |ss|)
    decreases |ss|
  {
    hide Recorded, ExecuteOne, Relocations;
    if ss != [] {
      ExecuteLengths(ExecuteOne(p, ss[0]), ss[1..]);
    }
  }
}
