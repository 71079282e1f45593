/** What drawCommon and vkCmdDrawIndexed of driver/draw.c leave in the lists of a
    secondary command buffer: bytes, among them words that are indices into the
    handle table, and the offsets of those words.

    The history variable sites notes where an index was written and for which
    handle; the driver keeps the offsets only. */
module DrawSpec {
  import opened Bytes
  import opened Seqs
  import opened Markers
  import R = Relocation

  /** An index word was written at pos for this handle. */
  datatype Site = Site(pos: nat, handle: uint32)

  /** One list with the offsets recorded for it. */
  datatype Strip = Strip(bytes: seq<byte>, offs: seq<uint32>, sites: seq<Site>)

  datatype Sheet = Sheet(bin: Strip, uniforms: Strip, shaderRec: Strip, handles: seq<uint32>)

  /** An attribute record: the buffer it reads and the eight bytes that describe it. */
  datatype Attribute = Attribute(handle: uint32, rest: seq<byte>)

  const RECORD_SIZE := 36
  const ATTRIBUTE_SIZE := 8
  const GEM_RELOCATIONS: byte := 254

  /** The parts that draws are made of. */
  datatype Emit =
    | Commands(data: seq<byte>)             // anything else in the binning list
    | IndexBuffer(handle: uint32)           // clInsertGEMRelocations
    | UniformHandle(handle: uint32)         // a texture or buffer a shader reads
    | UniformData(data: seq<byte>)          // constants and texture parameters
    | ShaderRecord(code: seq<uint32>, record: seq<byte>, attributes: seq<Attribute>)

  predicate WellFormed(e: Emit) {
    e.ShaderRecord? ==>
      && |e.code| == 3 && |e.record| == RECORD_SIZE
      && forall a :: a in e.attributes ==> |a.rest| == ATTRIBUTE_SIZE
  }

  /** The bytes of index words for the handles hs, entered one after the other. */
  function IndexBytes(table: seq<uint32>, hs: seq<uint32>): (r: (seq<byte>, seq<uint32>))
    requires |table| + |hs| < 0x1_0000_0000
    ensures |r.0| == 4 * |hs| && table <= r.1 && |r.1| <= |table| + |hs|
    decreases |hs|
  {
    if hs == [] then ([], table)
    else
      var (rest, t) := IndexBytes(R.WithHandle(table, hs[0]), hs[1..]);
      (WordBytes(IndexOf(table, hs[0])) + rest, t)
  }

  function Handles(attributes: seq<Attribute>): (hs: seq<uint32>)
    ensures |hs| == |attributes|
  {
    seq(|attributes|, i requires 0 <= i < |attributes| => attributes[i].handle)
  }

  function Rest(attributes: seq<Attribute>): (bytes: seq<byte>) {
    if attributes == [] then [] else attributes[0].rest + Rest(attributes[1..])
  }

  /** The offsets of n words from start on. */
  function OffsetsFrom(start: nat, n: nat): (ps: seq<uint32>)
    requires start + 4 * n < 0x1_0000_0000
    ensures |ps| == n && forall j :: 0 <= j < n ==> ps[j] == start + 4 * j
  {
    seq(n, j requires 0 <= j < n => start + 4 * j)
  }

  lemma OffsetsSnoc(start: nat, n: nat, m: nat, o: uint32)
    requires start + 4 * m < 0x1_0000_0000 && m == n + 1 && o == start + 4 * n
    ensures OffsetsFrom(start, m) == OffsetsFrom(start, n) + [o]
  {
  }

  function SitesAt(start: nat, hs: seq<uint32>): (sites: seq<Site>)
    ensures |sites| == |hs| && forall j :: 0 <= j < |hs| ==> sites[j] == Site(start + 4 * j, hs[j])
  {
    seq(|hs|, j requires 0 <= j < |hs| => Site(start + 4 * j, hs[j]))
  }

  /** before, then index words for hs, then after. */
  function WithWords(s: Strip, table: seq<uint32>, before: seq<byte>, hs: seq<uint32>, after: seq<byte>): (r: Strip)
    requires |table| + |hs| < 0x1_0000_0000 && |s.bytes| + |before| + 4 * |hs| < 0x1_0000_0000
  {
    var start := |s.bytes| + |before|;
    Strip(s.bytes + before + IndexBytes(table, hs).0 + after,
      s.offs + OffsetsFrom(start, |hs|), s.sites + SitesAt(start, hs))
  }

  /** How many handles an emission may enter, and how many bytes it appends. */
  function HandleCount(e: Emit): (n: nat) {
    match e
    case IndexBuffer(_) => 1
    case UniformHandle(_) => 1
    case ShaderRecord(code, _, attributes) => |code| + |attributes|
    case _ => 0
  }

  function Longest(e: Emit): (n: nat) {
    match e
    case Commands(data) => |data|
    case IndexBuffer(_) => 9
    case UniformHandle(_) => 4
    case UniformData(data) => |data|
    case ShaderRecord(code, record, attributes) => 4 * (|code| + |attributes|) + |record| + |Rest(attributes)|
  }

  /** No list outgrows a 32-bit offset. */
  predicate Fits(s: Sheet, e: Emit) {
    && WellFormed(e) && |s.handles| + HandleCount(e) < 0x1_0000_0000
    && |s.bin.bytes| + Longest(e) < 0x1_0000_0000 && |s.uniforms.bytes| + Longest(e) < 0x1_0000_0000
    && |s.shaderRec.bytes| + Longest(e) < 0x1_0000_0000
  }

  function Apply(s: Sheet, e: Emit): (r: Sheet)
    requires Fits(s, e)
  {
    match e
    case Commands(data) => s.(bin := s.bin.(bytes := s.bin.bytes + data))
    case IndexBuffer(h) =>
      s.(bin := WithWords(s.bin, s.handles, [GEM_RELOCATIONS], [h], WordBytes(0)), handles := R.WithHandle(s.handles, h))
    case UniformHandle(h) =>
      s.(uniforms := WithWords(s.uniforms, s.handles, [], [h], []), handles := R.WithHandle(s.handles, h))
    case UniformData(data) => s.(uniforms := s.uniforms.(bytes := s.uniforms.bytes + data))
    case ShaderRecord(code, record, attributes) =>
      var hs := code + Handles(attributes);
      s.(shaderRec := WithWords(s.shaderRec, s.handles, [], hs, record + Rest(attributes)), handles := IndexBytes(s.handles, hs).1)
  }

  // ------------------------------------------------------------ invariants

  /** The offsets are the sites' positions, in order; sites do not overlap; and
      the word at a site is the index of its handle. */
  ghost predicate Noted(s: Strip, table: seq<uint32>) {
    && |s.offs| == |s.sites|
    && (forall k :: 0 <= k < |s.sites| ==> s.offs[k] == s.sites[k].pos && Holds(s.bytes, table, s.sites[k]))
    && (forall j, k :: 0 <= j < k < |s.sites| ==> s.sites[j].pos + 4 <= s.sites[k].pos)
  }

  ghost predicate Holds(m: seq<byte>, table: seq<uint32>, site: Site) {
    site.pos + 4 <= |m| && Word(m, site.pos) < |table| && table[Word(m, site.pos)] == site.handle
  }

  ghost predicate AllNoted(s: Sheet) {
    Noted(s.bin, s.handles) && Noted(s.uniforms, s.handles) && Noted(s.shaderRec, s.handles)
  }

  /** Appending bytes and handles disturbs no site. */
  lemma NotedGrows(s: Strip, table: seq<uint32>, more: seq<byte>, t: seq<uint32>)
    requires Noted(s, table) && table <= t
    ensures Noted(s.(bytes := s.bytes + more), t)
  {
    hide Word;
    forall k | 0 <= k < |s.sites| ensures Holds(s.bytes + more, t, s.sites[k]) {
      assert Holds(s.bytes, table, s.sites[k]);
      WordOfPrefix(s.bytes, more, s.sites[k].pos);
    }
  }

  lemma WordAfter(s: seq<byte>, t: seq<byte>, a: nat, pos: nat)
    requires a + 4 <= |t| && pos == |s| + a
    ensures Word(s + t, pos) == Word(t, a)
  {
    assert (s + t)[pos..pos + 4] == t[a..a + 4];
  }

  /** The j-th of the index words, at byte at, stands for the j-th handle. */
  lemma {:induction false} IndexBytesHold(table: seq<uint32>, hs: seq<uint32>, j: nat, at: nat)
    requires |table| + |hs| < 0x1_0000_0000 && j < |hs| && at == 4 * j
    ensures var (b, t) := IndexBytes(table, hs);
      at + 4 <= |b| && Word(b, at) < |t| && t[Word(b, at)] == hs[j]
    decreases j
  {
    hide Word, WordBytes, IndexOf, R.WithHandle;
    var (rest, t) := IndexBytes(R.WithHandle(table, hs[0]), hs[1..]);
    var first := WordBytes(IndexOf(table, hs[0]));
    if j == 0 {
      WordOfPrefix(first, rest, 0);
      WordWritten(first, 0, IndexOf(table, hs[0]));
    } else {
      IndexBytesHold(R.WithHandle(table, hs[0]), hs[1..], j - 1, at - 4);
      WordAfter(first, rest, at - 4, at);
      assert hs[1..][j - 1] == hs[j];
    }
  }

  lemma NewSiteHolds(front: seq<byte>, table: seq<uint32>, hs: seq<uint32>, after: seq<byte>, j: nat, site: Site, m: seq<byte>)
    requires |table| + |hs| < 0x1_0000_0000 && j < |hs| && site == Site(|front| + 4 * j, hs[j])
    requires m == front + (IndexBytes(table, hs).0 + after)
    ensures Holds(m, IndexBytes(table, hs).1, site)
  {
    hide Word, IndexBytes;
    var (ib, t) := IndexBytes(table, hs);
    var at := site.pos - |front|;
    IndexBytesHold(table, hs, j, at);
    WordAfter(front, ib + after, at, site.pos);
    WordOfPrefix(ib, after, at);
  }

  /** Sites behind a list's end come after those in it. */
  lemma SitesRise(s: Strip, table: seq<uint32>, sites: seq<Site>)
    requires Noted(s, table)
    requires forall j :: 0 <= j < |sites| ==> |s.bytes| <= sites[j].pos
    requires forall j, k :: 0 <= j < k < |sites| ==> sites[j].pos + 4 <= sites[k].pos
    ensures var all := s.sites + sites; forall j, k :: 0 <= j < k < |all| ==> all[j].pos + 4 <= all[k].pos
  {
    hide Word;
    assert forall j :: 0 <= j < |s.sites| ==> Holds(s.bytes, table, s.sites[j]);
  }

  /** The parts of a strip that words have been appended to. */
  lemma WordsParts(s: Strip, table: seq<uint32>, before: seq<byte>, hs: seq<uint32>, after: seq<byte>, r: Strip, start: nat)
    requires |table| + |hs| < 0x1_0000_0000 && |s.bytes| + |before| + 4 * |hs| < 0x1_0000_0000
    requires r == WithWords(s, table, before, hs, after) && start == |s.bytes| + |before|
    ensures r.bytes == s.bytes + (before + IndexBytes(table, hs).0 + after)
    ensures r.bytes == (s.bytes + before) + (IndexBytes(table, hs).0 + after)
    ensures r.offs == s.offs + OffsetsFrom(start, |hs|) && r.sites == s.sites + SitesAt(start, hs)
  {
    hide IndexBytes, OffsetsFrom, SitesAt;
    Reassociate(s.bytes, before, IndexBytes(table, hs).0, after);
  }

  lemma Reassociate(a: seq<byte>, b: seq<byte>, c: seq<byte>, d: seq<byte>)
    ensures a + b + c + d == a + (b + c + d) && a + b + c + d == (a + b) + (c + d)
  {
  }

  lemma OldSiteHolds(s: Strip, table: seq<uint32>, more: seq<byte>, t: seq<uint32>, k: nat)
    requires Noted(s, table) && table <= t && k < |s.sites|
    ensures s.offs[k] == s.sites[k].pos && Holds(s.bytes + more, t, s.sites[k])
  {
    hide Word, Holds;
    NotedGrows(s, table, more, t);
    var g := s.(bytes := s.bytes + more);
    assert Holds(g.bytes, t, g.sites[k]);
  }

  lemma WordsNoted(s: Strip, table: seq<uint32>, before: seq<byte>, hs: seq<uint32>, after: seq<byte>)
    requires Noted(s, table) && |table| + |hs| < 0x1_0000_0000 && |s.bytes| + |before| + 4 * |hs| < 0x1_0000_0000
    ensures Noted(WithWords(s, table, before, hs, after), IndexBytes(table, hs).1)
  {
    hide Word, IndexBytes, Holds, WithWords;
    var r, start, n := WithWords(s, table, before, hs, after), |s.bytes| + |before|, |s.sites|;
    var (b, t) := IndexBytes(table, hs);
    WordsParts(s, table, before, hs, after, r, start);
    SitesRise(s, table, SitesAt(start, hs));
    forall k | 0 <= k < |r.sites| ensures r.offs[k] == r.sites[k].pos && Holds(r.bytes, t, r.sites[k]) {
      if k < n {
        OldSiteHolds(s, table, before + b + after, t, k);
      } else {
        NewSiteHolds(s.bytes + before, table, hs, after, k - n, SitesAt(start, hs)[k - n], r.bytes);
      }
    }
    NotedIs(r, t);
  }

  lemma NotedIs(s: Strip, table: seq<uint32>)
    requires |s.offs| == |s.sites| && forall k :: 0 <= k < |s.sites| ==> s.offs[k] == s.sites[k].pos && Holds(s.bytes, table, s.sites[k])
    requires forall j, k :: 0 <= j < k < |s.sites| ==> s.sites[j].pos + 4 <= s.sites[k].pos
    ensures Noted(s, table)
  {
  }

  lemma ApplyNoted(s: Sheet, e: Emit)
    requires AllNoted(s) && Fits(s, e)
    ensures AllNoted(Apply(s, e))
  {
    hide Noted, IndexBytes;
    var r := Apply(s, e);
    match e
    case Commands(data) => NotedGrows(s.bin, s.handles, data, s.handles);
    case UniformData(data) => NotedGrows(s.uniforms, s.handles, data, s.handles);
    case IndexBuffer(h) =>
      OneIndex(s.handles, h);
      WordsNoted(s.bin, s.handles, [GEM_RELOCATIONS], [h], WordBytes(0));
      Others(s, r);
    case UniformHandle(h) =>
      OneIndex(s.handles, h);
      WordsNoted(s.uniforms, s.handles, [], [h], []);
      Others(s, r);
    case ShaderRecord(code, record, attributes) =>
      WordsNoted(s.shaderRec, s.handles, [], code + Handles(attributes), record + Rest(attributes));
      Others(s, r);
  }

  lemma OneIndex(table: seq<uint32>, h: uint32)
    requires |table| + 1 < 0x1_0000_0000
    ensures IndexBytes(table, [h]) == (WordBytes(IndexOf(table, h)), R.WithHandle(table, h))
  {
    var (rest, t) := IndexBytes(R.WithHandle(table, h), [h][1..]);
    assert WordBytes(IndexOf(table, h)) + [] == WordBytes(IndexOf(table, h));
  }

  /** Lists that were not touched stay noted with the longer table. */
  lemma Others(s: Sheet, r: Sheet)
    requires AllNoted(s) && s.handles <= r.handles
    ensures r.bin == s.bin ==> Noted(r.bin, r.handles)
    ensures r.uniforms == s.uniforms ==> Noted(r.uniforms, r.handles)
    ensures r.shaderRec == s.shaderRec ==> Noted(r.shaderRec, r.handles)
  {
    hide Noted;
    NotedGrows(s.bin, s.handles, [], r.handles);
    NotedGrows(s.uniforms, s.handles, [], r.handles);
    NotedGrows(s.shaderRec, s.handles, [], r.handles);
    assert s.bin.bytes + [] == s.bin.bytes && s.uniforms.bytes + [] == s.uniforms.bytes && s.shaderRec.bytes + [] == s.shaderRec.bytes;
  }

  // ------------------------------------------------------------ whole lists

  /** A secondary that has only begun: its marker, and the offsets of nothing. */
  function Begun(marker: seq<byte>): (s: Sheet) {
    Sheet(Strip(marker, [], []), Strip([], [], []), Strip([], [], []), [])
  }

  predicate FitsAll(s: Sheet, es: seq<Emit>)
    decreases |es|
  {
    es == [] || (Fits(s, es[0]) && FitsAll(Apply(s, es[0]), es[1..]))
  }

  function Drawn(s: Sheet, es: seq<Emit>): (r: Sheet)
    requires FitsAll(s, es)
    decreases |es|
  {
    if es == [] then s else Drawn(Apply(s, es[0]), es[1..])
  }

  lemma {:induction false} DrawnNoted(s: Sheet, es: seq<Emit>)
    requires AllNoted(s) && FitsAll(s, es)
    ensures AllNoted(Drawn(s, es))
    ensures |s.bin.bytes| <= |Drawn(s, es).bin.bytes|
    ensures (forall k :: 0 <= k < |s.bin.sites| ==> MARKER_SIZE <= s.bin.sites[k].pos) && MARKER_SIZE <= |s.bin.bytes| ==>
      forall k :: 0 <= k < |Drawn(s, es).bin.sites| ==> MARKER_SIZE <= Drawn(s, es).bin.sites[k].pos
    decreases |es|
  {
    hide AllNoted;
    if es != [] {
      ApplyNoted(s, es[0]);
      DrawnNoted(Apply(s, es[0]), es[1..]);
    }
  }

  /** What vkCmdExecuteCommands gets to see of a drawn secondary. */
  function SecondaryOf(s: Sheet, draws: uint32, count: uint32): (r: R.Secondary) {
    R.Secondary(s.bin.bytes, s.uniforms.bytes, s.shaderRec.bytes, s.handles, s.bin.offs, s.uniforms.offs, s.shaderRec.offs, draws, count)
  }

  lemma NotedIsIndexWords(s: Strip, table: seq<uint32>)
    requires Noted(s, table)
    ensures R.IndexWords(s.bytes, s.offs, table)
  {
    hide Word;
    forall k | 0 <= k < |s.offs| ensures s.offs[k] + 4 <= |s.bytes| && Word(s.bytes, s.offs[k]) < |table| {
      assert Holds(s.bytes, table, s.sites[k]);
    }
  }

  /** Whatever is drawn into a secondary, the offsets recorded for each list are
      the positions of its index words, each once and in order, and each of those
      words resolves to the handle it was written for. */
  lemma OffsetsAreTheIndexWords(marker: seq<byte>, es: seq<Emit>, draws: uint32, count: uint32)
    requires |marker| == MARKER_SIZE && FitsAll(Begun(marker), es)
    ensures AllNoted(Drawn(Begun(marker), es)) && MARKER_SIZE <= |Drawn(Begun(marker), es).bin.bytes|
    ensures forall k :: 0 <= k < |Drawn(Begun(marker), es).bin.sites| ==> MARKER_SIZE <= Drawn(Begun(marker), es).bin.sites[k].pos
    ensures R.Recorded(SecondaryOf(Drawn(Begun(marker), es), draws, count))
  {
    hide Word;
    var s := Drawn(Begun(marker), es);
    DrawnNoted(Begun(marker), es);
    NotedIsIndexWords(s.bin, s.handles);
    NotedIsIndexWords(s.uniforms, s.handles);
    NotedIsIndexWords(s.shaderRec, s.handles);
  }

  /** The word that a site becomes in a primary that had n bytes of the list. */
  ghost predicate Arrives(site: Site, bytes: seq<byte>, n: int, table: seq<uint32>) {
    && 0 <= n + site.pos && n + site.pos + 4 <= |bytes|
    && Word(bytes, n + site.pos) < |table| && table[Word(bytes, n + site.pos)] == site.handle
  }

  /** A list that is carried over byte for byte but for its index words. */
  lemma StripArrives(s: Strip, table: seq<uint32>, bytes: seq<byte>, n: nat, t: seq<uint32>)
    requires Noted(s, table) && R.IndexWords(s.bytes, s.offs, table) && n + |s.bytes| <= |bytes|
    requires R.SameMeaning(s.bytes, table, bytes[n..n + |s.bytes|], t, s.offs)
    ensures forall k :: 0 <= k < |s.sites| ==> Arrives(s.sites[k], bytes, n, t)
  {
    hide Word, R.IndexWords, R.SameMeaning;
    forall k | 0 <= k < |s.sites| ensures Arrives(s.sites[k], bytes, n, t) {
      SiteArrives(s, table, bytes[n..n + |s.bytes|], t, k);
      WordInSlice(bytes, n, n + |s.bytes|, s.sites[k].pos);
    }
  }

  lemma BinArrives(s: Strip, table: seq<uint32>, bin: seq<byte>, at: nat, t: seq<uint32>)
    requires Noted(s, table) && R.IndexWords(s.bytes, s.offs, table) && MARKER_SIZE <= |s.bytes| && at + |s.bytes| - MARKER_SIZE <= |bin|
    requires R.SameMeaning(s.bytes, table, s.bytes[..MARKER_SIZE] + bin[at..at + |s.bytes| - MARKER_SIZE], t, s.offs)
    requires forall k :: 0 <= k < |s.sites| ==> MARKER_SIZE <= s.sites[k].pos
    ensures forall k :: 0 <= k < |s.sites| ==> Arrives(s.sites[k], bin, at - MARKER_SIZE, t)
  {
    hide Word, R.IndexWords, R.SameMeaning;
    var nb := |s.bytes| - MARKER_SIZE;
    forall k | 0 <= k < |s.sites| ensures Arrives(s.sites[k], bin, at - MARKER_SIZE, t) {
      SiteArrives(s, table, s.bytes[..MARKER_SIZE] + bin[at..at + nb], t, k);
      WordAfterMarker(s.bytes[..MARKER_SIZE], bin, at, nb, s.sites[k].pos);
    }
  }

  /** Drawing and then executing: in the primary, every index word stands for the
      buffer that the draw named. */
  lemma DrawnThenExecuted(p: R.Primary, marker: seq<byte>, es: seq<Emit>, draws: uint32, count: uint32)
    requires |marker| == MARKER_SIZE && FitsAll(Begun(marker), es) && R.Open(p)
    requires |p.handles| + R.Relocations(SecondaryOf(Drawn(Begun(marker), es), draws, count)) < 0x1_0000_0000
    ensures R.Recorded(SecondaryOf(Drawn(Begun(marker), es), draws, count))
    ensures var s := Drawn(Begun(marker), es);
      var r := R.ExecuteOne(p, SecondaryOf(s, draws, count));
      && (forall k :: 0 <= k < |s.bin.sites| ==> Arrives(s.bin.sites[k], r.bin, |p.bin| - MARKER_SIZE, r.handles))
      && (forall k :: 0 <= k < |s.uniforms.sites| ==> Arrives(s.uniforms.sites[k], r.uniforms, |p.uniforms|, r.handles))
      && (forall k :: 0 <= k < |s.shaderRec.sites| ==> Arrives(s.shaderRec.sites[k], r.shaderRec, |p.shaderRec|, r.handles))
  {
    hide Word, R.ExecuteOne, R.IndexWords, R.SameMeaning, Noted, Arrives, Drawn;
    OffsetsAreTheIndexWords(marker, es, draws, count);
    var s := Drawn(Begun(marker), es);
    var sec := SecondaryOf(s, draws, count);
    var r := R.ExecuteOne(p, sec);
    R.ExecuteOneCarries(p, sec);
    BinArrives(s.bin, s.handles, r.bin, |p.bin|, r.handles);
    StripArrives(s.uniforms, s.handles, r.uniforms, |p.uniforms|, r.handles);
    StripArrives(s.shaderRec, s.handles, r.shaderRec, |p.shaderRec|, r.handles);
  }

  lemma SiteArrives(s: Strip, table: seq<uint32>, m: seq<byte>, t: seq<uint32>, k: nat)
    requires Noted(s, table) && k < |s.sites| && R.IndexWords(s.bytes, s.offs, table)
    requires R.SameMeaning(s.bytes, table, m, t, s.offs)
    ensures Holds(m, t, s.sites[k])
  {
    hide Word;
    assert Holds(s.bytes, table, s.sites[k]);
    assert R.Resolves(s.bytes, table, m, t, s.offs[k]);
  }

  lemma WordAfterMarker(marker: seq<byte>, bin: seq<byte>, at: nat, n: nat, pos: nat)
    requires |marker| == MARKER_SIZE <= pos && at + n <= |bin| && pos + 4 <= MARKER_SIZE + n
    ensures Word(marker + bin[at..at + n], pos) == Word(bin, at - MARKER_SIZE + pos)
  {
    WordAfter(marker, bin[at..at + n], pos - MARKER_SIZE, pos);
    WordInSlice(bin, at, at + n, pos - MARKER_SIZE);
  }
}
