/** What each part of a draw leaves in the lists, byte by byte, as the hardware and the
    kernel read it. */
module DrawLaws {
  import opened Bytes
  import opened Seqs
  import opened DrawSpec
  import S = ShaderRecords
  import W = Drawing
  import P = Places
  import C = CommandBuffers
  import R = Relocation

  /** The word at this position of m is the index of h in the table. */
  ghost predicate Names(m: seq<byte>, at: nat, table: seq<uint32>, h: uint32) {
    at + 4 <= |m| && Word(m, at) < |table| && table[Word(m, at)] == h
  }

  /** The list has grown by more bytes; what it held is unchanged. */
  predicate Grown(s: Strip, r: Strip, more: nat) {
    |r.bytes| == |s.bytes| + more && s.bytes <= r.bytes && s.offs <= r.offs
  }

  lemma BytesWritten(s: Sheet, data: seq<byte>)
    ensures Fits(s, Commands(data)) ==> var r := Apply(s, Commands(data));
      Grown(s.bin, r.bin, |data|) && r.bin.bytes[|s.bin.bytes|..] == data && r.bin.offs == s.bin.offs
      && r.uniforms == s.uniforms && r.shaderRec == s.shaderRec && r.handles == s.handles
    ensures Fits(s, UniformData(data)) ==> var r := Apply(s, UniformData(data));
      Grown(s.uniforms, r.uniforms, |data|) && r.uniforms.bytes[|s.uniforms.bytes|..] == data && r.uniforms.offs == s.uniforms.offs
      && r.bin == s.bin && r.shaderRec == s.shaderRec && r.handles == s.handles
  {
  }

  /** Words for the handles hs between the bytes before and after. */
  lemma WordsWritten(s: Strip, table: seq<uint32>, before: seq<byte>, hs: seq<uint32>, after: seq<byte>, n: nat, words: nat)
    requires |table| + |hs| < 0x1_0000_0000 && |s.bytes| + |before| + 4 * |hs| < 0x1_0000_0000
    requires n == |s.bytes| + |before| && words == 4 * |hs|
    ensures var (r, t) := (WithWords(s, table, before, hs, after), IndexBytes(table, hs).1);
      && Grown(s, r, |before| + words + |after|)
      && r.bytes[|s.bytes|..n] == before && r.bytes[n + words..] == after
      && (forall j, at :: 0 <= j < |hs| && at == n + 4 * j ==> Names(r.bytes, at, t, hs[j]))
      && r.offs == s.offs + OffsetsFrom(n, |hs|)
  {
    hide Word, IndexBytes, OffsetsFrom, SitesAt, WithWords;
    var r := WithWords(s, table, before, hs, after);
    WordsParts(s, table, before, hs, after, r, n);
    forall j, at | 0 <= j < |hs| && at == n + 4 * j ensures Names(r.bytes, at, IndexBytes(table, hs).1, hs[j]) {
      NewSiteHolds(s.bytes + before, table, hs, after, j, Site(at, hs[j]), r.bytes);
    }
  }

  /** A uniform handle: its index, and where that stands. */
  lemma UniformHandleWritten(s: Sheet, h: uint32)
    requires Fits(s, UniformHandle(h))
    ensures var r, n := Apply(s, UniformHandle(h)), |s.uniforms.bytes|;
      && Grown(s.uniforms, r.uniforms, 4) && Names(r.uniforms.bytes, n, r.handles, h) && r.uniforms.offs == s.uniforms.offs + [n]
      && s.handles <= r.handles && |r.handles| <= |s.handles| + 1 && r.bin == s.bin && r.shaderRec == s.shaderRec
  {
    hide Word, WithWords, IndexBytes;
    WordsWritten(s.uniforms, s.handles, [], [h], [], |s.uniforms.bytes|, 4);
    OneIndex(s.handles, h);
    assert [h][0] == h;
  }

  /** The index buffer: the packet GEM_RELOCATIONS with the buffer's index and a 0, and
      where the index stands. */
  lemma IndexBufferWritten(s: Sheet, h: uint32)
    requires Fits(s, IndexBuffer(h))
    ensures var r, n := Apply(s, IndexBuffer(h)), |s.bin.bytes|;
      && Grown(s.bin, r.bin, 9) && r.bin.bytes[n] == 254 && Names(r.bin.bytes, n + 1, r.handles, h)
      && r.bin.bytes[n + 5..] == [0, 0, 0, 0] && r.bin.offs == s.bin.offs + [n + 1]
      && s.handles <= r.handles && |r.handles| <= |s.handles| + 1 && r.uniforms == s.uniforms && r.shaderRec == s.shaderRec
  {
    hide Word, WithWords, IndexBytes, WordBytes;
    var r, n := Apply(s, IndexBuffer(h)), |s.bin.bytes|;
    WordsWritten(s.bin, s.handles, [GEM_RELOCATIONS], [h], WordBytes(0), n + 1, 4);
    OneIndex(s.handles, h);
    assert [h][0] == h;
    ZeroBytes();
    assert r.bin.bytes[n..n + 1][0] == 254;
  }

  lemma ZeroBytes()
    ensures WordBytes(0) == [0, 0, 0, 0]
  {
    assert Digits(0, 2) == [0, 0];
  }

  /** A shader record: an index for each code address and each attribute's buffer, then the
      record, then eight bytes for each attribute; and where the indices stand. */
  lemma ShaderRecordWritten(s: Sheet, code: seq<uint32>, record: seq<byte>, attributes: seq<Attribute>, words: nat)
    requires Fits(s, ShaderRecord(code, record, attributes)) && words == 12 + 4 * |attributes|
    ensures var r, n := Apply(s, ShaderRecord(code, record, attributes)), |s.shaderRec.bytes|;
      && Grown(s.shaderRec, r.shaderRec, words + 36 + 8 * |attributes|)
      && (forall j, at :: 0 <= j < 3 && at == n + 4 * j ==> Names(r.shaderRec.bytes, at, r.handles, code[j]))
      && (forall j, at :: 0 <= j < |attributes| && at == n + 12 + 4 * j ==> Names(r.shaderRec.bytes, at, r.handles, attributes[j].handle))
      && r.shaderRec.bytes[n + words..n + words + 36] == record && r.shaderRec.bytes[n + words + 36..] == Rest(attributes)
      && |r.shaderRec.offs| == |s.shaderRec.offs| + 3 + |attributes|
      && (forall j :: 0 <= j < 3 + |attributes| ==> r.shaderRec.offs[|s.shaderRec.offs| + j] == n + 4 * j)
      && s.handles <= r.handles && r.bin == s.bin && r.uniforms == s.uniforms
  {
    hide Word, WithWords, IndexBytes, Rest;
    var hs, after := code + Handles(attributes), record + Rest(attributes);
    var r, n := Apply(s, ShaderRecord(code, record, attributes)), |s.shaderRec.bytes|;
    WordsWritten(s.shaderRec, s.handles, [], hs, after, n, words);
    S.RestLength(attributes);
    assert r.shaderRec.bytes[n + words..] == after;
    forall j, at | 0 <= j < 3 && at == n + 4 * j ensures Names(r.shaderRec.bytes, at, r.handles, code[j]) {
      assert hs[j] == code[j];
    }
    forall j, at | 0 <= j < |attributes| && at == n + 12 + 4 * j ensures Names(r.shaderRec.bytes, at, r.handles, attributes[j].handle) {
      assert hs[3 + j] == attributes[j].handle && at == n + 4 * (3 + j);
    }
  }

  /** The eight bytes of attribute j. */
  lemma {:induction false} AttributeStands(attributes: seq<Attribute>, j: nat, at: nat)
    requires j < |attributes| && at == 8 * j && forall a :: a in attributes ==> |a.rest| == 8
    ensures at + 8 <= |Rest(attributes)| && Rest(attributes)[at..at + 8] == attributes[j].rest
  {
    assert attributes[0] in attributes;
    if j > 0 {
      AttributeStands(attributes[1..], j - 1, at - 8);
      assert Rest(attributes)[at..at + 8] == Rest(attributes[1..])[at - 8..at];
    }
  }

  /** Where the parts of the three stages stand in a record. */
  lemma StagesStand(frag: S.Stage, vert: S.Stage, stale: seq<byte>, coord: S.Stage)
    requires |frag.head| == |vert.head| == |coord.head| == 4 && |frag.addresses| == |coord.addresses| == 8
    requires |vert.addresses| == |stale| == 4
    ensures var r := S.RecordOf(frag, vert, stale, coord);
      && |r| == 36 && r[..4] == frag.head && r[4..12] == frag.addresses
      && r[12..16] == vert.head && r[16..20] == vert.addresses && r[20..24] == stale
      && r[24..28] == coord.head && r[28..] == coord.addresses
  {
  }

  /** What the clFits of the three kinds of emission ask for. */
  lemma Asked(cb: C.CommandBuffer, n: nat)
    requires cb.handlesCl.Placed() && cb.uniformsCl.Placed() && cb.uniformRelocCl.Placed() && cb.gemRelocCl.Placed()
    requires cb.shaderRecCl.Placed() && cb.shaderRecRelocCl.Placed()
    ensures W.UniformAsks(cb) ==
      [P.Ask(cb.handlesCl.At(), [4]), P.Ask(cb.uniformsCl.At(), [4]), P.Ask(cb.uniformRelocCl.At(), [4])]
    ensures W.IndexBufferAsks(cb) == [P.Ask(cb.handlesCl.At(), [4]), P.Ask(cb.gemRelocCl.At(), [4])]
    ensures S.RecordAsks(cb, n) ==
      [P.Ask(cb.shaderRecCl.At(), [408]), P.Ask(cb.shaderRecRelocCl.At(), [12, 4 * n]), P.Ask(cb.handlesCl.At(), [44])]
  {
  }
}
