/** clInsertGEMRelocations in vkCmdDrawIndexed of driver/draw.c writes nine bytes for
    which no room has been made. Here is a command buffer that has less, and where the
    bytes go. */
module Overrun {
  import opened Bytes
  import opened FreeList
  import opened Seqs
  import opened ConsecutivePool
  import opened Markers
  import opened ControlLists
  import opened CommandBuffers
  import opened RelocationLoops
  import opened Drawing
  import opened Beginning
  import CS = ConsecutiveSpec
  import D = DrawSpec

  const PAGE := 4096

  function OnlyBin(bin: seq<byte>): (i: Image) { Image(bin, [], [], [], [], [], []) }

  /** A command buffer is allocated from a new pool, and commands are recorded behind
      its marker until less than nine bytes are left of its binning list's block. The
      handle list lies behind. */
  method CrampedBuffer(buffer: array<byte>, base: uint32, data: seq<byte>) returns (cb: CommandBuffer, ghost i: Image, ghost cpa: ConsecutivePool)
    requires buffer.Length == 7 * 4096 && 0 < base < 0x8000_0000 && 4096 - MARKER_SIZE - 9 < |data| <= 4096 - MARKER_SIZE
    modifies buffer
    ensures fresh(cpa) && cpa.buf == buffer && fresh(cb.Lists()) && Recording(cb, i, [], cb.Lists(), cpa) && |i.bin| == MARKER_SIZE + |data| && i == OnlyBin(i.bin)
    ensures cb.binCl.Placed() && cb.binCl.Room() == 4096 - MARKER_SIZE - |data| < 9
    ensures cb.handlesCl.Placed() && cb.handlesCl.offset == cb.binCl.nextFreeByteOffset + cb.binCl.Room()
  {
    hide Apart, NewBuffer, CS.Created, ControlList.Room, ControlList.Placed, Recording, ControlList.Contents, FreshMarker, Get, Put;
    var pool := new ConsecutivePool.Create(buffer, base, PAGE);
    cpa := pool;
    SevenPages(cpa.State());
    NoLists(cpa);
    var buf := AllocateBuffer(pool, {});
    cb := buf;
    assert {} + cb.Lists() == cb.Lists();
    i := InsertFirst(cb, cb.Lists(), cpa);
    RecordingList(cb, i, [], cb.binCl, cb.Lists(), cpa);
    PutBin(cb, i, data);
    Append(cb, cb.binCl, data, i, [], cb.Lists(), cpa);
    i := i.(bin := i.bin + data);
    RecordingList(cb, i, [], cb.handlesCl, cb.Lists(), cpa);
    SideBySide(cb.binCl, cb.handlesCl);
  }

  lemma SevenPages(s: CS.PoolState)
    requires s == CS.Created(7)
    ensures |s.free| == 7 && s.free[0] == 0 && s.free[1] == 1
  {
  }

  lemma NoLists(cpa: ConsecutivePool)
    requires cpa.Valid()
    ensures Apart({}, cpa)
  {
  }

  lemma PutBin(cb: CommandBuffer, i: Image, data: seq<byte>)
    ensures Put(cb, i, cb.binCl, Get(cb, i, cb.binCl) + data) == i.(bin := i.bin + data)
  {
  }

  lemma SideBySide(list: ControlList, next: ControlList)
    requires list.Placed() && next.Placed() && list.CPA == next.CPA && next.first == list.first + list.numBlocks
    ensures next.offset == list.nextFreeByteOffset + list.Room()
  {
  }

  /** An index buffer drawn then does not find the room it needs. */
  method DrawnWithoutRoom(buffer: array<byte>, base: uint32, data: seq<byte>, handle: uint32) returns (ok: bool)
    requires buffer.Length == 7 * 4096 && 0 < base < 0x8000_0000 && 4096 - MARKER_SIZE - 9 < |data| <= 4096 - MARKER_SIZE
    modifies buffer
    ensures !ok
  {
    hide Recording, ControlList.Room, ControlList.Placed, Matches;
    var cb, i, cpa := CrampedBuffer(buffer, base, data);
    ghost var s := D.Sheet(D.Strip(i.bin, [], []), D.Strip([], [], []), D.Strip([], [], []), []);
    NothingNoted(i, s);
    ghost var j;
    ok, j := DrawIndexBuffer(cb, handle, i, s, cb.Lists(), cpa);
  }

  lemma NothingNoted(i: Image, s: D.Sheet)
    requires i == OnlyBin(i.bin) && s == D.Sheet(D.Strip(i.bin, [], []), D.Strip([], [], []), D.Strip([], [], []), [])
    ensures Matches(i, s)
  {
  }

  /** The bytes that do not fit go into the list behind: here, over the handle table. */
  lemma RestGoesBehind(list: ControlList, next: ControlList, m: seq<byte>, data: seq<byte>)
    requires list.Placed() && next.Placed() && list.CPA == next.CPA && |m| == list.CPA.buf.Length
    requires next.offset == list.nextFreeByteOffset + list.Room() && list.Room() < |data| <= list.Room() + |next.Slice(m)|
    ensures next.Slice(Splice(m, list.nextFreeByteOffset, data))[..|data| - list.Room()] == data[list.Room()..]
  {
    var r, at, n := Splice(m, list.nextFreeByteOffset, data), list.nextFreeByteOffset, |data| - list.Room();
    assert r[at..at + |data|] == data;
    assert next.Slice(r)[..n] == r[next.offset..next.offset + n];
    assert r[next.offset..next.offset + n] == r[at..at + |data|][list.Room()..];
  }
}
