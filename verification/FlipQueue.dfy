/** The critical sections of driver/modeset.c on the queue of vsyncData records:
    each of them is the step of FlipProtocol it is named after. */
module FlipQueue {
  import opened Bytes
  import opened FreeList
  import opened FifoQueue
  import M = Markers
  import P = FlipProtocol

  // 32-bit layout of struct vsyncData; seqno is 64 bits wide and aligned to 8
  const IMAGE := 0
  const SURFACE := 4
  const FLIP_PENDING := 8
  const SEQNO := 16
  const DATA_SIZE := 24

  /** The two words of a 64-bit number. */
  function Wide(lo: uint32, hi: uint32): (v: nat) {
    lo + 0x1_0000_0000 * hi
  }

  /** The record b says what d says. */
  ghost predicate Encodes(b: seq<byte>, d: P.Data) {
    && |b| == DATA_SIZE
    && Word(b, IMAGE) == d.req.image && Word(b, SURFACE) == d.req.surface
    && Word(b, FLIP_PENDING) == (if d.flipPending then 1 else 0)
    && Wide(Word(b, SEQNO), Word(b, SEQNO + 4)) == d.seqno
  }

  /** Where the fields of struct vsyncData stand on the 32-bit target. */
  lemma EncodesWhere(b: seq<byte>, d: P.Data)
    requires Encodes(b, d)
    ensures |b| == 24 && Word(b, 0) == d.req.image && Word(b, 4) == d.req.surface
    ensures Word(b, 8) == if d.flipPending then 1 else 0
    ensures var (lo: int, hi: int) := (Word(b, 16), Word(b, 20)); lo + 0x1_0000_0000 * hi == d.seqno
  {
    hide Word;
  }

  function Record(image: uint32, surface: uint32, pending: uint32, lo: uint32, hi: uint32): (b: seq<byte>)
    ensures |b| == DATA_SIZE
  {
    WordBytes(image) + WordBytes(surface) + WordBytes(pending) + WordBytes(0) + WordBytes(lo) + WordBytes(hi)
  }

  lemma RecordEncodes(image: uint32, surface: uint32, lo: uint32, hi: uint32, d: P.Data)
    requires d.req.image == image && d.req.surface == surface && !d.flipPending && d.seqno == Wide(lo, hi)
    ensures Encodes(Record(image, surface, 0, lo, hi), d)
  {
    var b := Record(image, surface, 0, lo, hi);
    WordWritten(b, IMAGE, image);
    WordWritten(b, SURFACE, surface);
    WordWritten(b, FLIP_PENDING, 0);
    WordWritten(b, SEQNO, lo);
    WordWritten(b, SEQNO + 4, hi);
  }

  /** d->seqno = 0 */
  lemma SeqnoCleared(b: seq<byte>, d: P.Data)
    requires Encodes(b, d)
    ensures Encodes(SetWord(SetWord(b, SEQNO, 0), SEQNO + 4, 0), d.(seqno := 0))
  {
    hide Word, SetWord;
    M.SetWordKeeps(b, SEQNO, 0);
    M.SetWordKeeps(SetWord(b, SEQNO, 0), SEQNO + 4, 0);
  }

  lemma PendingSet(b: seq<byte>, d: P.Data, pending: bool)
    requires Encodes(b, d)
    ensures Encodes(SetWord(b, FLIP_PENDING, if pending then 1 else 0), d.(flipPending := pending))
  {
    hide Word, SetWord;
    M.SetWordKeeps(b, FLIP_PENDING, if pending then 1 else 0);
  }

  class FlipQueue {
    const fifo: Fifo
    const modeOf: nat -> P.Mode

    /** The queue in memory is the queue of the protocol state s. */
    ghost predicate Holds(s: P.State)
      reads fifo, fifo.data, fifo.data.buf, fifo.elems, fifo.elems.buf
    {
      && fifo.Valid() && fifo.dataSize == DATA_SIZE && fifo.MaxElems() == P.FLIP_FIFO_SIZE
      && P.Sized(s) && s.queue == fifo.slots && |fifo.Contents()| == |s.queue|
      && forall k :: 0 <= k < |s.queue| ==> Encodes(fifo.Contents()[k], s.Entry(k)) && s.Entry(k).req.mode == modeOf(s.Entry(k).req.image)
    }

    /** An empty queue is the protocol's initial state. */
    constructor (f: Fifo, modes: nat -> P.Mode)
      requires f.Valid() && f.Contents() == [] && f.dataSize == DATA_SIZE && f.MaxElems() == P.FLIP_FIFO_SIZE
      ensures fifo == f && modeOf == modes
      ensures forall s :: P.Initial(s) ==> Holds(s)
    {
      fifo, modeOf := f, modes;
    }

    /** Look: what the flip thread reads of the last entry. */
    method Look(ghost s: P.State) returns (seqno: nat)
      requires Holds(s) && P.Inv(s) && P.Enabled(s, P.Look)
      ensures var t := P.Next(s, P.Look);
        Holds(t) && (seqno != 0 <==> t.flipper.Waiting?) && (seqno != 0 ==> t.flipper.seqno == seqno)
    {
      hide Word, P.Queued, P.Waits, P.TailSound, Fifo.Valid, Fifo.Contents;
      seqno := 0;
      var d := fifo.GetLast();
      if d != 0 {
        assert Encodes(fifo.Contents()[0], s.Entry(0));
        var lo := fifo.GetField(d, SEQNO, 0);
        var hi := fifo.GetField(d, SEQNO + 4, 0);
        seqno := Wide(lo, hi);
      }
    }

    /** AcquireLook and AcquirePoll: what the acquirer reads of the last entry. */
    method ReadLast(ghost s: P.State) returns (found: bool, pending: bool, busy: bool)
      requires Holds(s) && P.Inv(s)
      ensures found <==> s.queue != []
      ensures found ==> pending == s.Tail().flipPending && busy == (s.Tail().seqno > 0)
      ensures P.Enabled(s, P.AcquireLook) ==> Holds(P.Next(s, P.AcquireLook)) && (found ==> P.Next(s, P.AcquireLook).acquirer == P.Polling(pending, busy))
      ensures P.Enabled(s, P.AcquirePoll) ==> found && Holds(P.Next(s, P.AcquirePoll)) && P.Next(s, P.AcquirePoll).acquirer == P.Polling(pending, busy)
    {
      hide Word, P.Queued, P.TailSound, Fifo.Valid, Fifo.Contents;
      found, pending, busy := false, false, false;
      var d := fifo.GetLast();
      if d != 0 {
        assert Encodes(fifo.Contents()[0], s.Entry(0));
        found := true;
        var p := fifo.GetField(d, FLIP_PENDING, 0);
        var lo := fifo.GetField(d, SEQNO, 0);
        var hi := fifo.GetField(d, SEQNO + 4, 0);
        pending, busy := p != 0, Wide(lo, hi) > 0;
      }
    }

    /** MarkDone: the flip thread marks the last entry done and asks for a flip: in FIFO
        mode for one with an event and a pointer to the entry, in immediate mode for
        one at once, otherwise for none. accepted is the kernel's answer. */
    method MarkDone(accepted: bool, ghost s: P.State) returns (d: uint32, ask: P.Mode)
      requires Holds(s) && P.Inv(s) && P.Enabled(s, P.MarkDone(accepted))
      modifies fifo.data.buf
      ensures Holds(P.Next(s, P.MarkDone(accepted)))
      ensures d == fifo.data.layout.Addr(s.queue[0]) && ask == s.Tail().req.mode
    {
      hide Word, SetWord, Encodes, P.Queued, P.TailSound, Fifo.Valid, Fifo.Contents;
      d := fifo.GetLast();
      ghost var b, e := fifo.Contents()[0], s.Entry(0);
      assert Encodes(b, e);
      SeqnoCleared(b, e);
      fifo.SetField(d, SEQNO, 0, 0);
      fifo.SetField(d, SEQNO + 4, 0, 0);
      EncodedImage(fifo.Contents()[0], e.(seqno := 0));
      var image := fifo.GetField(d, IMAGE, 0);
      ask := modeOf(image);
      if ask == P.Fifo {
        PendingSet(fifo.Contents()[0], e.(seqno := 0), true);
        fifo.SetField(d, FLIP_PENDING, 1, 0);
      }
    }

    lemma EncodedImage(b: seq<byte>, d: P.Data)
      requires Encodes(b, d)
      ensures |b| == DATA_SIZE && Word(b, IMAGE) == d.req.image && Word(b, SURFACE) == d.req.surface
    {
    }

    /** Deliver: modeset_page_flip_event writes through the pointer it is given. */
    method PageFlipEvent(d: uint32, ghost k: nat, ghost s: P.State)
      requires Holds(s) && P.Inv(s) && P.Enabled(s, P.Deliver(k)) && d == fifo.data.layout.Addr(s.events[k].slot)
      modifies fifo.data.buf
      ensures Holds(P.Next(s, P.Deliver(k)))
    {
      hide Word, SetWord, Encodes, P.Queued, P.TailSound, Fifo.Valid, Fifo.Contents;
      assert Encodes(fifo.Contents()[0], s.Entry(0));
      PendingSet(fifo.Contents()[0], s.Entry(0), false);
      fifo.SetField(d, FLIP_PENDING, 0, 0);
    }

    /** AcquireTake: the last entry leaves, and its image is the one acquired. */
    method Take(ghost s: P.State) returns (image: uint32, surface: uint32)
      requires Holds(s) && P.Inv(s) && P.Enabled(s, P.AcquireTake)
      modifies fifo, fifo.data, fifo.data.buf, fifo.elems, fifo.elems.buf
      ensures Holds(P.Next(s, P.AcquireTake))
      ensures image == s.Tail().req.image && surface == s.Tail().req.surface
    {
      hide Word, SetWord, Encodes, P.Queued, P.TailSound, Fifo.Valid, Fifo.Contents;
      assert Encodes(fifo.Contents()[0], s.Entry(0));
      var removed, record := fifo.Remove();
      EncodedImage(record, s.Entry(0));
      image := WordOf(record, IMAGE);
      surface := WordOf(record, SURFACE);
    }

    method WordOf(b: seq<byte>, k: nat) returns (w: uint32)
      requires k + 4 <= |b|
      ensures w == Word(b, k)
    {
      WordLimit();
      w := Value(b[k..k + 4]);
    }

    /** Present: modeset_present adds a request, or crashes where the protocol does. */
    method Present(image: uint32, surface: uint32, seqno: nat, ghost s: P.State) returns (added: bool, ghost slot: nat)
      requires seqno < 0x1_0000_0000_0000_0000 && Holds(s) && P.Inv(s) && !s.crashed
      modifies fifo, fifo.data, fifo.data.buf, fifo.elems, fifo.elems.buf
      ensures var step := P.Present(P.Request(image, surface, modeOf(image), seqno), slot);
        P.Enabled(s, step) && (added ==> Holds(P.Next(s, step))) && (P.Next(s, step).crashed <==> !added)
      ensures added <==> |s.queue| < P.FLIP_FIFO_SIZE
    {
      hide Word, SetWord, Encodes, P.Queued, P.TailSound, Fifo.Contents, Record, Fifo.Valid;
      slot := 0;
      if |fifo.Contents()| < fifo.MaxElems() {
        fifo.FreeSlot();
        slot := fifo.data.free[0];
      }
      var lo: uint32, hi: uint32 := seqno % 0x1_0000_0000, seqno / 0x1_0000_0000;
      var record := Record(image, surface, 0, lo, hi);
      ghost var req := P.Request(image, surface, modeOf(image), seqno);
      RecordEncodes(image, surface, lo, hi, P.Data(req, false, seqno, |P.Presents(s.log)|));
      added := fifo.Add(record);
    }
  }
}
