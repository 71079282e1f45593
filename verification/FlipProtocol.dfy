/** The flip queue of driver/modeset.c as a state machine.

    Application threads present images and one of them acquires them back; the
    flip thread waits for the GPU and asks the kernel for page flips; the kernel
    delivers flip events. Every critical section under flipQueueSem, every wait
    outside of it and every act of the environment is one step, and steps
    interleave in any order. */
module FlipProtocol {

  const FLIP_FIFO_SIZE := 2

  datatype Mode = Fifo | Immediate | Other

  /** What modeset_present is called with. The mode is the image's. */
  datatype Request = Request(image: nat, surface: nat, mode: Mode, seqno: nat)

  /** A vsyncData record. id numbers the requests in the order they were presented;
      the driver does not have it. */
  datatype Data = Data(req: Request, flipPending: bool, seqno: nat, id: nat)

  /** The flip thread: about to look at the queue, waiting for a seqno it has read,
      or about to mark the entry done. The ids are of the entries looked at. */
  datatype Flipper = Looking | Waiting(seqno: nat, id: nat) | Finished(seqno: nat, id: nat)

  /** modeset_acquire_image: not called, or in its loop with what it last read. */
  datatype Acquirer = Idle | Polling(pending: bool, busy: bool)

  /** What has happened so far. */
  datatype Mark =
    | Presented(req: Request)
    | GpuFinished(id: nat, upTo: nat)
    | FlipAsked(id: nat)
    | FlipDone(id: nat)
    | AtOnceAsked(id: nat)     // a flip without waiting for the next frame, and without an event
    | Returned(id: nat, req: Request)

  /** A flip that the kernel has accepted: the data pointer it was given, and the
      request it was asked for. */
  datatype Flip = Flip(slot: nat, id: nat)

  /** mem: the records' memory; queue: the slots in use, the last of the C queue
      first; events: the flips still to be reported. */
  datatype State = State(mem: seq<Data>, queue: seq<nat>, events: seq<Flip>, flipper: Flipper, lastFinished: nat,
    acquirer: Acquirer, gpu: nat, log: seq<Mark>, crashed: bool)
  {
    function Tail(): (d: Data)
      requires queue != [] && queue[0] < |mem|
    {
      mem[queue[0]]
    }

    function Entry(k: nat): (d: Data)
      requires k < |queue| && queue[k] < |mem|
    {
      mem[queue[k]]
    }
  }

  datatype Step =
    | Present(req: Request, slot: nat)    // fifoAdd, into the slot its pool hands out
    | Progress(n: nat)                    // the GPU finishes n more
    | Look                                // the flip thread reads the last entry's seqno
    | WaitDone                            // vc4_seqno_wait returns 1
    | WaitFailed                          // it times out or fails
    | MarkDone(accepted: bool)            // the flip thread marks the last entry and asks for a flip
    | Deliver(k: nat)                     // modeset_page_flip_event for the k-th outstanding flip
    | AcquireLook                         // the first critical section of modeset_acquire_image
    | AcquirePoll                         // the one in its loop
    | AcquireTake                         // the one that removes the entry

  predicate Enabled(s: State, step: Step) {
    && !s.crashed
    && match step
       case Present(req, slot) => |s.queue| < FLIP_FIFO_SIZE ==> slot < FLIP_FIFO_SIZE && slot !in s.queue
       case Progress(n) => true
       case Look => s.flipper.Looking?
       case WaitDone => s.flipper.Waiting? && (s.flipper.seqno <= s.lastFinished || s.flipper.seqno <= s.gpu)
       case WaitFailed => s.flipper.Waiting? && s.lastFinished < s.flipper.seqno
       case MarkDone(accepted) => s.flipper.Finished?
       case Deliver(k) => k < |s.events|
       case AcquireLook => s.acquirer.Idle?
       case AcquirePoll => s.acquirer.Polling? && (s.acquirer.pending || s.acquirer.busy)
       case AcquireTake => s.acquirer == Polling(false, false)
  }

  /** Slots in use are slots. */
  predicate Sized(s: State) {
    && |s.mem| == FLIP_FIFO_SIZE
    && (forall k :: 0 <= k < |s.queue| ==> s.queue[k] < FLIP_FIFO_SIZE)
    && (forall k :: 0 <= k < |s.events| ==> s.events[k].slot < FLIP_FIFO_SIZE)
  }

  /** The driver's asserts are off in a release build: where it follows a null
      pointer, or writes through one, the state is crashed. */
  function Next(s: State, step: Step): (r: State)
    requires Sized(s) && Enabled(s, step)
  {
    match step
    case Present(req, slot) =>
      if |s.queue| == FLIP_FIFO_SIZE then s.(crashed := true)
      else if |s.queue| > FLIP_FIFO_SIZE then s
      else s.(mem := s.mem[slot := Data(req, false, req.seqno, |Presents(s.log)|)], queue := s.queue + [slot], log := s.log + [Presented(req)])
    case Progress(n) => s.(gpu := s.gpu + n)
    case Look =>
      if s.queue == [] || s.Tail().seqno == 0 then s else s.(flipper := Waiting(s.Tail().seqno, s.Tail().id))
    case WaitDone =>
      s.(flipper := Finished(s.flipper.seqno, s.flipper.id),
         lastFinished := if s.flipper.seqno <= s.lastFinished then s.lastFinished else s.flipper.seqno,
         log := s.log + [GpuFinished(s.flipper.id, s.gpu)])
    case WaitFailed => s.(flipper := Looking)
    case MarkDone(accepted) =>
      if s.queue == [] then s.(crashed := true)
      else
        var d := s.Tail().(seqno := 0);
        if d.req.mode == Fifo then
          s.(mem := s.mem[s.queue[0] := d.(flipPending := true)], flipper := Looking,
             events := if accepted then s.events + [Flip(s.queue[0], d.id)] else s.events,
             log := if accepted then s.log + [FlipAsked(d.id)] else s.log)
        else s.(mem := s.mem[s.queue[0] := d], flipper := Looking,
          log := if d.req.mode == Immediate then s.log + [AtOnceAsked(d.id)] else s.log)
    case Deliver(k) =>
      var e := s.events[k];
      s.(mem := s.mem[e.slot := s.mem[e.slot].(flipPending := false)], events := s.events[..k] + s.events[k + 1..],
         log := s.log + [FlipDone(e.id)])
    case AcquireLook =>
      if s.queue == [] then s else s.(acquirer := Polling(s.Tail().flipPending, s.Tail().seqno > 0))
    case AcquirePoll =>
      if s.queue == [] then s.(crashed := true)
      else s.(acquirer := Polling(s.Tail().flipPending, s.Tail().seqno > 0))
    case AcquireTake =>
      if s.queue == [] then s.(crashed := true)
      else s.(queue := s.queue[1..], acquirer := Idle, log := s.log + [Returned(s.Tail().id, s.Tail().req)])
  }

  /** All requests so far, in the order of their presentation. */
  function Presents(log: seq<Mark>): (rs: seq<Request>) {
    if log == [] then []
    else Presents(log[..|log| - 1]) + (if log[|log| - 1].Presented? then [log[|log| - 1].req] else [])
  }

  /** The requests whose images have been returned by modeset_acquire_image. */
  function Returns(log: seq<Mark>): (rs: seq<Request>) {
    if log == [] then []
    else Returns(log[..|log| - 1]) + (if log[|log| - 1].Returned? then [log[|log| - 1].req] else [])
  }

  /** The GPU was seen to have finished n for request id. */
  ghost predicate Rendered(log: seq<Mark>, id: nat, n: nat) {
    exists a :: 0 <= a < |log| && RenderedAt(log, a, id, n)
  }

  ghost predicate RenderedAt(log: seq<Mark>, a: nat, id: nat, n: nat)
    requires a < |log|
  {
    log[a].GpuFinished? && log[a].id == id && n <= log[a].upTo
  }

  /** After that, the kernel accepted a flip for it. */
  ghost predicate Flipping(log: seq<Mark>, id: nat, n: nat) {
    exists b :: 0 <= b < |log| && FlippingAt(log, b, id, n)
  }

  ghost predicate FlippingAt(log: seq<Mark>, b: nat, id: nat, n: nat)
    requires b < |log|
  {
    log[b] == FlipAsked(id) && Rendered(log[..b], id, n)
  }

  /** And after that, the flip's event came in. */
  ghost predicate Shown(log: seq<Mark>, id: nat, n: nat) {
    exists c :: 0 <= c < |log| && ShownAt(log, c, id, n)
  }

  ghost predicate ShownAt(log: seq<Mark>, c: nat, id: nat, n: nat)
    requires c < |log|
  {
    log[c] == FlipDone(id) && Flipping(log[..c], id, n)
  }

  /** After the GPU was seen to have finished n for it, the kernel was asked to flip to
      request id at once. */
  ghost predicate Torn(log: seq<Mark>, id: nat, n: nat) {
    exists b :: 0 <= b < |log| && TornAt(log, b, id, n)
  }

  ghost predicate TornAt(log: seq<Mark>, b: nat, id: nat, n: nat)
    requires b < |log|
  {
    log[b] == AtOnceAsked(id) && Rendered(log[..b], id, n)
  }

  /** What holds in every reachable state that has not crashed. */
  ghost predicate Inv(s: State) {
    && Sized(s) && |s.queue| <= FLIP_FIFO_SIZE && (forall j, k :: 0 <= j < k < |s.queue| ==> s.queue[j] != s.queue[k])
    && s.lastFinished <= s.gpu
    && Queued(s) && Waits(s) && TailSound(s)
    && (forall j :: 0 <= j < |s.log| ==> ReturnedSoundly(s.log, j))
    && (forall j :: 0 <= j < |s.log| ==> FlippedSoundly(s.log, j))
  }

  /** The queue holds exactly the requests not returned yet, in order, and only the
      last entry has been touched since it was added. */
  ghost predicate Queued(s: State)
    requires Sized(s)
  {
    && Returns(s.log) <= Presents(s.log) && |Presents(s.log)| == |Returns(s.log)| + |s.queue|
    && forall k :: 0 <= k < |s.queue| ==> Untouched(s, k)
  }

  ghost predicate Untouched(s: State, k: nat)
    requires Sized(s) && k < |s.queue| && |Presents(s.log)| == |Returns(s.log)| + |s.queue|
  {
    && s.Entry(k).id == |Returns(s.log)| + k && s.Entry(k).req == Presents(s.log)[|Returns(s.log)| + k]
    && (k > 0 ==> s.Entry(k).seqno == s.Entry(k).req.seqno && !s.Entry(k).flipPending)
  }

  /** What the flip thread, the acquirer and the kernel hold on to is the last entry. */
  ghost predicate Waits(s: State)
    requires Sized(s)
  {
    && (!s.flipper.Looking? ==> s.queue != [] && s.Tail().id == s.flipper.id && s.Tail().seqno == s.flipper.seqno != 0)
    && (s.flipper.Finished? ==> Rendered(s.log, s.flipper.id, s.flipper.seqno))
    && (s.acquirer.Polling? ==> s.queue != [] && (!s.acquirer.busy ==> s.Tail().seqno == 0))
    && (s.acquirer == Polling(false, false) ==> !s.Tail().flipPending)
    && |s.events| <= 1
    && (s.events != [] ==> s.queue != [] && s.events[0] == Flip(s.queue[0], s.Tail().id) && s.Tail().flipPending)
  }

  /** How far the last entry has come. */
  ghost predicate TailSound(s: State)
    requires Sized(s)
  {
    s.queue != [] ==>
      var d := s.Tail();
      && (d.seqno == d.req.seqno || d.seqno == 0)
      && (d.flipPending ==> d.seqno == 0 && d.req.seqno != 0)
      && (d.req.seqno != 0 && d.seqno == 0 ==> Rendered(s.log, d.id, d.req.seqno))
      && (d.req.seqno != 0 && d.seqno == 0 && d.req.mode == Immediate ==> Torn(s.log, d.id, d.req.seqno))
      && (d.req.seqno != 0 && d.seqno == 0 && d.req.mode == Fifo ==>
        && (s.events != [] ==> Flipping(s.log, d.id, d.req.seqno))
        && (!d.flipPending ==> Shown(s.log, d.id, d.req.seqno)))
  }

  /** An image presented with a seqno is returned after the GPU was seen to finish
      it, in FIFO mode after its flip event has come in, in immediate mode after
      its flip was asked for. */
  ghost predicate ReturnedSoundly(log: seq<Mark>, j: nat)
    requires j < |log|
  {
    log[j].Returned? ==>
      && log[j].id < |Presents(log)| && Presents(log)[log[j].id] == log[j].req
      && (log[j].req.seqno != 0 ==>
        && Rendered(log[..j], log[j].id, log[j].req.seqno)
        && (log[j].req.mode == Immediate ==> Torn(log[..j], log[j].id, log[j].req.seqno))
        && (log[j].req.mode == Fifo ==> Shown(log[..j], log[j].id, log[j].req.seqno)))
  }

  /** Flips are only asked for in their mode, for requests with a seqno. */
  ghost predicate FlippedSoundly(log: seq<Mark>, j: nat)
    requires j < |log|
  {
    log[j].FlipAsked? || log[j].AtOnceAsked? ==>
      && log[j].id < |Presents(log)| && Presents(log)[log[j].id].seqno != 0
      && Presents(log)[log[j].id].mode == if log[j].FlipAsked? then Fifo else Immediate
  }

  // ---------------------------------------------------------- logs grow

  lemma LogGrows(log: seq<Mark>, m: Mark)
    ensures (log + [m])[..|log|] == log
    ensures Presents(log + [m]) == Presents(log) + (if m.Presented? then [m.req] else [])
    ensures Returns(log + [m]) == Returns(log) + (if m.Returned? then [m.req] else [])
  {
    assert (log + [m])[..|log|] == log;
  }

  lemma RenderedGrows(log: seq<Mark>, m: Mark, id: nat, n: nat)
    ensures Rendered(log, id, n) ==> Rendered(log + [m], id, n)
    ensures m.GpuFinished? && m.id == id && n <= m.upTo ==> Rendered(log + [m], id, n)
  {
    if Rendered(log, id, n) {
      var a :| 0 <= a < |log| && RenderedAt(log, a, id, n);
      assert RenderedAt(log + [m], a, id, n);
    }
    if m.GpuFinished? && m.id == id && n <= m.upTo {
      assert RenderedAt(log + [m], |log|, id, n);
    }
  }

  lemma FlippingGrows(log: seq<Mark>, m: Mark, id: nat, n: nat)
    ensures Flipping(log, id, n) ==> Flipping(log + [m], id, n)
    ensures m == FlipAsked(id) && Rendered(log, id, n) ==> Flipping(log + [m], id, n)
  {
    hide Rendered;
    if Flipping(log, id, n) {
      var b :| 0 <= b < |log| && FlippingAt(log, b, id, n);
      assert (log + [m])[..b] == log[..b];
      assert FlippingAt(log + [m], b, id, n);
    }
    if m == FlipAsked(id) && Rendered(log, id, n) {
      assert (log + [m])[..|log|] == log;
      assert FlippingAt(log + [m], |log|, id, n);
    }
  }

  lemma ShownGrows(log: seq<Mark>, m: Mark, id: nat, n: nat)
    ensures Shown(log, id, n) ==> Shown(log + [m], id, n)
    ensures m == FlipDone(id) && Flipping(log, id, n) ==> Shown(log + [m], id, n)
  {
    hide Flipping;
    if Shown(log, id, n) {
      var c :| 0 <= c < |log| && ShownAt(log, c, id, n);
      assert (log + [m])[..c] == log[..c];
      assert ShownAt(log + [m], c, id, n);
    }
    if m == FlipDone(id) && Flipping(log, id, n) {
      assert (log + [m])[..|log|] == log;
      assert ShownAt(log + [m], |log|, id, n);
    }
  }

  lemma TornGrows(log: seq<Mark>, m: Mark, id: nat, n: nat)
    ensures Torn(log, id, n) ==> Torn(log + [m], id, n)
    ensures m == AtOnceAsked(id) && Rendered(log, id, n) ==> Torn(log + [m], id, n)
  {
    hide Rendered;
    if Torn(log, id, n) {
      var b :| 0 <= b < |log| && TornAt(log, b, id, n);
      assert (log + [m])[..b] == log[..b];
      assert TornAt(log + [m], b, id, n);
    }
    if m == AtOnceAsked(id) && Rendered(log, id, n) {
      assert (log + [m])[..|log|] == log;
      assert TornAt(log + [m], |log|, id, n);
    }
  }

  /** A new mark leaves what is said of the earlier ones true. */
  lemma MarksStaySound(log: seq<Mark>, m: Mark)
    requires forall j :: 0 <= j < |log| ==> ReturnedSoundly(log, j)
    requires forall j :: 0 <= j < |log| ==> FlippedSoundly(log, j)
    requires m.Returned? ==> m.id < |Presents(log)| && Presents(log)[m.id] == m.req
    requires m.Returned? && m.req.seqno != 0 ==>
      && Rendered(log, m.id, m.req.seqno) && (m.req.mode == Fifo ==> Shown(log, m.id, m.req.seqno))
      && (m.req.mode == Immediate ==> Torn(log, m.id, m.req.seqno))
    requires m.FlipAsked? || m.AtOnceAsked? ==>
      && m.id < |Presents(log)| && Presents(log)[m.id].seqno != 0
      && Presents(log)[m.id].mode == if m.FlipAsked? then Fifo else Immediate
    ensures forall j :: 0 <= j < |log| + 1 ==> ReturnedSoundly(log + [m], j)
    ensures forall j :: 0 <= j < |log| + 1 ==> FlippedSoundly(log + [m], j)
  {
    hide Rendered, Shown, Torn;
    var r := log + [m];
    LogGrows(log, m);
    forall j | 0 <= j < |log| + 1 ensures ReturnedSoundly(r, j) && FlippedSoundly(r, j) {
      if j < |log| {
        assert r[..j] == log[..j];
        assert ReturnedSoundly(log, j) && FlippedSoundly(log, j);
      }
    }
  }

  // ------------------------------------------------------ one step keeps Inv

  /** A mark that is about nothing in the queue leaves its state sound. */
  lemma SoundAfter(s: State, m: Mark)
    requires Inv(s)
    ensures s.queue != [] ==>
      var d := s.Tail();
      && (Rendered(s.log, d.id, d.req.seqno) ==> Rendered(s.log + [m], d.id, d.req.seqno))
      && (Flipping(s.log, d.id, d.req.seqno) ==> Flipping(s.log + [m], d.id, d.req.seqno))
      && (Shown(s.log, d.id, d.req.seqno) ==> Shown(s.log + [m], d.id, d.req.seqno))
      && (Torn(s.log, d.id, d.req.seqno) ==> Torn(s.log + [m], d.id, d.req.seqno))
    ensures !s.flipper.Looking? && Rendered(s.log, s.flipper.id, s.flipper.seqno) ==> Rendered(s.log + [m], s.flipper.id, s.flipper.seqno)
  {
    if s.queue != [] {
      var d := s.Tail();
      RenderedGrows(s.log, m, d.id, d.req.seqno);
      FlippingGrows(s.log, m, d.id, d.req.seqno);
      ShownGrows(s.log, m, d.id, d.req.seqno);
      TornGrows(s.log, m, d.id, d.req.seqno);
    }
    if !s.flipper.Looking? { RenderedGrows(s.log, m, s.flipper.id, s.flipper.seqno); }
  }

  lemma PresentKeeps(s: State, req: Request, slot: nat)
    requires Inv(s) && Enabled(s, Present(req, slot)) && |s.queue| < FLIP_FIFO_SIZE
    ensures Inv(Next(s, Present(req, slot)))
  {
    hide Rendered, Flipping, Shown, Torn, ReturnedSoundly, FlippedSoundly;
    var r, m := Next(s, Present(req, slot)), Mark.Presented(req);
    LogGrows(s.log, m);
    SoundAfter(s, m);
    MarksStaySound(s.log, m);
    forall k | 0 <= k < |r.queue| ensures Untouched(r, k) {
      if k < |s.queue| { assert Untouched(s, k); }
    }
    if s.queue != [] { assert r.Tail() == s.Tail(); }
  }

  lemma WaitDoneKeeps(s: State)
    requires Inv(s) && Enabled(s, WaitDone)
    ensures Inv(Next(s, WaitDone))
  {
    hide Rendered, Flipping, Shown, Torn, ReturnedSoundly, FlippedSoundly;
    var r, m := Next(s, WaitDone), GpuFinished(s.flipper.id, s.gpu);
    LogGrows(s.log, m);
    SoundAfter(s, m);
    MarksStaySound(s.log, m);
    RenderedGrows(s.log, m, s.flipper.id, s.flipper.seqno);
    forall k | 0 <= k < |r.queue| ensures Untouched(r, k) {
      assert Untouched(s, k);
    }
  }

  lemma OthersUntouched(s: State, accepted: bool)
    requires Inv(s) && Enabled(s, MarkDone(accepted))
    ensures var r := Next(s, MarkDone(accepted)); forall k :: 0 <= k < |r.queue| ==> Untouched(r, k)
  {
    hide Rendered, Flipping, Shown, Torn, ReturnedSoundly, FlippedSoundly, TailSound, Presents, Returns;
    var r := Next(s, MarkDone(accepted));
    LogGrows(s.log, FlipAsked(s.Tail().id));
    LogGrows(s.log, AtOnceAsked(s.Tail().id));
    forall k | 0 <= k < |r.queue| ensures Untouched(r, k) {
      assert Untouched(s, k);
      assert k > 0 ==> s.queue[0] != s.queue[k];
    }
  }

  lemma MarkDoneKeeps(s: State, accepted: bool)
    requires Inv(s) && Enabled(s, MarkDone(accepted))
    ensures Inv(Next(s, MarkDone(accepted)))
  {
    hide Rendered, Flipping, Shown, Torn, ReturnedSoundly, FlippedSoundly, Presents, Returns;
    var r, d := Next(s, MarkDone(accepted)), s.Tail();
    assert Untouched(s, 0);
    OthersUntouched(s, accepted);
    if d.req.mode == Fifo && accepted {
      var m := FlipAsked(d.id);
      LogGrows(s.log, m);
      SoundAfter(s, m);
      FlippingGrows(s.log, m, d.id, d.req.seqno);
      MarksStaySound(s.log, m);
    } else if d.req.mode == Immediate {
      var m := AtOnceAsked(d.id);
      LogGrows(s.log, m);
      SoundAfter(s, m);
      TornGrows(s.log, m, d.id, d.req.seqno);
      MarksStaySound(s.log, m);
    }
  }

  lemma DeliverKeeps(s: State, k: nat)
    requires Inv(s) && Enabled(s, Deliver(k))
    ensures Inv(Next(s, Deliver(k)))
  {
    hide Rendered, Flipping, Shown, Torn, ReturnedSoundly, FlippedSoundly;
    var r, m, d := Next(s, Deliver(k)), FlipDone(s.events[k].id), s.Tail();
    assert Untouched(s, 0);
    LogGrows(s.log, m);
    SoundAfter(s, m);
    ShownGrows(s.log, m, d.id, d.req.seqno);
    MarksStaySound(s.log, m);
    forall i | 0 <= i < |r.queue| ensures Untouched(r, i) {
      assert Untouched(s, i);
      assert i > 0 ==> s.queue[0] != s.queue[i];
    }
  }

  lemma AcquireTakeKeeps(s: State)
    requires Inv(s) && Enabled(s, AcquireTake)
    ensures Inv(Next(s, AcquireTake))
  {
    hide Rendered, Flipping, Shown, Torn, ReturnedSoundly, FlippedSoundly, Presents, Returns;
    var d := s.Tail();
    var r, m := Next(s, AcquireTake), Returned(d.id, d.req);
    assert Untouched(s, 0);
    LogGrows(s.log, m);
    TakenSoundly(s, m);
    forall k | 0 <= k < |r.queue| ensures Untouched(r, k) {
      assert Untouched(s, k + 1);
    }
    if r.queue != [] { assert Untouched(s, 1); }
  }

  lemma TakenSoundly(s: State, m: Mark)
    requires Inv(s) && Enabled(s, AcquireTake) && m == Returned(s.Tail().id, s.Tail().req)
    ensures forall j :: 0 <= j < |s.log| + 1 ==> ReturnedSoundly(s.log + [m], j)
    ensures forall j :: 0 <= j < |s.log| + 1 ==> FlippedSoundly(s.log + [m], j)
  {
    hide Rendered, Flipping, Shown, Torn, ReturnedSoundly, FlippedSoundly, Presents, Returns;
    assert Untouched(s, 0);
    MarksStaySound(s.log, m);
  }

  /** Steps that touch no record and mark nothing. */
  lemma OtherKeeps(s: State, step: Step)
    requires Inv(s) && Enabled(s, step) && (step.Progress? || step.Look? || step.WaitFailed? || step.AcquireLook? || step.AcquirePoll?)
    ensures !Next(s, step).crashed && Inv(Next(s, step))
  {
    hide Rendered, Flipping, Shown, Torn, ReturnedSoundly, FlippedSoundly;
    var r := Next(s, step);
    assert r.mem == s.mem && r.queue == s.queue && r.log == s.log && r.events == s.events;
    forall k | 0 <= k < |r.queue| ensures Untouched(r, k) { assert Untouched(s, k); }
  }

  /** No step breaks the invariant, and the driver never follows a null pointer,
      except by presenting to a full queue. */
  lemma NextKeeps(s: State, step: Step)
    requires Inv(s) && Enabled(s, step)
    ensures Next(s, step).crashed <==> step.Present? && |s.queue| == FLIP_FIFO_SIZE
    ensures !Next(s, step).crashed ==> Inv(Next(s, step))
  {
    hide Rendered, Flipping, Shown, Torn, ReturnedSoundly, FlippedSoundly, Untouched, TailSound;
    match step
    case Present(req, slot) => if |s.queue| < FLIP_FIFO_SIZE { PresentKeeps(s, req, slot); }
    case WaitDone => WaitDoneKeeps(s);
    case MarkDone(accepted) => MarkDoneKeeps(s, accepted);
    case Deliver(k) => DeliverKeeps(s, k);
    case AcquireTake => AcquireTakeKeeps(s);
    case _ => OtherKeeps(s, step);
  }

  // ------------------------------------------------------------- whole runs

  /** The protocol as modeset_create_surface_for_mode leaves it. */
  predicate Initial(s: State) {
    && |s.mem| == FLIP_FIFO_SIZE && s.queue == [] && s.events == [] && s.flipper == Looking && s.lastFinished == 0
    && s.acquirer == Idle && s.log == [] && !s.crashed
  }

  lemma NextSized(s: State, step: Step)
    requires Sized(s) && Enabled(s, step)
    ensures Sized(Next(s, step))
  {
  }

  /** Every step of steps can be taken in its turn. */
  predicate Runs(s: State, steps: seq<Step>)
    requires Sized(s)
    decreases |steps|
  {
    steps == [] || (Enabled(s, steps[0]) && (NextSized(s, steps[0]); Runs(Next(s, steps[0]), steps[1..])))
  }

  function After(s: State, steps: seq<Step>): (r: State)
    requires Sized(s) && Runs(s, steps)
    ensures Sized(r)
    decreases |steps|
  {
    if steps == [] then s else NextSized(s, steps[0]); After(Next(s, steps[0]), steps[1..])
  }

  /** No image is presented while two are queued. */
  predicate NeverFull(s: State, steps: seq<Step>)
    requires Sized(s) && Runs(s, steps)
    decreases |steps|
  {
    steps == [] ||
      (NextSized(s, steps[0]);
       !(steps[0].Present? && |s.queue| == FLIP_FIFO_SIZE) && NeverFull(Next(s, steps[0]), steps[1..]))
  }

  lemma {:induction false} RunKeeps(s: State, steps: seq<Step>)
    requires Inv(s) && !s.crashed && Runs(s, steps)
    ensures var r := After(s, steps);
      && (r.crashed <==> !NeverFull(s, steps))
      && (!r.crashed ==> Inv(r))
      && Returns(r.log) <= Presents(r.log)
      && (forall j :: 0 <= j < |r.log| ==> ReturnedSoundly(r.log, j))
      && (forall j :: 0 <= j < |r.log| ==> FlippedSoundly(r.log, j))
    decreases |steps|
  {
    hide Rendered, Flipping, Shown, Torn, ReturnedSoundly, FlippedSoundly, Waits, TailSound, Untouched;
    if steps != [] {
      var t := Next(s, steps[0]);
      NextSized(s, steps[0]);
      NextKeeps(s, steps[0]);
      if t.crashed {
        assert t.log == s.log && steps[1..] == [];
      } else {
        RunKeeps(t, steps[1..]);
      }
    }
  }

  /** If the j-th mark returns an image: it is the image of that request; if the
      request had a seqno, the GPU was seen to finish it before; in FIFO mode its
      own flip was reported before exactly if it had a seqno, and in immediate
      mode it was asked for before exactly if it had one. */
  ghost predicate ComesBackRight(log: seq<Mark>, j: nat)
    requires j < |log|
  {
    log[j].Returned? ==>
      var req := log[j].req;
      && log[j].id < |Presents(log)| && Presents(log)[log[j].id] == req
      && (req.seqno != 0 ==> Rendered(log[..j], log[j].id, req.seqno))
      && (req.mode == Fifo ==> (Shown(log[..j], log[j].id, req.seqno) <==> req.seqno != 0))
      && (req.mode == Immediate ==> (Torn(log[..j], log[j].id, req.seqno) <==> req.seqno != 0))
  }

  /** In every interleaving, images come back in the order they were presented, and
      each of them comes back right. */
  lemma ImagesReturnShownAndInOrder(s: State, steps: seq<Step>)
    requires Initial(s) && Runs(s, steps)
    ensures Returns(After(s, steps).log) <= Presents(After(s, steps).log)
    ensures forall j :: 0 <= j < |After(s, steps).log| ==> ComesBackRight(After(s, steps).log, j)
  {
    hide Rendered, Shown, Torn, FlippedSoundly;
    RunKeeps(s, steps);
    var log := After(s, steps).log;
    forall j | 0 <= j < |log| ensures ComesBackRight(log, j) {
      assert ReturnedSoundly(log, j);
      if log[j].Returned? && log[j].req.mode == Fifo && Shown(log[..j], log[j].id, log[j].req.seqno) {
        ShownWasAsked(log, j, log[j].id, log[j].req.seqno);
      }
      if log[j].Returned? && Torn(log[..j], log[j].id, log[j].req.seqno) {
        TornWasAsked(log, j, log[j].id, log[j].req.seqno);
      }
    }
  }

  lemma TornWasAsked(log: seq<Mark>, j: nat, id: nat, n: nat)
    requires j <= |log| && Torn(log[..j], id, n)
    requires forall k :: 0 <= k < |log| ==> FlippedSoundly(log, k)
    ensures id < |Presents(log)| && Presents(log)[id].seqno != 0
  {
    hide Rendered;
    var b :| 0 <= b < j && TornAt(log[..j], b, id, n);
    assert log[b] == AtOnceAsked(id);
    assert FlippedSoundly(log, b);
  }

  lemma ShownWasAsked(log: seq<Mark>, j: nat, id: nat, n: nat)
    requires j <= |log| && Shown(log[..j], id, n)
    requires forall k :: 0 <= k < |log| ==> FlippedSoundly(log, k)
    ensures id < |Presents(log)| && Presents(log)[id].seqno != 0
  {
    hide Rendered;
    var c :| 0 <= c < j && ShownAt(log[..j], c, id, n);
    var pre := log[..j][..c];
    var b :| 0 <= b < |pre| && FlippingAt(pre, b, id, n);
    assert log[b] == FlipAsked(id);
    assert FlippedSoundly(log, b);
  }

  /** In every state reached without presenting to a full queue, every entry but the
      last is as it was presented, and what the flip thread waits for, the acquirer
      watches and the kernel points to is the last entry. */
  lemma OnlyTheLastEntryMoves(s: State, steps: seq<Step>)
    requires Initial(s) && Runs(s, steps) && NeverFull(s, steps)
    ensures var r := After(s, steps);
      && (forall k :: 0 < k < |r.queue| ==> !r.Entry(k).flipPending && r.Entry(k).seqno == r.Entry(k).req.seqno)
      && (forall k :: 0 <= k < |r.events| ==> r.queue != [] && r.events[k] == Flip(r.queue[0], r.Tail().id) && r.Tail().flipPending)
      && |r.events| <= 1
      && (r.flipper.Finished? ==> r.queue != [] && r.Tail().id == r.flipper.id && r.Tail().seqno == r.flipper.seqno)
      && (r.acquirer.Polling? ==> r.queue != [])
  {
    hide Rendered, Flipping, Shown, Torn, ReturnedSoundly, FlippedSoundly;
    RunKeeps(s, steps);
    var r := After(s, steps);
    forall k | 0 < k < |r.queue| ensures !r.Entry(k).flipPending && r.Entry(k).seqno == r.Entry(k).req.seqno {
      assert Untouched(r, k);
    }
  }

  /** The driver follows a null pointer if and only if an image is presented while
      two are queued. */
  lemma CrashesExactlyWhenFull(s: State, steps: seq<Step>)
    requires Initial(s) && Runs(s, steps)
    ensures After(s, steps).crashed <==> !NeverFull(s, steps)
  {
    RunKeeps(s, steps);
  }

  lemma OneStep(s: State, step: Step)
    requires Sized(s) && Enabled(s, step)
    ensures Runs(s, [step]) && After(s, [step]) == Next(s, step)
  {
    hide Next, Enabled;
    NextSized(s, step);
    assert [step][1..] == [];
  }

  /** A third image presented before the first is taken: a crash. */
  lemma ThirdPresentCrashes(s: State, a: Request, b: Request, c: Request)
    requires Initial(s)
    ensures var steps := [Present(a, 0), Present(b, 1), Present(c, 0)]; Runs(s, steps) && After(s, steps).crashed
  {
    var steps := [Present(a, 0), Present(b, 1), Present(c, 0)];
    var s1 := Next(s, steps[0]);
    var s2 := Next(s1, steps[1]);
    assert steps[1..] == [steps[1], steps[2]] && steps[1..][1..] == [steps[2]];
    OneStep(s2, steps[2]);
    assert Runs(s1, steps[1..]) && After(s1, steps[1..]).crashed;
  }

  // ------------------------------------------------- a flip that is refused

  /** The last entry waits for a flip of which the kernel owes no event: it refused
      the flip, and the driver did not look. */
  predicate Refused(s: State)
    requires Sized(s)
  {
    s.queue != [] && s.Tail().flipPending && s.events == []
  }

  /** No image comes back, whatever happens. */
  ghost predicate Blocked(s: State)
    requires Sized(s)
  {
    forall steps :: Runs(s, steps) ==> Returns(After(s, steps).log) == Returns(s.log)
  }

  /** These steps return the last entry's image and nothing else. */
  ghost predicate Brings(s: State, steps: seq<Step>)
    requires Sized(s) && s.queue != []
  {
    Runs(s, steps) && Returns(After(s, steps).log) == Returns(s.log) + [s.Tail().req]
  }

  ghost predicate CanReturn(s: State)
    requires Sized(s) && s.queue != []
  {
    exists steps :: Brings(s, steps)
  }

  lemma {:induction false} RefusedForever(s: State, steps: seq<Step>)
    requires Inv(s) && Refused(s) && !s.crashed && Runs(s, steps)
    ensures Returns(After(s, steps).log) == Returns(s.log)
    decreases |steps|
  {
    hide Rendered, Flipping, Shown, Torn, ReturnedSoundly, FlippedSoundly, Queued;
    if steps != [] {
      var t := Next(s, steps[0]);
      NextSized(s, steps[0]);
      NextKeeps(s, steps[0]);
      if steps[0].Present? && !t.crashed { LogGrows(s.log, Presented(steps[0].req)); }
      if t.crashed {
        assert t.log == s.log && steps[1..] == [];
      } else {
        assert Refused(t);
        RefusedForever(t, steps[1..]);
      }
    }
  }

  /** A step that leaves the last entry where it is can come first. */
  lemma StepFirst(s: State, step: Step)
    requires Sized(s) && Enabled(s, step) && s.queue != []
    requires var t := Next(s, step);
      Sized(t) && t.queue != [] && t.Tail().req == s.Tail().req && Returns(t.log) == Returns(s.log) && CanReturn(t)
    ensures CanReturn(s)
  {
    hide Returns, Next, Sized;
    var steps :| Brings(Next(s, step), steps);
    NextSized(s, step);
    assert ([step] + steps)[1..] == steps;
    assert Brings(s, [step] + steps);
  }

  lemma TakeReturns(s: State)
    requires Inv(s) && !s.crashed && s.queue != [] && s.acquirer == Polling(false, false)
    ensures CanReturn(s)
  {
    LogGrows(s.log, Returned(s.Tail().id, s.Tail().req));
    OneStep(s, AcquireTake);
    assert Brings(s, [AcquireTake]);
  }

  /** The entry is done: the acquirer looks and takes it. */
  lemma DoneReturns(s: State)
    requires Inv(s) && !s.crashed && s.queue != [] && s.Tail().seqno == 0 && !s.Tail().flipPending
    ensures CanReturn(s)
  {
    hide Rendered, Flipping, Shown, Torn, ReturnedSoundly, FlippedSoundly, Brings, CanReturn;
    if s.acquirer == Polling(false, false) {
      TakeReturns(s);
    } else {
      var step := if s.acquirer.Idle? then AcquireLook else AcquirePoll;
      NextKeeps(s, step);
      TakeReturns(Next(s, step));
      StepFirst(s, step);
    }
  }

  /** Its flip is under way: the event comes in. */
  lemma FlippingReturns(s: State)
    requires Inv(s) && !s.crashed && s.events != []
    ensures s.queue != [] && CanReturn(s)
  {
    hide Rendered, Flipping, Shown, Torn, ReturnedSoundly, FlippedSoundly, Brings, CanReturn;
    NextKeeps(s, Deliver(0));
    LogGrows(s.log, FlipDone(s.events[0].id));
    DoneReturns(Next(s, Deliver(0)));
    StepFirst(s, Deliver(0));
  }

  /** The GPU was seen to finish it: it is marked, and the kernel accepts its flip. */
  lemma FinishedReturns(s: State)
    requires Inv(s) && !s.crashed && s.flipper.Finished?
    ensures s.queue != [] && CanReturn(s)
  {
    hide Rendered, Flipping, Shown, Torn, ReturnedSoundly, FlippedSoundly, Brings, CanReturn;
    var t := Next(s, MarkDone(true));
    NextKeeps(s, MarkDone(true));
    if t.events != [] {
      LogGrows(s.log, FlipAsked(s.Tail().id));
      FlippingReturns(t);
    } else {
      LogGrows(s.log, AtOnceAsked(s.Tail().id));
      DoneReturns(t);
    }
    StepFirst(s, MarkDone(true));
  }

  /** The flip thread waits for it: the GPU gets that far. */
  lemma WaitingReturns(s: State)
    requires Inv(s) && !s.crashed && s.flipper.Waiting?
    ensures s.queue != [] && CanReturn(s)
  {
    hide Rendered, Flipping, Shown, Torn, ReturnedSoundly, FlippedSoundly, Brings, CanReturn;
    var n := s.flipper.seqno;
    var t := Next(s, Progress(n));
    NextKeeps(s, Progress(n));
    NextKeeps(t, WaitDone);
    LogGrows(t.log, GpuFinished(t.flipper.id, t.gpu));
    FinishedReturns(Next(t, WaitDone));
    StepFirst(t, WaitDone);
    StepFirst(s, Progress(n));
  }

  lemma UnlessRefused(s: State)
    requires Inv(s) && !s.crashed && s.queue != [] && !Refused(s)
    ensures CanReturn(s)
  {
    hide Rendered, Flipping, Shown, Torn, ReturnedSoundly, FlippedSoundly, Brings, CanReturn;
    if s.Tail().seqno == 0 && !s.Tail().flipPending {
      DoneReturns(s);
    } else if s.events != [] {
      FlippingReturns(s);
    } else if s.flipper.Finished? {
      FinishedReturns(s);
    } else if s.flipper.Waiting? {
      WaitingReturns(s);
    } else {
      NextKeeps(s, Look);
      WaitingReturns(Next(s, Look));
      StepFirst(s, Look);
    }
  }

  lemma BlockedOrReturns(s: State)
    requires Inv(s) && !s.crashed && s.queue != []
    ensures Blocked(s) <==> Refused(s)
    ensures CanReturn(s) <==> !Refused(s)
  {
    hide Refused;
    if Refused(s) {
      forall steps | Runs(s, steps) ensures Returns(After(s, steps).log) == Returns(s.log) { RefusedForever(s, steps); }
    } else {
      UnlessRefused(s);
      var steps :| Brings(s, steps);
      assert Runs(s, steps) && Returns(After(s, steps).log) != Returns(s.log);
    }
  }

  /** In every reachable state with images queued: if the last entry waits for a flip
      that is not outstanding, no image ever comes back; otherwise the last entry's
      image can still be the next to come back. */
  lemma BlockedExactlyWhenRefused(s: State, steps: seq<Step>)
    requires Initial(s) && Runs(s, steps) && NeverFull(s, steps) && After(s, steps).queue != []
    ensures Blocked(After(s, steps)) <==> Refused(After(s, steps))
    ensures CanReturn(After(s, steps)) <==> !Refused(After(s, steps))
  {
    hide Blocked, CanReturn, Refused;
    RunKeeps(s, steps);
    BlockedOrReturns(After(s, steps));
  }

  /** It comes to that as soon as the kernel refuses one flip. */
  lemma RefusedOnce(s: State)
    requires Initial(s)
    ensures var steps := [Present(Request(1, 1, Fifo, 1), 0), Look, Progress(1), WaitDone, MarkDone(false)];
      Runs(s, steps) && !After(s, steps).crashed && Refused(After(s, steps)) && Blocked(After(s, steps))
  {
    hide Blocked;
    var req := Request(1, 1, Fifo, 1);
    var s1 := Next(s, Present(req, 0));
    var s2 := Next(s1, Look);
    var s3 := Next(s2, Progress(1));
    var s4 := Next(s3, WaitDone);
    var s5 := Next(s4, MarkDone(false));
    var steps := [Present(req, 0), Look, Progress(1), WaitDone, MarkDone(false)];
    FiveSteps(s, steps, s1, s2, s3, s4, s5);
    RunKeeps(s, steps);
    BlockedOrReturns(s5);
  }

  lemma FiveSteps(s: State, steps: seq<Step>, s1: State, s2: State, s3: State, s4: State, s5: State)
    requires Sized(s) && |steps| == 5 && Enabled(s, steps[0]) && s1 == Next(s, steps[0])
    requires Sized(s1) && Enabled(s1, steps[1]) && s2 == Next(s1, steps[1])
    requires Sized(s2) && Enabled(s2, steps[2]) && s3 == Next(s2, steps[2])
    requires Sized(s3) && Enabled(s3, steps[3]) && s4 == Next(s3, steps[3])
    requires Sized(s4) && Enabled(s4, steps[4]) && s5 == Next(s4, steps[4])
    ensures Runs(s, steps) && After(s, steps) == s5
  {
    hide Next, Enabled, Sized;
    OneStep(s4, steps[4]);
    assert steps[4..] == [steps[4]];
    assert After(s3, steps[3..]) == s5 && Runs(s3, steps[3..]) by { assert steps[3..][1..] == steps[4..]; }
    assert After(s2, steps[2..]) == s5 && Runs(s2, steps[2..]) by { assert steps[2..][1..] == steps[3..]; }
    assert After(s1, steps[1..]) == s5 && Runs(s1, steps[1..]) by { assert steps[1..][1..] == steps[2..]; }
  }
}
