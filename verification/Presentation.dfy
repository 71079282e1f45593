/** One application that acquires and presents the images of one swapchain in turn
    (driver/wsi.c), on top of the flip protocol. */
module Presentation {
  import opened Arithmetic
  import opened Seqs
  import opened Swapchain
  import P = FlipProtocol

  /** An application that acquires and presents in turn: what it does next. */
  datatype App = MustAcquire | Acquiring | MustPresent(index: nat)

  /** One swapchain with distinct image addresses on the flip protocol. */
  datatype System = System(flip: P.State, inFlight: seq<bool>, backbuffer: nat, app: App)

  datatype Chain = Chain(images: seq<nat>, surface: nat, mode: P.Mode)

  predicate ValidChain(c: Chain) {
    c.images != [] && forall i, j :: 0 <= i < j < |c.images| ==> c.images[i] != c.images[j]
  }

  predicate Shaped(c: Chain, s: System) {
    && P.Sized(s.flip) && |s.inFlight| == |c.images| && s.backbuffer < |c.images|
    && (s.app.MustPresent? ==> s.app.index < |c.images|)
  }

  /** May the step be taken now? The application presents the image it was given,
      with whatever seqno. */
  predicate Allowed(c: Chain, s: System, step: P.Step) {
    && P.Enabled(s.flip, step)
    && match step
       case AcquireLook => s.app.MustAcquire?
       case AcquirePoll => s.app.Acquiring?
       case AcquireTake => s.app.Acquiring?
       case Present(req, slot) => s.app.MustPresent? && s.app.index < |c.images|
         && req == P.Request(c.images[s.app.index], c.surface, c.mode, req.seqno)
       case _ => true
  }

  /** vkAcquireNextImageKHR behind modeset_acquire_image. */
  function Acquired(c: Chain, s: System, flip: P.State, image: Option<nat>): (r: System)
    requires ValidChain(c) && Shaped(c, s)
  {
    var f := Cleared(c.images, s.inFlight, image);
    System(flip, f, Choose(f, s.backbuffer), MustPresent(Choose(f, s.backbuffer)))
  }

  function Next(c: Chain, s: System, step: P.Step): (r: System)
    requires ValidChain(c) && Shaped(c, s) && Allowed(c, s, step)
  {
    var t := P.Next(s.flip, step);
    match step
    case AcquireLook => if t.acquirer.Idle? then Acquired(c, s, t, None) else s.(flip := t, app := Acquiring)
    case AcquireTake =>
      if s.flip.queue == [] then s.(flip := t)
      else
        var req := s.flip.Tail().req;
        Acquired(c, s, t, if req.surface == c.surface then Some(req.image) else None)
    case Present(req, slot) => s.(flip := t, inFlight := s.inFlight[s.app.index := true], app := MustAcquire)
    case _ => s.(flip := t)
  }

  /** Image k is queued. */
  ghost predicate InQueue(c: Chain, s: System, k: nat)
    requires Shaped(c, s) && k < |c.images|
  {
    exists j :: 0 <= j < |s.flip.queue| && s.flip.Entry(j).req.image == c.images[k]
  }

  /** Between calls the flags say what is queued, at most one image is queued, and
      the application holds an image that is not. */
  ghost predicate Inv(c: Chain, s: System) {
    && ValidChain(c) && Shaped(c, s) && P.Inv(s.flip) && !s.flip.crashed
    && (forall k :: 0 <= k < |c.images| ==> (s.inFlight[k] <==> InQueue(c, s, k)))
    && (forall j :: 0 <= j < |s.flip.queue| ==> s.flip.Entry(j).req.surface == c.surface && s.flip.Entry(j).req.image in c.images)
    && (s.app.Acquiring? <==> s.flip.acquirer.Polling?)
    && |s.flip.queue| <= 1 && (s.app.MustPresent? ==> s.flip.queue == [])
    && (s.app.MustPresent? ==> !s.inFlight[s.app.index] && s.app.index == s.backbuffer)
    && (s.flip.queue != [] ==> s.flip.Entry(0).req.image == c.images[s.backbuffer])
  }

  lemma InQueueSame(c: Chain, s: System, t: System)
    requires Shaped(c, s) && Shaped(c, t) && s.flip.queue == t.flip.queue
    requires forall j :: 0 <= j < |s.flip.queue| ==> s.flip.Entry(j).req == t.flip.Entry(j).req
    ensures forall k :: 0 <= k < |c.images| ==> (InQueue(c, s, k) <==> InQueue(c, t, k))
  {
  }

  lemma PresentKeeps(c: Chain, s: System, step: P.Step)
    requires Inv(c, s) && Allowed(c, s, step) && step.Present?
    ensures Inv(c, Next(c, s, step))
  {
    hide P.Queued, P.Waits, P.TailSound, P.ReturnedSoundly, P.FlippedSoundly;
    P.NextKeeps(s.flip, step);
    var t, i := Next(c, s, step), s.app.index;
    assert t.flip.queue == [step.slot] && t.flip.Entry(0).req.image == c.images[i];
    forall k | 0 <= k < |c.images| ensures t.inFlight[k] <==> InQueue(c, t, k) {
      assert !InQueue(c, s, k);
      if k == i { assert t.flip.Entry(0).req.image == c.images[k]; }
    }
  }

  lemma AcquireKeeps(c: Chain, s: System, step: P.Step)
    requires Inv(c, s) && Allowed(c, s, step) && (step.AcquireTake? || step.AcquireLook?)
    ensures Inv(c, Next(c, s, step))
  {
    hide P.Queued, P.TailSound, P.ReturnedSoundly, P.FlippedSoundly;
    P.NextKeeps(s.flip, step);
    var t := Next(c, s, step);
    if t.app.MustPresent? {
      assert t.flip.queue == [];
      forall k | 0 <= k < |c.images| ensures !t.inFlight[k] {
        if step.AcquireTake? {
          var req := s.flip.Tail().req;
          assert req == s.flip.Entry(0).req;
          assert s.inFlight[k] ==> c.images[k] == req.image;
        } else {
          assert !InQueue(c, s, k);
        }
      }
      ChooseSound(t.inFlight, s.backbuffer);
    } else {
      InQueueSame(c, s, t);
    }
  }

  lemma OtherKeeps(c: Chain, s: System, step: P.Step)
    requires Inv(c, s) && Allowed(c, s, step) && !step.Present? && !step.AcquireTake? && !step.AcquireLook?
    ensures Inv(c, Next(c, s, step))
  {
    hide P.Inv, InQueue;
    P.NextKeeps(s.flip, step);
    var t := Next(c, s, step);
    InQueueSame(c, s, t);
  }

  lemma NextKeeps(c: Chain, s: System, step: P.Step)
    requires Inv(c, s) && Allowed(c, s, step)
    ensures Inv(c, Next(c, s, step))
  {
    hide Inv, Next, Allowed;
    if step.Present? {
      PresentKeeps(c, s, step);
    } else if step.AcquireTake? || step.AcquireLook? {
      AcquireKeeps(c, s, step);
    } else {
      OtherKeeps(c, s, step);
    }
  }

  predicate Initial(c: Chain, s: System) {
    && ValidChain(c) && P.Initial(s.flip) && s.app == MustAcquire
    && |s.inFlight| == |c.images| && (forall k :: 0 <= k < |s.inFlight| ==> !s.inFlight[k]) && s.backbuffer == 0
  }

  /** Every step can be taken in its turn; the environment's are anywhere. */
  predicate Runs(c: Chain, s: System, steps: seq<P.Step>)
    requires ValidChain(c) && Shaped(c, s)
    decreases |steps|
  {
    steps == [] || (Allowed(c, s, steps[0]) && (NextShaped(c, s, steps[0]); Runs(c, Next(c, s, steps[0]), steps[1..])))
  }

  lemma NextShaped(c: Chain, s: System, step: P.Step)
    requires ValidChain(c) && Shaped(c, s) && Allowed(c, s, step)
    ensures Shaped(c, Next(c, s, step))
  {
    P.NextSized(s.flip, step);
  }

  function After(c: Chain, s: System, steps: seq<P.Step>): (r: System)
    requires ValidChain(c) && Shaped(c, s) && Runs(c, s, steps)
    ensures Shaped(c, r)
    decreases |steps|
  {
    if steps == [] then s else NextShaped(c, s, steps[0]); After(c, Next(c, s, steps[0]), steps[1..])
  }

  lemma {:induction false} RunKeeps(c: Chain, s: System, steps: seq<P.Step>)
    requires Inv(c, s) && Runs(c, s, steps)
    ensures Inv(c, After(c, s, steps))
    decreases |steps|
  {
    hide Allowed, Next, InQueue, P.Inv;
    if steps != [] {
      NextShaped(c, s, steps[0]);
      NextKeeps(c, s, steps[0]);
      RunKeeps(c, Next(c, s, steps[0]), steps[1..]);
    }
  }

  /** An application that acquires and presents in turn, however the flip thread,
      the GPU and the kernel interleave: the flags say exactly which images are
      queued, the image it holds is not in flight, and the queue never overflows. */
  lemma FlagsSayWhatIsQueued(c: Chain, s: System, steps: seq<P.Step>)
    requires Initial(c, s) && Runs(c, s, steps)
    ensures var r := After(c, s, steps);
      && (forall k :: 0 <= k < |c.images| ==> (r.inFlight[k] <==> InQueue(c, r, k)))
      && (r.app.MustPresent? ==> !r.inFlight[r.app.index])
      && |r.flip.queue| < P.FLIP_FIFO_SIZE && !r.flip.crashed
  {
    hide P.Queued, P.Waits, P.TailSound, P.ReturnedSoundly, P.FlippedSoundly, Runs, After;
    assert P.Inv(s.flip) by { InitialHolds(s.flip); }
    forall k | 0 <= k < |c.images| ensures !InQueue(c, s, k) { }
    RunKeeps(c, s, steps);
  }

  /** The image an acquire hands out is the next one, and not the one taken back
      unless there is only one. */
  lemma TurnAbout(c: Chain, s: System, step: P.Step)
    requires Inv(c, s) && Allowed(c, s, step) && Inv(c, Next(c, s, step))
    requires !s.app.MustPresent? && Next(c, s, step).app.MustPresent?
    ensures Next(c, s, step).app.index == (s.backbuffer + 1) % |c.images|
    ensures step.AcquireTake? ==> s.flip.Tail().req.image == c.images[s.backbuffer]
    ensures step.AcquireTake? && |c.images| > 1 ==> c.images[Next(c, s, step).app.index] != s.flip.Tail().req.image
  {
    hide P.Inv, P.Next, InQueue, Cleared, Choose;
    var n, t := |c.images|, Next(c, s, step);
    NothingQueued(c, t);
    var next := Around(s.backbuffer, 1, n);
    ChooseNearest(t.inFlight, s.backbuffer, next);
    StepsIsModulo(s.backbuffer, next, n);
    StepsIsModulo(s.backbuffer, t.app.index, n);
    AroundModulo(s.backbuffer, 1, n);
  }

  lemma NothingQueued(c: Chain, s: System)
    requires Inv(c, s) && s.flip.queue == []
    ensures forall k :: 0 <= k < |c.images| ==> !s.inFlight[k]
  {
    forall k | 0 <= k < |c.images| ensures !InQueue(c, s, k) { }
  }

  /** The images the application presents, in the order of its presents. */
  function Presented(steps: seq<P.Step>): (images: seq<nat>) {
    if steps == [] then []
    else (if steps[0].Present? then [steps[0].req.image] else []) + Presented(steps[1..])
  }

  /** How far the next image presented is behind the one handed out last. */
  function Ahead(s: System): (d: nat) { if s.app.MustPresent? then 0 else 1 }

  lemma {:induction false} TurnsFrom(c: Chain, s: System, steps: seq<P.Step>, k: nat)
    requires Inv(c, s) && Runs(c, s, steps) && k < |Presented(steps)|
    ensures Presented(steps)[k] == c.images[(s.backbuffer + Ahead(s) + k) % |c.images|]
    decreases |steps|
  {
    hide InQueue, P.Inv, P.Next, Cleared, Choose;
    var n, step := |c.images|, steps[0];
    NextShaped(c, s, step);
    NextKeeps(c, s, step);
    var t := Next(c, s, step);
    if step.Present? {
      if k == 0 {
        AroundModulo(s.backbuffer, 0, n);
      } else {
        TurnsFrom(c, t, steps[1..], k - 1);
      }
    } else {
      TurnsFrom(c, t, steps[1..], k);
      if t.app.MustPresent? && !s.app.MustPresent? {
        TurnAbout(c, s, step);
        ModuloAgain(s.backbuffer + 1, k, n);
      }
    }
  }

  /** The application presents the images strictly in turn, from the second one on,
      however the flip thread, the GPU and the kernel interleave: none is passed
      over, and with two or more images none is shown twice in a row. */
  lemma ImagesTakeTurns(c: Chain, s: System, steps: seq<P.Step>, k: nat)
    requires Initial(c, s) && Runs(c, s, steps) && k < |Presented(steps)|
    ensures Presented(steps)[k] == c.images[(k + 1) % |c.images|]
  {
    hide P.Queued, P.Waits, P.TailSound, P.ReturnedSoundly, P.FlippedSoundly, Runs, Presented;
    InitialHolds(s.flip);
    forall j | 0 <= j < |c.images| ensures !InQueue(c, s, j) { }
    TurnsFrom(c, s, steps, k);
  }

  lemma InitialHolds(s: P.State)
    requires P.Initial(s)
    ensures P.Inv(s)
  {
  }
}
