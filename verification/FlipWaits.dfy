/** What the flip thread remembers of the seqnos it has waited for: vc4_seqno_wait of
    driver/kernelInterface.c, over all runs of the protocol. */
module FlipWaits {
  import opened FlipProtocol

  /** Mark j says that the GPU was seen to finish a request with this seqno. */
  ghost predicate Finished(log: seq<Mark>, j: nat, seqno: nat)
    requires j < |log|
  {
    log[j].GpuFinished? && log[j].id < |Presents(log)| && Presents(log)[log[j].id].seqno == seqno && seqno <= log[j].upTo
  }

  /** Every wait that succeeded was for a request's seqno not above last, and last is one
      of those, if there are any. */
  ghost predicate Remembered(log: seq<Mark>, last: nat) {
    && (forall j :: 0 <= j < |log| && log[j].GpuFinished? ==> exists n: nat :: n <= last && Finished(log, j, n))
    && (last != 0 ==> exists j :: 0 <= j < |log| && Finished(log, j, last))
  }

  lemma FinishedGrows(log: seq<Mark>, m: Mark, j: nat, n: nat)
    requires j < |log| && Finished(log, j, n)
    ensures Finished(log + [m], j, n)
  {
    LogGrows(log, m);
  }

  /** A mark of another kind changes nothing. */
  lemma OtherMark(log: seq<Mark>, m: Mark, last: nat)
    requires Remembered(log, last) && !m.GpuFinished?
    ensures Remembered(log + [m], last)
  {
    hide Finished;
    forall j | 0 <= j < |log + [m]| && (log + [m])[j].GpuFinished? ensures exists n: nat :: n <= last && Finished(log + [m], j, n) {
      var n: nat :| n <= last && Finished(log, j, n);
      FinishedGrows(log, m, j, n);
    }
    if last != 0 {
      var j :| 0 <= j < |log| && Finished(log, j, last);
      FinishedGrows(log, m, j, last);
    }
  }

  /** A wait for seqno n that succeeds. */
  lemma WaitMark(log: seq<Mark>, m: Mark, last: nat, n: nat, next: nat)
    requires Remembered(log, last) && m.GpuFinished? && m.id < |Presents(log)| && Presents(log)[m.id].seqno == n <= m.upTo
    requires next == if n <= last then last else n
    ensures Remembered(log + [m], next)
  {
    LogGrows(log, m);
    var r := log + [m];
    assert Finished(r, |log|, n);
    hide Finished;
    forall j | 0 <= j < |r| && r[j].GpuFinished? ensures exists k: nat :: k <= next && Finished(r, j, k) {
      if j < |log| {
        var k: nat :| k <= last && Finished(log, j, k);
        FinishedGrows(log, m, j, k);
      }
    }
    if next == last && last != 0 {
      var j :| 0 <= j < |log| && Finished(log, j, last);
      FinishedGrows(log, m, j, last);
    }
  }

  lemma NextRemembers(s: State, step: Step)
    requires Inv(s) && Enabled(s, step) && !Next(s, step).crashed && Remembered(s.log, s.lastFinished)
    ensures Remembered(Next(s, step).log, Next(s, step).lastFinished)
  {
    hide Remembered, Rendered, Flipping, Shown, Torn, ReturnedSoundly, FlippedSoundly;
    var r := Next(s, step);
    if step.WaitDone? {
      assert Untouched(s, 0);
      WaitMark(s.log, GpuFinished(s.flipper.id, s.gpu), s.lastFinished, s.flipper.seqno, r.lastFinished);
    } else if r.log != s.log {
      OtherMark(s.log, r.log[|s.log|], s.lastFinished);
    }
  }

  lemma {:induction false} RunRemembers(s: State, steps: seq<Step>)
    requires Inv(s) && !s.crashed && Runs(s, steps) && NeverFull(s, steps) && Remembered(s.log, s.lastFinished)
    ensures Remembered(After(s, steps).log, After(s, steps).lastFinished)
    decreases |steps|
  {
    hide Next, Remembered, Enabled, Queued, Waits, TailSound, ReturnedSoundly, FlippedSoundly;
    if steps != [] {
      NextSized(s, steps[0]);
      NextKeeps(s, steps[0]);
      NextRemembers(s, steps[0]);
      RunRemembers(Next(s, steps[0]), steps[1..]);
    }
  }

  /** In every run the flip thread's lastFinishedSeqno is the highest seqno it has waited
      for with success, and 0 before the first: it never spares a wait that was
      not already over. */
  lemma LastFinishedIsHighest(s: State, steps: seq<Step>)
    requires Initial(s) && Runs(s, steps) && NeverFull(s, steps)
    ensures Remembered(After(s, steps).log, After(s, steps).lastFinished)
    ensures After(s, steps).lastFinished <= After(s, steps).gpu
  {
    hide Remembered, Rendered, Flipping, Shown, Torn, ReturnedSoundly, FlippedSoundly, Waits, TailSound;
    assert Remembered(s.log, 0) by { NothingRemembered(); }
    assert Inv(s) by { StartHolds(s); }
    RunRemembers(s, steps);
    RunKeeps(s, steps);
  }

  lemma NothingRemembered()
    ensures Remembered([], 0)
  {
  }

  lemma StartHolds(s: State)
    requires Initial(s)
    ensures Inv(s)
  {
  }
}
