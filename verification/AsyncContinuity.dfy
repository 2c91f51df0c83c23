/**
 Frames across the clock domains without a gap. A memory of two words is slow
 enough for the output FIFO: its words cannot follow a frame closely, because
 the read pointer and the commit pointer take their time to cross.
 */
module AsyncContinuity {
  import opened Words
  import opened Streams
  import opened AsyncFifo
  import W = FifoWrite
  import R = FifoRead
  import F = FifoFrames
  import G = FifoGap

  /** The parameters for which the output FIFO never breaks off a frame. */
  predicate Seamless(c: Config) { !c.outputFifo || c.ramPipeline != 1 || c.addrWidth <= 1 }

  /** One pipeline register in front of the output FIFO, and a memory of two words. */
  predicate Slow(c: Config) {
    c.Valid() && c.dropOversize && c.outputFifo && c.ramPipeline == 1 && c.addrWidth == 1
  }

  /** The next frame to be read has two words and is on its way to the reader. */
  predicate Waiting(f: Fifo) {
    f.read.rd + 1 < f.published <= |f.run.w.log| && !f.run.w.log[f.read.rd].last
  }

  /**
   While such a frame crosses, the pipeline empties stage by stage; when the
   reader learns of it, the half-full flag is up to date.
   */
  ghost predicate PatientlyWaits(f: Fifo) {
    var r := f.read;
    && |r.pipe| == 2
    && (Waiting(f) ==>
         && (f.sync1 == f.update ==> r.pipe[0].None?)
         && (f.sync2 == f.update ==> r.pipe[0].None? && r.pipe[1].None?)
         && (r.rd + 1 < f.seen ==> r.pipe[0].None? && r.pipe[1].None? && (|r.fifo| >= 4 ==> r.halfFull)))
  }

  /** So the flag does not rise between its two words. */
  ghost predicate Patient(f: Fifo) {
    && PatientlyWaits(f)
    && (f.read.rd < f.seen && G.Continues(f.run.w.log, f.read.rd) ==> !f.read.halfFull)
  }

  lemma HalfIsFour(c: Config)
    requires c.ramPipeline == 1
    ensures R.Half(c) == 4
  {
    assert Pow2(2) == 2 * Pow2(1) && Pow2(1) == 2 * Pow2(0);
  }

  /** An edge of the read clock, as far as Patient speaks of it. */
  lemma ReadEdge(c: Config, f: Fifo, t: Tick)
    requires Slow(c) && CommitInv(c, f) && t.mEdge
    ensures var r, r' := f.read, ReadAfter(c, f, t);
      && |r.pipe| == |r'.pipe| == 2 && r.rd <= f.seen
      && r'.halfFull == (|r.fifo| >= 4)
      && (r.rd < f.seen && !r.halfFull <==> r'.rd == r.rd + 1)
      && (r'.rd == r.rd + 1 || (r'.rd == r.rd && r'.pipe[0].None?))
      && r'.pipe[1] == r.pipe[0]
      && (r.pipe[1].None? ==> |r'.fifo| <= |r.fifo|)
  {
    hide R.Half, R.Advance;
    HalfIsFour(c);
    G.Moves(c, f.read, f.run.w.log, f.seen, t.ready);
  }

  /** The flag does not rise between the two words of a frame. */
  lemma Undisturbed(c: Config, f: Fifo, t: Tick)
    requires Slow(c) && CommitInv(c, f) && BoundaryInv(c, f) && Patient(f)
    ensures var r' := ReadAfter(c, f, t);
      r'.rd < f.seen && G.Continues(f.run.w.log, r'.rd) ==> !r'.halfFull
  {
    hide R.Step, R.ReadInv;
    Bounds(c, f);
    if t.mEdge { ReadEdge(c, f, t); }
  }

  /** No more than two words are stored behind what has been read. */
  lemma TwoAhead(c: Config, f: Fifo, t: Tick)
    requires Slow(c) && CommitInv(c, f)
    ensures var f' := Step(c, f, t);
      && f'.published <= f'.run.w.commit <= |f'.run.w.log| <= f.read.rd + 2
      && f.seen <= f'.seen <= f'.published
      && f.seen <= f.published <= f.run.w.commit <= |f.run.w.log|
      && f.run.w.commit <= f'.run.w.commit
      && f'.run.w.log[..f.run.w.commit] == f.run.w.log[..f.run.w.commit]
  {
    hide W.RunStep, R.Step, R.ReadInv;
    Bounds(c, f);
    LogGrows(c, f, t);
    RingStep(c, f, t);
    assert Pow2(1) == 2;
  }

  /** The commit pointer does not go out at this edge: the frame was waiting before. */
  lemma KeepsWaiting(c: Config, f: Fifo, t: Tick)
    requires Slow(c) && CommitInv(c, f) && BoundaryInv(c, f) && Patient(f) && !Publishes(c, f, t)
    ensures PatientlyWaits(Step(c, f, t))
  {
    hide W.RunStep, R.Step, R.ReadInv, CommitInv, BoundaryInv;
    Bounds(c, f);
    TwoAhead(c, f, t);
    Ring(c, f);
    if t.mEdge { ReadEdge(c, f, t); }
    if f.read.rd < f.run.w.commit { SameWord(c, f, t, f.read.rd); }
  }

  /** It does: the chain was idle, and none of its flops has seen the new turn, unless at this edge. */
  lemma StartsWaiting(c: Config, f: Fifo, t: Tick)
    requires Slow(c) && CommitInv(c, f) && BoundaryInv(c, f) && Patient(f) && Publishes(c, f, t)
    ensures PatientlyWaits(Step(c, f, t))
  {
    hide W.RunStep, R.Step, R.ReadInv, CommitInv, BoundaryInv;
    Bounds(c, f);
    TwoAhead(c, f, t);
    Ring(c, f);
    if t.mEdge { ReadEdge(c, f, t); }
    if f.read.rd < f.run.w.commit { SameWord(c, f, t, f.read.rd); }
  }

  lemma Ring(c: Config, f: Fifo)
    requires Slow(c) && CommitInv(c, f) && BoundaryInv(c, f)
    ensures Turns(f) <= 1 && Boundary(f.run.w.log, f.seen)
  {
  }

  lemma SameWord(c: Config, f: Fifo, t: Tick, n: nat)
    requires Slow(c) && CommitInv(c, f) && n < f.run.w.commit
    ensures n < f.run.w.commit <= |f.run.w.log| && n < |Step(c, f, t).run.w.log|
    ensures Step(c, f, t).run.w.log[n] == f.run.w.log[n]
  {
    hide W.RunStep, R.Step, R.ReadInv;
    Bounds(c, f);
    TwoAhead(c, f, t);
    var log, log', k := f.run.w.log, Step(c, f, t).run.w.log, f.run.w.commit;
    assert log'[..k][n] == log[..k][n];
  }

  lemma PatientStep(c: Config, f: Fifo, t: Tick)
    requires Slow(c) && CommitInv(c, f) && BoundaryInv(c, f) && Patient(f)
    ensures Patient(Step(c, f, t))
  {
    hide W.RunStep, R.Step, R.ReadInv, CommitInv, BoundaryInv, PatientlyWaits;
    Bounds(c, f);
    if Publishes(c, f, t) { StartsWaiting(c, f, t); } else { KeepsWaiting(c, f, t); }
    Undisturbed(c, f, t);
    TwoAhead(c, f, t);
    Ring(c, f);
    StepParts(c, f, t);
    NewFrame(c, f, t);
  }

  /** Words that have just become readable start a frame. */
  lemma NewFrame(c: Config, f: Fifo, t: Tick)
    requires Slow(c) && CommitInv(c, f) && BoundaryInv(c, f)
    ensures var f' := Step(c, f, t);
      && f'.read.rd <= f.seen
      && (G.Continues(f'.run.w.log, f'.read.rd) ==>
           f'.read.rd < f.seen && G.Continues(f.run.w.log, f'.read.rd))
  {
    hide W.RunStep, R.Step, R.ReadInv;
    Bounds(c, f);
    TwoAhead(c, f, t);
    ReadMoves(c, f, t);
    ReadWithin(c, f, t);
    var n := Step(c, f, t).read.rd;
    if 0 < n <= f.run.w.commit { SameWord(c, f, t, n - 1); }
  }

  lemma ReadWithin(c: Config, f: Fifo, t: Tick)
    requires Slow(c) && CommitInv(c, f)
    ensures ReadAfter(c, f, t).rd <= f.seen
  {
    hide R.Step;
    Bounds(c, f);
    ReadMoves(c, f, t);
  }

  // ------------------------------------------------------------- all runs

  ghost predicate FlowInv(c: Config, f: Fifo) {
    && CommitInv(c, f) && BoundaryInv(c, f)
    && G.Gapless(c, f.read, f.run.w.log, f.seen)
    && (Slow(c) ==> Patient(f))
  }

  lemma Lasting(c: Config, f: Fifo, t: Tick)
    requires c.Valid() && c.dropOversize && c.outputFifo && Seamless(c) && FlowInv(c, f)
    ensures G.Outlasts(ReadAfter(c, f, t), f.run.w.log, f.seen)
  {
    hide R.Step, R.ReadInv, Patient, G.Covered, RingInv;
    Bounds(c, f);
    if !t.mEdge {
      StillOutlasts(c, f);
    } else if c.ramPipeline != 1 {
      G.DeepExactly(c);
      G.DeepOutlasts(c, f.read, f.run.w.log, f.seen, t.ready);
    } else if c.addrWidth == 0 {
      F.SingleWords(c, f.run);
      G.SingleOutlasts(ReadAfter(c, f, t), f.run.w.log, f.seen);
    } else {
      Undisturbed(c, f, t);
    }
  }

  lemma StillOutlasts(c: Config, f: Fifo)
    requires c.outputFifo && G.Gapless(c, f.read, f.run.w.log, f.seen)
    ensures G.Outlasts(f.read, f.run.w.log, f.seen)
  {
  }

  lemma GaplessRead(c: Config, f: Fifo, t: Tick)
    requires c.Valid() && c.dropOversize && Seamless(c) && FlowInv(c, f)
    ensures G.Gapless(c, ReadAfter(c, f, t), f.run.w.log, f.seen)
  {
    hide G.Gapless, G.Outlasts, R.Step, Patient;
    if t.mEdge {
      if c.outputFifo { Lasting(c, f, t); }
      G.GaplessStep(c, f.read, f.run.w.log, f.seen, t.ready);
    }
  }

  lemma GaplessKept(c: Config, f: Fifo, t: Tick)
    requires c.Valid() && c.dropOversize && Seamless(c) && FlowInv(c, f) && BoundaryInv(c, Step(c, f, t))
    ensures var f' := Step(c, f, t); G.Gapless(c, f'.read, f'.run.w.log, f'.seen)
  {
    hide G.Gapless, Step, RunAfter, ReadAfter, RingInv, R.ReadInv, Patient, Slow;
    Bounds(c, f);
    FrameStep(c, f, t);
    var f' := Step(c, f, t);
    Bounds(c, f');
    StepParts(c, f, t);
    LogGrows(c, f, t);
    GaplessRead(c, f, t);
    RingStep(c, f, t);
    assert f'.run.w.log[..f.seen] == f'.run.w.log[..f.run.w.commit][..f.seen] == f.run.w.log[..f.seen];
    G.GaplessStable(c, f'.read, f.run.w.log, f.seen, f'.run.w.log, f'.seen);
  }

  lemma FlowStep(c: Config, f: Fifo, t: Tick)
    requires c.Valid() && c.dropOversize && Seamless(c) && FlowInv(c, f)
    ensures FlowInv(c, Step(c, f, t))
  {
    hide G.Gapless, Step, CommitInv, BoundaryInv, Patient;
    FrameStep(c, f, t);
    BoundaryStep(c, f, t);
    GaplessKept(c, f, t);
    if Slow(c) { PatientStep(c, f, t); }
  }

  lemma FlowStarts(c: Config)
    requires c.Valid() && c.dropOversize
    ensures FlowInv(c, Init(c))
  {
    G.GaplessInit(c);
    R.InitInv(c);
  }

  lemma {:induction false} RunFlows(c: Config, ts: seq<Tick>)
    requires c.Valid() && c.dropOversize && Seamless(c)
    ensures FlowInv(c, Execute(c, ts))
  {
    hide FlowInv, Step;
    if ts == [] {
      FlowStarts(c);
    } else {
      RunFlows(c, ts[..|ts| - 1]);
      FlowStep(c, Execute(c, ts[..|ts| - 1]), ts[|ts| - 1]);
    }
  }

  /** An offer at the end of the run is followed by another, unless it ends its frame and is taken. */
  predicate NoGap(c: Config, ts: seq<Tick>, t: Tick)
    requires c.Valid()
  {
    var o := R.Offer(c, Execute(c, ts).read);
    o.Some? && !(t.mEdge && t.ready && o.value.last) ==> R.Offer(c, Execute(c, ts + [t]).read).Some?
  }

  /** Once valid rises for a frame it stays high until the frame's last word transfers. */
  ghost predicate Continuous(c: Config)
    requires c.Valid()
  {
    forall ts, t :: NoGap(c, ts, t)
  }

  /** Once a frame is offered it is delivered without a gap, on every interleaving of the clocks. */
  lemma FrameContinuity(c: Config, ts: seq<Tick>, t: Tick)
    requires c.Valid() && c.dropOversize && Seamless(c)
    ensures NoGap(c, ts, t)
  {
    hide Patient, CommitInv, BoundaryInv, R.Step;
    var f := Execute(c, ts);
    assert (ts + [t])[..|ts|] == ts;
    RunFlows(c, ts);
    var o := R.Offer(c, f.read);
    if t.mEdge && o.Some? && !(t.ready && o.value.last) {
      G.GaplessContinuity(c, f.read, f.run.w.log, f.seen, t.ready);
    }
  }
}
