/**
 The single-clock FIFO as a state machine over unbounded counters, and its
 run-wide properties in every mode.
 */
module SyncFifo {
  import opened Streams
  import W = FifoWrite
  import R = FifoRead
  import F = FifoFrames
  import M = FifoMark
  import B = FifoHold
  import G = FifoGap

  datatype Fifo = Fifo(run: W.Run, read: R.Read)

  /** The input pins at one clock edge. */
  datatype Tick = Tick(valid: bool, beat: Beat, ready: bool)

  function Init(c: Config): Fifo { Fifo(W.START, R.Init(c)) }

  predicate Full(c: Config, f: Fifo) { |f.run.w.log| == f.read.rd + c.Depth() }

  predicate Ready(c: Config, f: Fifo) { W.Ready(c, f.run.w, Full(c, f)) }

  ghost predicate Inv(c: Config, f: Fifo) {
    && f.run.w.commit <= |f.run.w.log| <= f.read.rd + c.Depth()
    && R.ReadInv(c, f.read, f.run.w.log, f.run.w.commit)
    && (!c.frameFifo ==> f.run.w.commit == |f.run.w.log|)
  }

  function Step(c: Config, f: Fifo, t: Tick): Fifo
    requires f.run.w.commit <= |f.run.w.log| && f.read.pipe != []
  {
    Fifo(W.RunStep(c, f.run, W.Input(Full(c, f), t.valid, t.beat)),
         R.Step(c, f.read, f.run.w.log, f.run.w.commit, t.ready))
  }

  lemma GrownPrefix(w: W.Write, w': W.Write, full: bool)
    requires W.Grows(w, w', full)
    ensures w'.log[..w.commit] == w.log[..w.commit]
  {
  }

  lemma StepInv(c: Config, f: Fifo, t: Tick)
    requires c.Valid() && Inv(c, f)
    ensures Inv(c, Step(c, f, t))
  {
    var w, w' := f.run.w, Step(c, f, t).run.w;
    var read' := Step(c, f, t).read;
    W.StepGrows(c, w, Full(c, f), t.valid, t.beat);
    R.ReadStepInv(c, f.read, w.log, w.commit, t.ready);
    GrownPrefix(w, w', Full(c, f));
    R.ReadInvStable(c, read', w.log, w.commit, w'.log, w'.commit);
  }

  lemma Bounds(c: Config, f: Fifo)
    requires Inv(c, f)
    ensures f.read.pipe != [] && R.ReadInv(c, f.read, f.run.w.log, f.run.w.commit)
    ensures f.read.rd <= f.run.w.commit <= |f.run.w.log| <= f.read.rd + c.Depth()
  {
  }

  lemma StepParts(c: Config, f: Fifo, t: Tick)
    requires c.Valid() && Inv(c, f)
    ensures var f' := Step(c, f, t);
      && Inv(c, f')
      && f'.run.w == W.Step(c, f.run.w, Full(c, f), t.valid, t.beat)
      && f'.read == R.Step(c, f.read, f.run.w.log, f.run.w.commit, t.ready)
      && f.read.rd <= f'.read.rd
  {
    StepInv(c, f, t);
  }

  function Execute(c: Config, ins: seq<Tick>): (f: Fifo)
    requires c.Valid()
    ensures Inv(c, f)
  {
    if ins == [] then
      R.InitInv(c);
      Init(c)
    else
      var f := Execute(c, ins[..|ins| - 1]);
      StepInv(c, f, ins[|ins| - 1]);
      Step(c, f, ins[|ins| - 1])
  }

  lemma ExecuteOne(c: Config, ins: seq<Tick>, t: Tick)
    requires c.Valid()
    ensures Execute(c, ins + [t]) == Step(c, Execute(c, ins), t)
  {
    assert (ins + [t])[..|ins|] == ins;
  }

  /** What the write side saw during a run: the pins and the full flag of every edge. */
  function WriteInputs(c: Config, ins: seq<Tick>): seq<W.Input>
    requires c.Valid()
  {
    if ins == [] then []
    else
      var front, t := ins[..|ins| - 1], ins[|ins| - 1];
      WriteInputs(c, front) + [W.Input(Full(c, Execute(c, front)), t.valid, t.beat)]
  }

  lemma {:induction false} WriteSide(c: Config, ins: seq<Tick>)
    requires c.Valid()
    ensures Execute(c, ins).run == W.Execute(c, WriteInputs(c, ins))
  {
    if ins != [] {
      var front := ins[..|ins| - 1];
      WriteSide(c, front);
      var all := WriteInputs(c, ins);
      assert all[..|all| - 1] == WriteInputs(c, front);
    }
  }

  /**
   The FIFO refines a queue: at any moment of any run the accepted words are,
   in order, those delivered, the output register, the output FIFO, the valid
   pipeline stages from the top down, and the memory from the read to the
   write pointer.
   */
  lemma QueueRefinement(c: Config, ins: seq<Tick>)
    requires c.Valid() && !c.dropOversize && !c.markWhenFull
    ensures var f := Execute(c, ins);
      && f.run.accepted ==
           f.read.delivered + OptSeq(f.read.out) + f.read.fifo + R.Contents(f.read.pipe) + f.run.w.log[f.read.rd..]
      && |f.run.w.log[f.read.rd..]| <= c.Depth()
  {
    WriteSide(c, ins);
    W.Lossless(c, WriteInputs(c, ins));
    var f := Execute(c, ins);
    R.Conserved(c, f.read, f.run.w.log, f.run.w.commit);
  }

  /**
   Frame mode with oversize frames dropped: the delivered words are a prefix
   of the concatenation of the frames reported good.
   */
  lemma DeliversGoodFrames(c: Config, ins: seq<Tick>)
    requires c.Valid() && c.dropOversize
    ensures var f := Execute(c, ins);
      && f.run.w.log[..f.run.w.commit] == Concat(F.Beats(f.run.frames, W.Good))
      && (forall g :: g in f.run.frames ==> IsFrame(g.beats) && g.verdict == F.Expected(c, g))
      && |f.run.frames| == f.run.goods + f.run.bads + f.run.overflows
      && f.read.delivered <= Concat(F.Beats(f.run.frames, W.Good))
  {
    var f := Execute(c, ins);
    WriteSide(c, ins);
    F.AllOrNothing(c, WriteInputs(c, ins));
    R.DeliveredWithin(c, f.read, f.run.w.log, f.run.w.commit);
  }

  /**
   Frame mode without dropping oversize frames: nothing of a frame that has not
   filled the memory is delivered before its last beat has come.
   */
  lemma DeliversEndedFrames(c: Config, ins: seq<Tick>)
    requires c.Valid() && c.frameFifo && !c.dropOversize
    ensures var f := Execute(c, ins);
      && f.run.accepted == B.Ended(f.run.frames) + f.run.part
      && f.read.delivered <= f.run.accepted
      && (|f.run.part| < c.Depth() ==> f.read.delivered <= B.Ended(f.run.frames))
  {
    hide R.ReadInv;
    var f := Execute(c, ins);
    WriteSide(c, ins);
    B.HeldBack(c, WriteInputs(c, ins));
    R.DeliveredWithin(c, f.read, f.run.w.log, f.run.w.commit);
  }

  /** Mark-when-full mode: the shape of the whole stored stream, and of what is delivered. */
  lemma DeliversMarkedStream(c: Config, ins: seq<Tick>) returns (fates: seq<M.Fate>, tail: seq<Beat>)
    requires c.Valid() && c.markWhenFull
    ensures var f := Execute(c, ins);
      && M.Explains(c, f.run, fates)
      && tail <= M.Next(f.run, fates)
      && f.run.w.log == M.Output(fates) + tail
      && f.read.delivered <= M.Output(fates) + tail
  {
    var f := Execute(c, ins);
    WriteSide(c, ins);
    fates, tail := M.MarkedStream(c, WriteInputs(c, ins));
    R.DeliveredWithin(c, f.read, f.run.w.log, f.run.w.commit);
  }

  /** No word that reaches the top of the pipeline finds the output FIFO full. */
  lemma OutputFifoNeverOverflows(c: Config, ins: seq<Tick>)
    requires c.Valid() && c.outputFifo
    ensures var r := Execute(c, ins).read;
      && |r.fifo| + R.Load(r.pipe) <= R.Half(c) + c.ramPipeline + 2 <= R.Capacity(c)
      && (R.Last(r.pipe).Some? ==> R.Pushes(c, r))
  {
    var f := Execute(c, ins);
    R.Sizing(c);
    if R.Last(f.read.pipe).Some? { R.NoOverflow(c, f.read, f.run.w.log, f.run.w.commit); }
  }

  /** An offered word stays on the port, unchanged, until it is taken. */
  lemma PortStable(c: Config, ins: seq<Tick>, t: Tick)
    requires c.Valid() && !t.ready && R.Offer(c, Execute(c, ins).read).Some?
    ensures R.Offer(c, Execute(c, ins + [t]).read) == R.Offer(c, Execute(c, ins).read)
  {
    var f := Execute(c, ins);
    ExecuteOne(c, ins, t);
    R.OfferStable(c, f.read, f.run.w.log, f.run.w.commit);
  }

  /** tready is high while fewer than 2^ADDR_WIDTH of the accepted words are not delivered. */
  lemma Capacity(c: Config, ins: seq<Tick>)
    requires c.Valid() && !c.dropOversize && !c.markWhenFull
    ensures var f := Execute(c, ins);
      |f.run.accepted| < |f.read.delivered| + c.Depth() ==> Ready(c, f)
  {
    QueueRefinement(c, ins);
    var f := Execute(c, ins);
    Bounds(c, f);
  }

  // ------------------------------------------------------ frame continuity

  /** The parameters for which the output FIFO never breaks off a frame. */
  predicate Seamless(c: Config) { !c.outputFifo || c.ramPipeline != 1 || c.addrWidth == 0 }

  /** An offer at the end of the run is followed by another, unless it ends its frame and is taken. */
  predicate NoGap(c: Config, ins: seq<Tick>, t: Tick)
    requires c.Valid()
  {
    var o := R.Offer(c, Execute(c, ins).read);
    o.Some? && !(t.ready && o.value.last) ==> R.Offer(c, Execute(c, ins + [t]).read).Some?
  }

  /** Once valid rises for a frame it stays high until the frame's last word transfers. */
  ghost predicate Continuous(c: Config)
    requires c.Valid()
  {
    forall ins, t :: NoGap(c, ins, t)
  }

  ghost predicate FramesInv(c: Config, f: Fifo) {
    F.FrameInv(c, f.run) && G.Gapless(c, f.read, f.run.w.log, f.run.w.commit)
  }

  lemma Lasting(c: Config, f: Fifo, ready: bool)
    requires c.Valid() && c.outputFifo && Seamless(c) && Inv(c, f) && F.FrameInv(c, f.run)
    ensures var log, limit := f.run.w.log, f.run.w.commit;
      G.Outlasts(R.Step(c, f.read, log, limit, ready), log, limit)
  {
    hide R.Step;
    G.DeepExactly(c);
    if c.ramPipeline != 1 {
      G.DeepOutlasts(c, f.read, f.run.w.log, f.run.w.commit, ready);
    } else {
      F.SingleWords(c, f.run);
      G.SingleOutlasts(R.Step(c, f.read, f.run.w.log, f.run.w.commit, ready), f.run.w.log, f.run.w.commit);
    }
  }

  lemma WholeFramesGrow(c: Config, f: Fifo, t: Tick)
    requires c.Valid() && c.dropOversize && Seamless(c) && Inv(c, f) && FramesInv(c, f)
    ensures FramesInv(c, Step(c, f, t))
  {
    hide G.Gapless, G.Outlasts;
    var i := W.Input(Full(c, f), t.valid, t.beat);
    if c.outputFifo { Lasting(c, f, t.ready); }
    G.GaplessStep(c, f.read, f.run.w.log, f.run.w.commit, t.ready);
    W.StepGrows(c, f.run.w, i.full, t.valid, t.beat);
    F.FrameStepInv(c, f.run, i);
    var run' := W.RunStep(c, f.run, i);
    GrownPrefix(f.run.w, run'.w, i.full);
    F.CommitAtBoundary(c, run');
    G.GaplessStable(c, Step(c, f, t).read, f.run.w.log, f.run.w.commit, run'.w.log, run'.w.commit);
  }

  lemma {:induction false} RunWholeFrames(c: Config, ins: seq<Tick>)
    requires c.Valid() && c.dropOversize && Seamless(c)
    ensures FramesInv(c, Execute(c, ins))
  {
    if ins == [] {
      G.GaplessInit(c);
    } else {
      RunWholeFrames(c, ins[..|ins| - 1]);
      WholeFramesGrow(c, Execute(c, ins[..|ins| - 1]), ins[|ins| - 1]);
    }
  }

  /**
   With whole frames committed, once a frame is offered the port stays valid
   at every edge until the frame's last word is taken, for any stall pattern.
   */
  lemma FrameContinuity(c: Config, ins: seq<Tick>, t: Tick)
    requires c.Valid() && c.dropOversize && Seamless(c)
    ensures NoGap(c, ins, t)
  {
    var f := Execute(c, ins);
    ExecuteOne(c, ins, t);
    RunWholeFrames(c, ins);
    var o := R.Offer(c, f.read);
    if o.Some? && !(t.ready && o.value.last) {
      G.GaplessContinuity(c, f.read, f.run.w.log, f.run.w.commit, t.ready);
    }
  }

  // ------------------------------------------------------------ no wedging

  lemma ReadFrees(c: Config, f: Fifo, t: Tick)
    requires c.Valid() && Inv(c, f) && !c.outputFifo && t.ready && f.read.rd < f.run.w.commit
    ensures Step(c, f, t).read.rd == f.read.rd + 1
  {
  }

  /** One edge with the sink ready and something to read makes the source ready again. */
  lemma FreedIsReady(c: Config, f: Fifo, t: Tick)
    requires c.Valid() && Inv(c, f) && !c.outputFifo && t.ready
    requires !Ready(c, f) && f.read.rd < f.run.w.commit
    ensures Ready(c, Step(c, f, t))
  {
    ReadFrees(c, f, t);
    W.StepGrows(c, f.run.w, true, t.valid, t.beat);
  }

  /** Without oversize dropping, a frame that fills the memory is released first. */
  lemma OversizeReleased(c: Config, f: Fifo, t: Tick)
    requires c.Valid() && Inv(c, f) && !c.outputFifo && t.valid && t.ready
    requires !Ready(c, f) && f.read.rd == f.run.w.commit
    ensures var g := Step(c, f, t); Ready(c, g) || g.read.rd < g.run.w.commit
  {
    assert W.FullFrame(c, f.run.w) && !c.dropOversize;
  }

  lemma NeverWedgesFrom(c: Config, f: Fifo, t: Tick, u: Tick)
    requires c.Valid() && Inv(c, f) && !c.outputFifo && t.valid && t.ready && u.valid && u.ready
    requires !Ready(c, f)
    ensures Inv(c, Step(c, f, t))
    ensures Ready(c, Step(c, f, t)) || Ready(c, Step(c, Step(c, f, t), u))
  {
    var g := Step(c, f, t);
    StepInv(c, f, t);
    if f.read.rd < f.run.w.commit {
      FreedIsReady(c, f, t);
    } else {
      OversizeReleased(c, f, t);
      if !Ready(c, g) { FreedIsReady(c, g, u); }
    }
  }

  /**
   The FIFO never wedges: from any reachable state that refuses input, holding
   valid and ready high makes it accept within two clock edges.
   */
  lemma NeverWedges(c: Config, ins: seq<Tick>, t: Tick, u: Tick)
    requires c.Valid() && !c.outputFifo && t.valid && t.ready && u.valid && u.ready
    requires !Ready(c, Execute(c, ins))
    ensures Ready(c, Execute(c, ins + [t])) || Ready(c, Execute(c, ins + [t] + [u]))
  {
    ExecuteOne(c, ins, t);
    ExecuteOne(c, ins + [t], u);
    NeverWedgesFrom(c, Execute(c, ins), t, u);
  }

  // ------------------------------------- no wedging with the output FIFO

  /** At most so many edges until the source is ready, while the sink is. */
  function Wait(c: Config, f: Fifo): nat
    requires Inv(c, f)
  {
    if f.read.rd == f.run.w.commit then c.ramPipeline + 6 else G.ReadWait(c, f.read)
  }

  lemma WaitBound(c: Config, f: Fifo)
    requires Inv(c, f)
    ensures 1 <= Wait(c, f) <= c.ramPipeline + 6
    ensures f.read.rd < f.run.w.commit ==> Wait(c, f) <= c.ramPipeline + 5
  {
    G.ReadWaitBound(c, f.read, f.run.w.log, f.run.w.commit);
  }

  /** A frame that fills the memory is released; what is released is read, sooner or later. */
  lemma WaitStep(c: Config, f: Fifo, t: Tick)
    requires c.Valid() && Inv(c, f) && c.outputFifo && t.valid && t.ready && !Ready(c, f)
    ensures Inv(c, Step(c, f, t))
    ensures Ready(c, Step(c, f, t)) || Wait(c, Step(c, f, t)) < Wait(c, f)
  {
    hide R.Half, W.RunStep, R.Step, G.ReadWait;
    var g := Step(c, f, t);
    StepParts(c, f, t);
    WaitBound(c, g);
    if f.read.rd == f.run.w.commit {
      ReleasedBuffered(c, f, t);
    } else {
      ReadBuffered(c, f, t);
    }
  }

  lemma ReleasedBuffered(c: Config, f: Fifo, t: Tick)
    requires c.Valid() && Inv(c, f) && c.outputFifo && t.valid && t.ready
    requires !Ready(c, f) && f.read.rd == f.run.w.commit
    ensures Step(c, f, t).read.rd < Step(c, f, t).run.w.commit
  {
    assert W.FullFrame(c, f.run.w) && !c.dropOversize;
  }

  lemma ReadBuffered(c: Config, f: Fifo, t: Tick)
    requires c.Valid() && Inv(c, f) && t.ready && !Ready(c, f) && f.read.rd < f.run.w.commit
    ensures var g := Step(c, f, t);
      Ready(c, g) || (g.read.rd < g.run.w.commit && G.ReadWait(c, g.read) < G.ReadWait(c, f.read))
  {
    hide G.ReadWait, R.Step;
    W.StepGrows(c, f.run.w, true, t.valid, t.beat);
    G.Drains(c, f.read, f.run.w.log, f.run.w.commit);
  }

  lemma {:induction false} ReadyWithin(c: Config, f: Fifo, ts: seq<Tick>) returns (k: nat)
    requires c.Valid() && Inv(c, f) && c.outputFifo
    requires (forall t :: t in ts ==> t.valid && t.ready) && |ts| >= Wait(c, f)
    ensures k <= |ts| && Ready(c, After(c, f, ts[..k]))
    decreases |ts|
  {
    hide Ready, Wait, Step;
    k := 0;
    if !Ready(c, f) {
      WaitBound(c, f);
      assert ts[0] in ts;
      WaitStep(c, f, ts[0]);
      var g := Step(c, f, ts[0]);
      if Ready(c, g) {
        k := 1;
        assert ts[..1][1..] == [];
      } else {
        k := ReadyWithin(c, g, ts[1..]);
        k := k + 1;
        assert ts[..k][1..] == ts[1..][..k - 1];
      }
    }
  }

  function After(c: Config, f: Fifo, ts: seq<Tick>): (f': Fifo)
    requires c.Valid() && Inv(c, f)
    ensures Inv(c, f')
    decreases |ts|
  {
    if ts == [] then f
    else
      StepInv(c, f, ts[0]);
      After(c, Step(c, f, ts[0]), ts[1..])
  }

  lemma {:induction false} ExecuteAfter(c: Config, ins: seq<Tick>, ts: seq<Tick>)
    requires c.Valid()
    ensures Execute(c, ins + ts) == After(c, Execute(c, ins), ts)
    decreases |ts|
  {
    if ts == [] {
      assert ins + ts == ins;
    } else {
      assert ins + ts == ins + [ts[0]] + ts[1..];
      ExecuteOne(c, ins, ts[0]);
      ExecuteAfter(c, ins + [ts[0]], ts[1..]);
    }
  }

  /**
   With the output FIFO the wait is a little longer: from any reachable state,
   holding valid and ready high for RAM_PIPELINE + 6 edges makes the source
   ready at one of them.
   */
  lemma NeverWedgesBuffered(c: Config, ins: seq<Tick>, ts: seq<Tick>) returns (k: nat)
    requires c.Valid() && c.outputFifo
    requires |ts| == c.ramPipeline + 6 && forall t :: t in ts ==> t.valid && t.ready
    ensures k <= |ts| && Ready(c, Execute(c, ins + ts[..k]))
  {
    WaitBound(c, Execute(c, ins));
    k := ReadyWithin(c, Execute(c, ins), ts);
    ExecuteAfter(c, ins, ts[..k]);
  }
}
