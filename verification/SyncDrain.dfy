/** The single-clock FIFO delivers: with a ready sink and no more input, all that is committed comes out. */
module SyncDrain {
  import opened Streams
  import opened SyncFifo
  import W = FifoWrite
  import R = FifoRead
  import F = FifoFrames
  import M = FifoMark
  import B = FifoHold
  import D = FifoDrain

  /** At most so many edges until everything is delivered. */
  function Distance(c: Config, f: Fifo): nat
    requires Inv(c, f)
  {
    (if D.Owed(c, f.run.w) then 2 * D.Weight(c) + 1 else 0) + D.Work(c, f.read, f.run.w.commit)
  }

  predicate Finished(c: Config, f: Fifo) {
    D.Settled(f.read, f.run.w.commit) && !D.Owed(c, f.run.w)
  }

  lemma DrainStep(c: Config, f: Fifo, t: Tick)
    requires c.Valid() && Inv(c, f) && !t.valid && t.ready
    ensures var g := Step(c, f, t);
      && Inv(c, g)
      && if Finished(c, f) then Finished(c, g) else Distance(c, g) < Distance(c, f)
  {
    hide R.Step, R.ReadInv, W.Step, D.Work, D.Settled;
    StepParts(c, f, t);
    Bounds(c, f);
    D.IdleWrite(c, f.run.w, Full(c, f), t.beat);
    D.WorkStep(c, f.read, f.run.w.log, f.run.w.commit, f.run.w.commit);
    D.WorkGrows(c, Step(c, f, t).read, f.run.w.commit);
    if Full(c, f) && D.Owed(c, f.run.w) { FullIsWaiting(c, f); }
  }

  /** An owed terminator that finds no room waits behind words that can be read. */
  lemma FullIsWaiting(c: Config, f: Fifo)
    requires c.Valid() && Inv(c, f) && Full(c, f) && D.Owed(c, f.run.w)
    ensures !D.Settled(f.read, f.run.w.commit)
  {
    assert c.Depth() >= 1;
  }

  /** Edges with a ready sink and no input. */
  predicate Draining(ts: seq<Tick>) { forall t :: t in ts ==> !t.valid && t.ready }

  lemma {:induction false} DrainRun(c: Config, f: Fifo, ts: seq<Tick>)
    requires c.Valid() && Inv(c, f) && Draining(ts)
    ensures var g := After(c, f, ts);
      Finished(c, g) || Distance(c, g) + |ts| <= Distance(c, f)
    ensures Finished(c, f) ==> Finished(c, After(c, f, ts))
    decreases |ts|
  {
    hide Finished, Distance, Step;
    if ts != [] {
      assert ts[0] in ts;
      DrainStep(c, f, ts[0]);
      DrainRun(c, Step(c, f, ts[0]), ts[1..]);
    }
  }

  lemma DistanceBound(c: Config, f: Fifo)
    requires c.Valid() && Inv(c, f)
    ensures Distance(c, f) < Enough(c, f)
  {
    hide R.ReadInv, D.Work;
    Bounds(c, f);
    D.WorkBound(c, f.read, f.run.w.log, f.run.w.commit, f.run.w.commit);
    var n := f.run.w.commit - |f.read.delivered|;
    D.Taken(c, n + 1, 1, n);
  }

  /** 2 * (RAM_PIPELINE + 4) edges for every word that is not delivered yet, and as many again for a terminator. */
  function Enough(c: Config, f: Fifo): nat
    requires Inv(c, f)
  {
    DeliveredWithin(c, f);
    2 * D.Fetching(c, f.run.w.commit - |f.read.delivered| + 1) + 3
  }

  lemma DeliveredWithin(c: Config, f: Fifo)
    requires Inv(c, f)
    ensures |f.read.delivered| <= f.run.w.commit
  {
    Bounds(c, f);
    D.Undelivered(c, f.read, f.run.w.log, f.run.w.commit);
  }

  /**
   From any reachable state, with the sink ready and no more input, everything
   committed is delivered after 2 * (RAM_PIPELINE + 4) edges for each word that
   was not delivered yet, and as many again.
   */
  lemma AllDelivered(c: Config, ins: seq<Tick>, ts: seq<Tick>)
    requires c.Valid() && Draining(ts)
    requires |ts| >= Enough(c, Execute(c, ins))
    ensures var g := Execute(c, ins + ts);
      && g.read.delivered == g.run.w.log[..g.run.w.commit]
      && R.Offer(c, g.read).None? && !D.Owed(c, g.run.w)
  {
    hide Distance, Finished, Inv, Enough, R.Offer, D.Owed;
    DistanceBound(c, Execute(c, ins));
    ExecuteAfter(c, ins, ts);
    DrainRun(c, Execute(c, ins), ts);
    FinishedDelivered(c, Execute(c, ins + ts));
  }

  lemma FinishedDelivered(c: Config, f: Fifo)
    requires c.Valid() && Inv(c, f) && Finished(c, f)
    ensures f.read.pipe != [] && f.run.w.commit <= |f.run.w.log|
    ensures f.read.delivered == f.run.w.log[..f.run.w.commit]
    ensures R.Offer(c, f.read).None? && !D.Owed(c, f.run.w)
  {
    hide R.ReadInv;
    Bounds(c, f);
    D.SettledDelivered(c, f.read, f.run.w.log, f.run.w.commit);
    D.SettledEmpty(f.read);
  }

  /** End to end in normal mode: then the delivered words are the accepted ones. */
  lemma AllAccepted(c: Config, ins: seq<Tick>, ts: seq<Tick>)
    requires c.Valid() && !c.frameFifo && !c.markWhenFull
    requires Draining(ts) && |ts| >= Enough(c, Execute(c, ins))
    ensures var g := Execute(c, ins + ts); g.read.delivered == g.run.accepted
  {
    hide R.ReadInv, Enough, D.Owed, R.Offer, W.LosslessInv, Execute, WriteInputs;
    var all, g := ins + ts, Execute(c, ins + ts);
    AllDelivered(c, ins, ts);
    WriteSide(c, all);
    W.Lossless(c, WriteInputs(c, all));
    W.LogIsAccepted(c, g.run);
    NormalCommits(c, g);
  }

  /** In frame mode dropping oversize frames they are the good frames. */
  lemma GoodDelivered(c: Config, ins: seq<Tick>, ts: seq<Tick>)
    requires c.Valid() && c.dropOversize
    requires Draining(ts) && |ts| >= Enough(c, Execute(c, ins))
    ensures var g := Execute(c, ins + ts); g.read.delivered == Concat(F.Beats(g.run.frames, W.Good))
  {
    hide R.ReadInv, Enough, D.Owed, R.Offer, Execute;
    AllDelivered(c, ins, ts);
    DeliversGoodFrames(c, ins + ts);
  }

  /**
   In frame mode without dropping oversize frames they are the frames that
   ended, and the accepted words if no frame is open.
   */
  lemma EndedDelivered(c: Config, ins: seq<Tick>, ts: seq<Tick>)
    requires c.Valid() && c.frameFifo && !c.dropOversize
    requires Draining(ts) && |ts| >= Enough(c, Execute(c, ins))
    ensures var g := Execute(c, ins + ts);
      && (|g.run.part| < c.Depth() ==> g.read.delivered == B.Ended(g.run.frames))
      && (g.run.part == [] || |g.run.part| > c.Depth() ==> g.read.delivered == g.run.accepted)
  {
    hide R.ReadInv, Enough, D.Owed, R.Offer, Execute, WriteInputs;
    var all := ins + ts;
    AllDelivered(c, ins, ts);
    WriteSide(c, all);
    B.HeldBack(c, WriteInputs(c, all));
  }

  /** In mark-when-full mode they are the whole marked stream. */
  lemma MarkedDelivered(c: Config, ins: seq<Tick>, ts: seq<Tick>) returns (fates: seq<M.Fate>, tail: seq<Beat>)
    requires c.Valid() && c.markWhenFull
    requires Draining(ts) && |ts| >= Enough(c, Execute(c, ins))
    ensures var g := Execute(c, ins + ts);
      && M.Explains(c, g.run, fates) && tail <= M.Next(g.run, fates)
      && g.read.delivered == M.Output(fates) + tail
  {
    hide R.ReadInv, Enough, D.Owed, R.Offer, Execute, M.Explains, M.Next, M.Output;
    AllDelivered(c, ins, ts);
    fates, tail := DeliversMarkedStream(c, ins + ts);
    NormalCommits(c, Execute(c, ins + ts));
  }

  lemma NormalCommits(c: Config, f: Fifo)
    requires Inv(c, f) && !c.frameFifo
    ensures f.run.w.log[..f.run.w.commit] == f.run.w.log
  {
  }
}
