/** The dual-clock FIFO delivers: with a ready sink and no more input, all that is committed comes out. */
module AsyncDrain {
  import opened Streams
  import opened AsyncFifo
  import opened AsyncRounds
  import W = FifoWrite
  import R = FifoRead
  import F = FifoFrames
  import M = FifoMark
  import B = FifoHold
  import D = FifoDrain
  import P = AsyncProgress

  /** What the read clock, or the commit hand-over, still has to carry to the reader. */
  function Crossing(c: Config, f: Fifo): nat {
    if c.frameFifo then Rank(f)
    else if f.wrSync2 == |f.run.w.log| then 0
    else if f.wrSync1 == |f.run.w.log| then 1
    else 2
  }

  /** How stale the writer's view of the read pointer is. */
  function Stale(f: Fifo): nat {
    if f.rdSync2 == f.read.rd then 0 else if f.rdSync1 == f.read.rd then 1 else 2
  }

  function Work(c: Config, f: Fifo): nat {
    if f.read.rd <= f.run.w.commit then D.Work(c, f.read, f.run.w.commit) else 0
  }

  predicate Owed(c: Config, f: Fifo) { D.Owed(c, f.run.w) }

  /** At most so many edges of the clock that is waited for until everything is delivered. */
  function Distance(c: Config, f: Fifo): nat {
    3 * Work(c, f) + Crossing(c, f) + if Owed(c, f) then 6 * D.Weight(c) + 3 + Stale(f) else 0
  }

  predicate Finished(c: Config, f: Fifo) {
    D.Settled(f.read, Limit(c, f)) && Limit(c, f) == f.run.w.commit && !Owed(c, f)
  }

  predicate AwaitsReader(c: Config, f: Fifo) {
    || !D.Settled(f.read, Limit(c, f))
    || (Limit(c, f) < f.run.w.commit && (!c.frameFifo || WaitsForReader(f)))
  }

  predicate Idle(t: Tick) { !t.valid && t.ready }

  /** Delivery of everything, for a silent source and an insisting sink. */
  function Delivery(c: Config): Goal {
    Goal(f => Finished(c, f), f => Distance(c, f), f => AwaitsReader(c, f), t => Idle(t))
  }

  predicate Closes(c: Config, f: Fifo, t: Tick) { t.sEdge && Owed(c, f) && !Full(c, f) }

  /** What an idle tick does to the pointers. */
  lemma Pointers(c: Config, f: Fifo, t: Tick)
    requires c.Valid() && Inv(c, f) && Idle(t)
    ensures Sound(c, f)
    ensures var f' := Step(c, f, t);
      && Inv(c, f') && f'.read == ReadAfter(c, f, t) && f'.read.rd <= Limit(c, f) <= Limit(c, f') <= f'.run.w.commit
      && f'.run.w.commit == f.run.w.commit + W.Count(Closes(c, f, t))
      && |f'.run.w.log| == |f.run.w.log| + W.Count(Closes(c, f, t))
      && Owed(c, f') == (Owed(c, f) && !Closes(c, f, t))
      && f'.rdSync2 == (if t.sEdge then f.rdSync1 else f.rdSync2)
      && (!t.sEdge ==> f'.rdSync1 == f.rdSync1)
      && (t.sEdge ==> f'.rdSync1 == f.read.rd || f'.rdSync1 == f'.read.rd)
  {
    hide R.Step, R.ReadInv, W.Step, D.Settled;
    Bounds(c, f);
    StepInv(c, f, t);
    Bounds(c, Step(c, f, t));
    StepParts(c, f, t);
    ReadMoves(c, f, t);
    D.IdleWrite(c, f.run.w, Full(c, f), t.beat);
  }

  /** The reader's share of an edge. */
  lemma ReadersShare(c: Config, f: Fifo, t: Tick)
    requires c.Valid() && Inv(c, f) && Idle(t)
    ensures Sound(c, f)
    ensures var f' := Step(c, f, t);
      && f'.read.rd <= f.run.w.commit && f.read.rd <= f.run.w.commit
      && (if D.Settled(f.read, Limit(c, f)) || !t.mEdge then
            f'.read.rd == f.read.rd && D.Work(c, f'.read, f.run.w.commit) == D.Work(c, f.read, f.run.w.commit)
          else D.Work(c, f'.read, f.run.w.commit) < D.Work(c, f.read, f.run.w.commit))
      && (D.Settled(f.read, Limit(c, f)) ==> D.Settled(f'.read, Limit(c, f)))
      && (!t.mEdge ==> f'.read == f.read)
  {
    hide R.Step, R.ReadInv, W.RunStep, D.Work, D.Settled;
    Bounds(c, f);
    if t.mEdge { D.WorkStep(c, f.read, f.run.w.log, Limit(c, f), f.run.w.commit); }
  }

  lemma CrossingStep(c: Config, f: Fifo, t: Tick)
    requires c.Valid() && Inv(c, f) && Idle(t)
    ensures Sound(c, f)
    ensures var f' := Step(c, f, t);
      && (Closes(c, f, t) ==> !c.frameFifo && Crossing(c, f') <= 2)
      && (!Closes(c, f, t) ==> Crossing(c, f') <= Crossing(c, f))
      && (!c.frameFifo && t.mEdge && !Closes(c, f, t) && f.wrSync2 < |f.run.w.log| ==> Crossing(c, f') < Crossing(c, f))
      && (c.frameFifo ==> Crossing(c, f') + W.Count(Useful(f, t)) <= Crossing(c, f))
      && (!t.mEdge ==> Limit(c, f') == Limit(c, f))
  {
    hide R.Step, R.ReadInv, W.Step, D.Settled, Rank, Useful;
    Bounds(c, f);
    Pointers(c, f, t);
    StepParts(c, f, t);
    if c.frameFifo { HandOverProgress(c, f, t); } else { WordsCross(c, f, t); }
  }

  lemma WordsCross(c: Config, f: Fifo, t: Tick)
    requires c.Valid() && Inv(c, f) && !c.frameFifo
    ensures Sound(c, f)
    ensures var f' := Step(c, f, t);
      && (|f'.run.w.log| == |f.run.w.log| ==> Crossing(c, f') <= Crossing(c, f))
      && (|f'.run.w.log| == |f.run.w.log| && t.mEdge && f.wrSync2 < |f.run.w.log| ==> Crossing(c, f') < Crossing(c, f))
  {
    hide R.Step, R.ReadInv, W.RunStep;
    Bounds(c, f);
  }

  /** The distance after an idle tick, from its parts. */
  lemma Sums(c: Config, f: Fifo, t: Tick)
    requires c.Valid() && Inv(c, f) && Idle(t)
    ensures Sound(c, f)
    ensures var f' := Step(c, f, t);
      && Work(c, f') == D.Work(c, f'.read, f.run.w.commit) + 2 * D.Weight(c) * W.Count(Closes(c, f, t))
      && Stale(f') <= 2
      && (f'.read.rd == f.read.rd ==> Stale(f') + W.Count(t.sEdge && Stale(f) > 0) <= Stale(f))
  {
    hide R.Step, R.ReadInv, W.RunStep, D.Work, D.Weight, Step;
    Bounds(c, f);
    Pointers(c, f, t);
    ReadersShare(c, f, t);
    D.WorkGrows(c, Step(c, f, t).read, f.run.w.commit);
  }

  /** No idle tick takes the end further away. */
  lemma NeverFurther(c: Config, f: Fifo, t: Tick)
    requires c.Valid() && Inv(c, f) && Idle(t)
    ensures Sound(c, f)
    ensures var f' := Step(c, f, t);
      && Distance(c, f') <= Distance(c, f)
      && (Closes(c, f, t) || (t.mEdge && !D.Settled(f.read, Limit(c, f))) ==> Distance(c, f') < Distance(c, f))
      && (Crossing(c, f') < Crossing(c, f) ==> Distance(c, f') < Distance(c, f))
      && (D.Settled(f.read, Limit(c, f)) && Owed(c, f) && t.sEdge && Stale(f) > 0 ==> Distance(c, f') < Distance(c, f))
  {
    hide R.Step, R.ReadInv, W.RunStep, D.Work, D.Weight, Step, D.Settled, Crossing, Work, Stale, Full;
    Pointers(c, f, t);
    ReadersShare(c, f, t);
    CrossingStep(c, f, t);
    Sums(c, f, t);
    WorkNow(c, f);
  }

  lemma WorkNow(c: Config, f: Fifo)
    requires f.read.rd <= f.run.w.commit
    ensures Work(c, f) == D.Work(c, f.read, f.run.w.commit)
  {
  }

  /** Words are on their way to the sink, or can be read. */
  lemma ReaderWorks(c: Config, f: Fifo, t: Tick)
    requires c.Valid() && Inv(c, f) && Idle(t) && !D.Settled(f.read, Limit(c, f))
    ensures Sound(c, f) && Nearer(c, Delivery(c), f, t)
  {
    hide Step, Distance, D.Settled, Crossing, Finished;
    NeverFurther(c, f, t);
    ReadersShare(c, f, t);
    CrossingStep(c, f, t);
  }

  /** The write pointer, or the commit pointer, is on its way to the reader. */
  lemma LimitRises(c: Config, f: Fifo, t: Tick)
    requires c.Valid() && Inv(c, f) && Idle(t) && D.Settled(f.read, Limit(c, f)) && Limit(c, f) < f.run.w.commit
    ensures Sound(c, f) && Nearer(c, Delivery(c), f, t)
  {
    hide Step, Distance, D.Settled, Crossing, Finished, R.ReadInv, RingInv, Closes;
    Bounds(c, f);
    NeverFurther(c, f, t);
    ReadersShare(c, f, t);
    CrossingStep(c, f, t);
    Pointers(c, f, t);
    if c.frameFifo {
      P.RankPositive(f);
      if !Forward(Delivery(c), f, t) { P.SameClock(c, f, t); }
    }
  }

  /** Only a terminator is missing: there is room for it, or there will be when the read pointer arrives. */
  lemma TerminatorComes(c: Config, f: Fifo, t: Tick)
    requires c.Valid() && Inv(c, f) && Idle(t)
    requires D.Settled(f.read, Limit(c, f)) && Limit(c, f) == f.run.w.commit && Owed(c, f)
    ensures Sound(c, f) && Nearer(c, Delivery(c), f, t)
  {
    hide Step, Distance, Crossing, Finished, R.ReadInv;
    Bounds(c, f);
    NeverFurther(c, f, t);
    ReadersShare(c, f, t);
    Pointers(c, f, t);
    assert c.Depth() >= 1;
  }

  lemma Delivers(c: Config)
    requires c.Valid()
    ensures Approaches(c, Delivery(c))
  {
    hide Distance, AwaitsReader, Step, Inv, Nearer, D.Settled;
    forall f, t | Pursues(c, Delivery(c), f, t) ensures Sound(c, f) && Nearer(c, Delivery(c), f, t) {
      Bounds(c, f);
      Pointers(c, f, t);
      if !D.Settled(f.read, Limit(c, f)) {
        ReaderWorks(c, f, t);
      } else if Limit(c, f) < f.run.w.commit {
        LimitRises(c, f, t);
      } else {
        TerminatorComes(c, f, t);
      }
    }
  }

  /** What is finished stays so. */
  lemma FinishedStep(c: Config, f: Fifo, t: Tick)
    requires c.Valid() && Inv(c, f) && Idle(t) && Finished(c, f)
    ensures Sound(c, f) && Finished(c, Step(c, f, t))
  {
    hide Step, D.Settled, Full, R.ReadInv;
    Bounds(c, f);
    Pointers(c, f, t);
    ReadersShare(c, f, t);
  }

  lemma {:induction false} StaysFinished(c: Config, ins: seq<Tick>, ts: seq<Tick>)
    requires c.Valid() && Finished(c, Execute(c, ins)) && forall t :: t in ts ==> Idle(t)
    ensures Finished(c, Execute(c, ins + ts))
    decreases |ts|
  {
    hide Execute, Step, Finished, Inv, Idle;
    if ts == [] {
      assert ins + ts == ins;
    } else {
      assert ts[0] in ts;
      FinishedStep(c, Execute(c, ins), ts[0]);
      ExecuteOne(c, ins, ts[0]);
      assert ins + ts == ins + [ts[0]] + ts[1..];
      StaysFinished(c, ins + [ts[0]], ts[1..]);
    }
  }

  /** So many rounds for every word that is not delivered yet, and some for what crosses the clock domains. */
  function Enough(c: Config, f: Fifo): nat
    requires c.Valid() && Inv(c, f)
  {
    DeliveredWithin(c, f);
    6 * D.Fetching(c, f.run.w.commit - |f.read.delivered| + 1) + 20
  }

  lemma DeliveredWithin(c: Config, f: Fifo)
    requires c.Valid() && Inv(c, f)
    ensures |f.read.delivered| <= f.run.w.commit
  {
    hide R.ReadInv;
    Bounds(c, f);
    D.Undelivered(c, f.read, f.run.w.log, Limit(c, f));
  }

  lemma DistanceBound(c: Config, f: Fifo)
    requires c.Valid() && Inv(c, f)
    ensures Distance(c, f) < Enough(c, f)
  {
    hide R.ReadInv, D.Work, D.Fetching;
    Bounds(c, f);
    D.WorkBound(c, f.read, f.run.w.log, Limit(c, f), f.run.w.commit);
    var n := f.run.w.commit - |f.read.delivered|;
    D.Taken(c, n + 1, 1, n);
    WorkNow(c, f);
    if c.frameFifo { P.RankPositive(f); }
  }

  /**
   From any reachable state, in every mode and on any interleaving: with the
   sink ready and no more input, everything committed is delivered once both
   clocks have ticked often enough.
   */
  lemma AllDelivered(c: Config, ins: seq<Tick>, rounds: seq<seq<Tick>>)
    requires c.Valid() && |rounds| >= Enough(c, Execute(c, ins))
    requires forall ts :: ts in rounds ==> Round(Delivery(c), ts)
    ensures var f := Execute(c, ins + Concat(rounds));
      && f.read.delivered == f.run.w.log[..f.run.w.commit]
      && R.Offer(c, f.read).None? && !Owed(c, f)
  {
    hide Distance, Finished, Enough, Execute, Inv, AwaitsReader, Approaches;
    var all := Concat(rounds);
    Delivers(c);
    DistanceBound(c, Execute(c, ins));
    var k := Rounds(c, Delivery(c), ins, rounds);
    AllIdle(c, rounds);
    StaysFinished(c, ins + all[..k], all[k..]);
    assert ins + all[..k] + all[k..] == ins + all;
    FinishedDelivered(c, Execute(c, ins + all));
  }

  lemma {:induction false} AllIdle(c: Config, rounds: seq<seq<Tick>>)
    requires forall ts :: ts in rounds ==> Round(Delivery(c), ts)
    ensures forall t :: t in Concat(rounds) ==> Idle(t)
  {
    if rounds != [] {
      var k := |rounds| - 1;
      assert rounds[k] in rounds;
      forall ts | ts in rounds[..k] ensures Round(Delivery(c), ts) { assert ts in rounds; }
      AllIdle(c, rounds[..k]);
      forall t | t in rounds[k] ensures Idle(t) { assert Delivery(c).pins(t); }
    }
  }

  lemma FinishedDelivered(c: Config, f: Fifo)
    requires c.Valid() && Inv(c, f) && Finished(c, f)
    ensures f.read.pipe != [] && f.run.w.commit <= |f.run.w.log|
    ensures f.read.delivered == f.run.w.log[..f.run.w.commit]
    ensures R.Offer(c, f.read).None? && !Owed(c, f)
  {
    hide R.ReadInv;
    Bounds(c, f);
    D.SettledDelivered(c, f.read, f.run.w.log, f.run.w.commit);
    D.SettledEmpty(f.read);
  }

  /** End to end in normal mode: the delivered words are the accepted ones. */
  lemma AllAccepted(c: Config, ins: seq<Tick>, rounds: seq<seq<Tick>>)
    requires c.Valid() && !c.frameFifo && !c.markWhenFull && |rounds| >= Enough(c, Execute(c, ins))
    requires forall ts :: ts in rounds ==> Round(Delivery(c), ts)
    ensures var f := Execute(c, ins + Concat(rounds)); f.read.delivered == f.run.accepted
  {
    hide R.ReadInv, Enough, R.Offer, W.LosslessInv, Execute, WriteInputs;
    var all := ins + Concat(rounds);
    AllDelivered(c, ins, rounds);
    WriteSide(c, all);
    W.Lossless(c, WriteInputs(c, all));
    W.LogIsAccepted(c, Execute(c, all).run);
    Bounds(c, Execute(c, all));
    WholeLog(Execute(c, all));
  }

  lemma WholeLog(f: Fifo)
    requires f.run.w.commit == |f.run.w.log|
    ensures f.run.w.log[..f.run.w.commit] == f.run.w.log
  {
  }

  /** In frame mode dropping oversize frames they are the good frames. */
  lemma GoodDelivered(c: Config, ins: seq<Tick>, rounds: seq<seq<Tick>>)
    requires c.Valid() && c.dropOversize && |rounds| >= Enough(c, Execute(c, ins))
    requires forall ts :: ts in rounds ==> Round(Delivery(c), ts)
    ensures var f := Execute(c, ins + Concat(rounds)); f.read.delivered == Concat(F.Beats(f.run.frames, W.Good))
  {
    hide R.ReadInv, Enough, R.Offer, Execute;
    AllDelivered(c, ins, rounds);
    var k := FrameMode(c, ins + Concat(rounds));
  }

  /**
   In frame mode without dropping oversize frames they are the frames that
   ended, and the accepted words if no frame is open.
   */
  lemma EndedDelivered(c: Config, ins: seq<Tick>, rounds: seq<seq<Tick>>)
    requires c.Valid() && c.frameFifo && !c.dropOversize && |rounds| >= Enough(c, Execute(c, ins))
    requires forall ts :: ts in rounds ==> Round(Delivery(c), ts)
    ensures var g := Execute(c, ins + Concat(rounds));
      && (|g.run.part| < c.Depth() ==> g.read.delivered == B.Ended(g.run.frames))
      && (g.run.part == [] || |g.run.part| > c.Depth() ==> g.read.delivered == g.run.accepted)
  {
    hide R.ReadInv, Enough, R.Offer, Execute, WriteInputs;
    var all := ins + Concat(rounds);
    AllDelivered(c, ins, rounds);
    WriteSide(c, all);
    B.HeldBack(c, WriteInputs(c, all));
  }

  /** In mark-when-full mode they are the whole marked stream. */
  lemma MarkedDelivered(c: Config, ins: seq<Tick>, rounds: seq<seq<Tick>>) returns (fates: seq<M.Fate>, tail: seq<Beat>)
    requires c.Valid() && c.markWhenFull && |rounds| >= Enough(c, Execute(c, ins))
    requires forall ts :: ts in rounds ==> Round(Delivery(c), ts)
    ensures var f := Execute(c, ins + Concat(rounds));
      && M.Explains(c, f.run, fates) && tail <= M.Next(f.run, fates)
      && f.read.delivered == M.Output(fates) + tail
  {
    hide R.ReadInv, Enough, R.Offer, Execute, M.Explains, M.Next, M.Output;
    var all := ins + Concat(rounds);
    AllDelivered(c, ins, rounds);
    fates, tail := MarkedMode(c, all);
    Bounds(c, Execute(c, all));
    WholeLog(Execute(c, all));
  }
}
