/**
 The dual-clock FIFO never wedges: a full memory is read, or released and read,
 and the news reaches the writer.
 */
module AsyncProgress {
  import opened Streams
  import opened AsyncFifo
  import opened AsyncRounds
  import W = FifoWrite
  import R = FifoRead
  import G = FifoGap

  /** What the writer waits for once the reader may read. */
  function Reading(c: Config): nat { c.ramPipeline + 7 }

  /** At most so many edges of the clock that is waited for until the source is ready, while the sink is. */
  function Distance(c: Config, f: Fifo): nat {
    if f.rdSync2 < f.rdSync1 then 1
    else if f.rdSync1 < f.read.rd then 2
    else if f.read.rd < Limit(c, f) then 2 + G.ReadWait(c, f.read)
    else if !c.frameFifo then Reading(c) + (if f.wrSync2 < f.wrSync1 then 1 else 2)
    else if f.read.rd < f.run.w.commit then Reading(c) + Rank(f)
    else Reading(c) + 12
  }

  /** Whether a refusing FIFO waits for the read clock; otherwise it waits for the write clock. */
  predicate AwaitsReader(c: Config, f: Fifo) {
    && f.rdSync2 == f.read.rd
    && (f.read.rd < Limit(c, f) || !c.frameFifo || (f.read.rd < f.run.w.commit && WaitsForReader(f)))
  }

  /** Acceptance of a beat, for a source and a sink that insist. */
  function Acceptance(c: Config): Goal {
    Goal(f => Ready(c, f), f => Distance(c, f), f => AwaitsReader(c, f), (t: Tick) => t.valid && t.ready)
  }

  /** A refused beat changes nothing, but a frame that fills the memory is released. */
  lemma Refused(c: Config, f: Fifo, t: Tick)
    requires c.Valid() && Sound(c, f) && !Ready(c, f) && t.valid
    ensures Full(c, f)
    ensures var w, w' := f.run.w, RunAfter(c, f, t).w;
      && w'.log == w.log
      && (c.frameFifo ==> w'.commit == if t.sEdge && w.commit == f.rdSync2 then |w.log| else w.commit)
  {
  }

  lemma DistanceBound(c: Config, f: Fifo)
    requires c.Valid() && Inv(c, f)
    ensures 1 <= Distance(c, f) <= c.ramPipeline + 19
  {
    hide R.ReadInv;
    Bounds(c, f);
    G.ReadWaitBound(c, f.read, f.run.w.log, Limit(c, f));
  }

  /** A step of a refusing FIFO whose source and sink insist. */
  ghost predicate Insists(c: Config, f: Fifo, t: Tick) {
    c.Valid() && Inv(c, f) && !Ready(c, f) && t.valid && t.ready
  }

  /** What such a step does to the pointers. */
  lemma Pointers(c: Config, f: Fifo, t: Tick)
    requires Insists(c, f, t)
    ensures Sound(c, f) && Full(c, f)
    ensures var f' := Step(c, f, t);
      && |f'.run.w.log| == |f.run.w.log| == f.rdSync2 + c.Depth()
      && f.rdSync2 <= f.rdSync1 <= f.read.rd <= f'.read.rd <= Limit(c, f) <= Limit(c, f') <= f'.run.w.commit
      && f'.run.w.commit <= |f.run.w.log|
      && f.rdSync1 <= f'.rdSync1 <= f'.read.rd
      && f'.rdSync2 == (if t.sEdge then f.rdSync1 else f.rdSync2)
      && (t.sEdge ==> f.read.rd <= f'.rdSync1)
      && (!t.sEdge ==> f'.rdSync1 == f.rdSync1)
      && (f'.rdSync2 > f.rdSync2 ==> Ready(c, f'))
  {
    hide R.Step, R.ReadInv, W.RunStep, Rank;
    Bounds(c, f);
    StepInv(c, f, t);
    Bounds(c, Step(c, f, t));
    Refused(c, f, t);
    ReadMoves(c, f, t);
  }

  /** The reader has moved, and the writer is to learn of it. */
  lemma PointerReturns(c: Config, f: Fifo, t: Tick)
    requires Insists(c, f, t) && f.rdSync2 < f.read.rd
    ensures Sound(c, f) && Nearer(c, Acceptance(c), f, t)
  {
    hide Insists, Ready, Step;
    Pointers(c, f, t);
  }

  /** The reader may read: it does, or its output FIFO drains. */
  lemma MemoryIsRead(c: Config, f: Fifo, t: Tick)
    requires Insists(c, f, t) && f.rdSync2 == f.read.rd < Limit(c, f)
    ensures Sound(c, f) && Nearer(c, Acceptance(c), f, t)
  {
    hide Ready, R.Step, R.ReadInv, W.RunStep, G.ReadWait, RingInv, Rank;
    Pointers(c, f, t);
    Bounds(c, f);
    G.ReadWaitBound(c, f.read, f.run.w.log, Limit(c, f));
    G.Drains(c, f.read, f.run.w.log, Limit(c, f));
  }

  /** Normal mode: the write pointer is on its way to the reader. */
  lemma WordsArrive(c: Config, f: Fifo, t: Tick)
    requires Insists(c, f, t) && !c.frameFifo && f.rdSync2 == f.read.rd == f.wrSync2
    ensures Sound(c, f) && Nearer(c, Acceptance(c), f, t)
  {
    hide Ready, R.Step, R.ReadInv, W.RunStep, G.ReadWait, Rank;
    Pointers(c, f, t);
    StepInv(c, f, t);
    var f' := Step(c, f, t);
    Bounds(c, f');
    G.ReadWaitBound(c, f'.read, f'.run.w.log, Limit(c, f'));
  }

  /** Frame mode: the commit pointer is on its way to the reader. */
  lemma CommitCrosses(c: Config, f: Fifo, t: Tick)
    requires Insists(c, f, t) && c.frameFifo && f.rdSync2 == f.read.rd == f.seen < f.run.w.commit
    ensures Sound(c, f) && Nearer(c, Acceptance(c), f, t)
  {
    hide Ready, R.Step, R.ReadInv, W.RunStep, G.ReadWait, Rank, Step;
    Pointers(c, f, t);
    Refused(c, f, t);
    StepParts(c, f, t);
    HandOverProgress(c, f, t);
    if !Forward(Acceptance(c), f, t) { SameClock(c, f, t); }
    RankPositive(f);
    var f' := Step(c, f, t);
    StepInv(c, f, t);
    Bounds(c, f');
    G.ReadWaitBound(c, f'.read, f'.run.w.log, Limit(c, f'));
  }

  lemma SameClock(c: Config, f: Fifo, t: Tick)
    requires Sound(c, f) && c.frameFifo && RingInv(f) && !(if WaitsForReader(f) then t.mEdge else t.sEdge)
    ensures WaitsForReader(Step(c, f, t)) == WaitsForReader(f) && Step(c, f, t).seen == f.seen
  {
  }

  lemma RankPositive(f: Fifo)
    requires RingInv(f)
    ensures Rank(f) <= 11 && (f.seen < f.run.w.commit ==> Rank(f) > 0)
  {
  }

  /** Frame mode: a frame that fills the memory is released. */
  lemma FrameReleased(c: Config, f: Fifo, t: Tick)
    requires Insists(c, f, t) && c.frameFifo && f.rdSync2 == f.read.rd == f.seen == f.run.w.commit
    ensures Sound(c, f) && Nearer(c, Acceptance(c), f, t)
  {
    hide Ready, R.Step, R.ReadInv, W.RunStep, G.ReadWait, Rank, Step;
    Pointers(c, f, t);
    Refused(c, f, t);
    StepParts(c, f, t);
    var f' := Step(c, f, t);
    StepInv(c, f, t);
    RankPositive(f');
    Bounds(c, f');
    G.ReadWaitBound(c, f'.read, f'.run.w.log, Limit(c, f'));
  }

  lemma Progress(c: Config, f: Fifo, t: Tick)
    requires Insists(c, f, t)
    ensures Sound(c, f) && Inv(c, Step(c, f, t)) && Nearer(c, Acceptance(c), f, t)
  {
    hide Nearer, Step, Ready;
    Pointers(c, f, t);
    StepInv(c, f, t);
    if f.rdSync2 < f.read.rd {
      PointerReturns(c, f, t);
    } else if f.read.rd < Limit(c, f) {
      MemoryIsRead(c, f, t);
    } else if !c.frameFifo {
      WordsArrive(c, f, t);
    } else if f.read.rd < f.run.w.commit {
      CommitCrosses(c, f, t);
    } else {
      FrameReleased(c, f, t);
    }
  }

  lemma Accepts(c: Config)
    requires c.Valid()
    ensures Approaches(c, Acceptance(c))
  {
    hide Ready, Distance, AwaitsReader, Step, Inv;
    forall f, t | Pursues(c, Acceptance(c), f, t)
      ensures Sound(c, f) && Nearer(c, Acceptance(c), f, t)
    {
      Progress(c, f, t);
    }
  }

  /**
   From any reachable state, in every mode and on any interleaving: with valid
   and ready held high, the source becomes ready before each clock has had an
   edge RAM_PIPELINE + 19 times over.
   */
  lemma NeverWedges(c: Config, ins: seq<Tick>, rounds: seq<seq<Tick>>) returns (k: nat)
    requires c.Valid() && |rounds| == c.ramPipeline + 19
    requires forall ts :: ts in rounds ==> Round(Acceptance(c), ts)
    ensures k <= |Concat(rounds)| && Ready(c, Execute(c, ins + Concat(rounds)[..k]))
  {
    hide Ready, Distance, AwaitsReader;
    Accepts(c);
    k := Rounds(c, Acceptance(c), ins, rounds);
    DistanceBound(c, Execute(c, ins));
    DistanceBound(c, Execute(c, ins + Concat(rounds)));
  }
}
