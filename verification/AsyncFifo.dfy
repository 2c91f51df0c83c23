/**
 The dual-clock FIFO after reset, as a protocol between two clock domains over
 unbounded counters. A tick is an edge of either clock or a coincident edge of
 both; at a coincident edge every flop that samples the other domain may see
 the value from before or from after the edge.
 */
module AsyncFifo {
  import opened Streams
  import W = FifoWrite
  import R = FifoRead
  import F = FifoFrames
  import M = FifoMark
  import B = FifoHold

  /**
   wrSync and rdSync are the pointers behind the Gray synchronisers (normal
   mode reads the first pair). published, seen, pending and the six flops are
   the commit pointer hand-over of frame mode.
   */
  datatype Fifo = Fifo(
    run: W.Run,
    read: R.Read,
    wrSync1: nat,
    wrSync2: nat,
    rdSync1: nat,
    rdSync2: nat,
    published: nat,
    seen: nat,
    pending: bool,
    update: bool,
    sync1: bool,
    sync2: bool,
    sync3: bool,
    ack1: bool,
    ack2: bool)

  /**
   The edges that happen, the input pins, and what the sampling flops catch.
   torn is what sampling a commit pointer that changes at that very moment
   would yield: any number.
   */
  datatype Tick = Tick(
    sEdge: bool,
    mEdge: bool,
    valid: bool,
    beat: Beat,
    ready: bool,
    newWr: bool,
    newRd: bool,
    newUpdate: bool,
    newAck: bool,
    torn: nat)

  function Init(c: Config): Fifo {
    Fifo(W.START, R.Init(c), 0, 0, 0, 0, 0, 0, false, false, false, false, false, false, false)
  }

  /** The reader's view of how far it may read. */
  function Limit(c: Config, f: Fifo): nat { if c.frameFifo then f.seen else f.wrSync2 }

  predicate Full(c: Config, f: Fifo) { |f.run.w.log| == f.rdSync2 + c.Depth() }

  predicate Ready(c: Config, f: Fifo) { W.Ready(c, f.run.w, Full(c, f)) }

  predicate Sound(c: Config, f: Fifo) {
    f.run.w.commit <= |f.run.w.log| && Limit(c, f) <= |f.run.w.log| && f.read.pipe != []
  }

  function RunAfter(c: Config, f: Fifo, t: Tick): W.Run
    requires Sound(c, f)
  {
    if t.sEdge then W.RunStep(c, f.run, W.Input(Full(c, f), t.valid, t.beat)) else f.run
  }

  function ReadAfter(c: Config, f: Fifo, t: Tick): R.Read
    requires Sound(c, f)
  {
    if t.mEdge then R.Step(c, f.read, f.run.w.log, Limit(c, f), t.ready) else f.read
  }

  /** A commit pointer that moves, or one that waited, goes out when the ring is idle. */
  predicate Publishes(c: Config, f: Fifo, t: Tick)
    requires Sound(c, f)
  {
    && t.sEdge && c.frameFifo
    && f.update == f.ack2
    && (f.pending || RunAfter(c, f, t).w.commit != f.run.w.commit)
  }

  function Step(c: Config, f: Fifo, t: Tick): Fifo
    requires Sound(c, f)
  {
    var run, read := RunAfter(c, f, t), ReadAfter(c, f, t);
    var publishes := Publishes(c, f, t);
    var published := if publishes then run.w.commit else f.published;
    var update := if publishes then !f.ack2 else f.update;
    var sync3 := if t.mEdge then f.sync2 else f.sync3;
    Fifo(
      run,
      read,
      if t.mEdge then |(if t.newWr then run else f.run).w.log| else f.wrSync1,
      if t.mEdge then f.wrSync1 else f.wrSync2,
      if t.sEdge then (if t.newRd then read else f.read).rd else f.rdSync1,
      if t.sEdge then f.rdSync1 else f.rdSync2,
      published,
      if t.mEdge && c.frameFifo && f.sync2 != f.sync3 then
        if published == f.published then f.published else t.torn
      else f.seen,
      if t.sEdge && c.frameFifo then
        f.update != f.ack2 && (f.pending || run.w.commit != f.run.w.commit)
      else f.pending,
      update,
      if t.mEdge then (if t.newUpdate then update else f.update) else f.sync1,
      if t.mEdge then f.sync1 else f.sync2,
      sync3,
      if t.sEdge then (if t.newAck then sync3 else f.sync3) else f.ack1,
      if t.sEdge then f.ack1 else f.ack2)
  }

  lemma StepParts(c: Config, f: Fifo, t: Tick)
    requires Sound(c, f)
    ensures Step(c, f, t).run == RunAfter(c, f, t) && Step(c, f, t).read == ReadAfter(c, f, t)
    ensures t.sEdge ==> RunAfter(c, f, t).w == W.Step(c, f.run.w, Full(c, f), t.valid, t.beat)
  {
  }

  // ----------------------------------------------------------- normal mode

  /** The stale copies never overtake their originals, and the reader never the writer. */
  ghost predicate PointersInv(c: Config, f: Fifo) {
    && f.rdSync2 <= f.rdSync1 <= f.read.rd <= f.wrSync2 <= f.wrSync1 <= |f.run.w.log| <= f.rdSync2 + c.Depth()
    && f.run.w.commit == |f.run.w.log|
    && R.ReadInv(c, f.read, f.run.w.log, f.wrSync2)
  }

  // ------------------------------------------------------------ frame mode

  function Turns(f: Fifo): nat {
    W.Count(f.update != f.sync1) + W.Count(f.sync1 != f.sync2) + W.Count(f.sync2 != f.sync3)
    + W.Count(f.sync3 != f.ack1) + W.Count(f.ack1 != f.ack2)
  }

  /** The toggle chain holds at most one transition; once it has passed, the pointer has arrived. */
  ghost predicate RingInv(f: Fifo) {
    && Turns(f) <= 1
    && (f.sync3 == f.update ==> f.seen == f.published)
    && f.seen <= f.published <= f.run.w.commit
    && (f.published == f.run.w.commit || f.pending)
  }

  ghost predicate CommitInv(c: Config, f: Fifo) {
    && RingInv(f)
    && f.rdSync2 <= f.rdSync1 <= f.read.rd <= f.seen
    && f.run.w.commit <= |f.run.w.log| <= f.rdSync2 + c.Depth()
    && R.ReadInv(c, f.read, f.run.w.log, f.seen)
  }

  ghost predicate Inv(c: Config, f: Fifo) {
    if c.frameFifo then CommitInv(c, f) else PointersInv(c, f)
  }

  lemma LogGrows(c: Config, f: Fifo, t: Tick)
    requires c.Valid() && Sound(c, f)
    ensures var w, w' := f.run.w, RunAfter(c, f, t).w;
      && w.commit <= w'.commit <= |w'.log|
      && w'.log[..w.commit] == w.log[..w.commit]
      && (|w'.log| <= |w.log| || (|w'.log| == |w.log| + 1 && !Full(c, f)))
      && (!c.frameFifo && w.commit == |w.log| ==> |w.log| <= |w'.log| == w'.commit && w'.log[..|w.log|] == w.log)
  {
    if t.sEdge {
      W.StepGrows(c, f.run.w, Full(c, f), t.valid, t.beat);
    }
  }

  lemma ReadMoves(c: Config, f: Fifo, t: Tick)
    requires Sound(c, f) && R.ReadInv(c, f.read, f.run.w.log, Limit(c, f))
    ensures R.ReadInv(c, ReadAfter(c, f, t), f.run.w.log, Limit(c, f))
    ensures f.read.rd <= ReadAfter(c, f, t).rd <= f.read.rd + 1
  {
    if t.mEdge { R.ReadStepInv(c, f.read, f.run.w.log, Limit(c, f), t.ready); }
  }

  lemma OrderKept(c: Config, f: Fifo, t: Tick)
    requires c.Valid() && !c.frameFifo && PointersInv(c, f)
    ensures var f' := Step(c, f, t);
      && f'.rdSync2 <= f'.rdSync1 <= f'.read.rd <= f.wrSync2 <= f'.wrSync2 <= f'.wrSync1
      && f'.wrSync1 <= |f'.run.w.log| <= f'.rdSync2 + c.Depth()
      && f'.run.w.commit == |f'.run.w.log|
  {
    LogGrows(c, f, t);
    ReadMoves(c, f, t);
  }

  lemma NormalStep(c: Config, f: Fifo, t: Tick)
    requires c.Valid() && !c.frameFifo && PointersInv(c, f)
    ensures PointersInv(c, Step(c, f, t))
  {
    var f' := Step(c, f, t);
    LogGrows(c, f, t);
    ReadMoves(c, f, t);
    OrderKept(c, f, t);
    assert f'.run.w.log[..f.wrSync2] == f'.run.w.log[..|f.run.w.log|][..f.wrSync2] == f.run.w.log[..f.wrSync2];
    R.ReadInvStable(c, f'.read, f.run.w.log, f.wrSync2, f'.run.w.log, f'.wrSync2);
  }

  /** Whenever the reader samples the commit pointer, the ring is busy, so the pointer stands still. */
  lemma NotTorn(c: Config, f: Fifo, t: Tick)
    requires Sound(c, f) && Turns(f) <= 1 && f.sync2 != f.sync3
    ensures f.update != f.ack2 && !Publishes(c, f, t)
  {
  }

  lemma RingStep(c: Config, f: Fifo, t: Tick)
    requires c.Valid() && c.frameFifo && Sound(c, f) && RingInv(f)
    ensures RingInv(Step(c, f, t)) && f.seen <= Step(c, f, t).seen
  {
    LogGrows(c, f, t);
    if f.sync2 != f.sync3 { NotTorn(c, f, t); }
  }

  lemma RingBounds(f: Fifo)
    requires RingInv(f)
    ensures f.seen <= f.published <= f.run.w.commit
  {
  }

  lemma FrameStep(c: Config, f: Fifo, t: Tick)
    requires c.Valid() && c.frameFifo && CommitInv(c, f)
    ensures CommitInv(c, Step(c, f, t))
  {
    hide W.RunStep, R.Step, R.ReadInv, RingInv;
    Bounds(c, f);
    var f' := Step(c, f, t);
    LogGrows(c, f, t);
    ReadMoves(c, f, t);
    RingStep(c, f, t);
    RingBounds(f);
    RingBounds(f');
    assert f'.run.w.log[..f.seen] == f'.run.w.log[..f.run.w.commit][..f.seen] == f.run.w.log[..f.seen];
    R.ReadInvStable(c, f'.read, f.run.w.log, f.seen, f'.run.w.log, f'.seen);
  }

  lemma StepInv(c: Config, f: Fifo, t: Tick)
    requires c.Valid() && Inv(c, f)
    ensures Inv(c, Step(c, f, t))
  {
    if c.frameFifo { FrameStep(c, f, t); } else { NormalStep(c, f, t); }
  }

  /** What the register level needs of the invariant. */
  lemma Bounds(c: Config, f: Fifo)
    requires c.Valid() && Inv(c, f)
    ensures Sound(c, f)
    ensures f.rdSync2 <= f.rdSync1 <= f.read.rd <= Limit(c, f) <= f.run.w.commit <= |f.run.w.log|
    ensures |f.run.w.log| <= f.rdSync2 + c.Depth()
    ensures !c.frameFifo ==> f.run.w.commit == |f.run.w.log|
    ensures R.ReadInv(c, f.read, f.run.w.log, Limit(c, f))
    ensures c.frameFifo ==> Turns(f) <= 1
  {
  }

  // ------------------------------------------------------------------ runs

  function Execute(c: Config, ts: seq<Tick>): (f: Fifo)
    requires c.Valid()
    ensures Inv(c, f)
  {
    if ts == [] then
      R.InitInv(c);
      Init(c)
    else
      var f, t := Execute(c, ts[..|ts| - 1]), ts[|ts| - 1];
      StepInv(c, f, t);
      Step(c, f, t)
  }

  /** What the write side saw: the pins and the full flag of every edge of its clock. */
  function WriteInputs(c: Config, ts: seq<Tick>): seq<W.Input>
    requires c.Valid()
  {
    if ts == [] then []
    else
      var front, t := ts[..|ts| - 1], ts[|ts| - 1];
      if t.sEdge then WriteInputs(c, front) + [W.Input(Full(c, Execute(c, front)), t.valid, t.beat)]
      else WriteInputs(c, front)
  }

  lemma {:induction false} WriteSide(c: Config, ts: seq<Tick>)
    requires c.Valid()
    ensures Execute(c, ts).run == W.Execute(c, WriteInputs(c, ts))
  {
    if ts != [] {
      var front, t := ts[..|ts| - 1], ts[|ts| - 1];
      WriteSide(c, front);
      if t.sEdge {
        var all := WriteInputs(c, ts);
        assert all[..|all| - 1] == WriteInputs(c, front);
      }
    }
  }

  /**
   Normal mode, over every interleaving of the two clocks: the pointers keep
   their order, so the reader never passes the writer and the writer never
   laps the reader; and the delivered words are a prefix of the accepted ones,
   with the rest in flight or in memory.
   */
  lemma NormalMode(c: Config, ts: seq<Tick>)
    requires c.Valid() && !c.frameFifo && !c.markWhenFull
    ensures var f := Execute(c, ts);
      && f.rdSync2 <= f.rdSync1 <= f.read.rd <= f.wrSync2 <= f.wrSync1 <= |f.run.w.log| <= f.rdSync2 + c.Depth()
      && f.run.accepted ==
           f.read.delivered + OptSeq(f.read.out) + f.read.fifo + R.Contents(f.read.pipe) + f.run.w.log[f.read.rd..]
  {
    var f := Execute(c, ts);
    WriteSide(c, ts);
    W.Lossless(c, WriteInputs(c, ts));
    R.Conserved(c, f.read, f.run.w.log, f.wrSync2);
  }

  /**
   Every mode that neither drops nor marks, frame mode included: the accepted
   words are those delivered, those in flight and those in memory, in order.
   */
  lemma QueueRefinement(c: Config, ts: seq<Tick>)
    requires c.Valid() && !c.dropOversize && !c.markWhenFull
    ensures var f := Execute(c, ts);
      && f.run.accepted ==
           f.read.delivered + OptSeq(f.read.out) + f.read.fifo + R.Contents(f.read.pipe) + f.run.w.log[f.read.rd..]
      && |f.run.w.log[f.read.rd..]| <= c.Depth()
  {
    var f := Execute(c, ts);
    WriteSide(c, ts);
    W.Lossless(c, WriteInputs(c, ts));
    R.Conserved(c, f.read, f.run.w.log, Limit(c, f));
  }

  /**
   Frame mode without dropping oversize frames, across two clocks: nothing of a
   frame that has not filled the memory is delivered before its last beat.
   */
  lemma DeliversEndedFrames(c: Config, ts: seq<Tick>)
    requires c.Valid() && c.frameFifo && !c.dropOversize
    ensures var f := Execute(c, ts);
      && f.run.accepted == B.Ended(f.run.frames) + f.run.part
      && f.read.delivered <= f.run.accepted
      && (|f.run.part| < c.Depth() ==> f.read.delivered <= B.Ended(f.run.frames))
  {
    hide R.ReadInv, RingInv;
    var f := Execute(c, ts);
    Bounds(c, f);
    WriteSide(c, ts);
    B.HeldBack(c, WriteInputs(c, ts));
    R.DeliveredWithin(c, f.read, f.run.w.log, f.seen);
    assert f.run.w.log[..f.seen] <= f.run.w.log[..f.run.w.commit];
  }

  /** Mark-when-full mode across two clocks: the delivered words follow the marked stream. */
  lemma MarkedMode(c: Config, ts: seq<Tick>) returns (fates: seq<M.Fate>, tail: seq<Beat>)
    requires c.Valid() && c.markWhenFull
    ensures var f := Execute(c, ts);
      && M.Explains(c, f.run, fates)
      && tail <= M.Next(f.run, fates)
      && f.run.w.log == M.Output(fates) + tail
      && f.read.delivered <= M.Output(fates) + tail
  {
    var f := Execute(c, ts);
    WriteSide(c, ts);
    fates, tail := M.MarkedStream(c, WriteInputs(c, ts));
    R.DeliveredWithin(c, f.read, f.run.w.log, Limit(c, f));
  }

  // --------------------------------------------- frame mode, whole frames

  /** The reader's limit and the pointer on its way to the reader lie between frames. */
  ghost predicate BoundaryInv(c: Config, f: Fifo) {
    && F.FrameInv(c, f.run)
    && Boundary(f.run.w.log, f.published)
    && Boundary(f.run.w.log, f.seen)
  }

  lemma BoundaryKept(w: W.Write, w': W.Write, n: nat)
    requires n <= w.commit <= |w.log| && w.commit <= |w'.log| && w'.log[..w.commit] == w.log[..w.commit]
    requires Boundary(w.log, n)
    ensures Boundary(w'.log, n)
  {
    assert n > 0 ==> w'.log[..w.commit][n - 1] == w.log[..w.commit][n - 1];
  }

  lemma FramesKept(c: Config, f: Fifo, t: Tick)
    requires c.Valid() && c.dropOversize && Sound(c, f) && F.FrameInv(c, f.run)
    ensures F.FrameInv(c, RunAfter(c, f, t))
  {
    if t.sEdge { F.FrameStepInv(c, f.run, W.Input(Full(c, f), t.valid, t.beat)); }
  }

  lemma BoundaryStep(c: Config, f: Fifo, t: Tick)
    requires c.Valid() && c.dropOversize && CommitInv(c, f) && BoundaryInv(c, f)
    ensures BoundaryInv(c, Step(c, f, t))
  {
    var f' := Step(c, f, t);
    LogGrows(c, f, t);
    RingStep(c, f, t);
    if f.sync2 != f.sync3 { NotTorn(c, f, t); }
    FramesKept(c, f, t);
    F.CommitAtBoundary(c, f'.run);
    BoundaryKept(f.run.w, f'.run.w, f.published);
    BoundaryKept(f.run.w, f'.run.w, f.seen);
  }

  lemma {:induction false} RunBoundaries(c: Config, ts: seq<Tick>)
    requires c.Valid() && c.dropOversize
    ensures BoundaryInv(c, Execute(c, ts))
  {
    if ts != [] {
      RunBoundaries(c, ts[..|ts| - 1]);
      BoundaryStep(c, Execute(c, ts[..|ts| - 1]), ts[|ts| - 1]);
    }
  }

  /**
   Frame mode with oversize frames dropped, over every interleaving: no commit
   is lost; what the reader may read is the first k of the good frames, whole;
   and it delivers a prefix of exactly these.
   */
  lemma FrameMode(c: Config, ts: seq<Tick>) returns (k: nat)
    requires c.Valid() && c.dropOversize
    ensures var f, good := Execute(c, ts), F.Beats(Execute(c, ts).run.frames, W.Good);
      && (f.published == f.run.w.commit || f.pending)
      && f.run.w.log[..f.run.w.commit] == Concat(good)
      && k <= |good|
      && f.run.w.log[..f.seen] == Concat(good[..k])
      && f.read.delivered <= Concat(good[..k])
  {
    var f := Execute(c, ts);
    var good := F.Beats(f.run.frames, W.Good);
    RunBoundaries(c, ts);
    F.GoodAreFrames(f.run.frames);
    var committed := f.run.w.log[..f.run.w.commit];
    assert Boundary(committed, f.seen) by {
      assert f.seen > 0 ==> committed[f.seen - 1] == f.run.w.log[f.seen - 1];
    }
    k := BoundaryIsFrames(good, f.seen);
    assert f.run.w.log[..f.seen] == committed[..f.seen];
    R.DeliveredWithin(c, f.read, f.run.w.log, f.seen);
  }

  /**
   The multi-bit commit pointer is never caught while it changes, for any
   reachable state and any edge, coincident ones included.
   */
  lemma CommitNeverTorn(c: Config, ts: seq<Tick>, t: Tick)
    requires c.Valid() && c.frameFifo
    ensures var f, f' := Execute(c, ts), Execute(c, ts + [t]);
      && (f.sync2 != f.sync3 ==> f'.published == f.published)
      && (f'.seen == f.seen || f'.seen == f.published)
      && f.seen <= f'.seen <= f'.published <= f'.run.w.commit
  {
    var f := Execute(c, ts);
    assert (ts + [t])[..|ts|] == ts;
    RingStep(c, f, t);
    if f.sync2 != f.sync3 { NotTorn(c, f, t); }
  }

  // ---------------------------------------------------- commits arrive

  /** How many more edges, of the clock the hand-over waits for, until the ring is idle. */
  function Rank(f: Fifo): nat {
    (if f.update != f.sync1 then 5
     else if f.sync1 != f.sync2 then 4
     else if f.sync2 != f.sync3 then 3
     else if f.sync3 != f.ack1 then 2
     else if f.ack1 != f.ack2 then 1
     else 0)
    + (if f.pending then 6 else 0)
  }

  predicate WaitsForReader(f: Fifo) { f.update != f.sync3 }

  /** An edge of the clock that the hand-over waits for. */
  predicate Useful(f: Fifo, t: Tick) {
    Rank(f) > 0 && if WaitsForReader(f) then t.mEdge else t.sEdge
  }

  lemma HandOverProgress(c: Config, f: Fifo, t: Tick)
    requires c.Valid() && c.frameFifo && Sound(c, f) && RingInv(f)
    requires RunAfter(c, f, t).w.commit == f.run.w.commit
    ensures Rank(Step(c, f, t)) + W.Count(Useful(f, t)) <= Rank(f)
  {
  }

  function After(c: Config, f: Fifo, ts: seq<Tick>): (f': Fifo)
    requires c.Valid() && Inv(c, f)
    ensures Inv(c, f')
    decreases |ts|
  {
    if ts == [] then f
    else
      StepInv(c, f, ts[0]);
      After(c, Step(c, f, ts[0]), ts[1..])
  }

  function UsefulEdges(c: Config, f: Fifo, ts: seq<Tick>): nat
    requires c.Valid() && Inv(c, f)
    decreases |ts|
  {
    if ts == [] then 0
    else
      StepInv(c, f, ts[0]);
      W.Count(Useful(f, ts[0])) + UsefulEdges(c, Step(c, f, ts[0]), ts[1..])
  }

  lemma {:induction false} CommitMonotone(c: Config, f: Fifo, ts: seq<Tick>)
    requires c.Valid() && Inv(c, f)
    ensures f.run.w.commit <= After(c, f, ts).run.w.commit
    decreases |ts|
  {
    if ts != [] {
      StepInv(c, f, ts[0]);
      LogGrows(c, f, ts[0]);
      CommitMonotone(c, Step(c, f, ts[0]), ts[1..]);
    }
  }

  /**
   No commit is stranded: over any interleaving in which no further frame is
   committed, the hand-over never falls back, every edge of the clock it waits
   for uses up one of at most eleven steps, and with two steps or fewer to go
   the reader's limit is the newest commit pointer.
   */
  lemma {:induction false} CommitArrives(c: Config, f: Fifo, ts: seq<Tick>)
    requires c.Valid() && c.frameFifo && Inv(c, f)
    requires After(c, f, ts).run.w.commit == f.run.w.commit
    ensures var f' := After(c, f, ts);
      && Rank(f') + UsefulEdges(c, f, ts) <= Rank(f) <= 11
      && (Rank(f') <= 2 ==> f'.seen == f'.run.w.commit)
    decreases |ts|
  {
    if ts != [] {
      var g := Step(c, f, ts[0]);
      StepInv(c, f, ts[0]);
      LogGrows(c, f, ts[0]);
      CommitMonotone(c, g, ts[1..]);
      HandOverProgress(c, f, ts[0]);
      CommitArrives(c, g, ts[1..]);
    }
  }
}
