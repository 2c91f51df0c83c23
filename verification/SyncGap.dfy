/** Exactly which single-clock frame FIFOs pass frames without a gap. */
module SyncGap {
  import opened Streams
  import opened OutputGap
  import W = FifoWrite
  import R = FifoRead
  import S = SyncFifo

  // ------------------------------------ one pipeline register, output FIFO

  /** Seven words: five frames of one word, then one of two. */
  function Stream(): (words: seq<Beat>)
    ensures |words| == 7
  {
    seq(7, i requires 0 <= i => Beat(i, i != 5, []))
  }

  /** How many words have come in after k edges, and how many of them are committed. */
  function Stored(k: nat): nat { if k <= 5 then k else if k == 6 then 5 else if k == 7 then 6 else 7 }

  function Committed(k: nat): nat { if Stored(k) == 6 then 5 else Stored(k) }

  /** A pause of one edge before the last frame; the sink stalls for ten edges. */
  function Pins(k: nat): S.Tick {
    S.Tick(k <= 4 || k == 6 || k == 7, if Stored(k) < 7 then Stream()[Stored(k)] else BLANK, k >= 10)
  }

  /**
   The flag rises between the two words of the last frame, and falls so late
   that the second one reaches the port after a gap.
   */
  function After(k: nat, words: seq<Beat>): Counts {
    Counts(
      words,
      if k >= 11 then k - 10 else 0,
      One(5 <= k <= 15),
      if k <= 3 then 0 else if k == 4 then 1 else if k <= 8 then k - 4 else if k <= 11 then 4
      else if k <= 15 then 15 - k else 1,
      One(3 <= k <= 7 || k == 10 || k == 15),
      One(2 <= k <= 6 || k == 9 || k == 14),
      One(9 <= k <= 12))
  }

  lemma AfterNext(k: nat, words: seq<Beat>)
    requires k <= 15
    ensures After(k, words).words == words && After(k, words).Read() <= Committed(k) && After(k, words).queued < 8
    ensures After(k + 1, words) == Next(After(k, words), Committed(k), k >= 10)
    ensures Stored(k) <= After(k, words).Read() + 1 + (if Pins(k).valid then 0 else 1)
  {
  }

  predicate Default(c: Config) {
    c.Valid() && c.dropOversize && Exceptional(c) && c.addrWidth >= 1
  }

  ghost predicate Holding(w: W.Write, k: nat) {
    !w.drop && !w.mark && w.log == Stream()[..Stored(k)] && w.commit == Committed(k)
  }

  /** Two words fit the memory, so nothing is dropped on the way in. */
  lemma WordStored(c: Config, w: W.Write, k: nat)
    requires Default(c) && k <= 15 && Holding(w, k)
    ensures Holding(W.Step(c, w, false, Pins(k).valid, Pins(k).beat), k + 1)
  {
    assert c.Depth() >= 2;
    if Pins(k).valid {
      assert Stream()[..Stored(k + 1)] == Stream()[..Stored(k)] + [Stream()[Stored(k)]];
      assert !c.BadUser([]);
    }
  }

  lemma IdleKept(c: Config, w: W.Write, full: bool, k: nat)
    requires Default(c) && k <= 15 && Holding(w, k) && !Pins(k).valid
    ensures Holding(W.Step(c, w, full, false, Pins(k).beat), k + 1)
  {
  }

  function Ticks(k: nat): (ts: seq<S.Tick>)
    ensures |ts| == k
  {
    seq(k, i requires 0 <= i => Pins(i))
  }

  ghost predicate Stands(f: S.Fifo, k: nat) {
    Holding(f.run.w, k) && After(k, Stream()).Read() <= 7 && f.read == Shows(After(k, Stream()))
  }

  lemma Starts(c: Config)
    requires Default(c)
    ensures Stands(S.Init(c), 0)
  {
    hide Stream, After, Shows, R.Init, Holding;
    InitIdle(c);
    AfterNone();
    ShowsIdle(Stream());
    HoldsNothing();
  }

  lemma HoldsNothing()
    ensures Holding(W.INIT, 0)
  {
    hide Stream;
    assert Stream()[..0] == [];
  }

  lemma GoesOn(c: Config, f: S.Fifo, k: nat)
    requires Default(c) && S.Inv(c, f) && k <= 15 && Stands(f, k)
    ensures Stands(S.Step(c, f, Pins(k)), k + 1)
  {
    hide W.Step, R.Step, Shows, Next, Stream, After, S.Step, S.Inv, S.Full;
    S.StepParts(c, f, Pins(k));
    AfterNext(k, Stream());
    ShowsRead(After(k, Stream()));
    WriteFollows(c, f, k);
    NextFollows(c, After(k, Stream()), f.run.w.log, Committed(k), Pins(k).ready);
  }

  lemma ShowsRead(s: Counts)
    requires s.Read() <= |s.words|
    ensures Shows(s).rd == s.Read()
  {
  }

  lemma {:induction false} Follows(c: Config, k: nat)
    requires Default(c) && k <= 16
    ensures Stands(S.Execute(c, Ticks(k)), k)
  {
    hide Stands, S.Step, S.Inv;
    if k == 0 {
      Starts(c);
    } else {
      Follows(c, k - 1);
      assert Ticks(k) == Ticks(k - 1) + [Pins(k - 1)];
      S.ExecuteOne(c, Ticks(k - 1), Pins(k - 1));
      GoesOn(c, S.Execute(c, Ticks(k - 1)), k - 1);
    }
  }

  lemma AfterNone()
    ensures After(0, Stream()) == Begin(Stream())
  {
  }

  lemma WriteFollows(c: Config, f: S.Fifo, k: nat)
    requires Default(c) && k <= 15 && Holding(f.run.w, k) && f.read.rd == After(k, Stream()).Read() <= Committed(k)
    ensures Holding(W.Step(c, f.run.w, S.Full(c, f), Pins(k).valid, Pins(k).beat), k + 1)
  {
    hide W.Step;
    AfterNext(k, Stream());
    assert c.Depth() >= 2;
    if Pins(k).valid { WordStored(c, f.run.w, k); } else { IdleKept(c, f.run.w, S.Full(c, f), k); }
  }

  /** The first word of the last frame is taken, and nothing is offered next. */
  lemma BreaksOff(c: Config)
    requires Default(c)
    ensures !S.NoGap(c, Ticks(15), Pins(15))
  {
    hide S.Execute, Stream;
    assert Ticks(15) + [Pins(15)] == Ticks(16);
    Follows(c, 15);
    Follows(c, 16);
    FifthOpen();
  }

  lemma FifthOpen()
    ensures !Stream()[5].last
  {
  }

  // ------------------------------------------- oversize frames released early

  /** Words of a frame that does not end, at a stalled sink; one more edge releases what fits. */
  function Flood(k: nat): (ts: seq<S.Tick>)
    ensures |ts| == k
  {
    seq(k, i => S.Tick(true, MORE, false))
  }

  ghost predicate Flooded(c: Config, f: S.Fifo, k: nat) {
    && f.read == R.Init(c) && |f.run.w.log| == k && f.run.w.commit == 0
    && (forall n :: 0 <= n < k ==> !f.run.w.log[n].last)
    && !f.run.w.drop && !f.run.w.mark && !f.run.w.send
  }

  predicate Releases(c: Config) { c.Valid() && c.frameFifo && !c.dropOversize }

  lemma FloodStep(c: Config, f: S.Fifo, k: nat)
    requires Releases(c) && S.Inv(c, f) && Flooded(c, f, k) && k < c.Depth()
    ensures Flooded(c, S.Step(c, f, S.Tick(true, MORE, false)), k + 1)
  {
    hide R.Step, R.Init;
    StaysInit(c, f.run.w.log);
    S.StepParts(c, f, S.Tick(true, MORE, false));
  }

  lemma {:induction false} FloodRun(c: Config, k: nat)
    requires Releases(c) && k <= c.Depth()
    ensures Flooded(c, S.Execute(c, Flood(k)), k)
  {
    hide S.Step, S.Inv;
    if k > 0 {
      FloodRun(c, k - 1);
      assert Flood(k) == Flood(k - 1) + [S.Tick(true, MORE, false)];
      S.ExecuteOne(c, Flood(k - 1), S.Tick(true, MORE, false));
      FloodStep(c, S.Execute(c, Flood(k - 1)), k - 1);
    }
  }

  /** The memory is full of one unfinished frame, and all of it is readable. */
  ghost predicate Released(c: Config, f: S.Fifo) {
    && S.Inv(c, f)
    && f.run.w.commit == |f.run.w.log| > 0
    && forall n :: 0 <= n < |f.run.w.log| ==> !f.run.w.log[n].last
  }

  lemma ReleaseStep(c: Config, f: S.Fifo)
    requires Releases(c) && S.Inv(c, f) && Flooded(c, f, c.Depth())
    ensures var g := S.Step(c, f, S.Tick(true, MORE, false)); Released(c, g) && g.read == R.Init(c)
  {
    hide R.Step, R.Init;
    StaysInit(c, f.run.w.log);
    S.StepParts(c, f, S.Tick(true, MORE, false));
  }

  /** The sink is ready and nothing more comes in. */
  function Drain(k: nat): (ts: seq<S.Tick>)
    ensures |ts| == k
  {
    seq(k, i => S.Tick(false, MORE, true))
  }

  lemma DrainStep(c: Config, f: S.Fifo)
    requires Releases(c) && Released(c, f)
    ensures var g := S.Step(c, f, S.Tick(false, MORE, true));
      && Released(c, g) && g.run.w.log == f.run.w.log
      && g.read == R.Step(c, f.read, f.run.w.log, f.run.w.commit, true)
  {
    hide R.Step;
    S.StepParts(c, f, S.Tick(false, MORE, true));
  }

  lemma {:induction false} DrainRun(c: Config, ins: seq<S.Tick>, k: nat)
    requires Releases(c) && Released(c, S.Execute(c, ins))
    ensures var f, g := S.Execute(c, ins), S.Execute(c, ins + Drain(k));
      && Released(c, g) && g.run.w.log == f.run.w.log
      && g.read == Sink(c, f.read, f.run.w.log, f.run.w.commit, k)
  {
    hide S.Step, R.Step, S.Inv, R.ReadInv;
    Readable(c, S.Execute(c, ins));
    if k == 0 {
      assert ins + Drain(0) == ins;
    } else {
      DrainRun(c, ins, k - 1);
      assert ins + Drain(k) == ins + Drain(k - 1) + [S.Tick(false, MORE, true)];
      S.ExecuteOne(c, ins + Drain(k - 1), S.Tick(false, MORE, true));
      DrainStep(c, S.Execute(c, ins + Drain(k - 1)));
    }
  }

  /** A frame that does not fit is released and breaks off, whatever the read side looks like. */
  lemma OversizeBreaksOff(c: Config) returns (ins: seq<S.Tick>, t: S.Tick)
    requires Releases(c)
    ensures !S.NoGap(c, ins, t)
  {
    hide S.Step, R.Step, Released, R.Init, Sink, Flood, Drain;
    t := S.Tick(true, MORE, false);
    FloodRun(c, c.Depth());
    ins := Flood(c.Depth()) + [t];
    S.ExecuteOne(c, Flood(c.Depth()), t);
    ReleaseStep(c, S.Execute(c, Flood(c.Depth())));
    var f := S.Execute(c, ins);
    Readable(c, f);
    var k := Emerges(c, f.run.w.log, f.run.w.commit);
    k := RunsDry(c, f.read, f.run.w.log, f.run.w.commit, k);
    DrainRun(c, ins, k);
    DrainRun(c, ins, k + 1);
    Readable(c, S.Execute(c, ins + Drain(k)));
    NoneLast(c, S.Execute(c, ins + Drain(k)).read, f.run.w.log, f.run.w.commit);
    OneMore(ins, k);
    ins, t := ins + Drain(k), S.Tick(false, MORE, true);
  }

  lemma Readable(c: Config, f: S.Fifo)
    requires Released(c, f)
    ensures R.ReadInv(c, f.read, f.run.w.log, f.run.w.commit) && 0 < f.run.w.commit == |f.run.w.log|
    ensures forall n :: 0 <= n < |f.run.w.log| ==> !f.run.w.log[n].last
  {
  }

  lemma OneMore(ins: seq<S.Tick>, k: nat)
    ensures ins + Drain(k + 1) == ins + Drain(k) + [S.Tick(false, MORE, true)]
  {
  }

  // ------------------------------------------------------------- exactly

  /**
   The promise of frame mode, that tvalid is not deasserted within a frame, is
   kept exactly if oversize frames are dropped and the output FIFO is not
   behind a single pipeline register, or the memory holds a single word.
   */
  lemma ContinuityExactly(c: Config)
    requires c.Valid() && c.frameFifo
    ensures S.Continuous(c) <==> c.dropOversize && S.Seamless(c)
  {
    hide S.NoGap;
    if !c.dropOversize {
      var ins, t := OversizeBreaksOff(c);
    } else if S.Seamless(c) {
      forall ins, t ensures S.NoGap(c, ins, t) { S.FrameContinuity(c, ins, t); }
    } else {
      BreaksOff(c);
    }
  }
}
