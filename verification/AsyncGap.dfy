/** Exactly which dual-clock frame FIFOs pass frames without a gap. */
module AsyncGap {
  import opened Words
  import opened Streams
  import opened OutputGap
  import W = FifoWrite
  import R = FifoRead
  import A = AsyncFifo
  import C = AsyncContinuity

  // ------------------------------------ one pipeline register, output FIFO

  /** Seven words: a frame of four, one of one and one of two. */
  function Stream(): (words: seq<Beat>)
    ensures |words| == 7
  {
    seq(7, i requires 0 <= i => Beat(i, i != 0 && i != 1 && i != 2 && i != 5, []))
  }

  /** The protocol state by its counts, while no commit has to wait for the ring. */
  datatype State = State(
    stored: nat,
    committed: nat,
    seen: nat,
    update: bool,
    sync1: bool,
    sync2: bool,
    sync3: bool,
    ack1: bool,
    ack2: bool,
    rdSync1: nat,
    rdSync2: nat,
    read: Counts)

  /** An edge of the write clock, with or without a word, or of the read clock. */
  datatype Op = Put | Idle | Take(ready: bool)

  /** The state before edge k of the run, and the edge. */
  function At(k: nat, words: seq<Beat>): State {
    State(
      if k <= 4 then k else if k <= 13 then 4 else if k <= 19 then 5 else if k == 20 then 6 else 7,
      Committed(k),
      Seen(k),
      4 <= k <= 13 || k >= 21,
      5 <= k <= 14 || k >= 22,
      6 <= k <= 15 || k >= 23,
      7 <= k <= 16 || k >= 24,
      12 <= k <= 17,
      13 <= k <= 18,
      if k <= 11 then 0 else 4,
      if k <= 12 then 0 else 4,
      After(k, words))
  }

  function Committed(k: nat): nat {
    if k <= 3 then 0 else if k <= 13 then 4 else if k <= 20 then 5 else 7
  }

  function After(k: nat, words: seq<Beat>): Counts {
    Counts(
      words,
      if k >= 27 then k - 26 else 0,
      One(11 <= k <= 31),
      if k <= 9 then 0 else if k <= 14 then 1 else if k == 15 then 2 else if k <= 23 then 3
      else if k <= 27 then 4 else if k <= 31 then 31 - k else 1,
      One(9 <= k <= 15 || k == 23 || k == 26 || k == 31),
      One(8 <= k <= 14 || k == 22 || k == 25 || k == 30),
      One(25 <= k <= 28))
  }

  function Edge(k: nat): Op {
    if k <= 3 || k == 13 || k == 19 || k == 20 then Put
    else if k == 11 || k == 12 || k == 17 || k == 18 then Idle
    else Take(k >= 26)
  }

  function Pins(s: State, op: Op): A.Tick {
    match op
    case Put =>
      var b := if s.stored < 7 then Stream()[s.stored] else BLANK;
      A.Tick(true, false, true, b, false, false, false, false, false, 0)
    case Idle => A.Tick(true, false, false, BLANK, false, false, false, false, false, 0)
    case Take(ready) => A.Tick(false, true, false, BLANK, ready, false, false, false, false, 0)
  }

  predicate Default(c: Config) {
    c.Valid() && c.dropOversize && Exceptional(c) && c.addrWidth >= 2
  }

  lemma FourWords(c: Config)
    requires Default(c)
    ensures c.Depth() >= 4
  {
    assert Pow2(c.addrWidth) == 2 * Pow2(c.addrWidth - 1) && Pow2(c.addrWidth - 1) == 2 * Pow2(c.addrWidth - 2);
  }

  ghost predicate Holding(w: W.Write, stored: nat, committed: nat) {
    !w.drop && !w.mark && stored <= 7 && w.log == Stream()[..stored] && w.commit == committed <= stored
  }

  ghost predicate Stands(f: A.Fifo, s: State) {
    && Holding(f.run.w, s.stored, s.committed)
    && s.read.words == Stream() && s.read.Read() <= 7 && f.read == Shows(s.read)
    && f.published == s.committed && f.seen == s.seen && !f.pending
    && f.update == s.update && f.sync1 == s.sync1 && f.sync2 == s.sync2 && f.sync3 == s.sync3
    && f.ack1 == s.ack1 && f.ack2 == s.ack2
    && f.rdSync1 == s.rdSync1 && f.rdSync2 == s.rdSync2
  }

  function Seen(k: nat): nat { if k <= 6 then 0 else if k <= 16 then 4 else if k <= 23 then 5 else 7 }

  /** How many words have been read before edge k. */
  lemma ReadSoFar(k: nat, words: seq<Beat>)
    requires k <= 32
    ensures After(k, words).Read() ==
      if k <= 7 then 0 else if k <= 10 then k - 7 else if k <= 21 then 4 else if k <= 24 then 5
      else if k <= 29 then 6 else 7
  {
  }

  lemma NothingYet(k: nat, words: seq<Beat>)
    requires 4 <= k <= 6
    ensures After(k + 1, words) == Next(After(k, words), Seen(k), false)
  {
    ReadSoFar(k, words);
  }

  lemma FirstReads(k: nat, words: seq<Beat>)
    requires 7 <= k <= 10
    ensures After(k + 1, words) == Next(After(k, words), Seen(k), false)
  {
    ReadSoFar(k, words);
  }

  lemma MoreReads(k: nat, words: seq<Beat>)
    requires 14 <= k <= 16
    ensures After(k + 1, words) == Next(After(k, words), Seen(k), false)
  {
    ReadSoFar(k, words);
  }

  /** The flag rises between the two words of the last frame. */
  lemma LastReads(k: nat, words: seq<Beat>)
    requires 21 <= k <= 25
    ensures After(k + 1, words) == Next(After(k, words), Seen(k), false)
  {
    ReadSoFar(k, words);
  }

  lemma StalledNext(k: nat, words: seq<Beat>)
    requires k <= 25 && Edge(k).Take?
    ensures After(k + 1, words) == Next(After(k, words), Seen(k), false)
  {
    hide After, Next;
    if k <= 6 {
      NothingYet(k, words);
    } else if k <= 10 {
      FirstReads(k, words);
    } else if k <= 16 {
      MoreReads(k, words);
    } else {
      LastReads(k, words);
    }
  }

  /** The sink is ready, and the flag falls too late. */
  lemma ReadyNext(k: nat, words: seq<Beat>)
    requires 26 <= k <= 31
    ensures After(k + 1, words) == Next(After(k, words), Seen(k), true)
  {
    ReadSoFar(k, words);
  }

  lemma CountsFit(k: nat, words: seq<Beat>)
    requires k <= 31
    ensures var s := At(k, words);
      s.read.Read() <= s.seen <= s.committed <= s.stored <= 7 && s.read.queued < 8 && s.read.words == words
  {
    ReadSoFar(k, words);
  }

  lemma NotRead(k: nat, words: seq<Beat>)
    requires k <= 31 && !Edge(k).Take?
    ensures After(k + 1, words) == After(k, words)
  {
  }

  lemma Ends(n: nat)
    requires n < 7
    ensures Stream()[n].last <==> n == 3 || n == 4 || n == 6
  {
  }

  /** The memory has room for the word. */
  lemma PutRoom(k: nat, words: seq<Beat>)
    requires k <= 31 && Edge(k) == Put
    ensures var s := At(k, words); s.stored < 7 && s.stored < s.rdSync2 + 4 && s.stored < s.committed + 4
    ensures At(k, words).read.Read() == At(k, words).rdSync1
  {
    ReadSoFar(k, words);
  }

  lemma PutNext(k: nat, words: seq<Beat>)
    requires k <= 31 && Edge(k) == Put
    ensures var s, n := At(k, words), At(k + 1, words);
      && s.stored < 7
      && n.committed == (if Stream()[s.stored].last then s.stored + 1 else s.committed)
      && (n.committed != s.committed ==> s.update == s.ack2)
      && n == State(s.stored + 1, n.committed, s.seen, s.update != (n.committed != s.committed),
           s.sync1, s.sync2, s.sync3, s.sync3, s.ack1, s.read.Read(), s.rdSync1, s.read)
  {
    hide After, Stream;
    PutRoom(k, words);
    NotRead(k, words);
    Ends(At(k, words).stored);
  }

  lemma IdleNext(k: nat, words: seq<Beat>)
    requires k <= 31 && Edge(k) == Idle
    ensures var s := At(k, words);
      At(k + 1, words) == s.(ack1 := s.sync3, ack2 := s.ack1, rdSync1 := s.read.Read(), rdSync2 := s.rdSync1)
  {
    ReadSoFar(k, words);
  }

  lemma TakeNext(k: nat, words: seq<Beat>)
    requires k <= 31 && Edge(k).Take?
    ensures var s, ready := At(k, words), Edge(k).ready;
      At(k + 1, words) == s.(seen := if s.sync2 != s.sync3 then s.committed else s.seen,
                      sync1 := s.update, sync2 := s.sync1, sync3 := s.sync2, read := Next(s.read, s.seen, ready))
  {
    hide After, Next;
    if k <= 25 { StalledNext(k, words); } else { ReadyNext(k, words); }
  }

  lemma Stores(c: Config, w: W.Write, s: State)
    requires Default(c) && Holding(w, s.stored, s.committed)
    requires s.stored < 7 && s.stored < s.committed + 4
    ensures Holding(W.Step(c, w, false, true, Stream()[s.stored]), s.stored + 1,
                    if Stream()[s.stored].last then s.stored + 1 else s.committed)
  {
    FourWords(c);
    assert Stream()[..s.stored + 1] == Stream()[..s.stored] + [Stream()[s.stored]];
    assert !c.BadUser([]);
  }

  lemma PutFollows(c: Config, f: A.Fifo, k: nat)
    requires Default(c) && A.Inv(c, f) && k <= 31 && Edge(k) == Put && Stands(f, At(k, Stream()))
    ensures A.Sound(c, f) && Stands(A.Step(c, f, Pins(At(k, Stream()), Put)), At(k + 1, Stream()))
  {
    hide R.Step, W.Step, Shows, Stream, A.Inv, At;
    CountsFit(k, Stream());
    PutRoom(k, Stream());
    PutNext(k, Stream());
    FourWords(c);
    A.Bounds(c, f);
    ShowsRead(At(k, Stream()).read);
    Stores(c, f.run.w, At(k, Stream()));
    A.StepParts(c, f, Pins(At(k, Stream()), Put));
  }

  lemma IdleFollows(c: Config, f: A.Fifo, k: nat)
    requires Default(c) && A.Inv(c, f) && k <= 31 && Edge(k) == Idle && Stands(f, At(k, Stream()))
    ensures A.Sound(c, f) && Stands(A.Step(c, f, Pins(At(k, Stream()), Idle)), At(k + 1, Stream()))
  {
    hide R.Step, W.Step, Shows, Stream, A.Inv, At, Holding;
    CountsFit(k, Stream());
    IdleNext(k, Stream());
    A.Bounds(c, f);
    ShowsRead(At(k, Stream()).read);
    Keeps(c, f.run.w, A.Full(c, f), At(k, Stream()).stored, At(k, Stream()).committed);
    A.StepParts(c, f, Pins(At(k, Stream()), Idle));
  }

  lemma Keeps(c: Config, w: W.Write, full: bool, stored: nat, committed: nat)
    requires Default(c) && Holding(w, stored, committed)
    ensures var w' := W.Step(c, w, full, false, BLANK); Holding(w', stored, committed) && w'.commit == w.commit
  {
  }

  lemma TakeFollows(c: Config, f: A.Fifo, k: nat)
    requires Default(c) && A.Inv(c, f) && k <= 31 && Edge(k).Take? && Stands(f, At(k, Stream()))
    ensures A.Sound(c, f) && Stands(A.Step(c, f, Pins(At(k, Stream()), Edge(k))), At(k + 1, Stream()))
  {
    hide R.Step, W.Step, Shows, Stream, A.Inv, At, Next;
    CountsFit(k, Stream());
    TakeNext(k, Stream());
    A.Bounds(c, f);
    NextFollows(c, At(k, Stream()).read, f.run.w.log, At(k, Stream()).seen, Edge(k).ready);
  }

  lemma ShowsRead(s: Counts)
    requires s.Read() <= |s.words|
    ensures Shows(s).rd == s.Read()
  {
  }

  function Ticks(k: nat): (ts: seq<A.Tick>)
    ensures |ts| == k
  {
    seq(k, i requires 0 <= i => Pins(At(i, Stream()), Edge(i)))
  }

  lemma HoldsNothing()
    ensures Holding(W.INIT, 0, 0)
  {
    hide Stream;
    assert Stream()[..0] == [];
  }

  lemma AtStart()
    ensures var s := At(0, Stream());
      && s.stored == s.committed == s.seen == s.rdSync1 == s.rdSync2 == 0
      && !s.update && !s.sync1 && !s.sync2 && !s.sync3 && !s.ack1 && !s.ack2
      && s.read == Begin(Stream())
  {
  }

  lemma Starts(c: Config)
    requires Default(c)
    ensures Stands(A.Init(c), At(0, Stream()))
  {
    hide Stream, At, Shows, R.Init, Holding;
    InitIdle(c);
    AtStart();
    ShowsIdle(Stream());
    HoldsNothing();
  }

  lemma {:induction false} Follows(c: Config, k: nat)
    requires Default(c) && k <= 32
    ensures Stands(A.Execute(c, Ticks(k)), At(k, Stream()))
  {
    hide Stands, A.Step, A.Inv, At, Pins;
    if k == 0 {
      Starts(c);
    } else {
      var f := A.Execute(c, Ticks(k - 1));
      Follows(c, k - 1);
      assert Ticks(k)[..k - 1] == Ticks(k - 1);
      match Edge(k - 1)
      case Put => PutFollows(c, f, k - 1);
      case Idle => IdleFollows(c, f, k - 1);
      case Take(ready) => TakeFollows(c, f, k - 1);
    }
  }

  lemma LastStates()
    ensures After(31, Stream()) == Counts(Stream(), 5, 1, 0, 1, 0, 0)
    ensures After(32, Stream()) == Counts(Stream(), 6, 0, 1, 0, 0, 0)
    ensures !Stream()[5].last
  {
  }

  /** The first word of the last frame is taken, and nothing is offered next. */
  lemma BreaksOff(c: Config)
    requires Default(c)
    ensures !C.NoGap(c, Ticks(31), Pins(At(31, Stream()), Edge(31)))
  {
    hide A.Execute, Stream, After;
    assert Ticks(31) + [Pins(At(31, Stream()), Edge(31))] == Ticks(32);
    Follows(c, 31);
    Follows(c, 32);
    LastStates();
  }

  // ------------------------------------------- oversize frames released early

  predicate Releases(c: Config) { c.Valid() && c.frameFifo && !c.dropOversize }

  /** An edge of the write clock with a word of a frame that does not end. */
  const PUT := A.Tick(true, false, true, MORE, false, false, false, false, false, 0)

  /** An edge of the read clock. */
  function Sinking(ready: bool): A.Tick {
    A.Tick(false, true, false, MORE, ready, false, false, false, false, 0)
  }

  function Flood(k: nat): (ts: seq<A.Tick>)
    ensures |ts| == k
  {
    seq(k, i => PUT)
  }

  /** Nothing has crossed to the read side yet. */
  ghost predicate Apart(c: Config, f: A.Fifo) {
    && f.read == R.Init(c) && f.seen == 0 && f.rdSync1 == f.rdSync2 == 0
    && f.sync1 == f.sync2 == f.sync3 == f.ack1 == f.ack2 == false
  }

  ghost predicate Flooded(c: Config, f: A.Fifo, k: nat) {
    && Apart(c, f) && |f.run.w.log| == k && f.run.w.commit == f.published == 0 && !f.pending && !f.update
    && (forall n :: 0 <= n < k ==> !f.run.w.log[n].last)
    && !f.run.w.drop && !f.run.w.mark && !f.run.w.send
  }

  lemma FloodStep(c: Config, f: A.Fifo, k: nat)
    requires Releases(c) && A.Inv(c, f) && Flooded(c, f, k) && k < c.Depth()
    ensures Flooded(c, A.Step(c, f, PUT), k + 1)
  {
    hide R.Step, R.Init, A.Inv;
    A.Bounds(c, f);
    A.StepParts(c, f, PUT);
    InitAtZero(c);
  }

  lemma InitAtZero(c: Config)
    ensures R.Init(c).rd == 0
  {
  }

  lemma {:induction false} FloodRun(c: Config, k: nat)
    requires Releases(c) && k <= c.Depth()
    ensures Flooded(c, A.Execute(c, Flood(k)), k)
  {
    hide A.Step, A.Inv;
    if k > 0 {
      FloodRun(c, k - 1);
      assert Flood(k)[..k - 1] == Flood(k - 1);
      FloodStep(c, A.Execute(c, Flood(k - 1)), k - 1);
    }
  }

  /** All that fits of the frame is committed and on its way to the reader. */
  ghost predicate Released(c: Config, f: A.Fifo) {
    && A.Inv(c, f)
    && f.published == f.run.w.commit == |f.run.w.log| > 0
    && forall n :: 0 <= n < |f.run.w.log| ==> !f.run.w.log[n].last
  }

  lemma ReleaseStep(c: Config, f: A.Fifo)
    requires Releases(c) && A.Inv(c, f) && Flooded(c, f, c.Depth())
    ensures var g := A.Step(c, f, PUT); Released(c, g) && Apart(c, g) && g.update
  {
    hide R.Step, R.Init, R.ReadInv;
    A.Bounds(c, f);
    A.StepParts(c, f, PUT);
    A.StepInv(c, f, PUT);
    InitAtZero(c);
  }

  lemma SinkStep(c: Config, f: A.Fifo, ready: bool)
    requires Releases(c) && Released(c, f)
    ensures var g := A.Step(c, f, Sinking(ready));
      && Released(c, g) && g.run == f.run && g.update == f.update
      && g.sync1 == f.update && g.sync2 == f.sync1 && g.sync3 == f.sync2
      && g.seen == (if f.sync2 != f.sync3 then f.published else f.seen)
      && g.read == R.Step(c, f.read, f.run.w.log, f.seen, ready)
  {
    hide R.Step, R.ReadInv;
    A.Bounds(c, f);
    A.StepInv(c, f, Sinking(ready));
  }

  /** After three edges of the read clock the reader knows. */
  lemma Crosses(c: Config, ts: seq<A.Tick>)
    requires Releases(c) && Released(c, A.Execute(c, ts)) && Apart(c, A.Execute(c, ts)) && A.Execute(c, ts).update
    ensures var f := A.Execute(c, ts + [Sinking(false), Sinking(false), Sinking(false)]);
      Released(c, f) && f.seen == f.published && f.read == R.Init(c)
  {
    hide R.Step, A.Step, A.Inv, R.Init;
    var t := Sinking(false);
    var ts1, ts2, ts3 := ts + [t], ts + [t, t], ts + [t, t, t];
    assert ts1[..|ts|] == ts && ts2[..|ts| + 1] == ts1 && ts3[..|ts| + 2] == ts2;
    StaysInit(c, A.Execute(c, ts).run.w.log);
    SinkStep(c, A.Execute(c, ts), false);
    SinkStep(c, A.Execute(c, ts1), false);
    SinkStep(c, A.Execute(c, ts2), false);
  }

  function Drain(k: nat): (ts: seq<A.Tick>)
    ensures |ts| == k
  {
    seq(k, i => Sinking(true))
  }

  lemma {:induction false} DrainRun(c: Config, ts: seq<A.Tick>, k: nat)
    requires Releases(c) && Released(c, A.Execute(c, ts)) && A.Execute(c, ts).seen == A.Execute(c, ts).published
    ensures var f, g := A.Execute(c, ts), A.Execute(c, ts + Drain(k));
      && Released(c, g) && g.run == f.run && g.seen == g.published == f.seen
      && R.ReadInv(c, f.read, f.run.w.log, f.seen)
      && g.read == Sink(c, f.read, f.run.w.log, f.seen, k)
  {
    hide A.Step, R.Step, A.Inv, R.ReadInv;
    A.Bounds(c, A.Execute(c, ts));
    if k == 0 {
      assert ts + Drain(0) == ts;
    } else {
      DrainRun(c, ts, k - 1);
      assert (ts + Drain(k))[..|ts| + k - 1] == ts + Drain(k - 1);
      SinkStep(c, A.Execute(c, ts + Drain(k - 1)), true);
    }
  }

  lemma OneMore(ts: seq<A.Tick>, k: nat)
    ensures ts + Drain(k + 1) == ts + Drain(k) + [Sinking(true)]
  {
  }

  /** A frame that does not fit is released and breaks off. */
  lemma OversizeBreaksOff(c: Config) returns (ts: seq<A.Tick>, t: A.Tick)
    requires Releases(c)
    ensures !C.NoGap(c, ts, t)
  {
    hide A.Step, R.Step, Flooded, R.Init, Sink, Flood, Drain, A.Inv, R.ReadInv;
    FloodRun(c, c.Depth());
    ReleaseStep(c, A.Execute(c, Flood(c.Depth())));
    ts := Flood(c.Depth()) + [PUT];
    assert ts[..c.Depth()] == Flood(c.Depth());
    Crosses(c, ts);
    ts := ts + [Sinking(false), Sinking(false), Sinking(false)];
    var f := A.Execute(c, ts);
    A.Bounds(c, f);
    var k := Emerges(c, f.run.w.log, f.seen);
    k := RunsDry(c, f.read, f.run.w.log, f.seen, k);
    DrainRun(c, ts, k);
    DrainRun(c, ts, k + 1);
    NoneLast(c, A.Execute(c, ts + Drain(k)).read, f.run.w.log, f.seen);
    OneMore(ts, k);
    ts, t := ts + Drain(k), Sinking(true);
  }

  // ------------------------------------------------------------- exactly

  /**
   Across the clock domains, the promise that tvalid is not deasserted within
   a frame is kept exactly if oversize frames are dropped and the output FIFO
   is not behind a single pipeline register, or the memory holds at most two
   words.
   */
  lemma ContinuityExactly(c: Config)
    requires c.Valid() && c.frameFifo
    ensures C.Continuous(c) <==> c.dropOversize && C.Seamless(c)
  {
    hide C.NoGap;
    if !c.dropOversize {
      var ts, t := OversizeBreaksOff(c);
    } else if C.Seamless(c) {
      forall ts, t ensures C.NoGap(c, ts, t) { C.FrameContinuity(c, ts, t); }
    } else {
      BreaksOff(c);
    }
  }
}
