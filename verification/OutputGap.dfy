/**
 How frames break off on the port: with one pipeline register in front of the
 output FIFO, and when less than a whole frame is released.
 */
module OutputGap {
  import opened Words
  import opened Streams
  import R = FifoRead
  import G = FifoGap

  /** A register that is empty or holds a word, or a flag. */
  type Slot = n: nat | n <= 1

  function One(b: bool): Slot { if b then 1 else 0 }

  /** The read side of a stream of words by its counts: delivered, in the output FIFO, in the registers. */
  datatype Counts = Counts(
    words: seq<Beat>,
    sent: nat,
    out: Slot,
    queued: nat,
    top: Slot,
    bottom: Slot,
    late: Slot)
  {
    function Read(): nat { sent + out + queued + top + bottom }
  }

  function Begin(words: seq<Beat>): Counts { Counts(words, 0, 0, 0, 0, 0, 0) }

  /** One edge with one pipeline register and an output FIFO of eight, n words being readable. */
  function Next(s: Counts, n: nat, ready: bool): Counts {
    var pops := s.queued > 0 && (s.out == 0 || ready);
    Counts(s.words,
           if ready then s.sent + s.out else s.sent,
           if pops then 1 else if ready then 0 else s.out,
           s.queued - One(pops) + s.top,
           s.bottom,
           One(s.late == 0 && s.Read() < n),
           One(s.queued >= 4))
  }

  /** The default number of pipeline registers, with the output FIFO. */
  predicate Exceptional(c: Config) {
    c.outputFifo && c.ramPipeline == 1
  }

  function Shows(s: Counts): R.Read
    requires s.Read() <= |s.words|
  {
    var log, o := s.words, s.sent + s.out;
    var t := o + s.queued;
    var b := t + s.top;
    R.Read(s.Read(),
           [if s.bottom == 1 then Some(log[b]) else None, if s.top == 1 then Some(log[t]) else None],
           log[o..t],
           s.late == 1,
           if s.out == 1 then Some(log[s.sent]) else None,
           log[..s.sent])
  }

  lemma Sizes(c: Config)
    requires Exceptional(c)
    ensures R.Half(c) == 4 && R.Capacity(c) == 8
  {
    assert Pow2(2) == 2 * Pow2(1) && Pow2(1) == 2 * Pow2(0);
  }

  lemma TwoStages(bottom: Option<Beat>, top: Option<Beat>, feed: Option<Beat>)
    ensures R.Advance([bottom, top], true, feed) == [feed, bottom]
  {
    assert R.Front([bottom, top]) == [bottom];
  }

  lemma PipeFollows(c: Config, s: Counts, log: seq<Beat>, limit: nat, ready: bool)
    requires Exceptional(c) && s.Read() <= limit <= |log| && log <= s.words && s.queued < 8
    ensures var s', q := Next(s, limit, ready), R.Step(c, Shows(s), log, limit, ready);
      && s'.Read() == q.rd <= limit
      && q.pipe == Shows(s').pipe && q.halfFull == (s'.late == 1)
  {
    hide R.Half, R.Capacity, R.Advance, R.Bubble;
    Sizes(c);
    var r := Shows(s);
    TwoStages(r.pipe[0], r.pipe[1], if R.Takes(c, r, limit, ready) then Some(log[r.rd]) else None);
  }

  lemma PortFollows(c: Config, s: Counts, log: seq<Beat>, limit: nat, ready: bool)
    requires Exceptional(c) && s.Read() <= limit <= |log| && log <= s.words && s.queued < 8
    requires Next(s, limit, ready).Read() <= limit
    ensures var r', q := Shows(Next(s, limit, ready)), R.Step(c, Shows(s), log, limit, ready);
      q.out == r'.out && q.delivered == r'.delivered
  {
    hide R.Half, R.Capacity, R.Advance, R.Takes;
    Sizes(c);
  }

  lemma Window(log: seq<Beat>, o: nat, t: nat, pops: bool, pushes: bool)
    requires o + One(pops) <= t && t + One(pushes) <= |log|
    ensures (if pops then log[o..t][1..] else log[o..t]) + (if pushes then [log[t]] else [])
         == log[o + One(pops)..t + One(pushes)]
  {
  }

  lemma StepQueue(c: Config, r: R.Read, log: seq<Beat>, limit: nat, ready: bool)
    requires Exceptional(c) && |r.pipe| == 2 && |r.fifo| < 8 && limit <= |log|
    ensures R.Step(c, r, log, limit, ready).fifo
         == (if r.fifo != [] && (r.out.None? || ready) then r.fifo[1..] else r.fifo) + OptSeq(r.pipe[1])
  {
    hide R.Half, R.Capacity, R.Advance, R.Takes;
    Sizes(c);
  }

  lemma ShowsQueue(s: Counts)
    requires s.Read() <= |s.words|
    ensures var log, o, r := s.words, s.sent + s.out, Shows(s);
      && r.fifo == log[o..o + s.queued] && |r.fifo| == s.queued && r.out.Some? == (s.out == 1)
      && |r.pipe| == 2 && OptSeq(r.pipe[1]) == if s.top == 1 then [log[o + s.queued]] else []
  {
  }

  lemma NextQueue(s: Counts, n: nat, ready: bool)
    ensures var pops, s' := s.queued > 0 && (s.out == 0 || ready), Next(s, n, ready);
      && s'.words == s.words && s'.sent + s'.out == s.sent + s.out + One(pops)
      && s'.queued == s.queued - One(pops) + s.top
  {
  }

  lemma QueueFollows(c: Config, s: Counts, log: seq<Beat>, limit: nat, ready: bool)
    requires Exceptional(c) && s.Read() <= limit <= |log| && log <= s.words && s.queued < 8
    requires Next(s, limit, ready).Read() <= limit
    ensures R.Step(c, Shows(s), log, limit, ready).fifo == Shows(Next(s, limit, ready)).fifo
  {
    hide R.Step, Shows, Next, OptSeq;
    NextQueue(s, limit, ready);
    var o := s.sent + s.out;
    var pops := s.queued > 0 && (s.out == 0 || ready);
    ShowsQueue(s);
    ShowsQueue(Next(s, limit, ready));
    StepQueue(c, Shows(s), log, limit, ready);
    Window(s.words, o, o + s.queued, pops, s.top == 1);
    var r := Shows(s);
    assert pops == (r.fifo != [] && (r.out.None? || ready));
    assert OptSeq(r.pipe[1]) == if s.top == 1 then [s.words[o + s.queued]] else [];
  }

  lemma NextFollows(c: Config, s: Counts, log: seq<Beat>, limit: nat, ready: bool)
    requires Exceptional(c) && s.Read() <= limit <= |log| && log <= s.words && s.queued < 8
    ensures Next(s, limit, ready).Read() <= limit && Next(s, limit, ready).words == s.words
    ensures R.Step(c, Shows(s), log, limit, ready) == Shows(Next(s, limit, ready))
  {
    hide R.Step;
    PipeFollows(c, s, log, limit, ready);
    QueueFollows(c, s, log, limit, ready);
    PortFollows(c, s, log, limit, ready);
  }

  const IDLE: R.Read := R.Read(0, [None, None], [], false, None, [])

  lemma InitIdle(c: Config)
    requires c.ramPipeline == 1
    ensures R.Init(c) == IDLE
  {
    assert R.Init(c).pipe == [None, None];
  }

  lemma ShowsIdle(words: seq<Beat>)
    ensures Begin(words).Read() == 0 && Shows(Begin(words)) == IDLE
  {
    assert words[0..0] == [] && words[..0] == [];
    assert Shows(Begin(words)).pipe == [None, None];
  }

  // ----------------------------------------------------- part of a frame

  /** A word that does not end its frame. */
  const MORE := Beat(0, false, [])

  lemma {:induction false} Empties(n: nat)
    ensures R.Advance(seq(n, i => None), false, None) == seq(n, i => None)
    ensures n > 0 ==> R.Advance(seq(n, i => None), true, None) == seq(n, i => None)
  {
    if n > 0 {
      var p: R.Pipe := seq(n, i => None);
      assert [None] + R.Front(p) == p;
    }
  }

  /** With nothing to read the read side stays as it is. */
  lemma StaysInit(c: Config, log: seq<Beat>)
    ensures R.Step(c, R.Init(c), log, 0, false) == R.Init(c)
  {
    hide R.Capacity, R.Advance;
    Empties(c.ramPipeline + 1);
    var r := R.Step(c, R.Init(c), log, 0, false);
    assert r.pipe == R.Init(c).pipe;
    assert r.fifo == [];
  }

  /** The read side with a ready sink and nothing new to read. */
  function Sink(c: Config, r: R.Read, log: seq<Beat>, limit: nat, k: nat): (r': R.Read)
    requires R.ReadInv(c, r, log, limit)
    ensures R.ReadInv(c, r', log, limit)
  {
    if k == 0 then r
    else
      var q := Sink(c, r, log, limit, k - 1);
      R.ReadStepInv(c, q, log, limit, true);
      R.Step(c, q, log, limit, true)
  }

  lemma AllUp(c: Config, r: R.Read, log: seq<Beat>, limit: nat)
    requires R.ReadInv(c, r, log, limit)
    ensures var feed := if R.Takes(c, r, limit, true) then Some(log[r.rd]) else None;
      R.Step(c, r, log, limit, true).pipe == [feed] + R.Front(r.pipe)
  {
    G.AdvanceAll(r.pipe, if R.Takes(c, r, limit, true) then Some(log[r.rd]) else None);
  }

  /** The first word climbs one stage an edge. */
  lemma {:induction false} Climbs(c: Config, log: seq<Beat>, limit: nat, k: nat)
    requires 0 < limit <= |log| && 1 <= k <= c.ramPipeline + 1 && R.ReadInv(c, R.Init(c), log, limit)
    ensures Sink(c, R.Init(c), log, limit, k).pipe[k - 1].Some?
  {
    hide R.ReadInv, R.Step;
    var q := Sink(c, R.Init(c), log, limit, k - 1);
    Whole(c, q, log, limit);
    AllUp(c, q, log, limit);
    if k > 1 { Climbs(c, log, limit, k - 1); }
  }

  lemma Whole(c: Config, r: R.Read, log: seq<Beat>, limit: nat)
    requires R.ReadInv(c, r, log, limit)
    ensures |r.pipe| == c.ramPipeline + 1 && r.rd <= limit <= |log| && |r.delivered| <= limit
  {
    R.DeliveredWithin(c, r, log, limit);
  }

  /** So a word is offered after a while. */
  lemma Emerges(c: Config, log: seq<Beat>, limit: nat) returns (k: nat)
    requires 0 < limit <= |log| && R.ReadInv(c, R.Init(c), log, limit)
    ensures R.Offer(c, Sink(c, R.Init(c), log, limit, k)).Some?
  {
    hide R.ReadInv, R.Half, R.Capacity, R.Advance;
    k := c.ramPipeline + 1;
    Climbs(c, log, limit, k);
    var top := Sink(c, R.Init(c), log, limit, k);
    Whole(c, top, log, limit);
    if c.outputFifo {
      R.NoOverflow(c, top, log, limit);
      k := k + 2;
    }
  }

  /** Nothing more is offered in the end: somewhere a word is taken that has no successor. */
  lemma {:induction false} RunsDry(c: Config, r: R.Read, log: seq<Beat>, limit: nat, from: nat) returns (k: nat)
    requires R.ReadInv(c, r, log, limit) && R.Offer(c, Sink(c, r, log, limit, from)).Some?
    ensures R.Offer(c, Sink(c, r, log, limit, k)).Some? && R.Offer(c, Sink(c, r, log, limit, k + 1)).None?
    decreases limit - |Sink(c, r, log, limit, from).delivered|
  {
    hide R.ReadInv, R.Half, R.Capacity, R.Advance;
    var q, q' := Sink(c, r, log, limit, from), Sink(c, r, log, limit, from + 1);
    Whole(c, q, log, limit);
    Whole(c, q', log, limit);
    assert |q'.delivered| == |q.delivered| + 1;
    if R.Offer(c, q').None? { k := from; } else { k := RunsDry(c, r, log, limit, from + 1); }
  }

  /** If none of the readable words ends a frame, neither does the offered one. */
  lemma NoneLast(c: Config, r: R.Read, log: seq<Beat>, limit: nat)
    requires R.ReadInv(c, r, log, limit) && R.Offer(c, r).Some?
    requires forall n :: 0 <= n < |log| ==> !log[n].last
    ensures !R.Offer(c, r).value.last
  {
    var o := R.Offer(c, r).value;
    R.Conserved(c, r, log, limit);
    OfferHeld(c, r);
    assert o in log;
  }

  lemma OfferHeld(c: Config, r: R.Read)
    requires r.pipe != [] && R.Offer(c, r).Some?
    ensures R.Offer(c, r).value in OptSeq(r.out) || R.Offer(c, r).value in R.Contents(r.pipe)
  {
  }
}
