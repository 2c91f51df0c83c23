/**
 The read logic of both FIFOs: the bubble-collapsing RAM pipeline and the
 optional output FIFO. `limit` is an input: the commit pointer as far as the
 reader knows it; every result here holds for any limit within the log.
 */
module FifoRead {
  import opened Words
  import opened Streams

  type Pipe = seq<Option<Beat>>

  function Last<T>(s: seq<T>): T
    requires s != []
  {
    s[|s| - 1]
  }

  function Front<T>(s: seq<T>): seq<T>
    requires s != []
  {
    s[..|s| - 1]
  }

  /** The words in the stages, the oldest (top) stage first. */
  function Contents(p: Pipe): seq<Beat> {
    if p == [] then [] else OptSeq(Last(p)) + Contents(Front(p))
  }

  predicate Bubble(p: Pipe) {
    exists i :: 0 <= i < |p| && p[i].None?
  }

  /**
   One clock edge of the pipeline: the stages below the topmost free stage
   (the top itself when the output is ready) move up by one, and the word fed
   in enters stage 0. A full, stalled pipeline does not move.
   */
  function Advance(p: Pipe, ready: bool, feed: Option<Beat>): (q: Pipe)
    ensures |q| == |p|
  {
    if p == [] then []
    else if ready || Last(p).None? then [feed] + Front(p)
    else Advance(Front(p), false, feed) + [Last(p)]
  }

  datatype Read = Read(
    rd: nat,
    pipe: Pipe,
    fifo: seq<Beat>,
    halfFull: bool,
    out: Option<Beat>,
    delivered: seq<Beat>)

  function Init(c: Config): Read {
    Read(0, seq(c.ramPipeline + 1, i => None), [], false, None, [])
  }

  function OutWidth(c: Config): (k: nat)
    ensures k >= 1
  {
    if c.ramPipeline < 2 then 3 else Clog2(c.ramPipeline * 2 + 7)
  }

  function Capacity(c: Config): nat { Pow2(OutWidth(c)) }

  function Half(c: Config): nat { Pow2(OutWidth(c) - 1) }

  predicate PipeReady(c: Config, ready: bool) { c.outputFifo || ready }

  /** The word offered on the output port. */
  function Offer(c: Config, r: Read): Option<Beat>
    requires r.pipe != []
  {
    if c.outputFifo then r.out else Last(r.pipe)
  }

  /** The pipeline takes the word at the read pointer. */
  predicate Takes(c: Config, r: Read, limit: nat, ready: bool) {
    (PipeReady(c, ready) || Bubble(r.pipe)) && r.rd < limit && (c.outputFifo ==> !r.halfFull)
  }

  predicate Pushes(c: Config, r: Read)
    requires r.pipe != []
  {
    c.outputFifo && |r.fifo| < Capacity(c) && Last(r.pipe).Some?
  }

  predicate Pops(c: Config, r: Read, ready: bool) {
    c.outputFifo && r.fifo != [] && (r.out.None? || ready)
  }

  /** One clock edge of the read side. */
  function Step(c: Config, r: Read, log: seq<Beat>, limit: nat, ready: bool): Read
    requires limit <= |log| && r.pipe != []
  {
    var takes := Takes(c, r, limit, ready);
    var pops := Pops(c, r, ready);
    Read(
      if takes then r.rd + 1 else r.rd,
      Advance(r.pipe, PipeReady(c, ready), if takes then Some(log[r.rd]) else None),
      (if pops then r.fifo[1..] else r.fifo) + (if Pushes(c, r) then OptSeq(Last(r.pipe)) else []),
      c.outputFifo && |r.fifo| >= Half(c),
      if pops then Some(r.fifo[0]) else if ready then None else r.out,
      if ready then r.delivered + OptSeq(Offer(c, r)) else r.delivered)
  }

  // ------------------------------------------------------------ the pipeline

  lemma {:induction false} ContentsPush(x: Option<Beat>, p: Pipe)
    ensures Contents([x] + p) == Contents(p) + OptSeq(x)
  {
    if p == [] {
      assert Front([x]) == [];
      assert [x] + p == [x];
    } else {
      assert Front([x] + p) == [x] + Front(p);
      assert Last([x] + p) == Last(p);
      ContentsPush(x, Front(p));
      Assoc(OptSeq(Last(p)), Contents(Front(p)), OptSeq(x));
    }
  }

  lemma BubbleBelow(p: Pipe)
    requires Bubble(p) && Last(p).Some?
    ensures Bubble(Front(p))
  {
    var i :| 0 <= i < |p| && p[i].None?;
    assert Front(p)[i].None?;
  }

  /** A stalled output: the word fed in fills the topmost bubble from below. */
  lemma {:induction false} CollapseKeeps(p: Pipe, feed: Option<Beat>)
    requires feed.Some? ==> Bubble(p)
    ensures Contents(Advance(p, false, feed)) == Contents(p) + OptSeq(feed)
  {
    if p != [] {
      if Last(p).None? {
        ContentsPush(feed, Front(p));
      } else {
        if feed.Some? { BubbleBelow(p); }
        CollapseKeeps(Front(p), feed);
        var q := Advance(Front(p), false, feed);
        assert Front(q + [Last(p)]) == q;
        Assoc(OptSeq(Last(p)), Contents(Front(p)), OptSeq(feed));
      }
    }
  }

  /** Advancing keeps every word in order; the only word that leaves is a ready top. */
  lemma AdvanceKeeps(p: Pipe, ready: bool, feed: Option<Beat>)
    requires p != [] && (feed.Some? ==> ready || Bubble(p))
    ensures (if ready then OptSeq(Last(p)) else []) + Contents(Advance(p, ready, feed)) == Contents(p) + OptSeq(feed)
  {
    if ready {
      ContentsPush(feed, Front(p));
      Assoc(OptSeq(Last(p)), Contents(Front(p)), OptSeq(feed));
    } else {
      CollapseKeeps(p, feed);
    }
  }

  /** The words that have left the pipeline, oldest first. */
  function Passed(r: Read): seq<Beat> { r.delivered + OptSeq(r.out) + r.fifo }

  function Load(p: Pipe): nat { |Contents(p)| }

  lemma {:induction false} LoadAtMost(p: Pipe)
    ensures Load(p) <= |p|
  {
    if p != [] { LoadAtMost(Front(p)); }
  }

  /** The output FIFO can hold what is still in the pipeline when the late half-full flag rises. */
  lemma Sizing(c: Config)
    ensures Half(c) + c.ramPipeline + 2 <= Capacity(c) == 2 * Half(c)
  {
    var k := OutWidth(c);
    if c.ramPipeline < 2 {
      assert Pow2(2) == 2 * Pow2(1) && Pow2(1) == 2 * Pow2(0);
    } else {
      assert Pow2(k) >= c.ramPipeline * 2 + 7;
    }
  }

  /**
   The state invariant: nothing is lost, duplicated or reordered between the
   memory and the port; and with the output FIFO, its occupancy plus the words
   in the pipeline never exceed half its size + RAM_PIPELINE + 2.
   */
  ghost predicate ReadInv(c: Config, r: Read, log: seq<Beat>, limit: nat) {
    && r.rd <= limit <= |log|
    && |r.pipe| == c.ramPipeline + 1
    && Passed(r) + Contents(r.pipe) == log[..r.rd]
    && (if c.outputFifo then
          && |r.fifo| + Load(r.pipe) <= Half(c) + c.ramPipeline + 2
          && (!r.halfFull ==> |r.fifo| <= Half(c))
        else
          r.fifo == [] && r.out == None && !r.halfFull)
  }

  lemma Bounds(c: Config, r: Read, log: seq<Beat>, limit: nat)
    requires ReadInv(c, r, log, limit)
    ensures |r.pipe| == c.ramPipeline + 1 && r.rd <= limit <= |log|
  {
  }

  /** A valid word at the top of the pipeline is never discarded. */
  lemma NoOverflow(c: Config, r: Read, log: seq<Beat>, limit: nat)
    requires ReadInv(c, r, log, limit) && c.outputFifo && Last(r.pipe).Some?
    ensures |r.fifo| < Capacity(c)
    ensures Pushes(c, r)
  {
    Sizing(c);
  }

  lemma OccupancyStep(c: Config, r: Read, log: seq<Beat>, limit: nat, ready: bool)
    requires ReadInv(c, r, log, limit) && c.outputFifo
    ensures var r' := Step(c, r, log, limit, ready);
      && |r'.fifo| + Load(r'.pipe) <= Half(c) + c.ramPipeline + 2
      && (!r'.halfFull ==> |r'.fifo| <= Half(c))
  {
    AdvanceKeeps(r.pipe, true, if Takes(c, r, limit, ready) then Some(log[r.rd]) else None);
    if Last(r.pipe).Some? { NoOverflow(c, r, log, limit); }
    LoadAtMost(r.pipe);
  }

  /** The port and the output FIFO pass on exactly what leaves the pipeline. */
  lemma OutputStep(c: Config, r: Read, log: seq<Beat>, limit: nat, ready: bool)
    requires ReadInv(c, r, log, limit)
    ensures var r' := Step(c, r, log, limit, ready);
      Passed(r') == Passed(r) + (if PipeReady(c, ready) then OptSeq(Last(r.pipe)) else [])
  {
    if c.outputFifo {
      if Last(r.pipe).Some? { NoOverflow(c, r, log, limit); }
      if Pops(c, r, ready) { assert r.fifo == [r.fifo[0]] + r.fifo[1..]; }
    }
  }

  lemma PipeStep(c: Config, r: Read, log: seq<Beat>, limit: nat, ready: bool)
    requires limit <= |log| && r.pipe != []
    ensures var r', top := Step(c, r, log, limit, ready), if PipeReady(c, ready) then OptSeq(Last(r.pipe)) else [];
      && r.rd <= r'.rd <= |log|
      && top + Contents(r'.pipe) == Contents(r.pipe) + log[r.rd..r'.rd]
    requires r.rd <= |log|
  {
    var feed := if Takes(c, r, limit, ready) then Some(log[r.rd]) else None;
    AdvanceKeeps(r.pipe, PipeReady(c, ready), feed);
    assert OptSeq(feed) == log[r.rd..if feed.Some? then r.rd + 1 else r.rd];
  }

  lemma OrderStep(c: Config, r: Read, log: seq<Beat>, limit: nat, ready: bool)
    requires ReadInv(c, r, log, limit)
    ensures var r' := Step(c, r, log, limit, ready);
      Passed(r') + Contents(r'.pipe) == log[..r'.rd]
  {
    var r' := Step(c, r, log, limit, ready);
    var top := if PipeReady(c, ready) then OptSeq(Last(r.pipe)) else [];
    OutputStep(c, r, log, limit, ready);
    PipeStep(c, r, log, limit, ready);
    Relay(Passed(r), Passed(r'), top, Contents(r.pipe), Contents(r'.pipe), log, r.rd, r'.rd);
  }

  lemma Relay<T>(a: seq<T>, a': seq<T>, top: seq<T>, p: seq<T>, p': seq<T>, log: seq<T>, i: nat, j: nat)
    requires i <= j <= |log| && a + p == log[..i]
    requires a' == a + top && top + p' == p + log[i..j]
    ensures a' + p' == log[..j]
  {
    assert a' + p' == a + (top + p');
    assert a + (p + log[i..j]) == (a + p) + log[i..j];
  }

  /** Every edge keeps the invariant; the limit and the log may grow at will in between. */
  lemma ReadStepInv(c: Config, r: Read, log: seq<Beat>, limit: nat, ready: bool)
    requires ReadInv(c, r, log, limit)
    ensures ReadInv(c, Step(c, r, log, limit, ready), log, limit)
  {
    OrderStep(c, r, log, limit, ready);
    if c.outputFifo { OccupancyStep(c, r, log, limit, ready); }
  }

  lemma ReadInvStable(c: Config, r: Read, log: seq<Beat>, limit: nat, log': seq<Beat>, limit': nat)
    requires ReadInv(c, r, log, limit)
    requires limit <= limit' <= |log'| && log'[..limit] == log[..limit]
    ensures ReadInv(c, r, log', limit')
  {
    assert log'[..r.rd] == log'[..limit][..r.rd] == log[..r.rd];
  }

  /** The stored words are the delivered ones, those in flight, and those still in memory. */
  lemma Conserved(c: Config, r: Read, log: seq<Beat>, limit: nat)
    requires ReadInv(c, r, log, limit)
    ensures log == r.delivered + OptSeq(r.out) + r.fifo + Contents(r.pipe) + log[r.rd..]
  {
    assert log == log[..r.rd] + log[r.rd..];
  }

  lemma DeliveredWithin(c: Config, r: Read, log: seq<Beat>, limit: nat)
    requires ReadInv(c, r, log, limit)
    ensures r.delivered <= log[..limit] <= log
  {
    assert r.delivered <= r.delivered + OptSeq(r.out) <= Passed(r) <= log[..r.rd];
    assert log[..r.rd] <= log[..limit];
  }

  lemma {:induction false} NoneContents(n: nat)
    ensures Contents(seq(n, i => None)) == []
  {
    if n > 0 {
      var p: Pipe := seq(n, i => None);
      assert Front(p) == seq(n - 1, i => None);
      NoneContents(n - 1);
    }
  }

  lemma InitInv(c: Config)
    ensures ReadInv(c, Init(c), [], 0)
  {
    NoneContents(c.ramPipeline + 1);
  }

  // ---------------------------------------------------- the output stream

  lemma {:induction false} TopStays(p: Pipe, feed: Option<Beat>)
    requires p != [] && Last(p).Some?
    ensures Last(Advance(p, false, feed)) == Last(p)
  {
  }

  /** The stream rule: an offered word stays, unchanged, until it is taken. */
  lemma OfferStable(c: Config, r: Read, log: seq<Beat>, limit: nat)
    requires limit <= |log| && r.pipe != []
    requires Offer(c, r).Some?
    ensures Offer(c, Step(c, r, log, limit, false)) == Offer(c, r)
  {
    if !c.outputFifo {
      TopStays(r.pipe, if Takes(c, r, limit, false) then Some(log[r.rd]) else None);
    }
  }

  predicate Open(w: Option<Beat>) { w.Some? && !w.value.last }

  /** Every word that does not end a frame has its successor right behind it. */
  ghost predicate Linked(p: Pipe, more: bool) {
    && (p != [] && Open(p[0]) ==> more)
    && (forall j :: 0 < j < |p| && Open(p[j]) ==> p[j - 1].Some?)
  }

  lemma {:induction false} AdvanceLinked(p: Pipe, ready: bool, feed: Option<Beat>, more: bool, more': bool)
    requires Linked(p, more)
    requires more && (ready || Bubble(p)) ==> feed.Some?
    requires if ready || Bubble(p) then Open(feed) ==> more' else more ==> more'
    ensures Linked(Advance(p, ready, feed), more')
  {
    if p == [] {
    } else if ready || Last(p).None? {
      assert Last(p).None? ==> Bubble(p);
      var q := [feed] + Front(p);
      forall j | 0 < j < |q| && Open(q[j]) ensures q[j - 1].Some? {
        assert q[j] == p[j - 1];
        assert q[j - 1] == if j == 1 then feed else p[j - 2];
      }
    } else {
      var front := Front(p);
      assert Bubble(front) <==> Bubble(p) by {
        if Bubble(p) { BubbleBelow(p); }
        if Bubble(front) {
          var i :| 0 <= i < |front| && front[i].None?;
          assert p[i].None?;
        }
      }
      assert forall j :: 0 <= j < |front| ==> front[j] == p[j];
      AdvanceLinked(front, false, feed, more, more');
      if front == [] {
        assert Advance(p, ready, feed) == p;
      } else if Last(front).Some? {
        TopStays(front, feed);
      }
    }
  }

  /** Linked up to a limit that is a frame boundary. */
  ghost predicate WholeFrames(r: Read, log: seq<Beat>, limit: nat) {
    Boundary(log, limit) && r.rd <= limit && Linked(r.pipe, r.rd < limit)
  }

  lemma WholeFramesStep(c: Config, r: Read, log: seq<Beat>, limit: nat, ready: bool)
    requires !c.outputFifo && WholeFrames(r, log, limit) && r.pipe != []
    ensures WholeFrames(Step(c, r, log, limit, ready), log, limit)
  {
    var feed := if Takes(c, r, limit, ready) then Some(log[r.rd]) else None;
    var r' := Step(c, r, log, limit, ready);
    AdvanceLinked(r.pipe, ready, feed, r.rd < limit, r'.rd < limit);
  }

  lemma WholeFramesStable(r: Read, log: seq<Beat>, limit: nat, log': seq<Beat>, limit': nat)
    requires WholeFrames(r, log, limit) && limit <= limit' && Boundary(log', limit')
    ensures WholeFrames(r, log', limit')
  {
  }

  /** Once a frame is offered, the port stays valid until its last word is taken. */
  lemma Continuity(c: Config, r: Read, log: seq<Beat>, limit: nat, ready: bool)
    requires !c.outputFifo && WholeFrames(r, log, limit) && r.pipe != []
    requires Offer(c, r).Some? && !(ready && Offer(c, r).value.last)
    ensures Offer(c, Step(c, r, log, limit, ready)).Some?
  {
    var feed := if Takes(c, r, limit, ready) then Some(log[r.rd]) else None;
    if ready {
      var n := |r.pipe| - 1;
      assert Open(r.pipe[n]);
      assert if n == 0 then feed.Some? else r.pipe[n - 1].Some?;
      assert Last([feed] + Front(r.pipe)) == if n == 0 then feed else r.pipe[n - 1];
    } else {
      TopStays(r.pipe, feed);
    }
  }
}
