/**
 Frames that pass through the output FIFO. The late half-full flag opens gaps
 in the pipeline, which reach the port unless the output FIFO outlasts them.
 */
module FifoGap {
  import opened Words
  import opened Streams
  import opened FifoRead

  /** Half the output FIFO outlasts the longest gap. */
  predicate Deep(c: Config) { Half(c) >= c.ramPipeline + 4 }

  /** Only one pipeline register leaves too little. */
  lemma DeepExactly(c: Config)
    ensures Deep(c) <==> c.ramPipeline != 1
  {
    var k := OutWidth(c);
    if c.ramPipeline < 2 {
      assert Pow2(2) == 2 * Pow2(1) && Pow2(1) == 2 * Pow2(0);
    } else {
      assert Pow2(k) == 2 * Pow2(k - 1) >= c.ramPipeline * 2 + 7;
    }
  }

  /** The words in the stages above stage i, and below it. */
  function Ahead(p: Pipe, i: nat): nat
    requires i < |p|
  {
    Load(p[i + 1..])
  }

  function Behind(p: Pipe, i: nat): nat
    requires i < |p|
  {
    Load(p[..i])
  }

  /** The word at position n continues the frame of the word before it. */
  predicate Continues(log: seq<Beat>, n: int) { 0 < n < |log| && !log[n - 1].last }

  function Total(r: Read): nat { |r.fifo| + Load(r.pipe) }

  /** The word in stage i follows its predecessor closely, or the output FIFO lasts until it arrives. */
  predicate StageCovered(r: Read, i: nat)
    requires i < |r.pipe|
  {
    (i + 1 < |r.pipe| && r.pipe[i + 1].Some?) || |r.fifo| + Ahead(r.pipe, i) >= |r.pipe| - i
  }

  /** So does the next word in memory, which enters the pipeline unless the flag is up. */
  predicate MemoryCovered(r: Read)
    requires r.pipe != []
  {
    r.pipe[0].Some? || Total(r) >= |r.pipe| + 1
  }

  /** And while the flag holds the rest of a frame back, it lasts long enough for that. */
  predicate Outlasts(r: Read, log: seq<Beat>, limit: nat) {
    r.halfFull && r.rd < limit && Continues(log, r.rd) ==> Total(r) >= |r.pipe| + 2
  }

  ghost predicate StagesCovered(r: Read, log: seq<Beat>) {
    forall i :: 0 <= i < |r.pipe| && r.pipe[i].Some? && Continues(log, r.rd - 1 - Behind(r.pipe, i)) ==>
      StageCovered(r, i)
  }

  ghost predicate Covered(c: Config, r: Read, log: seq<Beat>, limit: nat) {
    && ReadInv(c, r, log, limit)
    && Boundary(log, limit)
    && Outlasts(r, log, limit)
    && (!r.halfFull && r.rd < limit && Continues(log, r.rd) ==> MemoryCovered(r))
    && StagesCovered(r, log)
  }

  function One<T>(o: Option<T>): nat { if o.Some? then 1 else 0 }

  lemma {:induction false} LoadPush(x: Option<Beat>, p: Pipe)
    ensures Load([x] + p) == One(x) + Load(p)
  {
    ContentsPush(x, p);
  }

  lemma LoadTop(p: Pipe)
    requires p != []
    ensures Load(p) == Load(Front(p)) + One(Last(p))
  {
  }

  function Feed(c: Config, r: Read, log: seq<Beat>, limit: nat, ready: bool): Option<Beat>
    requires r.rd < limit ==> r.rd < |log|
  {
    if Takes(c, r, limit, ready) then Some(log[r.rd]) else None
  }

  /** One edge of the pipeline with the output FIFO behind it: all stages move up. */
  lemma Moves(c: Config, r: Read, log: seq<Beat>, limit: nat, ready: bool)
    requires c.outputFifo && ReadInv(c, r, log, limit)
    ensures var r', feed := Step(c, r, log, limit, ready), Feed(c, r, log, limit, ready);
      && r'.pipe == [feed] + Front(r.pipe)
      && r'.rd == r.rd + One(feed)
      && r'.halfFull == (|r.fifo| >= Half(c))
      && |r'.fifo| == |r.fifo| + One(Last(r.pipe)) - (if Pops(c, r, ready) then 1 else 0)
      && Total(r') == Total(r) + One(feed) - (if Pops(c, r, ready) then 1 else 0)
  {
    hide Advance;
    if Last(r.pipe).Some? { NoOverflow(c, r, log, limit); }
    AdvanceAll(r.pipe, Feed(c, r, log, limit, ready));
    LoadPush(Feed(c, r, log, limit, ready), Front(r.pipe));
    LoadTop(r.pipe);
  }

  lemma AdvanceAll(p: Pipe, feed: Option<Beat>)
    requires p != []
    ensures Advance(p, true, feed) == [feed] + Front(p)
  {
  }

  /** A word moves up: the words ahead and behind it stay, but for the top and the feed. */
  lemma Neighbours(p: Pipe, feed: Option<Beat>, i: nat)
    requires i + 1 < |p|
    ensures var q := [feed] + Front(p);
      && q[i + 1] == p[i]
      && Ahead(q, i + 1) + One(Last(p)) == Ahead(p, i)
      && Behind(q, i + 1) == Behind(p, i) + One(feed)
  {
    var q := [feed] + Front(p);
    assert q[i + 2..] == Front(p[i + 1..]) && Last(p[i + 1..]) == Last(p);
    LoadTop(p[i + 1..]);
    assert q[..i + 2 - 1] == [feed] + p[..i];
    LoadPush(feed, p[..i]);
  }

  lemma StageStep(c: Config, r: Read, log: seq<Beat>, limit: nat, ready: bool, i: nat)
    requires c.outputFifo && Covered(c, r, log, limit) && i + 1 < |r.pipe|
    requires var r' := Step(c, r, log, limit, ready);
      r'.pipe[i + 1].Some? && Continues(log, r'.rd - 1 - Behind(r'.pipe, i + 1))
    ensures StageCovered(Step(c, r, log, limit, ready), i + 1)
  {
    hide Step, Advance, ReadInv, MemoryCovered, Outlasts, Boundary, Total, Load, Behind;
    CoveredReads(c, r, log, limit);
    Moves(c, r, log, limit, ready);
    Neighbours(r.pipe, Feed(c, r, log, limit, ready), i);
    assert StageCovered(r, i);
  }

  lemma FirstStage(c: Config, r: Read, log: seq<Beat>, limit: nat, ready: bool)
    requires c.outputFifo && Covered(c, r, log, limit)
    requires var r' := Step(c, r, log, limit, ready);
      r'.pipe[0].Some? && Continues(log, r'.rd - 1 - Behind(r'.pipe, 0))
    ensures StageCovered(Step(c, r, log, limit, ready), 0)
  {
    hide Step, Advance;
    Moves(c, r, log, limit, ready);
    var r' := Step(c, r, log, limit, ready);
    assert r'.pipe[..0] == [];
    assert r'.pipe == [r'.pipe[0]] + r'.pipe[1..];
    LoadPush(r'.pipe[0], r'.pipe[1..]);
    assert MemoryCovered(r);
  }

  lemma StagesStep(c: Config, r: Read, log: seq<Beat>, limit: nat, ready: bool)
    requires c.outputFifo && Covered(c, r, log, limit)
    ensures StagesCovered(Step(c, r, log, limit, ready), log)
  {
    hide Step, Advance, StageCovered, StagesCovered, Covered, Behind, Continues, ReadInv, Total;
    CoveredReads(c, r, log, limit);
    var r' := Step(c, r, log, limit, ready);
    Moves(c, r, log, limit, ready);
    forall i | 0 <= i < |r'.pipe| && r'.pipe[i].Some? && Continues(log, r'.rd - 1 - Behind(r'.pipe, i))
      ensures StageCovered(r', i)
    {
      if i == 0 { FirstStage(c, r, log, limit, ready); } else { StageStep(c, r, log, limit, ready, i - 1); }
    }
    StagesCoveredBy(r', log);
  }

  lemma CoveredReads(c: Config, r: Read, log: seq<Beat>, limit: nat)
    requires Covered(c, r, log, limit)
    ensures ReadInv(c, r, log, limit) && r.pipe != [] && r.rd <= limit <= |log|
  {
  }

  lemma StagesCoveredBy(r: Read, log: seq<Beat>)
    requires forall i :: 0 <= i < |r.pipe| && r.pipe[i].Some? && Continues(log, r.rd - 1 - Behind(r.pipe, i)) ==>
      StageCovered(r, i)
    ensures StagesCovered(r, log)
  {
  }

  /** A deep output FIFO always lasts long enough. */
  lemma DeepOutlasts(c: Config, r: Read, log: seq<Beat>, limit: nat, ready: bool)
    requires c.outputFifo && Deep(c) && ReadInv(c, r, log, limit)
    ensures Outlasts(Step(c, r, log, limit, ready), log, limit)
  {
    hide Step, Advance;
    Moves(c, r, log, limit, ready);
  }

  /** If every word ends its frame, there is never a rest to hold back. */
  lemma SingleOutlasts(r: Read, log: seq<Beat>, limit: nat)
    requires forall n :: 0 <= n < |log| && n < limit ==> log[n].last
    ensures Outlasts(r, log, limit)
  {
  }

  /** Every edge keeps the frames covered, if the output FIFO lasts long enough. */
  lemma CoveredStep(c: Config, r: Read, log: seq<Beat>, limit: nat, ready: bool)
    requires c.outputFifo && Covered(c, r, log, limit) && Outlasts(Step(c, r, log, limit, ready), log, limit)
    ensures Covered(c, Step(c, r, log, limit, ready), log, limit)
  {
    hide Step, Advance, StagesCovered;
    var r' := Step(c, r, log, limit, ready);
    ReadStepInv(c, r, log, limit, ready);
    Moves(c, r, log, limit, ready);
    StagesStep(c, r, log, limit, ready);
  }

  /** What is behind an old limit starts a new frame. */
  lemma CoveredStable(c: Config, r: Read, log: seq<Beat>, limit: nat, log': seq<Beat>, limit': nat)
    requires c.outputFifo && Covered(c, r, log, limit)
    requires limit <= limit' <= |log'| && log'[..limit] == log[..limit] && Boundary(log', limit')
    ensures Covered(c, r, log', limit')
  {
    hide ReadInv, StagesCovered, MemoryCovered, Total;
    CoveredReads(c, r, log, limit);
    ReadInvStable(c, r, log, limit, log', limit');
    SamePrefix(log, log', limit);
    StagesStable(r, log, limit, log');
  }

  lemma SamePrefix(log: seq<Beat>, log': seq<Beat>, limit: nat)
    requires limit <= |log| && limit <= |log'| && log'[..limit] == log[..limit]
    ensures forall n :: 0 <= n < limit ==> log'[n] == log[n]
    ensures forall n :: n < limit ==> (Continues(log', n) <==> Continues(log, n))
  {
    assert forall n :: 0 <= n < limit ==> log'[n] == log'[..limit][n] == log[..limit][n] == log[n];
  }

  lemma StagesStable(r: Read, log: seq<Beat>, limit: nat, log': seq<Beat>)
    requires StagesCovered(r, log) && r.rd <= limit <= |log| && limit <= |log'| && log'[..limit] == log[..limit]
    ensures StagesCovered(r, log')
  {
    hide StageCovered, Behind;
    SamePrefix(log, log', limit);
    forall i | 0 <= i < |r.pipe| && r.pipe[i].Some? && Continues(log', r.rd - 1 - Behind(r.pipe, i))
      ensures StageCovered(r, i)
    {
      assert Continues(log, r.rd - 1 - Behind(r.pipe, i));
    }
  }

  /** Once a frame is offered, the port stays valid until its last word is taken. */
  lemma Unbroken(c: Config, r: Read, log: seq<Beat>, limit: nat, ready: bool)
    requires c.outputFifo && Covered(c, r, log, limit)
    requires Offer(c, r).Some? && !(ready && Offer(c, r).value.last)
    ensures Offer(c, Step(c, r, log, limit, ready)).Some?
  {
    if ready { Lasts(c, r, log, limit); }
  }

  lemma {:induction false} Topmost(p: Pipe) returns (i: nat)
    requires Load(p) > 0
    ensures i < |p| && p[i].Some? && Ahead(p, i) == 0 && Behind(p, i) == Load(p) - 1
    ensures i + 1 < |p| ==> p[i + 1].None?
  {
    LoadTop(p);
    if Last(p).Some? {
      i := |p| - 1;
    } else {
      i := Topmost(Front(p));
      assert Front(p)[..i] == p[..i];
      assert Front(p[i + 1..]) == Front(p)[i + 1..] && Last(p[i + 1..]) == Last(p);
      LoadTop(p[i + 1..]);
    }
  }

  lemma {:induction false} EmptyStages(p: Pipe)
    requires Load(p) == 0 && p != []
    ensures p[0].None?
  {
    LoadTop(p);
    if |p| > 1 { EmptyStages(Front(p)); }
  }

  lemma OutPosition(c: Config, r: Read, log: seq<Beat>, limit: nat)
    requires Covered(c, r, log, limit) && Open(r.out) && r.fifo == []
    ensures Continues(log, r.rd - Load(r.pipe)) && r.rd - Load(r.pipe) < limit
  {
    var n := |r.delivered| + 1;
    assert (Passed(r) + Contents(r.pipe))[n - 1] == r.out.value;
    assert log[..r.rd][n - 1] == log[n - 1];
    assert limit > 0 ==> log[limit - 1].last;
  }

  lemma NextInPipe(c: Config, r: Read, log: seq<Beat>, limit: nat)
    requires c.outputFifo && Covered(c, r, log, limit)
    requires Load(r.pipe) > 0 && Continues(log, r.rd - Load(r.pipe))
    ensures r.fifo != []
  {
    hide ReadInv, Load;
    var i := Topmost(r.pipe);
    assert StageCovered(r, i);
  }

  lemma NextInMemory(c: Config, r: Read, log: seq<Beat>, limit: nat)
    requires c.outputFifo && Covered(c, r, log, limit)
    requires Load(r.pipe) == 0 && Continues(log, r.rd) && r.rd < limit
    ensures r.fifo != []
  {
    hide ReadInv, Load;
    CoveredReads(c, r, log, limit);
    EmptyStages(r.pipe);
  }

  /** Behind an offered word that does not end its frame, the output FIFO is not empty. */
  lemma Lasts(c: Config, r: Read, log: seq<Beat>, limit: nat)
    requires c.outputFifo && Covered(c, r, log, limit) && Open(r.out)
    ensures r.fifo != []
  {
    hide ReadInv, Covered;
    if r.fifo == [] {
      OutPosition(c, r, log, limit);
      if Load(r.pipe) == 0 { NextInMemory(c, r, log, limit); } else { NextInPipe(c, r, log, limit); }
    }
  }

  // ------------------------------------------------- with or without output FIFO

  ghost predicate Gapless(c: Config, r: Read, log: seq<Beat>, limit: nat) {
    && ReadInv(c, r, log, limit)
    && if c.outputFifo then Covered(c, r, log, limit) else WholeFrames(r, log, limit)
  }

  lemma GaplessInit(c: Config)
    ensures Gapless(c, Init(c), [], 0)
  {
    InitInv(c);
  }

  lemma GaplessStep(c: Config, r: Read, log: seq<Beat>, limit: nat, ready: bool)
    requires Gapless(c, r, log, limit)
    requires c.outputFifo ==> Outlasts(Step(c, r, log, limit, ready), log, limit)
    ensures Gapless(c, Step(c, r, log, limit, ready), log, limit)
  {
    hide Step, Covered, WholeFrames;
    ReadStepInv(c, r, log, limit, ready);
    if c.outputFifo {
      CoveredStep(c, r, log, limit, ready);
    } else {
      WholeFramesStep(c, r, log, limit, ready);
    }
  }

  lemma GaplessStable(c: Config, r: Read, log: seq<Beat>, limit: nat, log': seq<Beat>, limit': nat)
    requires Gapless(c, r, log, limit)
    requires limit <= limit' <= |log'| && log'[..limit] == log[..limit] && Boundary(log', limit')
    ensures Gapless(c, r, log', limit')
  {
    ReadInvStable(c, r, log, limit, log', limit');
    if c.outputFifo {
      CoveredStable(c, r, log, limit, log', limit');
    } else {
      WholeFramesStable(r, log, limit, log', limit');
    }
  }

  /** Once a frame is offered, the port stays valid until its last word is taken. */
  lemma GaplessContinuity(c: Config, r: Read, log: seq<Beat>, limit: nat, ready: bool)
    requires Gapless(c, r, log, limit)
    requires Offer(c, r).Some? && !(ready && Offer(c, r).value.last)
    ensures Offer(c, Step(c, r, log, limit, ready)).Some?
  {
    if c.outputFifo { Unbroken(c, r, log, limit, ready); } else { Continuity(c, r, log, limit, ready); }
  }

  // ------------------------------------------------------------ draining

  /** At most so many edges with a ready sink until a readable word is read. */
  function ReadWait(c: Config, r: Read): nat {
    if !c.outputFifo || !r.halfFull then 1
    else if |r.fifo| < Half(c) then 2
    else Total(r) - Half(c) + 3
  }

  lemma ReadWaitBound(c: Config, r: Read, log: seq<Beat>, limit: nat)
    requires ReadInv(c, r, log, limit)
    ensures 1 <= ReadWait(c, r) <= c.ramPipeline + 5
  {
  }

  /** The sink drains the output FIFO, so the half-full flag falls and memory is read again. */
  lemma Drains(c: Config, r: Read, log: seq<Beat>, limit: nat)
    requires ReadInv(c, r, log, limit) && r.rd < limit
    ensures var r' := Step(c, r, log, limit, true);
      r'.rd == r.rd + 1 || (r'.rd == r.rd && ReadWait(c, r') < ReadWait(c, r))
  {
    hide Half, Advance;
    if c.outputFifo {
      Sizing(c);
      Moves(c, r, log, limit, true);
    }
  }
}
