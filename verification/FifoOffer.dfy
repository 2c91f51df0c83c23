/** The port does not wait for its sink: what can be read is offered after a while, ready or not. */
module FifoOffer {
  import opened Streams
  import opened FifoRead
  import G = FifoGap
  import D = FifoDrain
  import S = SyncFifo
  import A = AsyncFifo
  import W = FifoWrite

  /** The highest stage that holds a word. */
  function Top(p: Pipe): (j: nat)
    requires Load(p) > 0
    ensures j < |p| && p[j].Some? && forall i :: j < i < |p| ==> p[i].None?
  {
    G.LoadTop(p);
    if Last(p).Some? then |p| - 1 else Top(Front(p))
  }

  /** At most so many edges until a word is offered. */
  function Wait(c: Config, r: Read): nat
    requires |r.pipe| == c.ramPipeline + 1
  {
    var port := if c.outputFifo then 2 else 0;
    if Offer(c, r).Some? then 0
    else if r.fifo != [] then 1
    else if Load(r.pipe) > 0 then port + c.ramPipeline - Top(r.pipe)
    else port + c.ramPipeline + 1 + if r.halfFull then 1 else 0
  }

  /** Something that can be read has not been delivered. */
  predicate Pending(r: Read, limit: nat) { |r.delivered| < limit }

  /** Without an offer all stages move up, whether the sink is ready or not. */
  lemma AllUp(c: Config, r: Read, log: seq<Beat>, limit: nat, ready: bool)
    requires ReadInv(c, r, log, limit) && Offer(c, r).None?
    ensures Step(c, r, log, limit, ready).pipe == [G.Feed(c, r, log, limit, ready)] + Front(r.pipe)
  {
  }

  lemma Climbs(p: Pipe, feed: Option<Beat>)
    requires p != [] && Load(p) > 0 && Last(p).None?
    ensures var q := [feed] + Front(p);
      Load(q) > 0 && Top(q) == Top(p) + 1
  {
    var q := [feed] + Front(p);
    G.LoadTop(p);
    G.LoadPush(feed, Front(p));
    var j, k := Top(p), Top(q);
    assert q[j + 1] == p[j];
  }

  lemma Enters(p: Pipe, feed: Option<Beat>)
    requires p != [] && Load(p) == 0 && feed.Some?
    ensures var q := [feed] + Front(p);
      Load(q) > 0 && Top(q) == 0
  {
    var q := [feed] + Front(p);
    G.LoadTop(p);
    G.LoadPush(feed, Front(p));
    G.LoadPush(None, Front(p));
    var k := Top(q);
    if k > 0 {
      Holds(Front(p), k - 1);
      assert false;
    }
  }

  lemma {:induction false} Holds(p: Pipe, i: nat)
    requires i < |p| && p[i].Some?
    ensures Load(p) > 0
  {
    G.LoadTop(p);
    if i < |p| - 1 { Holds(Front(p), i); }
  }

  lemma TopIsLast(p: Pipe)
    requires p != []
    ensures Last(p).Some? ==> Load(p) > 0
    ensures Load(p) > 0 ==> (Top(p) == |p| - 1 <==> Last(p).Some?)
  {
    G.LoadTop(p);
  }

  lemma WaitStep(c: Config, r: Read, log: seq<Beat>, limit: nat, ready: bool)
    requires ReadInv(c, r, log, limit) && Offer(c, r).None? && Pending(r, limit)
    ensures var r' := Step(c, r, log, limit, ready);
      && |r'.pipe| == c.ramPipeline + 1 && r'.delivered == r.delivered
      && Wait(c, r') < Wait(c, r)
  {
    hide Load, Advance, Top, Contents;
    var feed := G.Feed(c, r, log, limit, ready);
    AllUp(c, r, log, limit, ready);
    G.LoadTop(r.pipe);
    if Last(r.pipe).Some? {
      TopIsLast(r.pipe);
      NoOverflow(c, r, log, limit);
    } else if Load(r.pipe) > 0 {
      Climbs(r.pipe, feed);
      TopIsLast([feed] + Front(r.pipe));
    } else {
      D.Undelivered(c, r, log, limit);
      if feed.Some? {
        Enters(r.pipe, feed);
        TopIsLast([feed] + Front(r.pipe));
      }
    }
  }

  lemma WaitBound(c: Config, r: Read, log: seq<Beat>, limit: nat)
    requires ReadInv(c, r, log, limit)
    ensures |r.pipe| == c.ramPipeline + 1 && Wait(c, r) <= c.ramPipeline + 4
    ensures Offer(c, r).None? ==> Wait(c, r) > 0
  {
    hide Load, Half, Top;
    TopIsLast(r.pipe);
  }

  /** One clock, any pins: a committed word that is not delivered is offered within RAM_PIPELINE + 4 edges. */
  lemma {:induction false} OffersFrom(c: Config, f: S.Fifo, ts: seq<S.Tick>) returns (k: nat)
    requires c.Valid() && S.Inv(c, f) && Pending(f.read, f.run.w.commit) && |f.read.pipe| == c.ramPipeline + 1
    requires |ts| >= Wait(c, f.read)
    ensures k <= |ts| && Offer(c, S.After(c, f, ts[..k]).read).Some?
    decreases |ts|
  {
    hide Wait, Step, S.Step, W.RunStep, ReadInv;
    S.Bounds(c, f);
    WaitBound(c, f.read, f.run.w.log, f.run.w.commit);
    k := 0;
    if Offer(c, f.read).None? {
      S.StepParts(c, f, ts[0]);
      W.StepGrows(c, f.run.w, S.Full(c, f), ts[0].valid, ts[0].beat);
      WaitStep(c, f.read, f.run.w.log, f.run.w.commit, ts[0].ready);
      k := OffersFrom(c, S.Step(c, f, ts[0]), ts[1..]);
      k := k + 1;
      assert ts[..k][1..] == ts[1..][..k - 1];
    }
  }

  lemma Offers(c: Config, ins: seq<S.Tick>, ts: seq<S.Tick>) returns (k: nat)
    requires c.Valid() && |ts| >= c.ramPipeline + 4
    requires var f := S.Execute(c, ins); Pending(f.read, f.run.w.commit)
    ensures k <= |ts| && Offer(c, S.Execute(c, ins + ts[..k]).read).Some?
  {
    hide Wait;
    var f := S.Execute(c, ins);
    S.Bounds(c, f);
    WaitBound(c, f.read, f.run.w.log, f.run.w.commit);
    k := OffersFrom(c, f, ts);
    S.ExecuteAfter(c, ins, ts[..k]);
  }

  /** Edges of the read clock. */
  function ReadEdges(ts: seq<A.Tick>): nat {
    if ts == [] then 0 else W.Count(ts[0].mEdge) + ReadEdges(ts[1..])
  }

  /** Two clocks, any interleaving: a word within the reader's limit is offered within as many edges of its clock. */
  lemma {:induction false} OffersAcross(c: Config, f: A.Fifo, ts: seq<A.Tick>) returns (k: nat)
    requires c.Valid() && A.Inv(c, f) && Pending(f.read, A.Limit(c, f))
    requires || ReadEdges(ts) >= c.ramPipeline + 4
             || (|f.read.pipe| == c.ramPipeline + 1 && ReadEdges(ts) >= Wait(c, f.read))
    ensures k <= |ts| && Offer(c, A.After(c, f, ts[..k]).read).Some?
    decreases |ts|
  {
    hide Wait, Step, A.Step, W.RunStep, ReadInv, A.RingInv;
    A.Bounds(c, f);
    WaitBound(c, f.read, f.run.w.log, A.Limit(c, f));
    k := 0;
    if Offer(c, f.read).None? {
      var g := A.Step(c, f, ts[0]);
      A.StepInv(c, f, ts[0]);
      A.StepParts(c, f, ts[0]);
      LimitKept(c, f, ts[0]);
      if ts[0].mEdge { WaitStep(c, f.read, f.run.w.log, A.Limit(c, f), ts[0].ready); }
      k := OffersAcross(c, g, ts[1..]);
      k := k + 1;
      assert ts[..k][1..] == ts[1..][..k - 1];
    }
  }

  lemma LimitKept(c: Config, f: A.Fifo, t: A.Tick)
    requires c.Valid() && A.Inv(c, f)
    ensures A.Sound(c, f) && A.Limit(c, f) <= A.Limit(c, A.Step(c, f, t))
  {
    hide Step, W.RunStep, ReadInv;
    A.Bounds(c, f);
    if c.frameFifo { A.RingStep(c, f, t); } else { A.OrderKept(c, f, t); }
  }
}
