/**
 With a ready sink the read side empties: every edge moves some word nearer to
 the sink. Without input the write side adds a terminator at most.
 */
module FifoDrain {
  import opened Streams
  import opened FifoRead
  import W = FifoWrite
  import G = FifoGap

  /** How many stages the words in the pipeline still have to climb. */
  function Climb(p: Pipe): nat {
    if p == [] then 0 else (if p[0].Some? then |p| else 0) + Climb(p[1..])
  }

  lemma {:induction false} ClimbUp(p: Pipe)
    requires p != []
    ensures Climb(Front(p)) + Load(p) == Climb(p)
  {
    G.LoadPush(p[0], p[1..]);
    assert p == [p[0]] + p[1..];
    if |p| > 1 {
      ClimbUp(p[1..]);
      assert Front(p)[1..] == Front(p[1..]);
    }
  }

  lemma {:induction false} ClimbBound(p: Pipe, m: nat)
    requires |p| <= m
    ensures Climb(p) <= m * Load(p)
  {
    if p != [] {
      var one, rest := G.One(p[0]), Load(p[1..]);
      G.LoadPush(p[0], p[1..]);
      assert p == [p[0]] + p[1..];
      ClimbBound(p[1..], m);
      assert m * (one + rest) == m * one + m * rest;
    }
  }

  /** What a word in memory counts. */
  function Weight(c: Config): nat { c.ramPipeline + 4 }

  function Fetching(c: Config, words: nat): nat { words * Weight(c) }

  /** The steps of all words up to the target to the sink; halved, so that the half-full flag counts one. */
  function Steps(c: Config, r: Read, target: nat): nat
    requires r.rd <= target
  {
    Fetching(c, target - r.rd) + Climb(r.pipe) + 2 * Load(r.pipe) + 2 * |r.fifo| + G.One(r.out)
  }

  function Work(c: Config, r: Read, target: nat): nat
    requires r.rd <= target
  {
    2 * Steps(c, r, target) + if r.halfFull then 1 else 0
  }

  /** Nothing is on its way, and nothing readable is left. */
  predicate Settled(r: Read, limit: nat) {
    r.rd == limit && Load(r.pipe) == 0 && r.fifo == [] && r.out == None && !r.halfFull
  }

  /** All stages of the pipeline move up, with or without the output FIFO. */
  lemma ReadyEdge(c: Config, r: Read, log: seq<Beat>, limit: nat)
    requires ReadInv(c, r, log, limit)
    ensures var r', feed := Step(c, r, log, limit, true), G.Feed(c, r, log, limit, true);
      && r'.rd == r.rd + G.One(feed) <= limit
      && Climb(r'.pipe) + Load(r.pipe) == Climb(r.pipe) + G.One(feed) * (c.ramPipeline + 1)
      && Load(r'.pipe) + G.One(Last(r.pipe)) == Load(r.pipe) + G.One(feed)
  {
    var feed := G.Feed(c, r, log, limit, true);
    G.AdvanceAll(r.pipe, feed);
    var q := [feed] + Front(r.pipe);
    assert q[1..] == Front(r.pipe);
    ClimbUp(r.pipe);
    G.LoadPush(feed, Front(r.pipe));
    G.LoadTop(r.pipe);
  }

  lemma Queue(c: Config, r: Read, log: seq<Beat>, limit: nat)
    requires ReadInv(c, r, log, limit)
    ensures var r' := Step(c, r, log, limit, true);
      && 2 * |r'.fifo| + G.One(r'.out) + (if r.fifo != [] then 1 else 0) + G.One(r.out)
           <= 2 * |r.fifo| + G.One(r.out) + 2 * G.One(Last(r.pipe))
      && (r'.halfFull ==> r.fifo != [])
  {
  }

  /** An edge with a ready sink is never wasted, unless there is nothing left to do. */
  lemma WorkStep(c: Config, r: Read, log: seq<Beat>, limit: nat, target: nat)
    requires ReadInv(c, r, log, limit) && limit <= target
    ensures var r' := Step(c, r, log, limit, true);
      && r'.rd <= limit
      && (Settled(r, limit) ==> r'.rd == r.rd && Settled(r', limit) && Work(c, r', target) == Work(c, r, target))
      && (!Settled(r, limit) ==> Work(c, r', target) < Work(c, r, target))
  {
    hide Step, ReadInv, Climb, Load, Half, Fetching;
    Bounds(c, r, log, limit);
    ReadyEdge(c, r, log, limit);
    Queue(c, r, log, limit);
    var r' := Step(c, r, log, limit, true);
    Taken(c, target - r.rd, G.One(G.Feed(c, r, log, limit, true)), target - r'.rd);
  }

  lemma Taken(c: Config, n: nat, one: nat, n': nat)
    requires n == n' + one
    ensures Fetching(c, n) == Fetching(c, n') + one * Weight(c)
  {
  }

  /** The work is bounded by the number of words up to the target that are not delivered yet. */
  lemma WorkBound(c: Config, r: Read, log: seq<Beat>, limit: nat, target: nat)
    requires ReadInv(c, r, log, limit) && limit <= target
    ensures |r.delivered| <= target && Work(c, r, target) <= 2 * Fetching(c, target - |r.delivered|) + 1
  {
    hide Climb, Half, Weight, Fetching;
    ClimbBound(r.pipe, c.ramPipeline + 1);
    var m, l, q := target - r.rd, Load(r.pipe), |r.fifo| + G.One(r.out);
    assert target - |r.delivered| == m + l + q by { Undelivered(c, r, log, limit); }
    Sums(c, m, Climb(r.pipe), l, q);
  }

  lemma Undelivered(c: Config, r: Read, log: seq<Beat>, limit: nat)
    requires ReadInv(c, r, log, limit)
    ensures r.rd == |r.delivered| + Load(r.pipe) + |r.fifo| + G.One(r.out)
  {
    hide Half;
  }

  lemma Sums(c: Config, m: nat, climb: nat, l: nat, q: nat)
    requires climb <= (c.ramPipeline + 1) * l
    ensures Fetching(c, m) + climb + 2 * l + 2 * q <= Fetching(c, m + l + q)
  {
    var w := Weight(c);
    Spread(w, m + l, q);
    Spread(w, m, l);
    Parts(c.ramPipeline + 1, 3, l);
    Parts(4, c.ramPipeline, q);
  }

  lemma Spread(w: nat, a: nat, b: nat)
    ensures (a + b) * w == a * w + b * w
  {
  }

  lemma Parts(a: nat, b: nat, n: nat)
    ensures n * (a + b) == a * n + b * n && b * n >= 0
  {
  }

  /** One more word to deliver. */
  lemma WorkGrows(c: Config, r: Read, target: nat)
    requires r.rd <= target
    ensures Work(c, r, target + 1) == Work(c, r, target) + 2 * Weight(c)
  {
    Taken(c, target + 1 - r.rd, 1, target - r.rd);
  }

  /** Once it is done, everything readable is delivered. */
  lemma SettledDelivered(c: Config, r: Read, log: seq<Beat>, limit: nat)
    requires ReadInv(c, r, log, limit) && Settled(r, limit)
    ensures r.delivered == log[..limit]
  {
    hide Half;
    assert Contents(r.pipe) == [];
  }

  lemma SettledEmpty(r: Read)
    requires Load(r.pipe) == 0 && r.pipe != []
    ensures Last(r.pipe) == None
  {
    G.LoadTop(r.pipe);
  }

  // ---------------------------------------------------- the idle write side

  /** A cut frame waits for its terminator, which needs no further beat. */
  predicate Owed(c: Config, w: W.Write) { c.markWhenFull && w.mark && !w.drop }

  /** Without a beat the write side stays as it is, but for a terminator that finds room. */
  lemma IdleWrite(c: Config, w: W.Write, full: bool, b: Beat)
    requires c.Valid() && w.commit <= |w.log|
    ensures var w' := W.Step(c, w, full, false, b);
      if Owed(c, w) && !full then
        && w'.log == w.log + [W.Stored(c, w, b)] && w'.commit == |w.log| + 1 && !Owed(c, w')
      else
        w'.log == w.log && w'.commit == w.commit && (Owed(c, w') <==> Owed(c, w))
  {
  }
}
