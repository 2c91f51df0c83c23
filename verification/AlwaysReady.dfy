/** When tready is always asserted: exactly in the modes that discard what does not fit. */
module AlwaysReady {
  import opened Streams
  import W = FifoWrite
  import R = FifoRead
  import D = FifoDrain
  import S = SyncFifo
  import A = AsyncFifo

  /** A frame of one beat that is not marked bad. */
  function Single(c: Config): Beat {
    Beat(0, true, seq(|c.badValue|, i requires 0 <= i < |c.badValue| => !c.badValue[i]))
  }

  predicate Discards(c: Config) { c.dropWhenFull || c.markWhenFull }

  /** Every word stored is committed. */
  predicate Plain(w: W.Write) { w.commit == |w.log| && !w.drop && !w.mark && !w.send }

  /** Without discarding, a beat that is taken takes up memory. */
  lemma Stores(c: Config, w: W.Write, full: bool)
    requires c.Valid() && !Discards(c) && Plain(w) && W.Ready(c, w, full)
    ensures var w' := W.Step(c, w, full, true, Single(c));
      Plain(w') && |w'.log| == |w.log| + 1
  {
    assert c.Depth() >= 1;
    assert !c.BadUser(Single(c).user);
  }

  // ------------------------------------------------------------- one clock

  /** Single frames against a stalled sink. */
  function Push(c: Config, k: nat): seq<S.Tick> { seq(k, i => S.Tick(true, Single(c), false)) }

  lemma {:induction false} Fills(c: Config, k: nat)
    requires c.Valid() && !Discards(c) && forall j :: 0 <= j < k ==> S.Ready(c, S.Execute(c, Push(c, j)))
    ensures var f := S.Execute(c, Push(c, k));
      Plain(f.run.w) && |f.run.w.log| == k && f.read.delivered == []
  {
    hide R.ReadInv, S.Ready;
    if k > 0 {
      var f := S.Execute(c, Push(c, k - 1));
      Fills(c, k - 1);
      assert Push(c, k) == Push(c, k - 1) + [S.Tick(true, Single(c), false)];
      S.ExecuteOne(c, Push(c, k - 1), S.Tick(true, Single(c), false));
      S.StepParts(c, f, S.Tick(true, Single(c), false));
      Accepted(c, f);
      Stores(c, f.run.w, S.Full(c, f));
      Kept(c, f);
    }
  }

  lemma Accepted(c: Config, f: S.Fifo)
    ensures S.Ready(c, f) == W.Ready(c, f.run.w, S.Full(c, f))
  {
  }

  lemma Kept(c: Config, f: S.Fifo)
    requires S.Inv(c, f)
    ensures f.read.pipe != [] && f.run.w.commit <= |f.run.w.log|
    ensures R.Step(c, f.read, f.run.w.log, f.run.w.commit, false).delivered == f.read.delivered
  {
  }

  /** Memory, pipeline and output FIFO are finite. */
  lemma Bounded(c: Config, f: S.Fifo)
    requires c.Valid() && S.Inv(c, f) && f.read.delivered == []
    ensures |f.run.w.log| <= c.Depth() + R.Half(c) + c.ramPipeline + 3
  {
    S.Bounds(c, f);
    D.Undelivered(c, f.read, f.run.w.log, f.run.w.commit);
    R.LoadAtMost(f.read.pipe);
  }

  lemma Refuses(c: Config) returns (k: nat)
    requires c.Valid() && !Discards(c)
    ensures !S.Ready(c, S.Execute(c, Push(c, k)))
  {
    hide S.Ready;
    var n := c.Depth() + R.Half(c) + c.ramPipeline + 4;
    if forall j :: 0 <= j < n ==> S.Ready(c, S.Execute(c, Push(c, j))) {
      Fills(c, n);
      Bounded(c, S.Execute(c, Push(c, n)));
      assert false;
    }
    k :| 0 <= k < n && !S.Ready(c, S.Execute(c, Push(c, k)));
  }

  /** tready is asserted after every run exactly if frames that meet a full memory are dropped or marked. */
  lemma ReadyExactly(c: Config)
    requires c.Valid()
    ensures (forall ins :: S.Ready(c, S.Execute(c, ins))) <==> Discards(c)
  {
    hide S.Execute;
    if !Discards(c) { var k := Refuses(c); }
  }

  // ------------------------------------------------------------ two clocks

  /** Single frames, and no edge of the read clock. */
  function Write(c: Config, k: nat): seq<A.Tick> {
    seq(k, i => A.Tick(true, false, true, Single(c), false, false, false, false, false, 0))
  }

  lemma {:induction false} FillsAcross(c: Config, k: nat)
    requires c.Valid() && !Discards(c) && forall j :: 0 <= j < k ==> A.Ready(c, A.Execute(c, Write(c, j)))
    ensures var f := A.Execute(c, Write(c, k));
      Plain(f.run.w) && |f.run.w.log| == k && f.read.rd == 0
  {
    hide A.Inv, A.Ready, A.Step, W.Step, A.Full;
    if k > 0 {
      var f := A.Execute(c, Write(c, k - 1));
      var t := A.Tick(true, false, true, Single(c), false, false, false, false, false, 0);
      FillsAcross(c, k - 1);
      assert Write(c, k)[..k - 1] == Write(c, k - 1) && Write(c, k)[k - 1] == t;
      A.Bounds(c, f);
      EdgeAcross(c, f, t);
      AcceptedAcross(c, f);
      Stores(c, f.run.w, A.Full(c, f));
    }
  }

  /** An edge of the write clock alone. */
  lemma EdgeAcross(c: Config, f: A.Fifo, t: A.Tick)
    requires c.Valid() && A.Inv(c, f) && t.sEdge && !t.mEdge
    ensures A.Sound(c, f) && f.run.w.commit <= |f.run.w.log|
    ensures A.Step(c, f, t).read == f.read
    ensures A.Step(c, f, t).run.w == W.Step(c, f.run.w, A.Full(c, f), t.valid, t.beat)
  {
    hide R.ReadInv, A.RingInv, W.Step;
    A.Bounds(c, f);
    A.StepParts(c, f, t);
  }

  lemma AcceptedAcross(c: Config, f: A.Fifo)
    ensures A.Ready(c, f) == W.Ready(c, f.run.w, A.Full(c, f))
  {
  }

  lemma RefusesAcross(c: Config) returns (k: nat)
    requires c.Valid() && !Discards(c)
    ensures !A.Ready(c, A.Execute(c, Write(c, k)))
  {
    hide A.Ready;
    var n := c.Depth() + 1;
    if forall j :: 0 <= j < n ==> A.Ready(c, A.Execute(c, Write(c, j))) {
      FillsAcross(c, n);
      A.Bounds(c, A.Execute(c, Write(c, n)));
      assert false;
    }
    k :| 0 <= k < n && !A.Ready(c, A.Execute(c, Write(c, k)));
  }

  /** So it is across the clock domains. */
  lemma ReadyExactlyAcross(c: Config)
    requires c.Valid()
    ensures (forall ts :: A.Ready(c, A.Execute(c, ts))) <==> Discards(c)
  {
    hide A.Execute;
    if !Discards(c) { var k := RefusesAcross(c); }
  }
}
