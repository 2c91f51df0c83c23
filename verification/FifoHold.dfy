/**
 Frame mode without dropping oversize frames: a frame is held back until its
 last beat, unless it fills the memory before.
 */
module FifoHold {
  import opened Streams
  import opened FifoWrite

  /** All frames that have ended. */
  function Ended(frames: seq<Frame>): seq<Beat> {
    if frames == [] then [] else Ended(frames[..|frames| - 1]) + frames[|frames| - 1].beats
  }

  /** Frames are released at their end, or once they have filled the memory. */
  ghost predicate Held(c: Config, r: Run) {
    && !r.w.drop && !r.w.mark
    && r.w.log == r.accepted == Ended(r.frames) + r.part
    && (if r.w.send then r.w.commit == |r.accepted| && |r.part| >= c.Depth()
        else r.w.commit == |r.accepted| - |r.part| && |r.part| <= c.Depth())
  }

  /** Every frame that ends is reported good. */
  ghost predicate AllGood(r: Run) {
    && r.goods == |r.frames| && r.bads == 0 && r.overflows == 0
    && forall f :: f in r.frames ==> f.verdict == Good && f.beats != []
  }

  /** The write side at an edge, in this mode. */
  lemma WriteEdge(c: Config, w: Write, i: Input)
    requires c.Valid() && c.frameFifo && !c.dropOversize && !w.drop && !w.mark && w.commit <= |w.log|
    ensures var w', full := Step(c, w, i.full, i.valid, i.beat), FullFrame(c, w);
      && !w'.drop && !w'.mark
      && if i.valid && Ready(c, w, i.full) then
           && w'.log == w.log + [i.beat]
           && w'.send == (!i.beat.last && (full || w.send))
           && w'.commit == if i.beat.last || full || w.send then |w'.log| else w.commit
         else
           && w'.log == w.log
           && w'.send == (w.send || (i.valid && full))
           && w'.commit == if i.valid && full then |w.log| else w.commit
  {
  }

  lemma HeldStep(c: Config, r: Run, i: Input)
    requires c.Valid() && c.frameFifo && !c.dropOversize && Held(c, r)
    ensures Held(c, RunStep(c, r, i))
  {
    hide Step;
    assert c.Depth() >= 1;
    WriteEdge(c, r.w, i);
    var r' := RunStep(c, r, i);
    if i.valid && Ready(c, r.w, i.full) && i.beat.last {
      assert r'.frames[..|r.frames|] == r.frames;
    }
  }

  lemma GoodStep(c: Config, r: Run, i: Input)
    requires c.Valid() && c.frameFifo && !c.dropOversize && Held(c, r) && AllGood(r)
    ensures AllGood(RunStep(c, r, i))
  {
  }

  lemma {:induction false} RunHeld(c: Config, ins: seq<Input>)
    requires c.Valid() && c.frameFifo && !c.dropOversize
    ensures Held(c, Execute(c, ins)) && AllGood(Execute(c, ins))
  {
    if ins != [] {
      var r, i := Execute(c, ins[..|ins| - 1]), ins[|ins| - 1];
      RunHeld(c, ins[..|ins| - 1]);
      HeldStep(c, r, i);
      GoodStep(c, r, i);
    }
  }

  /**
   For every run: what was accepted is the frames that ended, each reported
   good, and the beats of one more. While these have not filled the memory they
   are held back, and nothing else is; a longer frame is readable as far as it came.
   */
  lemma HeldBack(c: Config, ins: seq<Input>)
    requires c.Valid() && c.frameFifo && !c.dropOversize
    ensures var r := Execute(c, ins);
      && r.accepted == r.w.log == Ended(r.frames) + r.part && AllGood(r)
      && (|r.part| < c.Depth() ==> r.w.log[..r.w.commit] == Ended(r.frames))
      && (|r.part| > c.Depth() ==> r.w.commit == |r.accepted|)
      && (|r.part| == c.Depth() ==> r.w.commit == if r.w.send then |r.accepted| else |Ended(r.frames)|)
      && (r.part == [] ==> r.w.commit == |r.accepted|)
  {
    RunHeld(c, ins);
    assert c.Depth() >= 1;
  }
}
