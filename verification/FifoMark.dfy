/**
 Mark-when-full mode: whatever the memory does, the stored stream is made of
 whole accepted frames and of proper prefixes closed by one bad-frame word.
 */
module FifoMark {
  import opened Streams
  import opened FifoWrite

  /** What became of one accepted frame. */
  datatype Fate =
    | Whole(frame: seq<Beat>)
    | Cut(frame: seq<Beat>, kept: seq<Beat>, terminator: Beat)
    | Skipped(frame: seq<Beat>)
  {
    function Written(): seq<Beat> {
      match this
      case Whole(f) => f
      case Cut(f, p, t) => p + [t]
      case Skipped(f) => []
    }

    ghost predicate WellFormed(c: Config) {
      && IsFrame(frame)
      && (Cut? ==> [] < kept < frame && terminator.last && terminator.user == c.badValue)
    }
  }

  function Output(fates: seq<Fate>): seq<Beat> {
    if fates == [] then [] else Output(fates[..|fates| - 1]) + fates[|fates| - 1].Written()
  }

  lemma OutputAppend(fates: seq<Fate>, f: Fate)
    ensures Output(fates + [f]) == Output(fates) + f.Written()
  {
    assert (fates + [f])[..|fates|] == fates;
  }

  /** f is a possible fate of the accepted frame g: whole exactly if it met no pressure. */
  ghost predicate Fits(c: Config, f: Fate, g: Frame) {
    f.WellFormed(c) && f.frame == g.beats && (f.Whole? <==> !g.pressed)
  }

  /** The fates are those of the first accepted frames, in order. */
  ghost predicate Explains(c: Config, r: Run, fates: seq<Fate>) {
    && |fates| <= |r.frames|
    && forall i :: 0 <= i < |fates| ==> Fits(c, fates[i], r.frames[i])
  }

  ghost predicate FramesOnly(r: Run) {
    && (forall b :: b in r.part ==> !b.last)
    && (forall i :: 0 <= i < |r.frames| ==> IsFrame(r.frames[i].beats))
  }

  /** The first frame whose fate is open: finished but unterminated, or still arriving. */
  ghost function Next(r: Run, fates: seq<Fate>): seq<Beat> {
    if |fates| < |r.frames| then r.frames[|fates|].beats else r.part
  }

  /** pre is what is stored behind the output of the frames already explained. */
  ghost predicate Tail(r: Run, fates: seq<Fate>, pre: seq<Beat>) {
    var w := r.w;
    && w.log == Output(fates) + pre
    && w.commit == |w.log|
    && (w.inFrame <==> r.part != [])
    && (w.drop ==> r.part != [])
    && (w.drop <==> r.pressed)
    && if w.mark then
         && [] < pre < Next(r, fates)
         && (|fates| == |r.frames| ==> w.drop)
         && (!w.drop ==> r.part == [])
       else
         |fates| == |r.frames| && pre == if w.drop then [] else r.part
  }

  ghost predicate PressedFrom(r: Run, k: nat) {
    forall i :: k <= i < |r.frames| ==> r.frames[i].pressed
  }

  ghost predicate MarkInv(c: Config, r: Run, fates: seq<Fate>, pre: seq<Beat>) {
    Explains(c, r, fates) && FramesOnly(r) && Tail(r, fates, pre) && PressedFrom(r, |fates|)
  }

  lemma History(c: Config, r: Run, i: Input, fates: seq<Fate>)
    requires r.w.commit <= |r.w.log| && Explains(c, r, fates) && FramesOnly(r)
    ensures Explains(c, RunStep(c, r, i), fates) && FramesOnly(RunStep(c, r, i))
  {
  }

  lemma ExplainsMore(c: Config, r: Run, fates: seq<Fate>, f: Fate)
    requires Explains(c, r, fates) && |fates| < |r.frames| && Fits(c, f, r.frames[|fates|])
    ensures Explains(c, r, fates + [f])
  {
    hide Fits;
  }

  /** Every finished frame from here on was skipped. */
  lemma {:induction false} SkipRest(c: Config, r: Run, fates: seq<Fate>) returns (all: seq<Fate>)
    requires Explains(c, r, fates) && FramesOnly(r) && PressedFrom(r, |fates|)
    ensures Explains(c, r, all) && |all| == |r.frames|
    ensures Output(all) == Output(fates)
    decreases |r.frames| - |fates|
  {
    if |fates| == |r.frames| {
      all := fates;
    } else {
      var f := Skipped(r.frames[|fates|].beats);
      ExplainsMore(c, r, fates, f);
      OutputAppend(fates, f);
      all := SkipRest(c, r, fates + [f]);
    }
  }

  /** The first open frame gets the fate f, the later ones were skipped. */
  lemma Settle(c: Config, r: Run, fates: seq<Fate>, f: Fate) returns (all: seq<Fate>)
    requires Explains(c, r, fates) && FramesOnly(r) && |fates| < |r.frames|
    requires PressedFrom(r, |fates| + 1) && Fits(c, f, r.frames[|fates|])
    ensures Explains(c, r, all) && |all| == |r.frames|
    ensures Output(all) == Output(fates) + f.Written()
  {
    hide Explains, FramesOnly, Fits, Output;
    ExplainsMore(c, r, fates, f);
    OutputAppend(fates, f);
    all := SkipRest(c, r, fates + [f]);
  }

  lemma WriteClean(c: Config, w: Write, full: bool, b: Beat)
    requires c.Valid() && c.markWhenFull && !w.mark && w.commit == |w.log|
    ensures var w' := Step(c, w, full, true, b);
      && Ready(c, w, full) && w'.inFrame == !b.last && w'.commit == |w'.log|
      && (w'.drop <==> !b.last && (w.drop || full))
      && (w'.mark <==> !w.drop && full && w.inFrame)
      && w'.log == if w.drop || full then w.log else w.log + [b]
  {
  }

  lemma WriteOwed(c: Config, w: Write, full: bool, b: Beat)
    requires c.Valid() && c.markWhenFull && w.mark && w.commit == |w.log|
    ensures var w' := Step(c, w, full, true, b);
      && Ready(c, w, full) && w'.inFrame == !b.last && w'.commit == |w'.log|
      && w'.drop == !b.last
      && (w'.mark <==> !(w.drop && b.last && !full))
      && w'.log == if w'.mark then w.log else w.log + [Stored(c, w, b)]
  {
  }

  /** No terminator is owed and the frame goes on: store it, or start to drop or cut it. */
  lemma CleanMiddle(c: Config, r: Run, full: bool, b: Beat, fates: seq<Fate>, pre: seq<Beat>) returns (pre': seq<Beat>)
    requires c.Valid() && c.markWhenFull && MarkInv(c, r, fates, pre) && !r.w.mark && !b.last
    ensures MarkInv(c, RunStep(c, r, Input(full, true, b)), fates, pre')
  {
    History(c, r, Input(full, true, b), fates);
    WriteClean(c, r.w, full, b);
    Assoc(Output(fates), r.part, [b]);
    pre' := if r.w.drop || full then pre else r.part + [b];
  }

  lemma FateAtEnd(c: Config, r: Run, full: bool, b: Beat, fates: seq<Fate>, pre: seq<Beat>) returns (f: Fate)
    requires c.Valid() && c.markWhenFull && MarkInv(c, r, fates, pre) && !r.w.mark && b.last
    ensures var r' := RunStep(c, r, Input(full, true, b));
      && |r'.frames| == |fates| + 1 && Fits(c, f, r'.frames[|fates|]) && r'.part == []
      && f.Written() == if r.w.drop || full then [] else r.part + [b]
  {
    var frame := r.part + [b];
    assert IsFrame(frame);
    f := if r.w.drop || full then Skipped(frame) else Whole(frame);
  }

  /** No terminator is owed and the frame ends: whole, skipped, or cut just before its end. */
  lemma CleanLast(c: Config, r: Run, full: bool, b: Beat, fates: seq<Fate>, pre: seq<Beat>)
    returns (fates': seq<Fate>, pre': seq<Beat>)
    requires c.Valid() && c.markWhenFull && MarkInv(c, r, fates, pre) && !r.w.mark && b.last
    ensures MarkInv(c, RunStep(c, r, Input(full, true, b)), fates', pre')
    ensures var r' := RunStep(c, r, Input(full, true, b));
      && (r'.w.mark <==> full && !r.w.drop && r.part != [])
      && r'.w.log == (if r.w.drop || full then r.w.log else r.w.log + [b])
      && if r'.w.mark then
           fates' == fates && pre' == r.part
         else
           && pre' == [] && |fates'| == |r'.frames|
           && Output(fates') == Output(fates) + if r.w.drop || full then [] else r.part + [b]
  {
    hide Explains, FramesOnly, Fits, Step, Output;
    var r' := RunStep(c, r, Input(full, true, b));
    WriteClean(c, r.w, full, b);
    Assoc(Output(fates), r.part, [b]);
    var f := FateAtEnd(c, r, full, b, fates, pre);
    History(c, r, Input(full, true, b), fates);
    if r'.w.mark {
      fates', pre' := fates, pre;
    } else {
      fates' := Settle(c, r', fates, f);
      pre' := [];
    }
  }

  /** A cut frame is still owed its terminator. */
  lemma OwedStep(c: Config, r: Run, full: bool, b: Beat, fates: seq<Fate>, pre: seq<Beat>)
    returns (fates': seq<Fate>, pre': seq<Beat>)
    requires c.Valid() && c.markWhenFull && MarkInv(c, r, fates, pre) && r.w.mark
    ensures MarkInv(c, RunStep(c, r, Input(full, true, b)), fates', pre')
    ensures var r', t := RunStep(c, r, Input(full, true, b)), Stored(c, r.w, b);
      && (r'.w.mark <==> !(r.w.drop && b.last && !full))
      && t.last && t.user == c.badValue
      && r'.w.log == (if r'.w.mark then r.w.log else r.w.log + [t])
      && if r'.w.mark then
           fates' == fates && pre' == pre
         else
           pre' == [] && |fates'| == |r'.frames| && Output(fates') == Output(fates) + (pre + [t])
  {
    var r' := RunStep(c, r, Input(full, true, b));
    History(c, r, Input(full, true, b), fates);
    WriteOwed(c, r.w, full, b);
    fates', pre' := fates, pre;
    Assoc(Output(fates), pre, [Stored(c, r.w, b)]);
    assert pre < Next(r', fates);
    if !r'.w.mark {
      fates' := Settle(c, r', fates, Cut(Next(r', fates), pre, Stored(c, r.w, b)));
      pre' := [];
    }
  }

  /** Nothing arrives; a terminator that is owed goes in as soon as there is room. */
  lemma IdleStep(c: Config, r: Run, full: bool, b: Beat, fates: seq<Fate>, pre: seq<Beat>)
    returns (fates': seq<Fate>, pre': seq<Beat>)
    requires c.Valid() && c.markWhenFull && MarkInv(c, r, fates, pre)
    ensures MarkInv(c, RunStep(c, r, Input(full, false, b)), fates', pre')
    ensures var r', t := RunStep(c, r, Input(full, false, b)), Stored(c, r.w, b);
      if r.w.mark && !r.w.drop && !full then
        && t.last && t.user == c.badValue && r'.w.log == r.w.log + [t] && !r'.w.mark
        && pre' == [] && Output(fates') == Output(fates) + (pre + [t])
      else
        r'.w.log == r.w.log && r'.w.mark == r.w.mark && fates' == fates && pre' == pre
  {
    var r' := RunStep(c, r, Input(full, false, b));
    History(c, r, Input(full, false, b), fates);
    if r.w.mark && !r.w.drop && !full {
      var t := Stored(c, r.w, b);
      assert r'.w.log == r.w.log + [t];
      Assoc(Output(fates), pre, [t]);
      fates' := Settle(c, r', fates, Cut(Next(r, fates), pre, t));
      pre' := [];
    } else {
      fates', pre' := fates, pre;
    }
  }

  /**
   For every run: the stored words are, frame after accepted frame, the frame
   itself, nothing, or a non-empty proper prefix closed by a single last word
   carrying the bad-frame value; behind them is at most the beginning of the
   next frame, so nothing of a later frame is stored before the terminator.
   */
  lemma {:induction false} MarkedStream(c: Config, ins: seq<Input>) returns (fates: seq<Fate>, tail: seq<Beat>)
    requires c.Valid() && c.markWhenFull
    ensures var r := Execute(c, ins);
      && MarkInv(c, r, fates, tail)
      && Explains(c, r, fates)
      && r.w.log == Output(fates) + tail
      && tail <= Next(r, fates)
  {
    if ins == [] {
      fates, tail := [], [];
    } else {
      var front, i := ins[..|ins| - 1], ins[|ins| - 1];
      fates, tail := MarkedStream(c, front);
      var r := Execute(c, front);
      if !i.valid {
        fates, tail := IdleStep(c, r, i.full, i.beat, fates, tail);
      } else if r.w.mark {
        fates, tail := OwedStep(c, r, i.full, i.beat, fates, tail);
      } else if i.beat.last {
        fates, tail := CleanLast(c, r, i.full, i.beat, fates, tail);
      } else {
        tail := CleanMiddle(c, r, i.full, i.beat, fates, tail);
      }
    }
  }

  // -------------------------------------------------------- overflow pulses

  function Pressed(frames: seq<Frame>): nat {
    if frames == [] then 0
    else Pressed(frames[..|frames| - 1]) + Count(frames[|frames| - 1].pressed)
  }

  ghost predicate PulsesInv(r: Run) {
    && r.w.drop == r.pressed
    && r.goods == r.bads == 0 && r.overflows == Pressed(r.frames)
  }

  /** The drop flag and the pulses after an edge. */
  lemma PulseEdge(c: Config, w: Write, i: Input)
    requires c.Valid() && c.markWhenFull && w.commit <= |w.log|
    ensures var w', pressed := Step(c, w, i.full, i.valid, i.beat), w.drop || (i.valid && Pressure(c, w, i.full));
      && Ready(c, w, i.full) && !w'.good && !w'.bad
      && w'.overflow == (i.valid && i.beat.last && pressed)
      && w'.drop == (pressed && !(i.valid && i.beat.last))
  {
  }

  lemma PulsesStep(c: Config, r: Run, i: Input)
    requires c.Valid() && c.markWhenFull && r.w.commit <= |r.w.log| && PulsesInv(r)
    ensures PulsesInv(RunStep(c, r, i))
  {
    hide Step, Pressure;
    PulseEdge(c, r.w, i);
    var r' := RunStep(c, r, i);
    if |r'.frames| > |r.frames| { assert r'.frames[..|r.frames|] == r.frames; }
  }

  /**
   For every run: one overflow pulse for each frame that met a full memory or a
   terminator still owed, none for the others, and no other pulse.
   */
  lemma {:induction false} OverflowsExactly(c: Config, ins: seq<Input>)
    requires c.Valid() && c.markWhenFull
    ensures PulsesInv(Execute(c, ins))
  {
    if ins != [] {
      OverflowsExactly(c, ins[..|ins| - 1]);
      PulsesStep(c, Execute(c, ins[..|ins| - 1]), ins[|ins| - 1]);
    }
  }
}
