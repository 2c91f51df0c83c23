/**
 Frame mode with oversize frames dropped is all-or-nothing: over any run, with
 `full` taking any value at any edge, the committed words are exactly the
 frames that were reported good.
 */
module FifoFrames {
  import opened Streams
  import opened FifoWrite

  function Beats(fs: seq<Frame>, v: Verdict): seq<seq<Beat>>
  {
    if fs == [] then []
    else
      var f := fs[|fs| - 1];
      var front := Beats(fs[..|fs| - 1], v);
      if f.verdict == v then front + [f.beats] else front
  }

  lemma BeatsAppend(fs: seq<Frame>, f: Frame, v: Verdict)
    ensures Beats(fs + [f], v) == if f.verdict == v then Beats(fs, v) + [f.beats] else Beats(fs, v)
  {
    assert (fs + [f])[..|fs|] == fs;
  }

  ghost predicate Unfinished(part: seq<Beat>)
  {
    forall b :: b in part ==> !b.last
  }

  /** The verdict the parameters promise for a frame. */
  function Expected(c: Config, f: Frame): Verdict
    requires f.beats != []
  {
    if f.pressed || |f.beats| > c.Depth() then Overflow
    else if c.dropBad && c.BadUser(f.beats[|f.beats| - 1].user) then Bad
    else Good
  }

  ghost predicate FrameInv(c: Config, r: Run)
  {
    var w := r.w;
    && !w.mark
    && w.commit <= |w.log|
    && w.log[..w.commit] == Concat(Beats(r.frames, Good))
    && (!w.drop ==> w.log[w.commit..] == r.part)
    && (w.drop ==> r.part != [])
    && (w.drop <==> r.pressed || |r.part| > c.Depth())
    && Unfinished(r.part)
    && (forall f :: f in r.frames ==> IsFrame(f.beats) && f.verdict == Expected(c, f))
    && r.goods == |Beats(r.frames, Good)|
    && r.bads == |Beats(r.frames, Bad)|
    && r.overflows == |Beats(r.frames, Overflow)|
  }

  /** The three pulses are mutually exclusive, and fire exactly at an accepted end of frame. */
  lemma OnePulse(c: Config, w: Write, full: bool, valid: bool, b: Beat)
    requires c.Valid() && c.dropOversize && w.commit <= |w.log|
    ensures var w' := Step(c, w, full, valid, b);
      Count(w'.good) + Count(w'.bad) + Count(w'.overflow) == Count(valid && Ready(c, w, full) && b.last)
  {
  }

  /** A frame is committed only if none of its beats was dropped and it is not marked bad. */
  lemma DroppedStep(c: Config, w: Write, full: bool, b: Beat, part: seq<Beat>)
    requires c.Valid() && c.dropOversize && w.commit <= |w.log| && !w.mark
    requires Ready(c, w, full) && (!w.drop ==> w.log[w.commit..] == part)
    ensures var w' := Step(c, w, full, true, b);
      && !w'.mark
      && w'.commit <= |w'.log|
      && (w'.good ==> b.last && !w.drop && w'.commit == |w'.log| && w'.log == w.log[..w.commit] + (part + [b]))
      && (!w'.good ==> w'.commit == w.commit && w'.log[..w.commit] == w.log[..w.commit])
      && (b.last ==> !w'.drop && w'.commit == |w'.log|)
      && (!b.last && !w'.drop ==> w'.log[w'.commit..] == part + [b])
  {
    assert w.log == w.log[..w.commit] + w.log[w.commit..];
  }

  lemma VerdictRight(c: Config, r: Run, full: bool, b: Beat)
    requires c.Valid() && c.dropOversize && FrameInv(c, r)
    requires Ready(c, r.w, full) && b.last
    ensures var pressed := r.pressed || Pressure(c, r.w, full);
      var f := Frame(r.part + [b], pressed, VerdictOf(Step(c, r.w, full, true, b)));
      IsFrame(f.beats) && f.verdict == Expected(c, f)
  {
    assert r.w.drop || |r.w.log| == r.w.commit + |r.part|;
  }

  lemma FrameCommits(c: Config, r: Run, full: bool, b: Beat)
    requires c.Valid() && c.dropOversize && FrameInv(c, r)
    requires Ready(c, r.w, full) && b.last
    ensures var r' := RunStep(c, r, Input(full, true, b));
      r'.w.log[..r'.w.commit] == Concat(Beats(r'.frames, Good))
  {
    var r' := RunStep(c, r, Input(full, true, b));
    var f := r'.frames[|r.frames|];
    DroppedStep(c, r.w, full, b, r.part);
    BeatsAppend(r.frames, f, Good);
    ConcatAppend(Beats(r.frames, Good), f.beats);
    if r'.w.good { assert r'.w.log[..r'.w.commit] == r'.w.log; }
  }

  lemma FrameEnds(c: Config, r: Run, full: bool, b: Beat)
    requires c.Valid() && c.dropOversize && FrameInv(c, r)
    requires Ready(c, r.w, full) && b.last
    ensures FrameInv(c, RunStep(c, r, Input(full, true, b)))
  {
    var r' := RunStep(c, r, Input(full, true, b));
    var f := r'.frames[|r.frames|];
    OnePulse(c, r.w, full, true, b);
    DroppedStep(c, r.w, full, b, r.part);
    BeatsAppend(r.frames, f, Good);
    BeatsAppend(r.frames, f, Bad);
    BeatsAppend(r.frames, f, Overflow);
    VerdictRight(c, r, full, b);
    FrameCommits(c, r, full, b);
  }

  lemma FrameStepInv(c: Config, r: Run, i: Input)
    requires c.Valid() && c.dropOversize && FrameInv(c, r)
    ensures FrameInv(c, RunStep(c, r, i))
  {
    OnePulse(c, r.w, i.full, i.valid, i.beat);
    if i.valid && Ready(c, r.w, i.full) {
      if i.beat.last {
        FrameEnds(c, r, i.full, i.beat);
      } else {
        DroppedStep(c, r.w, i.full, i.beat, r.part);
      }
    }
  }

  /**
   All or nothing, over every run: what the reader may see is the
   concatenation of the good frames, and a frame is good exactly when it fits
   the memory, met no full memory under drop-when-full, and is not marked bad;
   every accepted frame got exactly one pulse.
   */
  lemma {:induction false} AllOrNothing(c: Config, ins: seq<Input>)
    requires c.Valid() && c.dropOversize
    ensures FrameInv(c, Execute(c, ins))
    ensures var r := Execute(c, ins);
      && r.w.log[..r.w.commit] == Concat(Beats(r.frames, Good))
      && (forall f :: f in r.frames ==> IsFrame(f.beats) && f.verdict == Expected(c, f))
      && |r.frames| == r.goods + r.bads + r.overflows
  {
    if ins != [] {
      AllOrNothing(c, ins[..|ins| - 1]);
      FrameStepInv(c, Execute(c, ins[..|ins| - 1]), ins[|ins| - 1]);
    }
    VerdictTotal(Execute(c, ins).frames);
  }

  lemma {:induction false} VerdictTotal(fs: seq<Frame>)
    ensures |fs| == |Beats(fs, Good)| + |Beats(fs, Bad)| + |Beats(fs, Overflow)|
  {
    if fs != [] { VerdictTotal(fs[..|fs| - 1]); }
  }

  /** In a memory of one word, every frame that is stored is one word. */
  lemma SingleWords(c: Config, r: Run)
    requires FrameInv(c, r) && c.addrWidth == 0
    ensures forall n :: 0 <= n < r.w.commit ==> r.w.log[n].last
  {
    GoodAreSingle(c, r.frames);
    AllLast(Beats(r.frames, Good));
    var s := r.w.log[..r.w.commit];
    assert forall n :: 0 <= n < r.w.commit ==> r.w.log[n] == s[n];
  }

  lemma {:induction false} GoodAreSingle(c: Config, fs: seq<Frame>)
    requires c.addrWidth == 0 && forall f :: f in fs ==> IsFrame(f.beats) && f.verdict == Expected(c, f)
    ensures forall b :: b in Beats(fs, Good) ==> IsFrame(b) && |b| == 1
  {
    if fs != [] {
      GoodAreSingle(c, fs[..|fs| - 1]);
      assert fs[|fs| - 1] in fs;
    }
  }

  lemma {:induction false} AllLast(bs: seq<seq<Beat>>)
    requires forall b :: b in bs ==> IsFrame(b) && |b| == 1
    ensures forall n :: 0 <= n < |Concat(bs)| ==> Concat(bs)[n].last
  {
    if bs != [] {
      AllLast(bs[..|bs| - 1]);
      assert bs[|bs| - 1] in bs;
    }
  }

  /** Good frames are whole frames, so the commit pointer is a frame boundary. */
  lemma {:induction false} GoodAreFrames(fs: seq<Frame>)
    requires forall f :: f in fs ==> IsFrame(f.beats)
    ensures forall f :: f in Beats(fs, Good) ==> IsFrame(f)
  {
    if fs != [] {
      GoodAreFrames(fs[..|fs| - 1]);
      assert fs[|fs| - 1] in fs;
    }
  }

  lemma FramesEndAtBoundary(fs: seq<seq<Beat>>)
    requires forall f :: f in fs ==> IsFrame(f)
    ensures Boundary(Concat(fs), |Concat(fs)|)
  {
    if fs != [] {
      var f := fs[|fs| - 1];
      assert f in fs;
      assert Concat(fs)[|Concat(fs)| - 1] == f[|f| - 1];
    }
  }

  lemma CommitAtBoundary(c: Config, r: Run)
    requires FrameInv(c, r)
    ensures Boundary(r.w.log, r.w.commit)
  {
    GoodAreFrames(r.frames);
    FramesEndAtBoundary(Beats(r.frames, Good));
    var s := r.w.log[..r.w.commit];
    assert r.w.commit > 0 ==> r.w.log[r.w.commit - 1] == s[r.w.commit - 1];
  }
}
