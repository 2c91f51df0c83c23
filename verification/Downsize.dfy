/** The adapter with the narrower output: wide beats are shifted out segment by segment. */
module Downsize {
  import opened Adapter

  /** The registers: s is the word that is shifted out, m the output beat. */
  datatype Down = Down(sValid: bool, s: Wide, mValid: bool, m: Narrow)

  predicate Sound(count: nat, d: Down) { count >= 2 && |d.s.segs| == count }

  predicate Reset(count: nat, d: Down) { Sound(count, d) && !d.sValid && !d.mValid }

  predicate Free(d: Down, ready: bool) { !d.mValid || ready }

  /** A right shift by one segment; zeros come in at the top. */
  function Shift(w: Wide): (r: Wide)
    requires w.segs != []
    ensures |r.segs| == |w.segs|
  {
    var top := w.segs[|w.segs| - 1];
    w.(segs := w.segs[1..] + [Segment(seq(|top.data|, i => 0), seq(|top.keep|, i => false))])
  }

  /** Whether the shifted keep register is zero. */
  predicate Done(w: Wide)
    requires w.segs != []
  {
    Quiet(Shift(w).segs)
  }

  function Step(count: nat, d: Down, i: Input<Wide>): (d': Down)
    requires Sound(count, d) && |i.beat.segs| == count
    ensures Sound(count, d')
  {
    if Free(d, i.ready) then
      var w := if d.sValid then d.s else i.beat;
      var moves := d.sValid || i.valid;
      Down(moves && !Done(w),
           if moves then Shift(w) else d.s,
           moves,
           Narrow(w.segs[0], moves && Done(w) && w.last, w.side))
    else if i.valid && !d.sValid then d.(s := i.beat, sValid := true)
    else d
  }

  // ------------------------------------------------------------------ runs

  datatype Run = Run(d: Down, accepted: seq<Wide>, delivered: seq<Narrow>)

  predicate Fitting(count: nat, ws: seq<Wide>) {
    count >= 2 && forall i :: 0 <= i < |ws| ==> |ws[i].segs| == count
  }

  function RunStep(count: nat, r: Run, i: Input<Wide>): Run
    requires Sound(count, r.d) && |i.beat.segs| == count
  {
    Run(Step(count, r.d, i),
        if i.valid && !r.d.sValid then r.accepted + [i.beat] else r.accepted,
        if r.d.mValid && i.ready then r.delivered + [r.d.m] else r.delivered)
  }

  function Sent(r: Run): seq<Narrow> {
    r.delivered + if r.d.mValid then [r.d.m] else []
  }

  function Rest(d: Down): seq<Narrow>
    requires d.s.segs != []
  {
    if d.sValid then Split(d.s) else []
  }

  /** The beats sent, and those still in the shift register, are the accepted words split up. */
  ghost predicate Inv(count: nat, r: Run) {
    && Sound(count, r.d) && Fitting(count, r.accepted)
    && Sent(r) + Rest(r.d) == SplitAll(r.accepted)
  }

  lemma QuietTail(w: Wide)
    requires w.segs != []
    ensures Done(w) <==> Quiet(w.segs[1..])
  {
    var t, u := w.segs[1..], Shift(w).segs;
    assert forall i :: 0 <= i < |t| ==> u[i] == t[i];
    assert u[|u| - 1].Blank();
    if Quiet(u) {
      forall i | 0 <= i < |t| ensures t[i].Blank() { assert u[i].Blank(); }
    }
  }

  lemma ShiftSpan(w: Wide)
    requires |w.segs| >= 2 && !Done(w)
    ensures Span(Shift(w).segs) == Span(w.segs) - 1
  {
    var n, u := Span(w.segs), Shift(w).segs;
    QuietTail(w);
    assert u[|u| - 1].Blank();
    var tail := u[n - 1..];
    forall i | 0 <= i < |tail| ensures tail[i].Blank() {
      if i < |tail| - 1 { assert tail[i] == w.segs[n..][i]; }
    }
    assert n > 1;
    assert n - 1 > 1 ==> u[n - 2] == w.segs[n - 1];
    SpanUnique(u, n - 1);
  }

  lemma LastOut(w: Wide)
    requires |w.segs| >= 2 && Done(w)
    ensures Split(w) == [Narrow(w.segs[0], w.last, w.side)]
  {
    hide Quiet;
    QuietTail(w);
  }

  lemma MoreOut(w: Wide)
    requires |w.segs| >= 2 && !Done(w)
    ensures Split(w) == [Narrow(w.segs[0], false, w.side)] + Split(Shift(w))
  {
    hide Done, Quiet, Span;
    ShiftSpan(w);
    forall i | 1 <= i < Span(w.segs) ensures Split(w)[i] == Split(Shift(w))[i - 1] {
      assert Shift(w).segs[i - 1] == w.segs[i];
    }
  }

  /** One segment out, the rest stays in the shift register. */
  lemma ShiftOut(w: Wide)
    requires |w.segs| >= 2
    ensures Split(w) == [Narrow(w.segs[0], Done(w) && w.last, w.side)] + if Done(w) then [] else Split(Shift(w))
  {
    hide Done, Shift, Split;
    if Done(w) { LastOut(w); } else { MoreOut(w); }
  }

  lemma SplitAllAppend(ws: seq<Wide>, w: Wide)
    requires w.segs != [] && forall x :: x in ws ==> x.segs != []
    ensures SplitAll(ws + [w]) == SplitAll(ws) + Split(w)
  {
    assert (ws + [w])[..|ws|] == ws;
  }

  /** What is sent and what is left after an edge add up to what they were, and a new word. */
  lemma SentStep(count: nat, r: Run, i: Input<Wide>)
    requires Sound(count, r.d) && |i.beat.segs| == count
    ensures var r' := RunStep(count, r, i);
      Sent(r') + Rest(r'.d) == Sent(r) + Rest(r.d) + if i.valid && !r.d.sValid then Split(i.beat) else []
  {
    hide Split, Done, Shift, Quiet;
    if Free(r.d, i.ready) && (r.d.sValid || i.valid) {
      ShiftOut(if r.d.sValid then r.d.s else i.beat);
    }
  }

  lemma StepInv(count: nat, r: Run, i: Input<Wide>)
    requires Inv(count, r) && |i.beat.segs| == count
    ensures Inv(count, RunStep(count, r, i))
  {
    hide Split, Step, Sent, Rest, Quiet;
    SentStep(count, r, i);
    if i.valid && !r.d.sValid { SplitAllAppend(r.accepted, i.beat); }
  }

  predicate Inputs(count: nat, ins: seq<Input<Wide>>) {
    forall i :: 0 <= i < |ins| ==> |ins[i].beat.segs| == count
  }

  function Execute(count: nat, d: Down, ins: seq<Input<Wide>>): (r: Run)
    requires Reset(count, d) && Inputs(count, ins)
    ensures Inv(count, r)
  {
    if ins == [] then Run(d, [], [])
    else
      var r, i := Execute(count, d, ins[..|ins| - 1]), ins[|ins| - 1];
      StepInv(count, r, i);
      RunStep(count, r, i)
  }

  lemma {:induction false} SplitAllItems(ws: seq<Wide>)
    requires forall w :: w in ws ==> w.segs != []
    ensures Items(NarrowItems, SplitAll(ws)) == Items(WideItems, ws)
  {
    if ws != [] {
      var k := |ws| - 1;
      assert ws[k] in ws;
      SplitAllItems(ws[..k]);
      SplitItems(ws[k]);
      ItemsAppend(NarrowItems, SplitAll(ws[..k]), Split(ws[k]));
    }
  }

  /** Kept bytes and frame ends: what was sent and what is still to be shifted out is what was accepted. */
  lemma Preserves(count: nat, d: Down, ins: seq<Input<Wide>>)
    requires Reset(count, d) && Inputs(count, ins)
    ensures var r := Execute(count, d, ins);
      && Items(NarrowItems, Sent(r)) + Items(NarrowItems, Rest(r.d)) == Items(WideItems, r.accepted)
      && |Rest(r.d)| <= count
  {
    var r := Execute(count, d, ins);
    SplitAllItems(r.accepted);
    ItemsAppend(NarrowItems, Sent(r), Rest(r.d));
  }

  // ---------------------------------------------------------------- progress

  /** The shift register holds something only behind an offered beat. */
  predicate Tight(d: Down) { d.sValid ==> d.mValid }

  /** How many beats are still to be delivered. */
  function Left(d: Down): nat
    requires d.s.segs != []
  {
    |Rest(d)| + if d.mValid then 1 else 0
  }

  lemma TightStep(count: nat, d: Down, i: Input<Wide>)
    requires Sound(count, d) && |i.beat.segs| == count && Tight(d)
    ensures Tight(Step(count, d, i))
  {
    hide Done, Shift;
  }

  lemma {:induction false} RunTight(count: nat, d: Down, ins: seq<Input<Wide>>)
    requires Reset(count, d) && Inputs(count, ins)
    ensures Tight(Execute(count, d, ins).d)
  {
    if ins != [] {
      RunTight(count, d, ins[..|ins| - 1]);
      TightStep(count, Execute(count, d, ins[..|ins| - 1]).d, ins[|ins| - 1]);
    }
  }

  /** With a ready sink one beat is delivered at every edge, until none is left. */
  lemma DrainStep(count: nat, d: Down, i: Input<Wide>)
    requires Sound(count, d) && |i.beat.segs| == count && Tight(d) && i.ready
    ensures var d' := Step(count, d, i);
      && (d.sValid || !i.valid ==> Left(d') == if Left(d) == 0 then 0 else Left(d) - 1)
      && (!d.sValid && i.valid ==> Left(d') <= count)
  {
    hide Split, Done, Shift;
    ShiftOut(if d.sValid then d.s else i.beat);
    SplitLength(i.beat);
  }

  lemma SplitLength(w: Wide)
    requires w.segs != []
    ensures |Split(w)| <= |w.segs|
  {
  }

  lemma LeftAtMost(count: nat, d: Down)
    requires Sound(count, d)
    ensures Left(d) <= count + 1
    ensures Left(d) == 0 <==> !d.sValid && !d.mValid
  {
  }

  lemma {:induction false} DrainRun(count: nat, d: Down, ins: seq<Input<Wide>>, more: seq<Input<Wide>>)
    requires Reset(count, d) && Inputs(count, ins) && Inputs(count, more) && AllDraining(more)
    ensures Inputs(count, ins + more)
    ensures var r, r' := Execute(count, d, ins), Execute(count, d, ins + more);
      r'.accepted == r.accepted && (Left(r'.d) == 0 || Left(r'.d) + |more| <= Left(r.d))
  {
    hide Step, Left, Tight;
    if more == [] {
      assert ins + more == ins;
    } else {
      var k := |more| - 1;
      assert (ins + more)[..|ins + more| - 1] == ins + more[..k];
      assert Draining(more[k]);
      DrainRun(count, d, ins, more[..k]);
      RunTight(count, d, ins + more[..k]);
      DrainStep(count, Execute(count, d, ins + more[..k]).d, more[k]);
    }
  }

  /** From every reachable state: with a ready sink and no input, everything accepted is out after count + 1 edges. */
  lemma AllDelivered(count: nat, d: Down, ins: seq<Input<Wide>>, more: seq<Input<Wide>>)
    requires Reset(count, d) && Inputs(count, ins) && Inputs(count, more) && AllDraining(more)
    requires |more| > count
    ensures Inputs(count, ins + more)
    ensures var r, r' := Execute(count, d, ins), Execute(count, d, ins + more);
      && r'.accepted == r.accepted && r'.delivered == SplitAll(r.accepted)
      && !r'.d.sValid && !r'.d.mValid
  {
    hide Step, Split;
    DrainRun(count, d, ins, more);
    LeftAtMost(count, Execute(count, d, ins).d);
    LeftAtMost(count, Execute(count, d, ins + more).d);
  }

  /** After every run a beat is offered exactly if some beat of the accepted words is not delivered yet. */
  lemma Offered(count: nat, d: Down, ins: seq<Input<Wide>>)
    requires Reset(count, d) && Inputs(count, ins)
    ensures var r := Execute(count, d, ins);
      && r.delivered <= SplitAll(r.accepted)
      && (r.d.mValid <==> |r.delivered| < |SplitAll(r.accepted)|)
  {
    hide Step;
    RunTight(count, d, ins);
    var r := Execute(count, d, ins);
    assert Sent(r) + Rest(r.d) == SplitAll(r.accepted);
  }

  // ------------------------------------------------- an output without keep

  /** All lanes of the segment are kept. */
  predicate Full(s: Segment) { forall i :: 0 <= i < |s.data| ==> KeptAt(s, i) }

  predicate KeptAt(s: Segment, i: nat) { i < |s.keep| && s.keep[i] }

  /** What a sink without tkeep reads: every lane of every beat. */
  function BareItems(n: Narrow): seq<Item> { LanesFrom(n.seg, 0) + EndIf(n.last) }

  function LanesFrom(s: Segment, i: nat): (r: seq<Item>)
    decreases |s.data| - i
  {
    if i >= |s.data| then [] else [Byte(s.data[i])] + LanesFrom(s, i + 1)
  }

  lemma {:induction false} LanesExactly(s: Segment, i: nat)
    ensures |KeptFrom(s, i)| <= |LanesFrom(s, i)|
    ensures |KeptFrom(s, i)| == |LanesFrom(s, i)| <==> forall j :: i <= j < |s.data| ==> KeptAt(s, j)
    ensures |KeptFrom(s, i)| == |LanesFrom(s, i)| ==> KeptFrom(s, i) == LanesFrom(s, i)
    decreases |s.data| - i
  {
    if i < |s.data| {
      LanesExactly(s, i + 1);
      assert KeptAt(s, i) <==> i < |s.keep| && s.keep[i];
    }
  }

  lemma BareOne(n: Narrow)
    ensures |NarrowItems(n)| <= |BareItems(n)|
    ensures |NarrowItems(n)| == |BareItems(n)| <==> Full(n.seg)
    ensures Full(n.seg) ==> BareItems(n) == NarrowItems(n)
  {
    LanesExactly(n.seg, 0);
  }

  lemma {:induction false} BareExactly(ns: seq<Narrow>)
    ensures |Items(NarrowItems, ns)| <= |Items(BareItems, ns)|
    ensures |Items(NarrowItems, ns)| == |Items(BareItems, ns)| <==> forall n :: n in ns ==> Full(n.seg)
    ensures (forall n :: n in ns ==> Full(n.seg)) ==> Items(BareItems, ns) == Items(NarrowItems, ns)
  {
    hide Full, BareItems, NarrowItems;
    if ns != [] {
      var k := |ns| - 1;
      BareExactly(ns[..k]);
      BareOne(ns[k]);
      assert ns == ns[..k] + [ns[k]];
    }
  }

  /**
   With tkeep disabled on the output, what was sent and what is still held
   reads as the kept bytes and frame ends accepted exactly if no lane of it
   is without its keep bit.
   */
  lemma WithoutKeep(count: nat, d: Down, ins: seq<Input<Wide>>)
    requires Reset(count, d) && Inputs(count, ins)
    ensures var r := Execute(count, d, ins);
      Items(BareItems, Sent(r) + Rest(r.d)) == Items(WideItems, r.accepted) <==>
        forall n :: n in Sent(r) + Rest(r.d) ==> Full(n.seg)
  {
    var r := Execute(count, d, ins);
    SplitAllItems(r.accepted);
    BareExactly(Sent(r) + Rest(r.d));
  }

  /** A beat that is offered stays until it is taken. */
  lemma Stable(count: nat, d: Down, i: Input<Wide>)
    requires Sound(count, d) && |i.beat.segs| == count && d.mValid && !i.ready
    ensures Step(count, d, i).mValid && Step(count, d, i).m == d.m
  {
  }

  // -------------------------------------------------------------- registers

  class Downsizer {
    const count: nat
    var sValidReg: bool
    var sReg: Wide
    var mValidReg: bool
    var mReg: Narrow

    function State(): Down
      reads this
    {
      Down(sValidReg, sReg, mValidReg, mReg)
    }

    constructor (count: nat, zero: Segment)
      requires count >= 2
      ensures this.count == count && Reset(count, State())
    {
      this.count, sValidReg, mValidReg := count, false, false;
      sReg, mReg := Wide(seq(count, i => zero), false, 0), Narrow(zero, false, 0);
    }

    /** One clock edge; the ports as they were before it. */
    method Clock(valid: bool, b: Wide, ready: bool) returns (tready: bool, tvalid: bool, beat: Narrow)
      requires Sound(count, State()) && |b.segs| == count
      modifies this
      ensures tready == !old(State()).sValid && tvalid == old(State()).mValid && beat == old(State()).m
      ensures State() == Step(count, old(State()), Input(valid, b, ready))
    {
      hide Quiet;
      tready, tvalid, beat := !sValidReg, mValidReg, mReg;
      mValidReg := tvalid && !ready;
      if !tvalid || ready {
        var from := if sValidReg then sReg else b;
        mReg := Narrow(from.segs[0], false, from.side);
        if sValidReg {
          sReg := Shift(sReg);
          mValidReg := true;
          if Quiet(sReg.segs) {
            sValidReg := false;
            mReg := mReg.(last := sReg.last);
          }
        } else if valid && tready {
          sReg := Shift(b);
          mValidReg := true;
          sValidReg := !Quiet(sReg.segs);
          if !sValidReg {
            mReg := mReg.(last := b.last);
          }
        }
      } else if valid && tready {
        sReg := b;
        sValidReg := true;
      }
    }
  }
}
