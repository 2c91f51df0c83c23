/** The adapter with the wider output: beats are gathered segment by segment. */
module Upsize {
  import opened Streams
  import opened Adapter

  /** The registers: s is the input skid buffer, m the output word under construction. */
  datatype Up = Up(
    seg: nat,
    sValid: bool,
    s: Narrow,
    m: seq<Segment>,
    mValid: bool,
    mLast: bool,
    mSide: nat)

  predicate Sound(count: nat, u: Up) { count >= 2 && |u.m| == count && u.seg < count }

  /** After reset; the data registers hold anything. */
  predicate Reset(count: nat, u: Up) { Sound(count, u) && u.seg == 0 && !u.sValid && !u.mValid }

  predicate Free(u: Up, ready: bool) { !u.mValid || ready }

  function Out(u: Up): Wide { Wide(u.m, u.mLast, u.mSide) }

  /** The first segment of a word clears the keep bits of the others. */
  function Place(m: seq<Segment>, seg: nat, x: Segment): (m': seq<Segment>)
    requires seg < |m|
    ensures |m'| == |m|
  {
    if seg == 0 then seq(|m|, i requires 0 <= i < |m| => if i == 0 then x else m[i].Clear())
    else m[seg := x]
  }

  function Step(count: nat, u: Up, i: Input<Narrow>): (u': Up)
    requires Sound(count, u)
    ensures Sound(count, u')
  {
    if Free(u, i.ready) then
      var x := if u.sValid then u.s else i.beat;
      var closes := x.last || u.seg == count - 1;
      u.(seg := if !u.sValid && !i.valid then u.seg else if closes then 0 else u.seg + 1,
         sValid := false,
         m := Place(u.m, u.seg, if u.seg == 0 then x.seg else i.beat.seg),
         mValid := (u.sValid || i.valid) && closes,
         mLast := x.last,
         mSide := x.side)
    else if i.valid && !u.sValid then u.(s := i.beat, sValid := true)
    else u
  }

  // ------------------------------------------------------------------ runs

  datatype Run = Run(u: Up, accepted: seq<Narrow>, delivered: seq<Wide>)

  function RunStep(count: nat, r: Run, i: Input<Narrow>): Run
    requires Sound(count, r.u)
  {
    Run(Step(count, r.u, i),
        if i.valid && !r.u.sValid then r.accepted + [i.beat] else r.accepted,
        if r.u.mValid && i.ready then r.delivered + [Out(r.u)] else r.delivered)
  }

  /** The beats of the word under construction; what lies behind them is not kept. */
  ghost predicate Layout(m: seq<Segment>, part: seq<Narrow>) {
    && |part| < |m|
    && (forall i :: 0 <= i < |part| ==> m[i] == part[i].seg && !part[i].last)
    && (part != [] ==> Quiet(m[|part| + 1..]))
  }

  ghost predicate AllGather(count: nat, groups: seq<seq<Narrow>>, ws: seq<Wide>) {
    |groups| == |ws| && forall i :: 0 <= i < |ws| ==> Gathers(count, groups[i], ws[i])
  }

  function Sent(r: Run): seq<Wide> {
    r.delivered + if r.u.mValid then [Out(r.u)] else []
  }

  function Skid(u: Up): seq<Narrow> { if u.sValid then [u.s] else [] }

  /** All but the rule when the skid buffer may be in use. */
  ghost predicate Core(count: nat, r: Run, groups: seq<seq<Narrow>>, part: seq<Narrow>) {
    && Sound(count, r.u) && |part| == r.u.seg
    && (r.u.mValid || r.u.sValid ==> part == [])
    && Layout(r.u.m, part)
    && AllGather(count, groups, Sent(r))
    && r.accepted == Concat(groups) + part + Skid(r.u)
  }

  /**
   The accepted beats are those of the words so far, those of the word under
   construction and the one in the skid buffer, which is used only while a
   whole word waits.
   */
  ghost predicate Inv(count: nat, r: Run, groups: seq<seq<Narrow>>, part: seq<Narrow>) {
    Core(count, r, groups, part) && (r.u.sValid ==> r.u.mValid)
  }

  /** One more beat goes into the word. */
  lemma Placed(count: nat, m: seq<Segment>, part: seq<Narrow>, x: Narrow)
    requires |m| == count && Layout(m, part)
    ensures var m' := Place(m, |part|, x.seg);
      if x.last || |part| == count - 1 then Gathers(count, part + [x], Wide(m', x.last, x.side))
      else Layout(m', part + [x])
  {
    var m' := Place(m, |part|, x.seg);
    if part != [] {
      assert m'[|part| + 1..] == m[|part| + 1..];
    }
  }

  /** Without a beat, the free segment of the word takes whatever is on the bus. */
  lemma Unplaced(m: seq<Segment>, part: seq<Narrow>, x: Segment)
    requires Layout(m, part)
    ensures Layout(Place(m, |part|, x), part)
  {
    var m' := Place(m, |part|, x);
    if part != [] {
      assert m'[|part| + 1..] == m[|part| + 1..];
    }
  }

  /** The beat that comes next, from the skid buffer or from the bus. */
  function Source(u: Up, i: Input<Narrow>): Narrow { if u.sValid then u.s else i.beat }

  /** It closes the word under construction. */
  lemma CloseStep(count: nat, r: Run, i: Input<Narrow>, groups: seq<seq<Narrow>>, part: seq<Narrow>)
    requires Core(count, r, groups, part) && !r.u.mValid && (r.u.sValid || i.valid)
    requires Source(r.u, i).last || r.u.seg == count - 1
    ensures Inv(count, RunStep(count, r, i), groups + [part + [Source(r.u, i)]], [])
  {
    hide Place, Layout, Gathers;
    Placed(count, r.u.m, part, Source(r.u, i));
    ConcatAppend(groups, part + [Source(r.u, i)]);
    Empty(count, RunStep(count, r, i).u.m);
  }

  /** The word goes on. */
  lemma AddStep(count: nat, r: Run, i: Input<Narrow>, groups: seq<seq<Narrow>>, part: seq<Narrow>)
    requires Core(count, r, groups, part) && !r.u.mValid && (r.u.sValid || i.valid)
    requires !Source(r.u, i).last && r.u.seg < count - 1
    ensures Inv(count, RunStep(count, r, i), groups, part + [Source(r.u, i)])
  {
    hide Place, Layout, Gathers, AllGather;
    Placed(count, r.u.m, part, Source(r.u, i));
  }

  /** The output register is empty: take a beat from the skid buffer or from the bus. */
  lemma TakeStep(count: nat, r: Run, i: Input<Narrow>, groups: seq<seq<Narrow>>, part: seq<Narrow>)
    returns (groups': seq<seq<Narrow>>, part': seq<Narrow>)
    requires Core(count, r, groups, part) && !r.u.mValid
    ensures Inv(count, RunStep(count, r, i), groups', part')
  {
    hide Place, Layout, Gathers, AllGather;
    var x := Source(r.u, i);
    groups', part' := groups, part;
    if !r.u.sValid && !i.valid {
      Unplaced(r.u.m, part, i.beat.seg);
    } else if x.last || r.u.seg == count - 1 {
      CloseStep(count, r, i, groups, part);
      groups', part' := groups + [part + [x]], [];
    } else {
      AddStep(count, r, i, groups, part);
      part' := part + [x];
    }
  }

  lemma Empty(count: nat, m: seq<Segment>)
    requires |m| == count > 0
    ensures Layout(m, [])
  {
  }

  lemma StepInv(count: nat, r: Run, i: Input<Narrow>, groups: seq<seq<Narrow>>, part: seq<Narrow>)
    returns (groups': seq<seq<Narrow>>, part': seq<Narrow>)
    requires Inv(count, r, groups, part)
    ensures Inv(count, RunStep(count, r, i), groups', part')
  {
    hide Place, Layout, Gathers;
    if Free(r.u, i.ready) {
      var drained := Run(r.u.(mValid := false), r.accepted, Sent(r));
      groups', part' := TakeStep(count, drained, i, groups, part);
      assert RunStep(count, drained, i) == RunStep(count, r, i);
    } else {
      groups', part' := groups, part;
    }
  }

  function Execute(count: nat, u: Up, ins: seq<Input<Narrow>>): (r: Run)
    requires Reset(count, u)
    ensures Sound(count, r.u)
  {
    if ins == [] then Run(u, [], [])
    else RunStep(count, Execute(count, u, ins[..|ins| - 1]), ins[|ins| - 1])
  }

  /** For every run there is a grouping of the accepted beats that the words sent gather, in order. */
  lemma {:induction false} Gathered(count: nat, u: Up, ins: seq<Input<Narrow>>)
    returns (groups: seq<seq<Narrow>>, part: seq<Narrow>)
    requires Reset(count, u)
    ensures var r := Execute(count, u, ins);
      && Inv(count, r, groups, part)
      && AllGather(count, groups, Sent(r))
      && r.accepted == Concat(groups) + part + Skid(r.u)
      && |part| < count
  {
    if ins == [] {
      groups, part := [], [];
    } else {
      groups, part := Gathered(count, u, ins[..|ins| - 1]);
      groups, part := StepInv(count, Execute(count, u, ins[..|ins| - 1]), ins[|ins| - 1], groups, part);
    }
  }

  lemma {:induction false} GroupItems(count: nat, groups: seq<seq<Narrow>>, ws: seq<Wide>)
    requires AllGather(count, groups, ws)
    ensures Items(WideItems, ws) == Items(NarrowItems, Concat(groups))
  {
    if ws != [] {
      var k := |ws| - 1;
      GroupItems(count, groups[..k], ws[..k]);
      GatherItems(count, groups[k], ws[k]);
      ItemsAppend(NarrowItems, Concat(groups[..k]), groups[k]);
    }
  }

  /** Kept bytes and frame ends: all that was accepted is in the words or in fewer than `count` pending beats. */
  lemma Preserves(count: nat, u: Up, ins: seq<Input<Narrow>>) returns (pending: seq<Narrow>)
    requires Reset(count, u)
    ensures var r := Execute(count, u, ins);
      && |pending| < count
      && Items(NarrowItems, r.accepted) == Items(WideItems, Sent(r)) + Items(NarrowItems, pending)
  {
    var r := Execute(count, u, ins);
    var groups, part := Gathered(count, u, ins);
    pending := part + Skid(r.u);
    GroupItems(count, groups, Sent(r));
    assert Concat(groups) + part + Skid(r.u) == Concat(groups) + pending;
    ItemsAppend(NarrowItems, Concat(groups), pending);
  }

  // ---------------------------------------------------------------- progress

  /** The words sent are the whole pieces of the accepted beats, and the beats under construction the open one. */
  lemma Cut(count: nat, r: Run, groups: seq<seq<Narrow>>, part: seq<Narrow>)
    requires Inv(count, r, groups, part)
    ensures |Skid(r.u)| <= |r.accepted|
    ensures var taken := r.accepted[..|r.accepted| - |Skid(r.u)|];
      r.accepted == taken + Skid(r.u) && Grouped(count, taken) == Groups(groups, part) && |part| < count
  {
    var skid := Skid(r.u);
    var taken := r.accepted[..|r.accepted| - |skid|];
    assert r.accepted == Concat(groups) + part + skid;
    assert taken == Concat(groups) + part;
    forall g | g in groups ensures Piece(count, g) {
      var i :| 0 <= i < |groups| && groups[i] == g;
      assert Gathers(count, g, Sent(r)[i]);
    }
    GroupedUnique(count, taken, Groups(groups, part));
  }

  /** With a ready sink the offered word is taken, and the beat in the skid buffer goes on. */
  lemma DrainStep(count: nat, r: Run, i: Input<Narrow>)
    requires Sound(count, r.u) && Draining(i) && (r.u.sValid ==> r.u.mValid)
    ensures var r' := RunStep(count, r, i);
      && Sound(count, r'.u) && r'.accepted == r.accepted && !r'.u.sValid
      && (!r.u.sValid ==> !r'.u.mValid)
  {
    hide Place;
  }

  /**
   From every reachable state: after two edges with a ready sink and no input
   the source is ready, and what was accepted is out as words, but for the
   beats of the open one.
   */
  lemma AllDelivered(count: nat, u: Up, ins: seq<Input<Narrow>>, i: Input<Narrow>, j: Input<Narrow>)
    requires Reset(count, u) && Draining(i) && Draining(j)
    ensures var s, r := Execute(count, u, ins).accepted, Execute(count, u, ins + [i, j]);
      && r.accepted == s && !r.u.sValid && !r.u.mValid
      && AllGather(count, Grouped(count, s).whole, r.delivered)
  {
    hide Step, Inv, AllGather, Sound, RunStep;
    var r := Execute(count, u, ins);
    assert (ins + [i, j])[..|ins| + 1] == ins + [i] && (ins + [i])[..|ins|] == ins;
    var groups, part := Gathered(count, u, ins);
    SkidBehind(count, r, groups, part);
    DrainStep(count, r, i);
    DrainStep(count, RunStep(count, r, i), j);
    groups, part := Gathered(count, u, ins + [i, j]);
    Emptied(count, Execute(count, u, ins + [i, j]), groups, part);
  }

  lemma Emptied(count: nat, r: Run, groups: seq<seq<Narrow>>, part: seq<Narrow>)
    requires Inv(count, r, groups, part) && !r.u.sValid && !r.u.mValid
    ensures AllGather(count, Grouped(count, r.accepted).whole, r.delivered)
  {
    hide Gathers, Grouped;
    Cut(count, r, groups, part);
    assert Sent(r) == r.delivered && r.accepted[..|r.accepted|] == r.accepted;
  }

  /** After every run a word is offered exactly if some whole piece of the accepted beats is not delivered yet. */
  lemma Offered(count: nat, u: Up, ins: seq<Input<Narrow>>)
    requires Reset(count, u)
    ensures var r := Execute(count, u, ins);
      r.u.mValid <==> |r.delivered| < |Grouped(count, r.accepted).whole|
  {
    hide Step, Gathers, Execute;
    var r := Execute(count, u, ins);
    var groups, part := Gathered(count, u, ins);
    SkidBehind(count, r, groups, part);
    Cut(count, r, groups, part);
    if r.u.sValid {
      assert r.accepted[..|r.accepted| - 1] + [r.u.s] == r.accepted;
    } else {
      assert r.accepted[..|r.accepted|] == r.accepted;
    }
  }

  lemma SkidBehind(count: nat, r: Run, groups: seq<seq<Narrow>>, part: seq<Narrow>)
    requires Inv(count, r, groups, part)
    ensures Sound(count, r.u) && (r.u.sValid ==> r.u.mValid)
  {
  }

  /** A word that is offered stays until it is taken. */
  lemma Stable(count: nat, u: Up, i: Input<Narrow>)
    requires Sound(count, u) && u.mValid && !i.ready
    ensures Step(count, u, i).mValid && Out(Step(count, u, i)) == Out(u)
  {
  }

  // -------------------------------------------------------------- registers

  class Upsizer {
    const count: nat
    var segReg: nat
    var sValidReg: bool
    var sReg: Narrow
    var mSegs: seq<Segment>
    var mValidReg: bool
    var mLastReg: bool
    var mSideReg: nat

    function State(): Up
      reads this
    {
      Up(segReg, sValidReg, sReg, mSegs, mValidReg, mLastReg, mSideReg)
    }

    constructor (count: nat, zero: Segment)
      requires count >= 2
      ensures this.count == count && Reset(count, State())
    {
      this.count, segReg, sValidReg, mValidReg := count, 0, false, false;
      sReg, mSegs := Narrow(zero, false, 0), seq(count, i => zero);
      mLastReg, mSideReg := false, 0;
    }

    /** The writes to the segments of the output word. */
    method Fill(first: Segment, next: Segment)
      requires segReg < |mSegs|
      modifies this`mSegs
      ensures mSegs == Place(old(mSegs), segReg, if segReg == 0 then first else next)
    {
      if segReg == 0 {
        mSegs := Place(mSegs, 0, first);
      } else {
        mSegs := mSegs[segReg := next];
      }
    }

    /** One clock edge; the ports as they were before it. */
    method Clock(valid: bool, b: Narrow, ready: bool) returns (tready: bool, tvalid: bool, word: Wide)
      requires Sound(count, State())
      modifies this
      ensures tready == !old(State()).sValid && tvalid == old(State()).mValid && word == Out(old(State()))
      ensures State() == Step(count, old(State()), Input(valid, b, ready))
    {
      hide Place;
      tready, tvalid, word := !sValidReg, mValidReg, Wide(mSegs, mLastReg, mSideReg);
      mValidReg := tvalid && !ready;
      if !tvalid || ready {
        var last := if sValidReg then sReg.last else b.last;
        Fill(if sValidReg then sReg.seg else b.seg, b.seg);
        mLastReg := last;
        mSideReg := if sValidReg then sReg.side else b.side;
        if sValidReg || valid {
          sValidReg := false;
          if last || segReg == count - 1 {
            segReg := 0;
            mValidReg := true;
          } else {
            segReg := segReg + 1;
          }
        }
      } else if valid && tready {
        sReg := b;
        sValidReg := true;
      }
    }
  }
}
