/** An upsizer whose output feeds a downsizer of the same ratio, both on one clock. */
module AdapterChain {
  import opened Streams
  import opened Adapter
  import U = Upsize
  import D = Downsize

  datatype Chain = Chain(up: U.Run, down: D.Run)

  predicate Sound(count: nat, x: Chain) { U.Sound(count, x.up.u) && D.Sound(count, x.down.d) }

  function Step(count: nat, x: Chain, i: Input<Narrow>): Chain
    requires Sound(count, x)
  {
    Chain(U.RunStep(count, x.up, i.(ready := !x.down.d.sValid)),
          D.RunStep(count, x.down, Input(x.up.u.mValid, U.Out(x.up.u), i.ready)))
  }

  ghost predicate Inv(count: nat, x: Chain, groups: seq<seq<Narrow>>, part: seq<Narrow>) {
    && U.Inv(count, x.up, groups, part)
    && D.Inv(count, x.down)
    && x.down.accepted == x.up.delivered
  }

  lemma StepInv(count: nat, x: Chain, i: Input<Narrow>, groups: seq<seq<Narrow>>, part: seq<Narrow>)
    returns (groups': seq<seq<Narrow>>, part': seq<Narrow>)
    requires Inv(count, x, groups, part)
    ensures Inv(count, Step(count, x, i), groups', part')
  {
    hide U.Inv, D.Inv, U.Step, D.Step;
    Sounds(count, x, groups, part);
    groups', part' := U.StepInv(count, x.up, i.(ready := !x.down.d.sValid), groups, part);
    D.StepInv(count, x.down, Input(x.up.u.mValid, U.Out(x.up.u), i.ready));
  }

  lemma Sounds(count: nat, x: Chain, groups: seq<seq<Narrow>>, part: seq<Narrow>)
    requires Inv(count, x, groups, part)
    ensures Sound(count, x)
  {
  }

  function Execute(count: nat, u: U.Up, d: D.Down, ins: seq<Input<Narrow>>): (x: Chain)
    requires U.Reset(count, u) && D.Reset(count, d)
    ensures Sound(count, x)
  {
    if ins == [] then Chain(U.Run(u, [], []), D.Run(d, [], []))
    else Step(count, Execute(count, u, d, ins[..|ins| - 1]), ins[|ins| - 1])
  }

  lemma {:induction false} RunInv(count: nat, u: U.Up, d: D.Down, ins: seq<Input<Narrow>>)
    returns (groups: seq<seq<Narrow>>, part: seq<Narrow>)
    requires U.Reset(count, u) && D.Reset(count, d)
    ensures Inv(count, Execute(count, u, d, ins), groups, part)
  {
    if ins == [] {
      groups, part := [], [];
    } else {
      groups, part := RunInv(count, u, d, ins[..|ins| - 1]);
      groups, part := StepInv(count, Execute(count, u, d, ins[..|ins| - 1]), ins[|ins| - 1], groups, part);
    }
  }

  // ------------------------------------------- what comes out, in all fields

  /** Each group gathered and split again. */
  function Resplit(groups: seq<seq<Narrow>>): (ns: seq<Narrow>)
    requires forall g :: g in groups ==> |g| > 0
    ensures |ns| <= |Concat(groups)|
  {
    if groups == [] then []
    else
      var k := |groups| - 1;
      assert groups[k] in groups && forall g :: g in groups[..k] ==> g in groups;
      Resplit(groups[..k]) + Split(Gather(groups[k]))
  }

  lemma {:induction false} SplitGathered(count: nat, groups: seq<seq<Narrow>>, ws: seq<Wide>)
    requires U.AllGather(count, groups, ws)
    ensures (forall g :: g in groups ==> |g| > 0) && SplitAll(ws) == Resplit(groups)
  {
    hide Gathers, Split, Gather, Concat;
    if ws != [] {
      var k := |ws| - 1;
      SplitGathered(count, groups[..k], ws[..k]);
      SplitGather(count, groups[k], ws[k]);
      Nonempty(count, groups[k], ws[k]);
      assert groups == groups[..k] + [groups[k]];
    }
  }

  lemma Nonempty(count: nat, g: seq<Narrow>, w: Wide)
    requires Gathers(count, g, w)
    ensures |g| > 0 && |w.segs| > 0
  {
  }

  /** A stream as it leaves the chain in the end: pieces gathered and split again, the open one as it is. */
  function Through(count: nat, s: seq<Narrow>): seq<Narrow>
    requires count > 0
  {
    GroupedIs(count, s);
    Resplit(Grouped(count, s).whole) + Grouped(count, s).part
  }

  lemma {:induction false} ResplitExactly(count: nat, groups: seq<seq<Narrow>>)
    requires forall g :: g in groups ==> Piece(count, g)
    ensures forall g :: g in groups ==> |g| > 0
    ensures SameBeats(Resplit(groups), Concat(groups)) <==> forall g :: g in groups ==> Firm(g)
    ensures Resplit(groups) == Concat(groups) <==> forall g :: g in groups ==> Firm(g) && Uniform(g)
  {
    if groups != [] {
      var k := |groups| - 1;
      var front, g := groups[..k], groups[k];
      assert g in groups && groups == front + [g];
      ResplitExactly(count, front);
      GatherUndone(g);
      JoinedSame(Resplit(front), Split(Gather(g)), Concat(front), g);
    }
  }

  lemma JoinedSame(a: seq<Narrow>, b: seq<Narrow>, c: seq<Narrow>, d: seq<Narrow>)
    requires |a| <= |c| && |b| <= |d|
    ensures SameBeats(a + b, c + d) <==> SameBeats(a, c) && SameBeats(b, d)
    ensures a + b == c + d <==> a == c && b == d
  {
    if |a| + |b| == |c| + |d| {
      assert (a + b)[..|a|] == a && (a + b)[|a|..] == b && (c + d)[..|a|] == c && (c + d)[|a|..] == d;
      SamePrefix(a, b, c, d);
    }
  }

  lemma SamePrefix(a: seq<Narrow>, b: seq<Narrow>, c: seq<Narrow>, d: seq<Narrow>)
    requires |a| == |c| && |b| == |d|
    ensures SameBeats(a + b, c + d) <==> SameBeats(a, c) && SameBeats(b, d)
  {
    var e, f := a + b, c + d;
    if SameBeats(e, f) {
      forall i | 0 <= i < |b| ensures b[i].seg == d[i].seg && b[i].last == d[i].last {
        assert e[|a| + i] == b[i] && f[|a| + i] == d[i];
      }
      forall i | 0 <= i < |a| ensures a[i].seg == c[i].seg && a[i].last == c[i].last {
        assert e[i] == a[i] && f[i] == c[i];
      }
    }
  }

  /** The words that wait between the two adapters. */
  function Waiting(x: Chain): seq<Wide> { if x.up.u.mValid then [U.Out(x.up.u)] else [] }

  lemma SplitWaiting(count: nat, x: Chain, groups: seq<seq<Narrow>>, part: seq<Narrow>)
    requires Inv(count, x, groups, part)
    ensures SplitAll(U.Sent(x.up)) == D.Sent(x.down) + D.Rest(x.down.d) + SplitAll(Waiting(x))
  {
    hide Split, U.Core;
    Sounds(count, x, groups, part);
    assert SplitAll(x.up.delivered) == D.Sent(x.down) + D.Rest(x.down.d);
    if x.up.u.mValid {
      var w := U.Out(x.up.u);
      D.SplitAllAppend(x.up.delivered, w);
      D.SplitAllAppend([], w);
      assert [] + [w] == [w];
    } else {
      assert U.Sent(x.up) == x.up.delivered;
      assert SplitAll(Waiting(x)) == [];
    }
  }

  /** All that came out or is on its way out in whole words. */
  function Onward(x: Chain): seq<Narrow>
    requires x.down.d.s.segs != [] && x.up.u.m != []
  {
    D.Sent(x.down) + D.Rest(x.down.d) + SplitAll(Waiting(x))
  }

  /** The accepted beats but for one in the skid buffer. */
  function Taken(x: Chain): seq<Narrow>
    requires |U.Skid(x.up.u)| <= |x.up.accepted|
  {
    x.up.accepted[..|x.up.accepted| - |U.Skid(x.up.u)|]
  }

  /**
   What the chain does to a stream, for every run: what came out, and what is
   still inside, is the accepted stream cut into pieces, each piece gathered
   and split again.
   */
  lemma Passes(count: nat, u: U.Up, d: D.Down, ins: seq<Input<Narrow>>)
    requires U.Reset(count, u) && D.Reset(count, d)
    ensures var x := Execute(count, u, d, ins);
      && |U.Skid(x.up.u)| <= |x.up.accepted| && x.up.accepted == Taken(x) + U.Skid(x.up.u)
      && |Grouped(count, Taken(x)).part| < count
      && Onward(x) + Grouped(count, Taken(x)).part == Through(count, Taken(x))
      && x.down.delivered <= Onward(x)
  {
    hide Execute, SplitAll, D.Rest, Gathers, U.Skid, Split, Piece;
    var x := Execute(count, u, d, ins);
    var groups, part := RunInv(count, u, d, ins);
    Cut(count, x, groups, part);
    SplitGathered(count, groups, U.Sent(x.up));
    SplitWaiting(count, x, groups, part);
  }

  lemma Cut(count: nat, x: Chain, groups: seq<seq<Narrow>>, part: seq<Narrow>)
    requires Inv(count, x, groups, part)
    ensures |U.Skid(x.up.u)| <= |x.up.accepted| && x.up.accepted == Taken(x) + U.Skid(x.up.u)
    ensures Grouped(count, Taken(x)) == Groups(groups, part) && |part| < count
  {
    hide U.Inv, D.Inv;
    U.Cut(count, x.up, groups, part);
  }

  /**
   The chain is the identity, beat for beat, exactly if each piece ends with a
   beat that keeps a byte or is alone; it keeps tid, tdest and tuser too
   exactly if, besides, the beats of each piece carry the same.
   */
  lemma IdentityExactly(count: nat, u: U.Up, d: D.Down, ins: seq<Input<Narrow>>)
    requires U.Reset(count, u) && D.Reset(count, d)
    ensures var x := Execute(count, u, d, ins);
      && |U.Skid(x.up.u)| <= |x.up.accepted| && x.up.accepted == Taken(x) + U.Skid(x.up.u)
      && var f := Grouped(count, Taken(x));
         var all := Onward(x) + f.part + U.Skid(x.up.u);
         && (forall g :: g in f.whole ==> |g| > 0)
         && (SameBeats(all, x.up.accepted) <==> forall g :: g in f.whole ==> Firm(g))
         && (all == x.up.accepted <==> forall g :: g in f.whole ==> Firm(g) && Uniform(g))
  {
    hide Execute, Onward, Taken, U.Skid, Firm, Uniform;
    Passes(count, u, d, ins);
    var x := Execute(count, u, d, ins);
    var s := Taken(x);
    var f := Grouped(count, s);
    GroupedIs(count, s);
    ResplitExactly(count, f.whole);
    JoinedSame(Resplit(f.whole), f.part, Concat(f.whole), f.part);
    JoinedSame(Through(count, s), U.Skid(x.up.u), s, U.Skid(x.up.u));
  }

  /** With a kept byte in every beat each piece is firm. */
  lemma KeptIsFirm(count: nat, s: seq<Narrow>)
    requires count > 0 && forall n :: n in s ==> !n.seg.Blank()
    ensures forall g :: g in Grouped(count, s).whole ==> |g| > 0 && Firm(g)
  {
    GroupedIs(count, s);
    var f := Grouped(count, s);
    forall g | g in f.whole ensures |g| > 0 && Firm(g) {
      InConcat(f.whole, g);
      assert g[|g| - 1] in g;
    }
  }

  lemma {:induction false} InConcat<T>(xss: seq<seq<T>>, xs: seq<T>)
    requires xs in xss
    ensures forall x :: x in xs ==> x in Concat(xss)
  {
    var k := |xss| - 1;
    if xs != xss[k] { InConcat(xss[..k], xs); }
  }

  /** As long as every accepted beat keeps at least one byte, the chain is the identity. */
  lemma Identity(count: nat, u: U.Up, d: D.Down, ins: seq<Input<Narrow>>) returns (part: seq<Narrow>)
    requires U.Reset(count, u) && D.Reset(count, d)
    requires forall n :: n in Execute(count, u, d, ins).up.accepted ==> !n.seg.Blank()
    ensures var x := Execute(count, u, d, ins);
      && |part| < count
      && var all := Onward(x) + part + U.Skid(x.up.u);
         && SameBeats(all, x.up.accepted)
         && |U.Skid(x.up.u)| <= |x.up.accepted|
         && (all == x.up.accepted <==> forall g :: g in Grouped(count, Taken(x)).whole ==> Uniform(g))
  {
    hide Execute, Onward, U.Skid, Firm, Uniform;
    var x := Execute(count, u, d, ins);
    Passes(count, u, d, ins);
    IdentityExactly(count, u, d, ins);
    assert forall n :: n in Taken(x) ==> n in x.up.accepted;
    KeptIsFirm(count, Taken(x));
    part := Grouped(count, Taken(x)).part;
  }

  /** The position of the beat whose tid, tdest and tuser beat i is sent on with: the last one of its word. */
  function Bearer(count: nat, s: seq<Narrow>, i: nat): (k: nat)
    requires count > 0 && i < |s|
    ensures i <= k < |s|
  {
    var front, x := s[..|s| - 1], s[|s| - 1];
    var f := Grouped(count, front);
    GroupedIs(count, front);
    if i < |Concat(f.whole)| then Bearer(count, front, i)
    else if x.last || |f.part| + 1 == count then |s| - 1
    else i
  }

  /** A firm group comes back with the tid, tdest and tuser of its last beat. */
  lemma SplitFirm(g: seq<Narrow>, i: nat)
    requires g != [] && Tame(g) && Firm(g) && i < |g|
    ensures |Split(Gather(g))| == |g|
    ensures Split(Gather(g))[i] == g[i].(side := g[|g| - 1].side)
  {
    SpanUnique(Gather(g).segs, |g|);
  }

  lemma ThroughStep(count: nat, s: seq<Narrow>)
    requires count > 0 && s != []
    ensures var front, x := s[..|s| - 1], s[|s| - 1];
      var f := Grouped(count, front);
      && Grouping(count, front, f) && (forall g :: g in f.whole ==> |g| > 0)
      && Through(count, front) == Resplit(f.whole) + f.part
      && Through(count, s) == Resplit(f.whole) +
           if x.last || |f.part| + 1 == count then Split(Gather(f.part + [x])) else f.part + [x]
  {
    hide Split, Gather, Concat;
    var front, x := s[..|s| - 1], s[|s| - 1];
    var f := Grouped(count, front);
    GroupedIs(count, front);
    GroupedIs(count, s);
    var whole := f.whole + [f.part + [x]];
    assert whole[..|f.whole|] == f.whole;
  }

  lemma KeepsLength(count: nat, s: seq<Narrow>)
    requires count > 0 && forall n :: n in s ==> !n.seg.Blank()
    ensures |Through(count, s)| == |s|
    ensures (forall g :: g in Grouped(count, s).whole ==> |g| > 0)
      && |Resplit(Grouped(count, s).whole)| == |Concat(Grouped(count, s).whole)|
  {
    hide Firm, Split, Gather;
    KeptIsFirm(count, s);
    GroupedIs(count, s);
    ResplitExactly(count, Grouped(count, s).whole);
  }

  /** So does each beat of a stream in which every beat keeps a byte. */
  lemma {:induction false} Borne(count: nat, s: seq<Narrow>, i: nat)
    requires count > 0 && i < |s| && forall n :: n in s ==> !n.seg.Blank()
    ensures |Through(count, s)| == |s|
    ensures Through(count, s)[i] == s[i].(side := s[Bearer(count, s, i)].side)
  {
    hide Firm, Tame, Split, Gather, Through, Grouped, Piece, Resplit, Open, Concat;
    var front, x := s[..|s| - 1], s[|s| - 1];
    var f := Grouped(count, front);
    KeepsLength(count, s);
    KeepsLength(count, front);
    ThroughStep(count, s);
    var n := |Concat(f.whole)|;
    var g := f.part + [x];
    assert s == Concat(f.whole) + g;
    if i < n {
      Borne(count, front, i);
      assert Through(count, front)[i] == Resplit(f.whole)[i] == Through(count, s)[i];
    } else if x.last || |f.part| + 1 == count {
      assert x in s;
      LastPiece(count, f.part, x);
      SplitFirm(g, i - n);
      assert Through(count, s)[i] == Split(Gather(g))[i - n];
    } else {
      assert Through(count, s)[i] == g[i - n];
    }
  }

  lemma LastPiece(count: nat, part: seq<Narrow>, x: Narrow)
    requires Open(count, part)
    ensures Tame(part + [x]) && (!x.seg.Blank() ==> Firm(part + [x]))
  {
  }

  /**
   The beats delivered are the first ones accepted, each with the tid, tdest
   and tuser of the last beat of its word; so they are the same in every field
   exactly if those agree.
   */
  lemma DeliversPrefix(count: nat, u: U.Up, d: D.Down, ins: seq<Input<Narrow>>)
    requires U.Reset(count, u) && D.Reset(count, d)
    requires forall n :: n in Execute(count, u, d, ins).up.accepted ==> !n.seg.Blank()
    ensures var x := Execute(count, u, d, ins);
      var sent, s := x.down.delivered, x.up.accepted;
      && |U.Skid(x.up.u)| <= |s| && |sent| <= |Taken(x)|
      && SameBeats(sent, s[..|sent|])
      && (forall i :: 0 <= i < |sent| ==> sent[i] == s[i].(side := s[Bearer(count, Taken(x), i)].side))
      && (sent <= s <==> forall i :: 0 <= i < |sent| ==> s[i].side == s[Bearer(count, Taken(x), i)].side)
  {
    hide Execute, Onward, U.Skid, Through, Bearer;
    var x := Execute(count, u, d, ins);
    Passes(count, u, d, ins);
    var t := Taken(x);
    forall n | n in t ensures !n.seg.Blank() { assert n in x.up.accepted; }
    KeepsLength(count, t);
    var sent := x.down.delivered;
    forall i | 0 <= i < |sent|
      ensures sent[i] == x.up.accepted[i].(side := x.up.accepted[Bearer(count, t, i)].side)
    {
      Borne(count, t, i);
      assert sent[i] == Through(count, t)[i];
    }
  }

  /** tid, tdest and tuser do not change within a frame. */
  predicate Steady(s: seq<Narrow>) {
    forall i :: 0 < i < |s| && !s[i - 1].last ==> s[i].side == s[i - 1].side
  }

  lemma {:induction false} SteadyIsUniform(count: nat, s: seq<Narrow>)
    requires count > 0 && Steady(s)
    ensures forall g :: g in Grouped(count, s).whole ==> Uniform(g)
    ensures Uniform(Grouped(count, s).part)
  {
    hide Piece;
    if s != [] {
      var front, x := s[..|s| - 1], s[|s| - 1];
      var f := Grouped(count, front);
      SteadyIsUniform(count, front);
      GroupedIs(count, front);
      if f.part != [] {
        var k := |f.part| - 1;
        assert f.part[k] == s[|s| - 2];
        assert !f.part[k].last;
      }
    }
  }

  /**
   The full identity: if every beat keeps a byte and tid, tdest and tuser do
   not change within a frame, nothing at all changes.
   */
  lemma FramesIdentity(count: nat, u: U.Up, d: D.Down, ins: seq<Input<Narrow>>) returns (part: seq<Narrow>)
    requires U.Reset(count, u) && D.Reset(count, d)
    requires forall n :: n in Execute(count, u, d, ins).up.accepted ==> !n.seg.Blank()
    requires Steady(Execute(count, u, d, ins).up.accepted)
    ensures var x := Execute(count, u, d, ins);
      && |part| < count
      && x.up.accepted == Onward(x) + part + U.Skid(x.up.u)
      && x.down.delivered <= x.up.accepted
  {
    hide Execute, Onward, U.Skid, Uniform;
    var x := Execute(count, u, d, ins);
    Passes(count, u, d, ins);
    part := Identity(count, u, d, ins);
    assert Steady(Taken(x)) by {
      var t, s := Taken(x), x.up.accepted;
      assert forall i :: 0 <= i < |t| ==> t[i] == s[i];
    }
    SteadyIsUniform(count, Taken(x));
  }

  // ---------------------------------------------------------------- progress

  /** At most so many edges until all that can leave the chain has left it. */
  function Left(count: nat, x: Chain): nat
    requires x.down.d.s.segs != []
  {
    D.Left(x.down.d) + (if x.up.u.mValid then count + 1 else 0) + if x.up.u.sValid then count + 2 else 0
  }

  /** Each adapter's spare register is used only behind an offered word or beat. */
  ghost predicate Tight(count: nat, x: Chain) {
    Sound(count, x) && D.Tight(x.down.d) && (x.up.u.sValid ==> x.up.u.mValid)
  }

  lemma DrainStep(count: nat, x: Chain, i: Input<Narrow>)
    requires Tight(count, x) && Draining(i)
    ensures var y := Step(count, x, i);
      && Tight(count, y) && y.up.accepted == x.up.accepted
      && Left(count, y) <= if Left(count, x) == 0 then 0 else Left(count, x) - 1
  {
    hide D.Step, D.Left, D.Rest, U.Place;
    var w := Input(x.up.u.mValid, U.Out(x.up.u), i.ready);
    D.DrainStep(count, x.down.d, w);
    D.TightStep(count, x.down.d, w);
    D.LeftAtMost(count, x.down.d);
    D.LeftAtMost(count, D.Step(count, x.down.d, w));
  }

  lemma {:induction false} DrainRun(count: nat, u: U.Up, d: D.Down, ins: seq<Input<Narrow>>, more: seq<Input<Narrow>>)
    requires U.Reset(count, u) && D.Reset(count, d) && AllDraining(more)
    ensures var x, y := Execute(count, u, d, ins), Execute(count, u, d, ins + more);
      && Tight(count, y) && y.up.accepted == x.up.accepted
      && (Left(count, y) == 0 || Left(count, y) + |more| <= Left(count, x))
  {
    hide Step, Left, D.Tight;
    if more == [] {
      assert ins + more == ins;
      RunTight(count, u, d, ins);
    } else {
      var k := |more| - 1;
      assert (ins + more)[..|ins + more| - 1] == ins + more[..k];
      assert Draining(more[k]);
      DrainRun(count, u, d, ins, more[..k]);
      DrainStep(count, Execute(count, u, d, ins + more[..k]), more[k]);
    }
  }

  lemma {:induction false} RunTight(count: nat, u: U.Up, d: D.Down, ins: seq<Input<Narrow>>)
    requires U.Reset(count, u) && D.Reset(count, d)
    ensures Tight(count, Execute(count, u, d, ins))
  {
    hide D.Step;
    if ins != [] {
      var x, i := Execute(count, u, d, ins[..|ins| - 1]), ins[|ins| - 1];
      RunTight(count, u, d, ins[..|ins| - 1]);
      D.TightStep(count, x.down.d, Input(x.up.u.mValid, U.Out(x.up.u), i.ready));
    }
  }

  /**
   From every reachable state: after 3 * count + 4 edges with a ready sink and
   no input, the whole accepted stream is out, gathered and split again, but
   for the beats of the open word; and the source is ready.
   */
  lemma AllDelivered(count: nat, u: U.Up, d: D.Down, ins: seq<Input<Narrow>>, more: seq<Input<Narrow>>)
    requires U.Reset(count, u) && D.Reset(count, d) && AllDraining(more) && |more| >= 3 * count + 4
    ensures var s, x := Execute(count, u, d, ins).up.accepted, Execute(count, u, d, ins + more);
      && x.up.accepted == s && !x.up.u.sValid
      && x.down.delivered + Grouped(count, s).part == Through(count, s)
  {
    hide Execute, Through, Step;
    DrainRun(count, u, d, ins, more);
    RunTight(count, u, d, ins);
    LeftAtMost(count, Execute(count, u, d, ins));
    Passes(count, u, d, ins + more);
    Emptied(count, Execute(count, u, d, ins + more));
  }

  lemma LeftAtMost(count: nat, x: Chain)
    requires Sound(count, x)
    ensures Left(count, x) <= 3 * count + 4
  {
    D.LeftAtMost(count, x.down.d);
  }

  lemma Emptied(count: nat, x: Chain)
    requires Sound(count, x) && Left(count, x) == 0 && |U.Skid(x.up.u)| <= |x.up.accepted|
    ensures Onward(x) == x.down.delivered && Taken(x) == x.up.accepted && !x.up.u.sValid
  {
    D.LeftAtMost(count, x.down.d);
  }

  // ------------------------------------------- a frame whose beats disagree

  /** The source offers a and then b; the sink is always ready. */
  function TwoBeats(a: Narrow, b: Narrow): seq<Input<Narrow>> {
    [Input(true, a, true), Input(true, b, true), Input(false, b, true), Input(false, b, true), Input(false, b, true)]
  }

  lemma ExecuteOne(count: nat, u: U.Up, d: D.Down, ins: seq<Input<Narrow>>, i: Input<Narrow>)
    requires U.Reset(count, u) && D.Reset(count, d)
    ensures Execute(count, u, d, ins + [i]) == Step(count, Execute(count, u, d, ins), i)
  {
    assert (ins + [i])[..|ins|] == ins;
  }

  /** The upsizer has gathered both. */
  lemma BothIn(u: U.Up, d: D.Down, a: Narrow, b: Narrow)
    requires U.Reset(2, u) && D.Reset(2, d) && !a.last && b.last
    ensures var x := Execute(2, u, d, TwoBeats(a, b)[..2]);
      && x.up.accepted == [a, b] && x.up.delivered == []
      && x.up.u.mValid && !x.up.u.sValid && U.Out(x.up.u) == Wide([a.seg, b.seg], true, b.side)
      && !x.down.d.sValid && !x.down.d.mValid && x.down.delivered == []
  {
    var ins := TwoBeats(a, b);
    assert ins[..2] == [] + [ins[0]] + [ins[1]];
    ExecuteOne(2, u, d, [], ins[0]);
    ExecuteOne(2, u, d, [] + [ins[0]], ins[1]);
    var x := Execute(2, u, d, [] + [ins[0]]);
    assert x.up.accepted == [a] && x.up.u.seg == 1 && x.up.u.m[0] == a.seg && !x.up.u.mValid;
    assert Step(2, x, ins[1]).up.u.m == [a.seg, b.seg];
  }

  /** A word of two kept segments is shifted out in two beats. */
  lemma WordOut(x: Chain, a: Narrow, b: Narrow)
    requires Sound(2, x) && x.up.u.mValid && !x.up.u.sValid && !x.down.d.sValid && !x.down.d.mValid
    requires U.Out(x.up.u) == Wide([a.seg, b.seg], true, b.side) && !b.seg.Blank() && !a.last && b.last
    ensures var idle := Input(false, b, true);
      var y := Step(2, Step(2, Step(2, x, idle), idle), idle);
      && y.up.accepted == x.up.accepted
      && y.down.delivered == x.down.delivered + [a.(side := b.side), b]
  {
    var idle := Input(false, b, true);
    var y := Step(2, x, idle);
    assert !D.Done(U.Out(x.up.u)) by { D.QuietTail(U.Out(x.up.u)); }
    assert y.down.d.m == a.(side := b.side) && y.down.d.sValid && !y.up.u.mValid;
    assert D.Done(y.down.d.s) by { D.QuietTail(y.down.d.s); }
    var z := Step(2, y, idle);
    assert z.down.d.m == b && !z.down.d.sValid;
  }

  /** Of a frame of two beats with different tid, tdest or tuser, the first one arrives with those of the second. */
  lemma SidesLost(u: U.Up, d: D.Down, a: Narrow, b: Narrow)
    requires U.Reset(2, u) && D.Reset(2, d)
    requires !a.last && b.last && !a.seg.Blank() && !b.seg.Blank() && a.side != b.side
    ensures var x := Execute(2, u, d, TwoBeats(a, b));
      x.up.accepted == [a, b] && x.down.delivered == [a.(side := b.side), b] && x.down.delivered[0] != a
  {
    hide Step, U.Reset, D.Reset;
    var ins, idle := TwoBeats(a, b), Input(false, b, true);
    BothIn(u, d, a, b);
    assert ins == ins[..2] + [idle] + [idle] + [idle];
    ExecuteOne(2, u, d, ins[..2], idle);
    ExecuteOne(2, u, d, ins[..2] + [idle], idle);
    ExecuteOne(2, u, d, ins[..2] + [idle] + [idle], idle);
    WordOut(Execute(2, u, d, ins[..2]), a, b);
  }
}
