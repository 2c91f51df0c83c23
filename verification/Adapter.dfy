/**
 The width adapter between a narrow stream, one segment a beat, and a wide one,
 `count` segments a beat. A segment is as many byte lanes as the narrow side
 has, each with a keep bit.
 */
module Adapter {
  import opened Words
  import opened Streams

  datatype Segment = Segment(data: seq<nat>, keep: Word)
  {
    predicate Blank() { forall i :: 0 <= i < |keep| ==> !keep[i] }

    function Clear(): (s: Segment)
      ensures s.Blank() && s.data == data && |s.keep| == |keep|
    {
      Segment(data, seq(|keep|, i => false))
    }
  }

  /** side stands for tid, tdest and tuser. */
  datatype Narrow = Narrow(seg: Segment, last: bool, side: nat)

  datatype Wide = Wide(segs: seq<Segment>, last: bool, side: nat)

  /** What one clock edge sees on the two ports. */
  datatype Input<T> = Input(valid: bool, beat: T, ready: bool)

  /** An edge at which nothing is offered and the sink is ready. */
  predicate Draining<T>(i: Input<T>) { i.ready && !i.valid }

  predicate AllDraining<T>(ins: seq<Input<T>>) { forall k :: 0 <= k < |ins| ==> Draining(ins[k]) }

  predicate Quiet(segs: seq<Segment>) { forall i :: 0 <= i < |segs| ==> segs[i].Blank() }

  // ------------------------------------------------ the two streams' meaning

  /** A stream as a byte consumer sees it: kept bytes and frame ends. */
  datatype Item = Byte(value: nat) | End

  function Kept(s: Segment): seq<Item> { KeptFrom(s, 0) }

  function KeptFrom(s: Segment, i: nat): seq<Item>
    decreases |s.data| - i
  {
    if i >= |s.data| then []
    else (if i < |s.keep| && s.keep[i] then [Byte(s.data[i])] else []) + KeptFrom(s, i + 1)
  }

  function KeptAll(segs: seq<Segment>): seq<Item> {
    if segs == [] then [] else Kept(segs[0]) + KeptAll(segs[1..])
  }

  function EndIf(last: bool): seq<Item> { if last then [End] else [] }

  function NarrowItems(n: Narrow): seq<Item> { Kept(n.seg) + EndIf(n.last) }

  function WideItems(w: Wide): seq<Item> { KeptAll(w.segs) + EndIf(w.last) }

  function Items<T>(f: T -> seq<Item>, beats: seq<T>): seq<Item> {
    if beats == [] then [] else Items(f, beats[..|beats| - 1]) + f(beats[|beats| - 1])
  }

  lemma {:induction false} ItemsAppend<T>(f: T -> seq<Item>, a: seq<T>, b: seq<T>)
    ensures Items(f, a + b) == Items(f, a) + Items(f, b)
    decreases |b|
  {
    if b == [] {
      assert a + b == a;
    } else {
      assert (a + b)[..|a + b| - 1] == a + b[..|b| - 1];
      ItemsAppend(f, a, b[..|b| - 1]);
    }
  }

  lemma ItemsOne<T>(f: T -> seq<Item>, x: T)
    ensures Items(f, [x]) == f(x)
  {
    assert [x][..0] == [];
  }

  lemma {:induction false} BlankKeepsNothing(s: Segment, i: nat)
    requires s.Blank()
    ensures KeptFrom(s, i) == []
    decreases |s.data| - i
  {
    if i < |s.data| { BlankKeepsNothing(s, i + 1); }
  }

  lemma {:induction false} QuietKeepsNothing(segs: seq<Segment>)
    requires Quiet(segs)
    ensures KeptAll(segs) == []
  {
    if segs != [] {
      BlankKeepsNothing(segs[0], 0);
      QuietKeepsNothing(segs[1..]);
    }
  }

  lemma {:induction false} KeptAllAppend(a: seq<Segment>, b: seq<Segment>)
    ensures KeptAll(a + b) == KeptAll(a) + KeptAll(b)
  {
    if a == [] {
      assert a + b == b;
    } else {
      assert (a + b)[1..] == a[1..] + b;
      KeptAllAppend(a[1..], b);
    }
  }

  // ------------------------------------------------------------- splitting

  /** How many segments a wide beat is split into: up to the last one with a kept byte, at least one. */
  function Span(segs: seq<Segment>): (n: nat)
    requires segs != []
    ensures 1 <= n <= |segs|
    ensures Quiet(segs[n..])
    ensures n > 1 ==> !segs[n - 1].Blank()
  {
    if Quiet(segs[1..]) then 1 else 1 + Span(segs[1..])
  }

  function Split(w: Wide): (ns: seq<Narrow>)
    requires w.segs != []
  {
    var n := Span(w.segs);
    seq(n, i requires 0 <= i < n => Narrow(w.segs[i], w.last && i == n - 1, w.side))
  }

  function SplitAll(ws: seq<Wide>): seq<Narrow>
    requires forall w :: w in ws ==> w.segs != []
  {
    if ws == [] then [] else SplitAll(ws[..|ws| - 1]) + Split(ws[|ws| - 1])
  }

  lemma SpanUnique(segs: seq<Segment>, n: nat)
    requires 1 <= n <= |segs| && Quiet(segs[n..]) && (n > 1 ==> !segs[n - 1].Blank())
    ensures Span(segs) == n
  {
  }

  function Segs(ns: seq<Narrow>): (segs: seq<Segment>)
    ensures |segs| == |ns|
  {
    seq(|ns|, i requires 0 <= i < |ns| => ns[i].seg)
  }

  /** Only the final beat of a piece may end a frame. */
  ghost predicate Tame(ns: seq<Narrow>) {
    forall i :: 0 <= i < |ns| - 1 ==> !ns[i].last
  }

  lemma {:induction false} ItemsOfTame(ns: seq<Narrow>)
    requires ns != [] && Tame(ns)
    ensures Items(NarrowItems, ns) == KeptAll(Segs(ns)) + EndIf(ns[|ns| - 1].last)
  {
    hide Kept;
    var k := |ns| - 1;
    var front, n := ns[..k], ns[k];
    SegsSplit(ns);
    if front == [] {
      assert ns == [n];
      ItemsOne(NarrowItems, n);
    } else {
      ItemsOfTame(front);
      assert front[k - 1] == ns[k - 1];
    }
  }

  lemma SegsSplit(ns: seq<Narrow>)
    requires ns != []
    ensures KeptAll(Segs(ns)) == KeptAll(Segs(ns[..|ns| - 1])) + Kept(ns[|ns| - 1].seg)
  {
    hide Kept;
    var front, n := ns[..|ns| - 1], ns[|ns| - 1];
    assert Segs(ns) == Segs(front) + [n.seg];
    KeptAllAppend(Segs(front), [n.seg]);
    assert KeptAll([n.seg]) == Kept(n.seg) + KeptAll([n.seg][1..]) == Kept(n.seg);
  }

  /** Splitting a wide beat keeps its kept bytes and its frame end. */
  lemma SplitItems(w: Wide)
    requires w.segs != []
    ensures Items(NarrowItems, Split(w)) == WideItems(w)
  {
    var n, ns := Span(w.segs), Split(w);
    assert Segs(ns) == w.segs[..n];
    ItemsOfTame(ns);
    assert w.segs == w.segs[..n] + w.segs[n..];
    KeptAllAppend(w.segs[..n], w.segs[n..]);
    QuietKeepsNothing(w.segs[n..]);
  }

  // ------------------------------------------------------------- gathering

  /** w carries the beats of g: full, or closed by the end of a frame; the lanes above are not kept. */
  ghost predicate Gathers(count: nat, g: seq<Narrow>, w: Wide) {
    && 1 <= |g| <= count == |w.segs|
    && Tame(g)
    && w.last == g[|g| - 1].last && w.side == g[|g| - 1].side
    && (|g| == count || w.last)
    && (forall i :: 0 <= i < |g| ==> w.segs[i] == g[i].seg)
    && Quiet(w.segs[|g|..])
  }

  lemma GatherItems(count: nat, g: seq<Narrow>, w: Wide)
    requires Gathers(count, g, w)
    ensures WideItems(w) == Items(NarrowItems, g)
  {
    ItemsOfTame(g);
    assert Segs(g) == w.segs[..|g|];
    assert w.segs == w.segs[..|g|] + w.segs[|g|..];
    KeptAllAppend(w.segs[..|g|], w.segs[|g|..]);
    QuietKeepsNothing(w.segs[|g|..]);
  }

  /** The same beats, tid, tdest and tuser aside. */
  ghost predicate SameBeats(a: seq<Narrow>, b: seq<Narrow>) {
    |a| == |b| && forall i :: 0 <= i < |a| ==> a[i].seg == b[i].seg && a[i].last == b[i].last
  }

  /** The final beat of a group keeps a byte, or is alone. */
  predicate Firm(g: seq<Narrow>)
    requires g != []
  {
    |g| == 1 || !g[|g| - 1].seg.Blank()
  }

  /** All beats of a group carry the same tid, tdest and tuser. */
  predicate Uniform(g: seq<Narrow>) {
    forall i :: 0 <= i < |g| ==> g[i].side == g[|g| - 1].side
  }

  /** The wide beat that carries g and nothing else. */
  function Gather(g: seq<Narrow>): (w: Wide)
    requires g != []
    ensures |w.segs| == |g|
  {
    Wide(Segs(g), g[|g| - 1].last, g[|g| - 1].side)
  }

  /** The lanes above the gathered beats leave no trace. */
  lemma SplitGather(count: nat, g: seq<Narrow>, w: Wide)
    requires Gathers(count, g, w)
    ensures Split(w) == Split(Gather(g))
  {
    var n := Span(Segs(g));
    QuietAbove(w.segs, Segs(g), n);
    SpanUnique(w.segs, n);
  }

  lemma QuietAbove(segs: seq<Segment>, low: seq<Segment>, n: nat)
    requires n <= |low| <= |segs| && (forall i :: 0 <= i < |low| ==> segs[i] == low[i])
    requires Quiet(low[n..]) && Quiet(segs[|low|..])
    ensures Quiet(segs[n..])
  {
    forall i | n <= i < |segs| ensures segs[i].Blank() {
      if i < |low| { assert low[n..][i - n].Blank(); } else { assert segs[|low|..][i - |low|].Blank(); }
    }
  }

  /**
   Splitting undoes gathering, tid, tdest and tuser aside, exactly when the
   group is firm; it undoes it altogether exactly when it is uniform as well.
   */
  lemma GatherUndone(g: seq<Narrow>)
    requires g != [] && Tame(g)
    ensures |Split(Gather(g))| <= |g|
    ensures SameBeats(Split(Gather(g)), g) <==> Firm(g)
    ensures Split(Gather(g)) == g <==> Firm(g) && Uniform(g)
  {
    var w := Gather(g);
    if Firm(g) { SpanUnique(w.segs, |g|); }
  }

  lemma SplitUndoes(count: nat, g: seq<Narrow>, w: Wide)
    requires Gathers(count, g, w)
    ensures SameBeats(Split(w), g) <==> Firm(g)
    ensures Split(w) == g <==> Firm(g) && Uniform(g)
  {
    SplitGather(count, g, w);
    GatherUndone(g);
  }

  // -------------------------------------------------------------- grouping

  /** A stream cut into the pieces that fill a wide beat or end a frame, and what is left. */
  datatype Groups = Groups(whole: seq<seq<Narrow>>, part: seq<Narrow>)

  function Grouped(count: nat, s: seq<Narrow>): Groups {
    if s == [] then Groups([], [])
    else
      var f, x := Grouped(count, s[..|s| - 1]), s[|s| - 1];
      if x.last || |f.part| + 1 == count then Groups(f.whole + [f.part + [x]], []) else f.(part := f.part + [x])
  }

  /** A piece fills a wide beat or ends a frame. */
  ghost predicate Piece(count: nat, g: seq<Narrow>) {
    1 <= |g| <= count && Tame(g) && (|g| == count || g[|g| - 1].last)
  }

  ghost predicate Open(count: nat, part: seq<Narrow>) {
    |part| < count && forall i :: 0 <= i < |part| ==> !part[i].last
  }

  ghost predicate Grouping(count: nat, s: seq<Narrow>, f: Groups) {
    && s == Concat(f.whole) + f.part
    && Open(count, f.part)
    && forall g :: g in f.whole ==> Piece(count, g)
  }

  lemma Extended(count: nat, part: seq<Narrow>, x: Narrow)
    requires Open(count, part)
    ensures if x.last || |part| + 1 == count then Piece(count, part + [x]) else Open(count, part + [x])
  {
  }

  lemma {:induction false} GroupedIs(count: nat, s: seq<Narrow>)
    requires count > 0
    ensures Grouping(count, s, Grouped(count, s))
  {
    hide Open, Piece;
    NothingOpen(count);
    if s != [] {
      GroupedIs(count, s[..|s| - 1]);
      var f, x := Grouped(count, s[..|s| - 1]), s[|s| - 1];
      Extended(count, f.part, x);
      ConcatAppend(f.whole, f.part + [x]);
      assert s == Concat(f.whole) + (f.part + [x]);
    }
  }

  lemma NothingOpen(count: nat)
    requires count > 0
    ensures Open(count, [])
  {
  }

  lemma ShorterPart(count: nat, part: seq<Narrow>)
    requires Open(count, part) && part != []
    ensures var k := |part| - 1;
      Open(count, part[..k]) && !part[k].last && k + 1 != count && part == part[..k] + [part[k]]
  {
  }

  lemma ShorterPiece(count: nat, g: seq<Narrow>)
    requires Piece(count, g)
    ensures g != []
    ensures var k := |g| - 1;
      Open(count, g[..k]) && (g[k].last || k + 1 == count) && g == g[..k] + [g[k]]
  {
  }

  /** There is only one way to cut a stream like that. */
  lemma {:induction false} GroupedUnique(count: nat, s: seq<Narrow>, f: Groups)
    requires Grouping(count, s, f)
    ensures f == Grouped(count, s)
    decreases |s|, 1
  {
    hide Open, Piece;
    if f.part != [] {
      ShorterPart(count, f.part);
      GroupedBefore(count, s, f.whole, f.part);
    } else if f.whole != [] {
      var n := |f.whole| - 1;
      assert f.whole[n] in f.whole;
      ShorterPiece(count, f.whole[n]);
      GroupedBefore(count, s, f.whole[..n], f.whole[n]);
      assert f.whole == f.whole[..n] + [f.whole[n]];
    }
  }

  lemma {:induction false} GroupedBefore(count: nat, s: seq<Narrow>, whole: seq<seq<Narrow>>, g: seq<Narrow>)
    requires g != [] && s == Concat(whole) + g && Open(count, g[..|g| - 1])
    requires forall h :: h in whole ==> Piece(count, h)
    ensures s != [] && s[|s| - 1] == g[|g| - 1]
    ensures Grouped(count, s[..|s| - 1]) == Groups(whole, g[..|g| - 1])
    decreases |s|, 0
  {
    hide Open, Piece, Concat;
    assert s[..|s| - 1] == Concat(whole) + g[..|g| - 1];
    GroupedUnique(count, s[..|s| - 1], Groups(whole, g[..|g| - 1]));
  }
}
