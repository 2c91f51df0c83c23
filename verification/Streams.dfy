/** Stream beats, frames, and the parameters shared by the two FIFOs. */
module Streams {
  import opened Words

  datatype Option<+T> = None | Some(value: T)

  /** One transfer: tdata, tkeep, tid and tdest as one number, then tlast and tuser. */
  datatype Beat = Beat(payload: nat, last: bool, user: Word)

  /** The contents of a memory word before anything was stored. */
  const BLANK := Beat(0, false, [])

  function OptSeq<T>(o: Option<T>): seq<T> {
    match o
    case None => []
    case Some(x) => [x]
  }

  lemma Assoc<T>(a: seq<T>, b: seq<T>, c: seq<T>)
    ensures a + b + c == a + (b + c)
  {
  }

  function Concat<T>(xss: seq<seq<T>>): seq<T> {
    if xss == [] then [] else Concat(xss[..|xss| - 1]) + xss[|xss| - 1]
  }

  lemma ConcatAppend<T>(xss: seq<seq<T>>, xs: seq<T>)
    ensures Concat(xss + [xs]) == Concat(xss) + xs
  {
    assert (xss + [xs])[..|xss|] == xss;
  }

  /** A frame ends with its first beat marked last. */
  ghost predicate IsFrame(f: seq<Beat>)
  {
    |f| > 0 && f[|f| - 1].last && forall i :: 0 <= i < |f| - 1 ==> !f[i].last
  }

  /** The position n of a stream does not lie inside a frame. */
  ghost predicate Boundary(s: seq<Beat>, n: nat)
  {
    n <= |s| && (n > 0 ==> s[n - 1].last)
  }

  /** Cutting a sequence of whole frames at a boundary leaves whole frames. */
  lemma {:induction false} BoundaryIsFrames(fs: seq<seq<Beat>>, n: nat) returns (k: nat)
    requires forall f :: f in fs ==> IsFrame(f)
    requires Boundary(Concat(fs), n)
    ensures k <= |fs| && Concat(fs)[..n] == Concat(fs[..k])
  {
    if fs == [] {
      k := 0;
    } else {
      var front, f := fs[..|fs| - 1], fs[|fs| - 1];
      var c := Concat(front);
      if n <= |c| {
        assert n > 0 ==> Concat(fs)[n - 1] == c[n - 1];
        k := BoundaryIsFrames(front, n);
        assert front[..k] == fs[..k];
        assert Concat(fs)[..n] == c[..n];
      } else {
        k := |fs|;
        assert f in fs;
        assert Concat(fs)[n - 1] == f[n - 1 - |c|];
        assert n == |Concat(fs)|;
        assert fs[..k] == fs;
      }
    }
  }

  /**
   The parameters of the FIFO modules. A beat counts as bad when some user bit
   selected by the mask agrees with the bad-frame value.
   */
  datatype Config = Config(
    addrWidth: nat,
    ramPipeline: nat,
    outputFifo: bool,
    frameFifo: bool,
    dropOversize: bool,
    dropBad: bool,
    dropWhenFull: bool,
    markWhenFull: bool,
    badValue: Word,
    badMask: Word)
  {
    /** The configuration checks made when the design is elaborated. */
    predicate Valid() {
      && (dropOversize ==> frameFifo)
      && (dropBad ==> frameFifo && dropOversize)
      && (dropWhenFull ==> frameFifo && dropOversize)
      && (markWhenFull ==> !frameFifo)
      && |badValue| == |badMask|
      && (dropBad || markWhenFull ==> true in badMask)
    }

    function Depth(): nat { Pow2(addrWidth) }

    predicate BadUser(user: Word) {
      exists i :: 0 <= i < |user| && i < |badMask| && i < |badValue| && badMask[i] && user[i] == badValue[i]
    }

    /** The bad-frame value under the mask, as the parameters' names suggest. */
    predicate MaskedEqual(user: Word)
      requires |user| == |badMask| == |badValue|
    {
      forall i :: 0 <= i < |badMask| && badMask[i] ==> user[i] == badValue[i]
    }
  }

  predicate ExactlyOne(w: Word) {
    exists i :: 0 <= i < |w| && w[i] && forall j :: 0 <= j < |w| && w[j] ==> j == i
  }

  lemma OneBitAgrees(c: Config, u: Word)
    requires |u| == |c.badValue| == |c.badMask| && ExactlyOne(c.badMask)
    ensures c.BadUser(u) <==> c.MaskedEqual(u)
  {
    var i :| 0 <= i < |c.badMask| && c.badMask[i] && forall j :: 0 <= j < |c.badMask| && c.badMask[j] ==> j == i;
    if u[i] == c.badValue[i] { assert c.BadUser(u); }
  }

  /** A value that agrees in one of several masked bits: bad by the first reading only. */
  lemma SomeDisagree(c: Config) returns (u: Word)
    requires |c.badValue| == |c.badMask| && !ExactlyOne(c.badMask)
    ensures |u| == |c.badMask| && (c.BadUser(u) <==> !c.MaskedEqual(u))
  {
    var m, v := c.badMask, c.badValue;
    u := v;
    if i :| 0 <= i < |m| && m[i] {
      u := seq(|m|, k requires 0 <= k < |m| => if k == i then v[k] else !v[k]);
      assert u[i] == v[i] && c.BadUser(u);
      var j :| 0 <= j < |m| && m[j] && j != i;
      assert u[j] != v[j];
    }
  }

  /** The two readings of the mask agree on every user value exactly when one mask bit is set. */
  lemma BadUserExact(c: Config)
    requires |c.badValue| == |c.badMask|
    ensures (forall u: Word :: |u| == |c.badMask| ==> (c.BadUser(u) <==> c.MaskedEqual(u))) <==> ExactlyOne(c.badMask)
  {
    if ExactlyOne(c.badMask) {
      forall u: Word | |u| == |c.badMask| ensures c.BadUser(u) <==> c.MaskedEqual(u) { OneBitAgrees(c, u); }
    } else {
      var u := SomeDisagree(c);
    }
  }
}
