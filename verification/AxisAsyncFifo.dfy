/**
 The registers of the dual-clock FIFO: Gray-coded pointers, their two-flop
 synchronisers, and the toggle and acknowledge flops that hand over the commit
 pointer. A tick is an edge of either clock or of both at once; at a
 coincident edge each bit that crosses over is caught before or after its
 change, independently of the other bits.
 */
module AxisAsyncFifo {
  import opened Words
  import opened Streams
  import opened Ring
  import opened WritePath
  import opened ReadPath
  import W = FifoWrite
  import R = FifoRead
  import A = AsyncFifo

  /** The synchronisation registers of the write clock domain. */
  datatype WriterFlops = WriterFlops(
    wrPtrGray: Word,
    wrPtrSyncCommit: Word,
    updateValid: bool,
    update: bool,
    rdPtrGraySync1: Word,
    rdPtrGraySync2: Word,
    updateAckSync1: bool,
    updateAckSync2: bool)

  /** The synchronisation registers of the read clock domain. */
  datatype ReaderFlops = ReaderFlops(
    rdPtrGray: Word,
    wrPtrGraySync1: Word,
    wrPtrGraySync2: Word,
    wrPtrCommitSync: Word,
    updateSync1: bool,
    updateSync2: bool,
    updateSync3: bool)

  /** Which crossing bits are caught after their change, should both clocks have an edge. */
  datatype Picks = Picks(wr: Word, rd: Word, commit: Word, update: bool, ack: bool, mem: bool)

  /** The word a row of flops catches: bit i is new where pick says so. */
  function Caught(pick: Word, before: Word, after: Word): (v: Word)
    requires |before| == |after|
    ensures Mixes(v, before, after)
  {
    seq(|before|, i requires 0 <= i < |before| => if i < |pick| && pick[i] then after[i] else before[i])
  }

  lemma CaughtSame(pick: Word, w: Word)
    ensures Caught(pick, w, w) == w
  {
  }

  /** A Gray code caught while its counter moves by at most one is an old or a new code. */
  lemma CaughtGray(pick: Word, n: nat, n': nat, k: nat) returns (isNew: bool)
    requires k > 0 && n <= n' <= n + 1
    ensures Caught(pick, Bin2Gray(Enc(n, k)), Bin2Gray(Enc(n', k))) == Bin2Gray(Enc(if isNew then n' else n, k))
  {
    var a, b := Bin2Gray(Enc(n, k)), Bin2Gray(Enc(n', k));
    var v := Caught(pick, a, b);
    if n' == n + 1 {
      IncEnc(n, k);
      GrayOneBit(Enc(n, k));
    } else {
      DistanceZero(a, b);
    }
    MixOneBit(v, a, b);
    isNew := v == b;
  }

  // ------------------------------------------------- the register updates

  /**
   The hand-over: a waiting commit goes out when no hand-over is in progress,
   and a commit of this very edge overrides it or is flagged for later.
   */
  function Publish(c: Config, s: WriterFlops, committed: bool, commitBefore: Word, commitAfter: Word): WriterFlops {
    var idle := s.update == s.updateAckSync2;
    var waited := if c.frameFifo && s.updateValid && idle
      then s.(updateValid := false, wrPtrSyncCommit := commitBefore, update := !s.updateAckSync2) else s;
    if c.frameFifo && committed then
      if idle then
        waited.(updateValid := false, wrPtrSyncCommit := commitAfter, update := !s.updateAckSync2)
      else waited.(updateValid := true)
    else waited
  }

  /** The write domain's registers after its edge, all but those that sample the other domain. */
  function WriterEdge(c: Config, s: WriterFlops, committed: bool, commitBefore: Word, commitAfter: Word, wrPtr: Word)
    : WriterFlops
  {
    Publish(c, s, committed, commitBefore, commitAfter).(
      wrPtrGray := Bin2Gray(wrPtr),
      rdPtrGraySync2 := s.rdPtrGraySync1,
      updateAckSync2 := s.updateAckSync1)
  }

  /** The read domain's registers after its edge, all but those that sample the other domain. */
  function ReaderEdge(m: ReaderFlops, rdPtr: Word): ReaderFlops {
    m.(rdPtrGray := Bin2Gray(rdPtr),
       wrPtrGraySync2 := m.wrPtrGraySync1,
       updateSync2 := m.updateSync1,
       updateSync3 := m.updateSync2)
  }

  /** The write domain samples the read domain, which is m before and m' after this moment. */
  function SampleReader(p: Picks, s: WriterFlops, m: ReaderFlops, m': ReaderFlops): WriterFlops
    requires |m.rdPtrGray| == |m'.rdPtrGray|
  {
    s.(rdPtrGraySync1 := Caught(p.rd, m.rdPtrGray, m'.rdPtrGray),
       updateAckSync1 := if p.ack then m'.updateSync3 else m.updateSync3)
  }

  /** The read domain samples the write domain; turned is update_sync2 ^ update_sync3 before the edge. */
  function SampleWriter(c: Config, p: Picks, m: ReaderFlops, turned: bool, s: WriterFlops, s': WriterFlops): ReaderFlops
    requires |s.wrPtrGray| == |s'.wrPtrGray| && |s.wrPtrSyncCommit| == |s'.wrPtrSyncCommit|
  {
    m.(wrPtrGraySync1 := Caught(p.wr, s.wrPtrGray, s'.wrPtrGray),
       updateSync1 := if p.update then s'.update else s.update,
       wrPtrCommitSync :=
         if c.frameFifo && turned then Caught(p.commit, s.wrPtrSyncCommit, s'.wrPtrSyncCommit) else m.wrPtrCommitSync)
  }

  // ------------------------------------------------- what they stand for

  function Gray(c: Config, n: nat): (w: Word)
    ensures |w| == c.addrWidth + 1
  {
    Bin2Gray(Enc(n, c.addrWidth + 1))
  }

  ghost predicate WriterShows(c: Config, s: WriterFlops, f: A.Fifo) {
    && s.wrPtrGray == Gray(c, |f.run.w.log|)
    && s.rdPtrGraySync1 == Gray(c, f.rdSync1) && s.rdPtrGraySync2 == Gray(c, f.rdSync2)
    && s.wrPtrSyncCommit == Enc(f.published, c.addrWidth + 1)
    && s.updateValid == f.pending && s.update == f.update
    && s.updateAckSync1 == f.ack1 && s.updateAckSync2 == f.ack2
  }

  ghost predicate ReaderShows(c: Config, m: ReaderFlops, f: A.Fifo) {
    && m.rdPtrGray == Gray(c, f.read.rd)
    && (!c.frameFifo ==> m.wrPtrGraySync1 == Gray(c, f.wrSync1) && m.wrPtrGraySync2 == Gray(c, f.wrSync2))
    && m.wrPtrCommitSync == Enc(f.seen, c.addrWidth + 1)
    && m.updateSync1 == f.sync1 && m.updateSync2 == f.sync2 && m.updateSync3 == f.sync3
  }

  function WriterReset(c: Config): WriterFlops {
    WriterFlops(Gray(c, 0), Enc(0, c.addrWidth + 1), false, false, Gray(c, 0), Gray(c, 0), false, false)
  }

  function ReaderReset(c: Config): ReaderFlops {
    ReaderFlops(Gray(c, 0), Gray(c, 0), Gray(c, 0), Enc(0, c.addrWidth + 1), false, false, false)
  }

  lemma ResetShows(c: Config)
    requires c.Valid()
    ensures A.Inv(c, A.Init(c))
    ensures WriterShows(c, WriterReset(c), A.Init(c)) && ReaderShows(c, ReaderReset(c), A.Init(c))
  {
    R.InitInv(c);
  }

  /** Both register banks after a tick in which the write side goes from w to w' and the read pointer to rd'. */
  function NextFlops(c: Config, s: WriterFlops, m: ReaderFlops, t: A.Tick, p: Picks, w: W.Write, w': W.Write, rd': nat)
    : (r: (WriterFlops, ReaderFlops))
    requires s.wrPtrGray == Gray(c, |w.log|) && |s.wrPtrSyncCommit| == c.addrWidth + 1
    requires |m.rdPtrGray| == c.addrWidth + 1
  {
    var k := c.addrWidth + 1;
    var s1 := if t.sEdge then
      WriterEdge(c, s, w'.commit != w.commit, Enc(w.commit, k), Enc(w'.commit, k), Enc(|w'.log|, k)) else s;
    var m1 := if t.mEdge then ReaderEdge(m, Enc(rd', k)) else m;
    (if t.sEdge then SampleReader(p, s1, m, m1) else s1,
     if t.mEdge then SampleWriter(c, p, m1, m.updateSync2 != m.updateSync3, s, s1) else m1)
  }

  function FlopsAfter(c: Config, s: WriterFlops, m: ReaderFlops, f: A.Fifo, t: A.Tick, p: Picks)
    : (WriterFlops, ReaderFlops)
    requires A.Sound(c, f) && WriterShows(c, s, f) && ReaderShows(c, m, f)
  {
    NextFlops(c, s, m, t, p, f.run.w, A.RunAfter(c, f, t).w, A.ReadAfter(c, f, t).rd)
  }

  /** The write domain's registers follow the protocol, whatever was caught. */
  lemma WriterFollows(c: Config, s: WriterFlops, m: ReaderFlops, f: A.Fifo, t: A.Tick, p: Picks, newWr: bool)
    returns (newRd: bool)
    requires c.Valid() && A.Inv(c, f) && A.Sound(c, f) && WriterShows(c, s, f) && ReaderShows(c, m, f)
    requires t.newAck == p.ack
    ensures var f' := A.Step(c, f, t.(newRd := newRd, newWr := newWr));
      WriterShows(c, FlopsAfter(c, s, m, f, t, p).0, f')
  {
    hide W.RunStep, R.Step, R.ReadInv, A.Inv, Enc, Bin2Gray;
    A.Bounds(c, f);
    A.ReadMoves(c, f, t);
    newRd := CaughtGray(p.rd, f.read.rd, A.ReadAfter(c, f, t).rd, c.addrWidth + 1);
  }

  /** In normal mode the read domain's registers follow the protocol too, whatever was caught. */
  lemma ReaderNormal(c: Config, s: WriterFlops, m: ReaderFlops, f: A.Fifo, t: A.Tick, p: Picks) returns (newWr: bool)
    requires c.Valid() && !c.frameFifo && A.Inv(c, f) && A.Sound(c, f) && WriterShows(c, s, f) && ReaderShows(c, m, f)
    requires t.newUpdate == p.update
    ensures var f' := A.Step(c, f, t.(newWr := newWr));
      ReaderShows(c, FlopsAfter(c, s, m, f, t, p).1, f')
  {
    hide W.RunStep, R.Step, R.ReadInv, A.Inv, Enc, Bin2Gray;
    A.Bounds(c, f);
    A.LogGrows(c, f, t);
    newWr := CaughtGray(p.wr, |f.run.w.log|, |A.RunAfter(c, f, t).w.log|, c.addrWidth + 1);
  }

  /** In frame mode the commit pointer is never sampled while it changes. */
  lemma ReaderFrame(c: Config, s: WriterFlops, m: ReaderFlops, f: A.Fifo, t: A.Tick, p: Picks)
    requires c.Valid() && c.frameFifo && A.Sound(c, f) && WriterShows(c, s, f) && ReaderShows(c, m, f)
    requires A.Turns(f) <= 1
    requires t.newUpdate == p.update && !t.newWr
    ensures ReaderShows(c, FlopsAfter(c, s, m, f, t, p).1, A.Step(c, f, t))
  {
    hide W.RunStep, R.Step, Enc, Bin2Gray, A.Turns;
    if f.sync2 != f.sync3 {
      A.NotTorn(c, f, t);
      CaughtSame(p.commit, s.wrPtrSyncCommit);
    }
  }

  lemma ReaderFollows(c: Config, s: WriterFlops, m: ReaderFlops, f: A.Fifo, t: A.Tick, p: Picks) returns (newWr: bool)
    requires c.Valid() && A.Inv(c, f) && A.Sound(c, f) && WriterShows(c, s, f) && ReaderShows(c, m, f)
    requires c.frameFifo ==> A.Turns(f) <= 1
    requires t.newUpdate == p.update
    ensures var f' := A.Step(c, f, t.(newWr := newWr));
      ReaderShows(c, FlopsAfter(c, s, m, f, t, p).1, f')
  {
    hide A.Step, NextFlops, WriterShows, ReaderShows, A.Inv, R.ReadInv, A.Turns;
    newWr := false;
    if c.frameFifo {
      var t0 := t.(newWr := false);
      ReaderFrame(c, s, m, f, t0, p);
      SameFlops(c, s, m, f, t, t0, p);
    } else {
      newWr := ReaderNormal(c, s, m, f, t, p);
    }
  }

  lemma SameFlops(c: Config, s: WriterFlops, m: ReaderFlops, f: A.Fifo, t: A.Tick, t0: A.Tick, p: Picks)
    requires A.Sound(c, f) && WriterShows(c, s, f) && ReaderShows(c, m, f) && t0 == t.(newWr := false)
    ensures FlopsAfter(c, s, m, f, t, p) == FlopsAfter(c, s, m, f, t0, p)
  {
    hide W.RunStep, R.Step, Enc, Bin2Gray;
  }

  /** What the write domain catches does not show in the read domain's registers. */
  lemma ReaderApart(c: Config, m: ReaderFlops, f: A.Fifo, t: A.Tick, newRd: bool)
    requires A.Sound(c, f) && ReaderShows(c, m, A.Step(c, f, t))
    ensures ReaderShows(c, m, A.Step(c, f, t.(newRd := newRd)))
  {
    hide W.RunStep, R.Step, Enc, Bin2Gray;
  }

  /** Both banks together; which copies were caught is what the protocol tick records. */
  lemma FlopsFollow(c: Config, s: WriterFlops, m: ReaderFlops, f: A.Fifo, t: A.Tick, p: Picks) returns (t': A.Tick)
    requires c.Valid() && A.Inv(c, f) && WriterShows(c, s, f) && ReaderShows(c, m, f)
    requires t.newUpdate == p.update && t.newAck == p.ack
    ensures A.Sound(c, f) && t' == t.(newRd := t'.newRd, newWr := t'.newWr)
    ensures var f' := A.Step(c, f, t');
      var (s', m') := FlopsAfter(c, s, m, f, t, p);
      WriterShows(c, s', f') && ReaderShows(c, m', f')
  {
    hide A.Step, R.ReadInv, A.Inv, NextFlops, WriterShows, ReaderShows;
    A.Bounds(c, f);
    var newWr := ReaderFollows(c, s, m, f, t, p);
    var newRd := WriterFollows(c, s, m, f, t, p, newWr);
    ReaderApart(c, FlopsAfter(c, s, m, f, t, p).1, f, t.(newWr := newWr), newRd);
    t' := t.(newRd := newRd, newWr := newWr);
  }

  class Fifo {
    const c: Config
    const write: WriteSide
    const read: ReadSide
    var s: WriterFlops
    var m: ReaderFlops
    /** The protocol state that the registers stand for. */
    ghost var f: A.Fifo
    ghost const Repr: set<object>

    ghost predicate Shape()
      reads this
    {
      && write in Repr && write.mem in Repr && read in Repr && read.Repr <= Repr
      && Repr == {this, write, write.mem} + read.Repr
      && this !in read.Repr && write !in read.Repr && write.mem !in read.Repr
      && c == write.c == read.c
      && c.Valid() && c.addrWidth >= 1
    }

    ghost predicate Valid()
      reads this, Repr
    {
      && Shape() && A.Inv(c, f)
      && write.Writes(f.run.w, f.read.rd) && read.Reads(f.read)
      && WriterShows(c, s, f) && ReaderShows(c, m, f)
    }

    /** The state after reset. */
    constructor (c: Config)
      requires c.Valid() && c.addrWidth >= 1
      ensures Valid() && fresh(Repr)
      ensures this.c == c && f == A.Init(c)
    {
      hide A.Inv, WriterShows, ReaderShows, WriterReset, ReaderReset, Enc, Bin2Gray;
      var w := new WriteSide(c);
      var r := new ReadSide(c);
      this.c, write, read, f := c, w, r, A.Init(c);
      s, m := WriterReset(c), ReaderReset(c);
      Repr := {this, w, w.mem} + r.Repr;
      ResetShows(c);
    }

    /** The full flags, from the write clock domain alone. */
    method WriteWires() returns (full: bool, fullWr: bool)
      requires Valid()
      ensures full == A.Full(c, f) && fullWr == W.FullFrame(c, f.run.w)
    {
      hide Enc, Bin2Gray, FlipTop, FlipTopTwo, A.Inv, R.ReadInv, Holds;
      ghost var w := f.run.w;
      A.Bounds(c, f);
      GrayFullTest(|w.log|, f.rdSync2, c.addrWidth);
      FullTest(|w.log|, w.commit, c.addrWidth);
      full := s.wrPtrGray == FlipTopTwo(s.rdPtrGraySync2);
      fullWr := write.wrPtr == FlipTop(write.wrPtrCommit);
    }

    /** The empty flag, and the memory's read port before this edge's write. */
    method ReadWires() returns (empty: bool, word: Beat)
      requires Valid()
      ensures empty == (f.read.rd == A.Limit(c, f))
      ensures !empty ==> word == f.run.w.log[f.read.rd]
    {
      hide Enc, Bin2Gray, A.Inv, R.ReadInv;
      ghost var rd, limit := f.read.rd, A.Limit(c, f);
      A.Bounds(c, f);
      if c.frameFifo {
        EncWindow(rd, limit, c.addrWidth + 1);
        empty := read.rdPtr == m.wrPtrCommitSync;
      } else {
        GrayEmptyTest(limit, rd, c.addrWidth + 1);
        empty := m.rdPtrGray == m.wrPtrGraySync2;
      }
      Address(rd, c.addrWidth);
      word := write.mem[Dec(read.rdPtr[..c.addrWidth])];
    }

    /** The write logic on an edge of its clock. */
    method WriteEdge(full: bool, fullWr: bool, valid: bool, b: Beat)
      returns (tready: bool, committed: bool, commitBefore: Word)
      requires Shape() && A.Inv(c, f) && write.Writes(f.run.w, f.read.rd)
      requires full == A.Full(c, f) && fullWr == W.FullFrame(c, f.run.w)
      modifies write, write.mem
      ensures tready == A.Ready(c, f) && commitBefore == Enc(f.run.w.commit, c.addrWidth + 1)
      ensures var w' := W.Step(c, f.run.w, full, valid, b);
        write.Writes(w', f.read.rd) && committed == (w'.commit != f.run.w.commit)
    {
      hide W.Step, A.Inv, R.ReadInv;
      A.Bounds(c, f);
      commitBefore := write.wrPtrCommit;
      tready := if c.frameFifo then !full || (fullWr && c.dropOversize) || c.dropWhenFull else !full || c.markWhenFull;
      committed := write.WriteLogic(tready, valid, b, full, fullWr, f.run.w, f.read.rd);
    }

    /**
     The read logic on an edge of its clock. At a coincident edge the read port
     may already show the memory after the write; a word that is taken is the
     same either way.
     */
    method ReadEdge(empty: bool, word: Beat, ready: bool, newMem: bool, ghost w': W.Write)
      requires Shape() && A.Inv(c, f) && read.Reads(f.read) && write.Writes(w', f.read.rd)
      requires empty == (f.read.rd == A.Limit(c, f)) && (!empty ==> word == f.run.w.log[f.read.rd])
      requires f.run.w.commit <= |w'.log| && w'.log[..f.run.w.commit] == f.run.w.log[..f.run.w.commit]
      modifies read.Repr
      ensures read.Reads(R.Step(c, f.read, f.run.w.log, A.Limit(c, f), ready))
    {
      hide R.Step, A.Inv, R.ReadInv;
      A.Bounds(c, f);
      Address(f.read.rd, c.addrWidth);
      var shown := if newMem then write.mem[Dec(read.rdPtr[..c.addrWidth])] else word;
      assert !empty ==> w'.log[..f.run.w.commit][f.read.rd] == f.run.w.log[..f.run.w.commit][f.read.rd];
      var took := read.ReadLogic(empty, shown, ready, f.read, f.run.w.log, A.Limit(c, f));
    }

    /** Both register banks at once. */
    method Flops(sEdge: bool, mEdge: bool, committed: bool, commitBefore: Word, picks: Picks, ghost t: A.Tick,
                 ghost w: W.Write, ghost w': W.Write, ghost rd: nat, ghost read': R.Read)
      requires t.sEdge == sEdge && t.mEdge == mEdge
      requires WriterShows(c, s, f) && ReaderShows(c, m, f) && f.run.w == w
      requires sEdge ==> committed == (w'.commit != w.commit) && commitBefore == Enc(w.commit, c.addrWidth + 1)
      requires Shape() && write.Writes(w', rd) && read.Reads(read')
      modifies this`s, this`m
      ensures (s, m) == NextFlops(c, old(s), old(m), t, picks, w, w', read'.rd)
    {
      hide Enc, Bin2Gray;
      var turned := m.updateSync2 != m.updateSync3;
      var s1 := if sEdge then WriterEdge(c, s, committed, commitBefore, write.wrPtrCommit, write.wrPtr) else s;
      var m1 := if mEdge then ReaderEdge(m, read.rdPtr) else m;
      s, m := if sEdge then SampleReader(picks, s1, m, m1) else s1,
              if mEdge then SampleWriter(c, picks, m1, turned, s, s1) else m1;
    }

    /** All registers of the clocks that have an edge, from the values before it. */
    method Clock(sEdge: bool, mEdge: bool, valid: bool, b: Beat, ready: bool, picks: Picks, ghost t: A.Tick)
      returns (tready: bool)
      requires Valid()
      requires t.sEdge == sEdge && t.mEdge == mEdge && t.valid == valid && t.beat == b && t.ready == ready
      modifies write, write.mem, read.Repr, this`s, this`m
      ensures A.Sound(c, f)
      ensures sEdge ==> tready == A.Ready(c, f)
      ensures write.Writes(A.RunAfter(c, f, t).w, f.read.rd) && read.Reads(A.ReadAfter(c, f, t))
      ensures (s, m) == FlopsAfter(c, old(s), old(m), f, t, picks)
    {
      hide W.Step, R.Step, W.RunStep, A.Full, A.Ready, A.Inv, R.ReadInv, Enc, NextFlops, WriterShows,
           ReaderShows, WriteSide.Writes, ReadSide.Reads;
      A.Bounds(c, f);
      A.StepParts(c, f, t);
      A.LogGrows(c, f, t);
      var full, fullWr := WriteWires();
      var empty, word := ReadWires();
      var commitBefore, committed := [], false;
      ghost var w' := A.RunAfter(c, f, t).w;
      tready := false;
      if sEdge { tready, committed, commitBefore := WriteEdge(full, fullWr, valid, b); }
      if mEdge { ReadEdge(empty, word, ready, picks.mem, w'); }
      Flops(sEdge, mEdge, committed, commitBefore, picks, t, f.run.w, w', f.read.rd, A.ReadAfter(c, f, t));
    }

    /**
     One tick of the registers is one tick of the protocol, whatever bits are
     caught at a coincident edge.
     */
    method Tick(sEdge: bool, mEdge: bool, valid: bool, b: Beat, ready: bool, picks: Picks)
      returns (tready: bool, ghost t: A.Tick)
      requires Valid()
      modifies Repr
      ensures Valid()
      ensures t.sEdge == sEdge && t.mEdge == mEdge && t.valid == valid && t.beat == b && t.ready == ready
      ensures sEdge ==> tready == A.Ready(c, old(f))
      ensures f == A.Step(c, old(f), t)
    {
      hide A.Step, W.RunStep, R.Step, A.Inv, R.ReadInv, FlopsAfter, WriterShows, ReaderShows,
           WriteSide.Writes, ReadSide.Reads;
      ghost var t0 := A.Tick(sEdge, mEdge, valid, b, ready, false, false, picks.update, picks.ack, 0);
      t := FlopsFollow(c, s, m, f, t0, picks);
      A.Bounds(c, f);
      A.StepInv(c, f, t);
      A.StepParts(c, f, t);
      A.ReadMoves(c, f, t);
      tready := Clock(sEdge, mEdge, valid, b, ready, picks, t0);
      write.Release(A.RunAfter(c, f, t).w, f.read.rd, A.ReadAfter(c, f, t).rd);
      f := A.Step(c, f, t);
    }
  }
}
