/**
 The write-side registers of both FIFOs: wrapped pointers, frame flags, status
 pulses and the circular memory. Assignments that the source makes from the
 values before the edge are written in an order that reads those values.
 */
module WritePath {
  import opened Words
  import opened Streams
  import opened Ring
  import W = FifoWrite

  class WriteSide {
    const c: Config
    const mem: array<Beat>
    var wrPtr: Word
    var wrPtrCommit: Word
    var sFrame: bool
    var dropFrame: bool
    var markFrame: bool
    var sendFrame: bool
    var overflow: bool
    var badFrame: bool
    var goodFrame: bool

    /** The pointers are those of w, and the memory holds its words from position rd on. */
    ghost predicate Stores(w: W.Write, rd: nat)
      reads this`wrPtr, this`wrPtrCommit, mem
    {
      && mem.Length == c.Depth()
      && wrPtr == Enc(|w.log|, c.addrWidth + 1)
      && wrPtrCommit == Enc(w.commit, c.addrWidth + 1)
      && Holds(mem[..], rd, w.log)
    }

    ghost predicate Flags(w: W.Write)
      reads this
    {
      && sFrame == w.inFrame && dropFrame == w.drop && markFrame == w.mark && sendFrame == w.send
      && overflow == w.overflow && badFrame == w.bad && goodFrame == w.good
    }

    ghost predicate Writes(w: W.Write, rd: nat)
      reads this, mem
    {
      Stores(w, rd) && Flags(w)
    }

    constructor (c: Config)
      ensures this.c == c && fresh(mem)
      ensures Writes(W.INIT, 0)
    {
      var m := new Beat[c.Depth()](i => BLANK);
      this.c, mem := c, m;
      wrPtr, wrPtrCommit := Enc(0, c.addrWidth + 1), Enc(0, c.addrWidth + 1);
      sFrame, dropFrame, markFrame, sendFrame := false, false, false, false;
      overflow, badFrame, goodFrame := false, false, false;
    }

    /** Words that have been read need not be held any more. */
    lemma Release(w: W.Write, rd: nat, rd': nat)
      requires Writes(w, rd) && rd <= rd'
      ensures Writes(w, rd')
    {
    }

    method Store(word: Beat, ghost w: W.Write, ghost rd: nat)
      requires Stores(w, rd) && rd <= |w.log| < rd + c.Depth()
      modifies this`wrPtr, mem
      ensures Stores(w.(log := w.log + [word]), rd)
    {
      Address(|w.log|, c.addrWidth);
      IncEnc(|w.log|, c.addrWidth + 1);
      HoldsStore(mem[..], rd, w.log, word);
      var a := Dec(wrPtr[..c.addrWidth]);
      ghost var was := mem[..];
      mem[a] := word;
      assert mem[..] == was[a := word];
      wrPtr := Inc(wrPtr);
    }

    /** The word is stored and the commit pointer follows the write pointer. */
    method StoreAndCommit(word: Beat, ghost w: W.Write, ghost rd: nat)
      requires Stores(w, rd) && rd <= |w.log| < rd + c.Depth()
      modifies this`wrPtr, this`wrPtrCommit, mem
      ensures Stores(W.CommitAll(w.(log := w.log + [word])), rd)
    {
      Store(word, w, rd);
      wrPtrCommit := wrPtr;
    }

    method Rewind(ghost w: W.Write, ghost rd: nat)
      requires Stores(w, rd) && w.commit <= |w.log|
      modifies this`wrPtr
      ensures Stores(W.Rewind(w), rd)
    {
      wrPtr := wrPtrCommit;
    }

    /** The last beat of a frame, or a beat of one that is released early: commit, or rewind a bad frame. */
    method CommitFrameBeat(word: Beat, b: Beat, ghost w: W.Write, ghost rd: nat) returns (committed: bool)
      requires Writes(w, rd) && rd <= w.commit <= |w.log| < rd + c.Depth()
      requires word == W.Stored(c, w, b) && !w.good && !w.bad
      requires b.last || (!c.dropOversize && (W.FullFrame(c, w) || w.send))
      modifies this`wrPtr, this`wrPtrCommit, this`badFrame, this`goodFrame, mem
      ensures Writes(W.FrameStore(c, w, b).(send := w.send), rd)
      ensures committed == (W.FrameStore(c, w, b).commit != w.commit)
    {
      hide Enc, Holds;
      if b.last && c.dropBad && c.BadUser(b.user) {
        Rewind(w, rd);
        badFrame := true;
        committed := false;
      } else {
        StoreAndCommit(word, w, rd);
        goodFrame := b.last;
        committed := true;
      }
    }

    /** A transfer in frame mode that is not dropped. */
    method StoreFrameBeat(word: Beat, b: Beat, fullWr: bool, ghost w: W.Write, ghost rd: nat)
      returns (committed: bool)
      requires Writes(w, rd) && rd <= w.commit <= |w.log| < rd + c.Depth()
      requires word == W.Stored(c, w, b) && fullWr == W.FullFrame(c, w)
      requires !w.good && !w.bad
      modifies this`wrPtr, this`wrPtrCommit, this`sendFrame, this`badFrame, this`goodFrame, mem
      ensures Writes(W.FrameStore(c, w, b), rd)
      ensures committed == (W.FrameStore(c, w, b).commit != w.commit)
    {
      hide Enc, Holds;
      committed := false;
      if b.last || (!c.dropOversize && (fullWr || sendFrame)) {
        committed := CommitFrameBeat(word, b, w, rd);
        sendFrame := !b.last;
      } else {
        Store(word, w, rd);
      }
    }

    method FrameLogic(tready: bool, valid: bool, b: Beat, word: Beat, full: bool, fullWr: bool,
                      ghost w: W.Write, ghost rd: nat) returns (committed: bool)
      requires c.Valid() && c.frameFifo && Writes(w, rd) && rd <= w.commit <= |w.log|
      requires word == W.Stored(c, w, b) && fullWr == W.FullFrame(c, w)
      requires (!full ==> |w.log| < rd + c.Depth()) && tready == W.Ready(c, w, full)
      requires !w.good && !w.bad && !w.overflow
      modifies this`wrPtr, this`wrPtrCommit, this`sendFrame, this`dropFrame
      modifies this`badFrame, this`goodFrame, this`overflow, mem
      ensures Writes(W.FrameStep(c, w, full, valid, b), rd)
      ensures committed == (W.FrameStep(c, w, full, valid, b).commit != w.commit)
    {
      committed := false;
      if tready && valid {
        if (full && c.dropWhenFull) || (fullWr && c.dropOversize) || dropFrame {
          dropFrame := true;
          if b.last {
            Rewind(w, rd);
            dropFrame := false;
            overflow := true;
          }
        } else {
          committed := StoreFrameBeat(word, b, fullWr, w, rd);
        }
      } else if valid && fullWr && !c.dropOversize {
        sendFrame := true;
        wrPtrCommit := wrPtr;
        committed := true;
      }
    }

    method NormalLogic(tready: bool, valid: bool, b: Beat, word: Beat, full: bool,
                       ghost w: W.Write, ghost rd: nat) returns (committed: bool)
      requires c.Valid() && !c.frameFifo && Writes(w, rd) && rd <= w.commit <= |w.log|
      requires word == W.Stored(c, w, b)
      requires (!full ==> |w.log| < rd + c.Depth()) && tready == W.Ready(c, w, full)
      requires !w.good && !w.bad && !w.overflow
      modifies this`wrPtr, this`wrPtrCommit, this`dropFrame, this`markFrame, this`overflow, mem
      ensures Writes(W.NormalStep(c, w, full, valid, b), rd)
      ensures committed == (W.NormalStep(c, w, full, valid, b).commit != w.commit)
    {
      committed := false;
      if tready && valid {
        if dropFrame && c.markWhenFull {
          if b.last {
            if !full && markFrame {
              StoreAndCommit(word, w, rd);
              committed := true;
              markFrame := false;
            }
            dropFrame := false;
            overflow := true;
          }
        } else if (full || markFrame) && c.markWhenFull {
          dropFrame := true;
          markFrame := markFrame || sFrame;
          if b.last {
            dropFrame := false;
            overflow := true;
          }
        } else {
          StoreAndCommit(word, w, rd);
          committed := true;
        }
      } else if !full && !dropFrame && markFrame && c.markWhenFull {
        StoreAndCommit(word, w, rd);
        committed := true;
        markFrame := false;
      }
    }

    method ModeLogic(tready: bool, valid: bool, b: Beat, full: bool, fullWr: bool,
                     ghost w: W.Write, ghost rd: nat) returns (committed: bool)
      requires c.Valid() && Writes(w, rd) && rd <= w.commit <= |w.log|
      requires (!full ==> |w.log| < rd + c.Depth()) && tready == W.Ready(c, w, full)
      requires fullWr == W.FullFrame(c, w) && !w.good && !w.bad && !w.overflow
      modifies this, mem
      ensures var w' := W.ModeStep(c, w, full, valid, b);
        Writes(w', rd) && committed == (w'.commit != w.commit)
    {
      var word := if markFrame then Beat(b.payload, true, c.badValue) else b;
      if c.frameFifo {
        committed := FrameLogic(tready, valid, b, word, full, fullWr, w, rd);
      } else {
        committed := NormalLogic(tready, valid, b, word, full, w, rd);
      }
    }

    method TrackFrame(last: bool, ghost w: W.Write, ghost rd: nat)
      requires Writes(w, rd)
      modifies this`sFrame
      ensures Writes(w.(inFrame := !last), rd)
    {
      sFrame := !last;
    }

    /** The whole clocked block of the write side. */
    method WriteLogic(tready: bool, valid: bool, b: Beat, full: bool, fullWr: bool,
                      ghost w: W.Write, ghost rd: nat) returns (committed: bool)
      requires c.Valid() && Writes(w, rd) && rd <= w.commit <= |w.log|
      requires (!full ==> |w.log| < rd + c.Depth()) && tready == W.Ready(c, w, full)
      requires fullWr == W.FullFrame(c, w)
      modifies this, mem
      ensures Writes(W.Step(c, w, full, valid, b), rd)
      ensures committed == (W.Step(c, w, full, valid, b).commit != w.commit)
    {
      hide W.ModeStep;
      overflow, badFrame, goodFrame := false, false, false;
      committed := ModeLogic(tready, valid, b, full, fullWr, W.Quiet(w), rd);
      if tready && valid { TrackFrame(b.last, W.ModeStep(c, W.Quiet(w), full, valid, b), rd); }
    }
  }
}
