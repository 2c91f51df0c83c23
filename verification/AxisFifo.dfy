/**
 The registers of the single-clock FIFO. One clock edge computes all wires
 from the values before the edge, then lets the write logic and the read logic
 update their registers; it refines one step of the queue model.
 */
module AxisFifo {
  import opened Words
  import opened Streams
  import opened WritePath
  import opened ReadPath
  import W = FifoWrite
  import R = FifoRead
  import S = SyncFifo

  class Fifo {
    const c: Config
    const write: WriteSide
    const read: ReadSide
    /** The state of the queue model that the registers stand for. */
    ghost var f: S.Fifo
    ghost const Repr: set<object>

    ghost predicate Shape()
      reads this
    {
      && write in Repr && write.mem in Repr && read in Repr && read.Repr <= Repr
      && Repr == {this, write, write.mem} + read.Repr
      && this !in read.Repr && write !in read.Repr && write.mem !in read.Repr
      && c == write.c == read.c
      && c.Valid()
    }

    ghost predicate Valid()
      reads this, Repr
    {
      Shape() && S.Inv(c, f) && write.Writes(f.run.w, f.read.rd) && read.Reads(f.read)
    }

    constructor (c: Config)
      requires c.Valid()
      ensures Valid() && fresh(Repr)
      ensures this.c == c && f == S.Init(c)
    {
      var w := new WriteSide(c);
      var r := new ReadSide(c);
      this.c, write, read, f := c, w, r, S.Init(c);
      Repr := {this, w, w.mem} + r.Repr;
      R.InitInv(c);
    }

    /** The wires that compare pointers, and the memory's read port. */
    method Wires() returns (full: bool, fullWr: bool, empty: bool, word: Beat)
      requires Valid()
      ensures full == S.Full(c, f) && fullWr == W.FullFrame(c, f.run.w)
      ensures empty == (f.read.rd == f.run.w.commit)
      ensures !empty ==> word == f.run.w.log[f.read.rd]
    {
      ghost var w, rd := f.run.w, f.read.rd;
      FullTest(|w.log|, rd, c.addrWidth);
      FullTest(|w.log|, w.commit, c.addrWidth);
      EncWindow(rd, w.commit, c.addrWidth + 1);
      Address(rd, c.addrWidth);
      full := write.wrPtr == FlipTop(read.rdPtr);
      fullWr := write.wrPtr == FlipTop(write.wrPtrCommit);
      empty := write.wrPtrCommit == read.rdPtr;
      word := write.mem[Dec(read.rdPtr[..c.addrWidth])];
    }

    /** The word offered on the output port. */
    method Output() returns (valid: bool, word: Beat)
      requires Valid()
      ensures valid == R.Offer(c, f.read).Some? && (valid ==> word == R.Offer(c, f.read).value)
    {
      valid, word := read.Output(f.read);
    }

    /** Both clocked blocks, from the same wires. */
    method Clock(full: bool, fullWr: bool, empty: bool, word: Beat, valid: bool, b: Beat, ready: bool)
      returns (tready: bool)
      requires Valid()
      requires full == S.Full(c, f) && fullWr == W.FullFrame(c, f.run.w)
      requires empty == (f.read.rd == f.run.w.commit) && (!empty ==> word == f.run.w.log[f.read.rd])
      modifies write, write.mem, read.Repr
      ensures tready == S.Ready(c, f)
      ensures write.Writes(W.Step(c, f.run.w, full, valid, b), f.read.rd)
      ensures read.Reads(R.Step(c, f.read, f.run.w.log, f.run.w.commit, ready))
    {
      hide W.Step, R.Step, R.ReadInv, WriteSide.Writes, ReadSide.Reads;
      S.Bounds(c, f);
      tready := if c.frameFifo then !full || (fullWr && c.dropOversize) || c.dropWhenFull else !full || c.markWhenFull;
      var committed := write.WriteLogic(tready, valid, b, full, fullWr, f.run.w, f.read.rd);
      var took := read.ReadLogic(empty, word, ready, f.read, f.run.w.log, f.run.w.commit);
    }

    /** One clock edge is one step of the queue model, wrap-around and memory included. */
    method Posedge(valid: bool, b: Beat, ready: bool) returns (tready: bool)
      requires Valid()
      modifies Repr
      ensures Valid()
      ensures tready == S.Ready(c, old(f))
      ensures f == S.Step(c, old(f), S.Tick(valid, b, ready))
    {
      hide S.Step, S.Inv, S.Ready, S.Full, W.Step, R.Step, R.ReadInv, WriteSide.Writes, ReadSide.Reads;
      ghost var t := S.Tick(valid, b, ready);
      S.Bounds(c, f);
      var full, fullWr, empty, word := Wires();
      tready := Clock(full, fullWr, empty, word, valid, b, ready);
      ghost var f' := S.Step(c, f, t);
      S.StepParts(c, f, t);
      write.Release(f'.run.w, f.read.rd, f'.read.rd);
      f := f';
    }
  }
}
