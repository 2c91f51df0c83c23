/**
 The write logic of both FIFOs, over unbounded counters. `full` is an input:
 the single-clock FIFO computes it exactly, the dual-clock FIFO from a stale
 read pointer, and every result here holds whatever value it takes.
 */
module FifoWrite {
  import opened Streams

  /**
   log holds the words stored at write-pointer positions 0, 1, 2, ...; its
   length is the write pointer. The three pulses are the status registers.
   */
  datatype Write = Write(
    log: seq<Beat>,
    commit: nat,
    inFrame: bool,
    drop: bool,
    mark: bool,
    send: bool,
    overflow: bool,
    bad: bool,
    good: bool)

  const INIT := Write([], 0, false, false, false, false, false, false, false)

  /** The current frame already fills the memory. */
  predicate FullFrame(c: Config, w: Write) {
    |w.log| == w.commit + c.Depth()
  }

  predicate Ready(c: Config, w: Write, full: bool) {
    if c.frameFifo then !full || (FullFrame(c, w) && c.dropOversize) || c.dropWhenFull
    else !full || c.markWhenFull
  }

  /** The word put on the memory's data input: a marked frame's word is a terminator. */
  function Stored(c: Config, w: Write, b: Beat): Beat {
    if w.mark then Beat(b.payload, true, c.badValue) else b
  }

  function Store(c: Config, w: Write, b: Beat): Write {
    w.(log := w.log + [Stored(c, w, b)])
  }

  function CommitAll(w: Write): Write { w.(commit := |w.log|) }

  function Rewind(w: Write): Write
    requires w.commit <= |w.log|
  {
    w.(log := w.log[..w.commit])
  }

  /** A beat of a frame that is being dropped; the last one rewinds the pointer. */
  function FrameDrop(w: Write, b: Beat): Write
    requires w.commit <= |w.log|
  {
    if b.last then Rewind(w).(drop := false, overflow := true) else w.(drop := true)
  }

  /** A beat that is stored; a good last one commits the frame, a bad one rewinds. */
  function FrameStore(c: Config, w: Write, b: Beat): Write
    requires w.commit <= |w.log|
  {
    if b.last then
      if c.dropBad && c.BadUser(b.user) then Rewind(w).(bad := true, send := false)
      else CommitAll(Store(c, w, b)).(good := true, send := false)
    else if !c.dropOversize && (FullFrame(c, w) || w.send) then
      CommitAll(Store(c, w, b)).(send := true)
    else Store(c, w, b)
  }

  predicate Dropping(c: Config, w: Write, full: bool) {
    (full && c.dropWhenFull) || (FullFrame(c, w) && c.dropOversize) || w.drop
  }

  function FrameStep(c: Config, w: Write, full: bool, valid: bool, b: Beat): Write
    requires w.commit <= |w.log|
  {
    if Ready(c, w, full) && valid then
      if Dropping(c, w, full) then FrameDrop(w, b) else FrameStore(c, w, b)
    else if valid && FullFrame(c, w) && !c.dropOversize then CommitAll(w).(send := true)
    else w
  }

  function NormalStep(c: Config, w: Write, full: bool, valid: bool, b: Beat): Write {
    if Ready(c, w, full) && valid then
      if w.drop && c.markWhenFull then
        if b.last then
          (if !full && w.mark then CommitAll(Store(c, w, b)).(mark := false) else w).(drop := false, overflow := true)
        else w
      else if (full || w.mark) && c.markWhenFull then
        w.(drop := !b.last, mark := w.mark || w.inFrame, overflow := b.last)
      else CommitAll(Store(c, w, b))
    else if !full && !w.drop && w.mark && c.markWhenFull then CommitAll(Store(c, w, b)).(mark := false)
    else w
  }

  function ModeStep(c: Config, w: Write, full: bool, valid: bool, b: Beat): Write
    requires w.commit <= |w.log|
  {
    if c.frameFifo then FrameStep(c, w, full, valid, b) else NormalStep(c, w, full, valid, b)
  }

  /** The pulses last one cycle. */
  function Quiet(w: Write): Write { w.(overflow := false, bad := false, good := false) }

  /** One clock edge of the write side. */
  function Step(c: Config, w: Write, full: bool, valid: bool, b: Beat): Write
    requires w.commit <= |w.log|
  {
    var next := ModeStep(c, Quiet(w), full, valid, b);
    if Ready(c, w, full) && valid then next.(inFrame := !b.last) else next
  }

  // ------------------------------------------------------------ monitoring

  datatype Verdict = Good | Bad | Overflow

  /** pressed: some beat of the frame was taken under pressure. */
  datatype Frame = Frame(beats: seq<Beat>, pressed: bool, verdict: Verdict)

  /** What one edge presents to the write side. */
  datatype Input = Input(full: bool, valid: bool, beat: Beat)

  /**
   A run together with what an observer of the input port sees: the beats
   accepted, those accepted since the last end of frame, and the finished
   frames, each with the status pulse raised right after its last beat.
   */
  datatype Run = Run(
    w: Write,
    accepted: seq<Beat>,
    part: seq<Beat>,
    pressed: bool,
    frames: seq<Frame>,
    goods: nat,
    bads: nat,
    overflows: nat)

  const START := Run(INIT, [], [], false, [], 0, 0, 0)

  function Count(b: bool): nat { if b then 1 else 0 }

  function VerdictOf(w: Write): Verdict {
    if w.good then Good else if w.bad then Bad else Overflow
  }

  /**
   The memory is full in a mode that then discards input, or a cut frame still
   waits for its terminator.
   */
  predicate Pressure(c: Config, w: Write, full: bool) {
    (full && c.dropWhenFull) || ((full || w.mark) && c.markWhenFull)
  }

  function RunStep(c: Config, r: Run, i: Input): Run
    requires r.w.commit <= |r.w.log|
  {
    var w := Step(c, r.w, i.full, i.valid, i.beat);
    var taken := i.valid && Ready(c, r.w, i.full);
    var part := if taken then r.part + [i.beat] else r.part;
    var pressed := r.pressed || (taken && Pressure(c, r.w, i.full));
    var ends := taken && i.beat.last;
    Run(w,
        if taken then r.accepted + [i.beat] else r.accepted,
        if ends then [] else part,
        pressed && !ends,
        if ends then r.frames + [Frame(part, pressed, VerdictOf(w))] else r.frames,
        r.goods + Count(w.good), r.bads + Count(w.bad), r.overflows + Count(w.overflow))
  }

  /**
   What one edge may do to the stored words: add one at the end (only when not
   full), or cut back to the commit pointer; committed words never change, and
   the commit pointer only moves to the write pointer.
   */
  predicate Grows(w: Write, w': Write, full: bool)
  {
    && w.commit <= w'.commit <= |w'.log|
    && w.commit <= |w.log|
    && (|w'.log| == |w.log| ==> w'.log == w.log)
    && (|w'.log| > |w.log| ==> !full && |w'.log| == |w.log| + 1 && w'.log == w.log + [w'.log[|w.log|]])
    && (|w'.log| < |w.log| ==> w'.log == w.log[..w.commit])
    && (w'.commit > w.commit ==> w'.commit == |w'.log| && |w'.log| >= |w.log|)
  }

  lemma RewindGrows(w: Write, full: bool)
    requires w.commit <= |w.log|
    ensures Grows(w, Rewind(w), full)
  {
  }

  lemma StoreGrows(c: Config, w: Write, b: Beat)
    requires w.commit <= |w.log|
    ensures Grows(w, Store(c, w, b), false)
    ensures Grows(w, CommitAll(Store(c, w, b)), false)
  {
  }

  lemma FrameStoreGrows(c: Config, w: Write, b: Beat)
    requires w.commit <= |w.log|
    ensures Grows(w, FrameStore(c, w, b), false)
  {
    RewindGrows(w, false);
    StoreGrows(c, w, b);
  }

  lemma FrameCommit(c: Config, w: Write, full: bool, valid: bool, b: Beat)
    requires c.Valid() && c.frameFifo && w.commit <= |w.log|
    ensures Grows(w, FrameStep(c, w, full, valid, b), full)
  {
    if Ready(c, w, full) && valid && !Dropping(c, w, full) {
      FrameStoreGrows(c, w, b);
    } else {
      RewindGrows(w, full);
    }
  }

  lemma NormalCommit(c: Config, w: Write, full: bool, valid: bool, b: Beat)
    requires c.Valid() && !c.frameFifo && w.commit <= |w.log|
    ensures var w' := NormalStep(c, w, full, valid, b);
      Grows(w, w', full) && (w.commit == |w.log| ==> w'.commit == |w'.log|)
  {
  }

  lemma StepGrows(c: Config, w: Write, full: bool, valid: bool, b: Beat)
    requires c.Valid() && w.commit <= |w.log|
    ensures var w' := Step(c, w, full, valid, b);
      Grows(w, w', full) && (!c.frameFifo && w.commit == |w.log| ==> w'.commit == |w'.log|)
  {
    if c.frameFifo { FrameCommit(c, Quiet(w), full, valid, b); } else { NormalCommit(c, Quiet(w), full, valid, b); }
  }

  function Execute(c: Config, ins: seq<Input>): (r: Run)
    requires c.Valid()
    ensures r.w.commit <= |r.w.log|
  {
    if ins == [] then START
    else
      var r := Execute(c, ins[..|ins| - 1]);
      var i := ins[|ins| - 1];
      StepGrows(c, r.w, i.full, i.valid, i.beat);
      RunStep(c, r, i)
  }

  // ------------------------------------------------------- lossless modes

  /** Neither dropping nor marking: every accepted beat is stored, in order. */
  ghost predicate LosslessInv(c: Config, r: Run) {
    && !r.w.drop && !r.w.mark
    && r.w.log == r.accepted
    && r.w.commit <= |r.w.log|
    && (!c.frameFifo ==> r.w.commit == |r.w.log| && r.goods == 0 && r.bads == 0 && r.overflows == 0)
  }

  lemma LosslessStep(c: Config, r: Run, i: Input)
    requires c.Valid() && !c.dropOversize && !c.markWhenFull && LosslessInv(c, r)
    ensures LosslessInv(c, RunStep(c, r, i))
  {
  }

  lemma {:induction false} Lossless(c: Config, ins: seq<Input>)
    requires c.Valid() && !c.dropOversize && !c.markWhenFull
    ensures LosslessInv(c, Execute(c, ins))
  {
    if ins != [] {
      Lossless(c, ins[..|ins| - 1]);
      LosslessStep(c, Execute(c, ins[..|ins| - 1]), ins[|ins| - 1]);
    }
  }

  lemma LogIsAccepted(c: Config, r: Run)
    requires LosslessInv(c, r)
    ensures r.w.log == r.accepted
  {
  }
}
