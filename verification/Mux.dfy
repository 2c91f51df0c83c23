/**
 The stream multiplexer: an input is picked at the start of a frame and kept
 until its last beat; ready is registered, so the output register has a
 spare behind it.
 */
module Mux {
  import opened Streams

  datatype Mux = Mux(
    select: nat,
    frame: bool,
    ready: seq<bool>,
    intReady: bool,
    outValid: bool,
    out: Beat,
    tempValid: bool,
    temp: Beat)

  /** The pins before a clock edge; select may name an input that does not exist. */
  datatype Input = Input(valid: seq<bool>, beats: seq<Beat>, ready: bool, enable: bool, select: nat)

  predicate Sound(n: nat, m: Mux) { m.select < n == |m.ready| }

  predicate Wired(n: nat, i: Input) { |i.valid| == |i.beats| == n }

  /** After reset; the data registers hold anything. */
  predicate Reset(n: nat, m: Mux) {
    && Sound(n, m) && m.select == 0 && !m.frame && m.ready == seq(n, j => false)
    && !m.intReady && !m.outValid && !m.tempValid
  }

  /** The selected input transfers a beat into the output stage. */
  predicate Enters(m: Mux, i: Input)
    requires Sound(|i.valid|, m)
  {
    i.valid[m.select] && m.ready[m.select] && m.frame
  }

  /** A new frame may start: the control pins pick an input that has data. */
  predicate Picks(m: Mux, i: Input) {
    !m.frame && i.enable && i.select < |i.valid| && i.valid[i.select]
  }

  predicate Early(m: Mux, i: Input)
    requires Sound(|i.valid|, m)
  {
    i.ready || (!m.tempValid && (!m.outValid || !Enters(m, i)))
  }

  function Step(n: nat, m: Mux, i: Input): (m': Mux)
    requires Sound(n, m) && Wired(n, i)
    ensures Sound(n, m')
  {
    var enters, b := Enters(m, i), i.beats[m.select];
    var ends := i.valid[m.select] && m.ready[m.select] && b.last;
    var frame := Picks(m, i) || (m.frame && !ends);
    var select := if Picks(m, i) then i.select else m.select;
    var early := Early(m, i);
    var direct := m.intReady && (i.ready || !m.outValid);
    var aside := m.intReady && !direct;
    var refill := !m.intReady && i.ready;
    Mux(select,
        frame,
        seq(n, j => early && frame && j == select),
        early,
        if direct then enters else if refill then m.tempValid else m.outValid,
        if direct then b else if refill then m.temp else m.out,
        if aside then enters else if refill then false else m.tempValid,
        if aside then b else m.temp)
  }

  // ------------------------------------------------------------------ runs

  /** accepted has one stream per input, of the beats transferred there. */
  datatype Run = Run(m: Mux, accepted: seq<seq<Beat>>, delivered: seq<Beat>)

  predicate RunSound(n: nat, r: Run) { Sound(n, r.m) && |r.accepted| == n }

  function RunStep(n: nat, r: Run, i: Input): (r': Run)
    requires RunSound(n, r) && Wired(n, i)
    ensures RunSound(n, r')
  {
    Run(Step(n, r.m, i),
        seq(n, j requires 0 <= j < n =>
          if i.valid[j] && r.m.ready[j] then r.accepted[j] + [i.beats[j]] else r.accepted[j]),
        if r.m.outValid && i.ready then r.delivered + [r.m.out] else r.delivered)
  }

  datatype Frame = Frame(port: nat, beats: seq<Beat>)

  function Bodies(frames: seq<Frame>): seq<seq<Beat>> {
    seq(|frames|, k requires 0 <= k < |frames| => frames[k].beats)
  }

  function From(port: nat, frames: seq<Frame>): seq<Frame> {
    if frames == [] then []
    else
      var front, f := frames[..|frames| - 1], frames[|frames| - 1];
      From(port, front) + if f.port == port then [f] else []
  }

  function Stored(m: Mux): seq<Beat> {
    (if m.outValid then [m.out] else []) + (if m.tempValid then [m.temp] else [])
  }

  ghost predicate Registers(m: Mux) {
    && (forall j :: 0 <= j < |m.ready| && m.ready[j] ==> j == m.select && m.frame && m.intReady)
    && (m.tempValid ==> m.outValid && !m.intReady)
  }

  /** What has passed is a list of whole frames, each of one input, and the part that came in so far. */
  ghost predicate Passed(r: Run, frames: seq<Frame>, part: seq<Beat>) {
    && (forall k :: 0 <= k < |frames| ==> IsFrame(frames[k].beats))
    && (forall k :: 0 <= k < |part| ==> !part[k].last)
    && r.delivered + Stored(r.m) == Concat(Bodies(frames)) + part
  }

  ghost predicate Faithful(r: Run, frames: seq<Frame>, part: seq<Beat>) {
    forall p :: 0 <= p < |r.accepted| ==>
      r.accepted[p] == Concat(Bodies(From(p, frames))) + if p == r.m.select then part else []
  }

  ghost predicate Inv(n: nat, r: Run, frames: seq<Frame>, part: seq<Beat>) {
    && RunSound(n, r) && Registers(r.m)
    && (part != [] ==> r.m.frame)
    && Passed(r, frames, part) && Faithful(r, frames, part)
  }

  lemma RegistersStep(n: nat, m: Mux, i: Input)
    requires Sound(n, m) && Wired(n, i) && Registers(m)
    ensures Registers(Step(n, m, i))
  {
  }

  /** The register pair neither loses, repeats nor reorders a beat. */
  lemma StoredStep(n: nat, m: Mux, i: Input)
    requires Sound(n, m) && Wired(n, i) && Registers(m)
    ensures var gone := if m.outValid && i.ready then [m.out] else [];
      gone + Stored(Step(n, m, i)) == Stored(m) + if Enters(m, i) then [i.beats[m.select]] else []
  {
  }

  /** Only the selected input transfers. */
  lemma OnlySelected(n: nat, m: Mux, i: Input)
    requires Sound(n, m) && Wired(n, i) && Registers(m)
    ensures forall j :: 0 <= j < n ==> ((i.valid[j] && m.ready[j]) <==> (j == m.select && Enters(m, i)))
  {
  }

  lemma BodiesAppend(frames: seq<Frame>, f: Frame)
    ensures Concat(Bodies(frames + [f])) == Concat(Bodies(frames)) + f.beats
    ensures forall p :: From(p, frames + [f]) == From(p, frames) + if f.port == p then [f] else []
  {
    assert Bodies(frames + [f]) == Bodies(frames) + [f.beats];
    ConcatAppend(Bodies(frames), f.beats);
    assert (frames + [f])[..|frames|] == frames;
  }

  /** What the step takes in, apart from what it does to the registers. */
  function PartAfter(m: Mux, i: Input, part: seq<Beat>): seq<Beat>
    requires Sound(|i.valid|, m) && |i.beats| == |i.valid|
  {
    if !Enters(m, i) then part
    else if i.beats[m.select].last then [] else part + [i.beats[m.select]]
  }

  function FramesAfter(m: Mux, i: Input, frames: seq<Frame>, part: seq<Beat>): seq<Frame>
    requires Sound(|i.valid|, m) && |i.beats| == |i.valid|
  {
    if Enters(m, i) && i.beats[m.select].last then frames + [Frame(m.select, part + [i.beats[m.select]])] else frames
  }

  lemma AppendBoth(a: seq<Beat>, b: seq<Beat>, x: seq<Beat>, y: seq<Beat>, z: seq<Beat>)
    requires a + b == x + y
    ensures a + (b + z) == x + (y + z)
  {
    assert a + (b + z) == a + b + z;
    assert x + (y + z) == x + y + z;
  }

  lemma PassedStep(n: nat, r: Run, i: Input, frames: seq<Frame>, part: seq<Beat>)
    requires Inv(n, r, frames, part) && Wired(n, i)
    ensures Passed(RunStep(n, r, i), FramesAfter(r.m, i, frames, part), PartAfter(r.m, i, part))
  {
    hide Step, Enters, From, Stored;
    var b := i.beats[r.m.select];
    StoredStep(n, r.m, i);
    BodiesAppend(frames, Frame(r.m.select, part + [b]));
    var gone := if r.m.outValid && i.ready then [r.m.out] else [];
    assert r.delivered + (gone + Stored(Step(n, r.m, i))) == RunStep(n, r, i).delivered + Stored(Step(n, r.m, i));
    var came := if Enters(r.m, i) then [b] else [];
    AppendBoth(r.delivered, Stored(r.m), Concat(Bodies(frames)), part, came);
  }

  lemma FaithfulStep(n: nat, r: Run, i: Input, frames: seq<Frame>, part: seq<Beat>)
    requires Inv(n, r, frames, part) && Wired(n, i)
    ensures Faithful(RunStep(n, r, i), FramesAfter(r.m, i, frames, part), PartAfter(r.m, i, part))
  {
    hide Passed, IsFrame;
    var r', frames', part' := RunStep(n, r, i), FramesAfter(r.m, i, frames, part), PartAfter(r.m, i, part);
    OnlySelected(n, r.m, i);
    forall p | 0 <= p < n
      ensures r'.accepted[p] == Concat(Bodies(From(p, frames'))) + if p == r'.m.select then part' else []
    {
      if p == r.m.select && Enters(r.m, i) {
        TransferStep(n, r, i, frames, part, p);
      } else {
        IdleStep(n, r, i, frames, part, p);
      }
    }
  }

  /** The stream of the input that transfers a beat. */
  lemma TransferStep(n: nat, r: Run, i: Input, frames: seq<Frame>, part: seq<Beat>, p: nat)
    requires Inv(n, r, frames, part) && Wired(n, i) && p == r.m.select && Enters(r.m, i)
    ensures var r', frames', part' := RunStep(n, r, i), FramesAfter(r.m, i, frames, part), PartAfter(r.m, i, part);
      r'.accepted[p] == Concat(Bodies(From(p, frames'))) + if p == r'.m.select then part' else []
  {
    hide Passed, IsFrame, From, Bodies, Concat;
    var before, b := Concat(Bodies(From(p, frames))), i.beats[p];
    var f := Frame(p, part + [b]);
    BodiesAppend(frames, f);
    BodiesAppend(From(p, frames), f);
    assert From(p, frames + [f]) == From(p, frames) + [f];
    assert r.accepted[p] + [b] == before + (part + [b]);
    assert Concat(Bodies(From(p, frames) + [f])) + [] == before + f.beats;
  }

  /** The stream of any other input. */
  lemma IdleStep(n: nat, r: Run, i: Input, frames: seq<Frame>, part: seq<Beat>, p: nat)
    requires Inv(n, r, frames, part) && Wired(n, i) && p < n && !(p == r.m.select && Enters(r.m, i))
    ensures var r', frames', part' := RunStep(n, r, i), FramesAfter(r.m, i, frames, part), PartAfter(r.m, i, part);
      r'.accepted[p] == Concat(Bodies(From(p, frames'))) + if p == r'.m.select then part' else []
  {
    hide Passed, IsFrame, From, Bodies, Concat;
    var f := Frame(r.m.select, part + [i.beats[r.m.select]]);
    OnlySelected(n, r.m, i);
    assert RunStep(n, r, i).accepted[p] == r.accepted[p];
    if Enters(r.m, i) {
      BodiesAppend(frames, f);
      assert From(p, frames + [f]) == From(p, frames) + [] == From(p, frames);
    }
  }

  lemma StepInv(n: nat, r: Run, i: Input, frames: seq<Frame>, part: seq<Beat>)
    returns (frames': seq<Frame>, part': seq<Beat>)
    requires Inv(n, r, frames, part) && Wired(n, i)
    ensures Inv(n, RunStep(n, r, i), frames', part')
    ensures frames' == FramesAfter(r.m, i, frames, part) && part' == PartAfter(r.m, i, part)
  {
    hide Passed, Faithful, Registers;
    frames', part' := FramesAfter(r.m, i, frames, part), PartAfter(r.m, i, part);
    RegistersStep(n, r.m, i);
    PassedStep(n, r, i, frames, part);
    FaithfulStep(n, r, i, frames, part);
  }

  predicate AllWired(n: nat, ins: seq<Input>) { forall k :: 0 <= k < |ins| ==> Wired(n, ins[k]) }

  function Execute(n: nat, m: Mux, ins: seq<Input>): (r: Run)
    requires Reset(n, m) && AllWired(n, ins)
    ensures RunSound(n, r)
  {
    if ins == [] then Run(m, seq(n, j => []), [])
    else RunStep(n, Execute(n, m, ins[..|ins| - 1]), ins[|ins| - 1])
  }

  /**
   For every run: the output, and the beats in the register pair, are whole
   frames one after the other, each from one input, then the beginning of one
   more; and what every input transferred is exactly its share of these, in
   order.
   */
  lemma {:induction false} FramesNeverMix(n: nat, m: Mux, ins: seq<Input>)
    returns (frames: seq<Frame>, part: seq<Beat>)
    requires Reset(n, m) && AllWired(n, ins)
    ensures var r := Execute(n, m, ins);
      && Inv(n, r, frames, part)
      && (forall k :: 0 <= k < |frames| ==> IsFrame(frames[k].beats))
      && (forall k :: 0 <= k < |part| ==> !part[k].last)
      && r.delivered + Stored(r.m) == Concat(Bodies(frames)) + part
      && forall p :: 0 <= p < n ==>
           r.accepted[p] == Concat(Bodies(From(p, frames))) + if p == r.m.select then part else []
  {
    if ins == [] {
      frames, part := [], [];
    } else {
      frames, part := FramesNeverMix(n, m, ins[..|ins| - 1]);
      frames, part := StepInv(n, Execute(n, m, ins[..|ins| - 1]), ins[|ins| - 1], frames, part);
    }
  }

  // ------------------------------------------------ frames and the select pin

  /** What an observer sees at an edge: the input pins and the tready outputs. */
  datatype Edge = Edge(i: Input, tready: seq<bool>)

  function Edges(n: nat, m: Mux, ins: seq<Input>): seq<Edge>
    requires Reset(n, m) && AllWired(n, ins)
  {
    if ins == [] then []
    else
      var front := ins[..|ins| - 1];
      Edges(n, m, front) + [Edge(ins[|ins| - 1], Execute(n, m, front).m.ready)]
  }

  /** A frame is open or not; ports has one entry for each frame opened so far. */
  datatype Watch = Watch(open: bool, ports: seq<nat>)

  /** The control pins select an input that has data. */
  predicate Selects(i: Input) { i.enable && i.select < |i.valid| && i.valid[i.select] }

  /** The last beat of a frame is transferred at input p. */
  predicate Closes(e: Edge, p: nat) {
    p < |e.i.valid| && p < |e.i.beats| && p < |e.tready| && e.i.valid[p] && e.tready[p] && e.i.beats[p].last
  }

  /**
   The frames as the pins tell them: each is opened by the first edge after the
   end of the one before at which an input with data is selected, and is of
   that input.
   */
  function Watched(es: seq<Edge>): Watch {
    if es == [] then Watch(false, [])
    else
      var w, e := Watched(es[..|es| - 1]), es[|es| - 1];
      if !w.open then if Selects(e.i) then Watch(true, w.ports + [e.i.select]) else w
      else if w.ports != [] && Closes(e, w.ports[|w.ports| - 1]) then w.(open := false)
      else w
  }

  /** The frames that passed, and the one that is open, are those that the pins tell. */
  ghost predicate Told(r: Run, frames: seq<Frame>, part: seq<Beat>, w: Watch) {
    && w.open == r.m.frame && (part != [] ==> w.open)
    && w.ports == seq(|frames|, k requires 0 <= k < |frames| => frames[k].port) + if w.open then [r.m.select] else []
  }

  lemma ToldStep(n: nat, r: Run, i: Input, frames: seq<Frame>, part: seq<Beat>, es: seq<Edge>)
    requires Inv(n, r, frames, part) && Wired(n, i) && Told(r, frames, part, Watched(es))
    ensures Told(RunStep(n, r, i), FramesAfter(r.m, i, frames, part), PartAfter(r.m, i, part),
                 Watched(es + [Edge(i, r.m.ready)]))
  {
    hide Passed, Faithful;
    assert (es + [Edge(i, r.m.ready)])[..|es|] == es;
  }

  /**
   For every run: which input each frame comes from is decided by the select
   pin, at the edge that opens the frame, and by nothing else.
   */
  lemma {:induction false} PinsDecide(n: nat, m: Mux, ins: seq<Input>) returns (frames: seq<Frame>, part: seq<Beat>)
    requires Reset(n, m) && AllWired(n, ins)
    ensures var r, w := Execute(n, m, ins), Watched(Edges(n, m, ins));
      && Inv(n, r, frames, part) && Told(r, frames, part, w)
      && r.delivered + Stored(r.m) == Concat(Bodies(frames)) + part
      && |w.ports| == |frames| + (if w.open then 1 else 0)
      && (forall k :: 0 <= k < |frames| ==> IsFrame(frames[k].beats) && frames[k].port == w.ports[k])
      && (part != [] ==> w.open)
      && (r.m.outValid <==> |r.delivered| < |Concat(Bodies(frames)) + part|)
  {
    hide Passed, Faithful, Step;
    if ins == [] {
      frames, part := [], [];
      StartInv(n, m);
    } else {
      var k := |ins| - 1;
      var r := Execute(n, m, ins[..k]);
      frames, part := PinsDecide(n, m, ins[..k]);
      ToldStep(n, r, ins[k], frames, part, Edges(n, m, ins[..k]));
      frames, part := StepInv(n, r, ins[k], frames, part);
    }
    InvPasses(n, Execute(n, m, ins), frames, part);
  }

  lemma StartInv(n: nat, m: Mux)
    requires Reset(n, m)
    ensures Inv(n, Execute(n, m, []), [], [])
  {
  }

  lemma InvPasses(n: nat, r: Run, frames: seq<Frame>, part: seq<Beat>)
    requires Inv(n, r, frames, part)
    ensures r.delivered + Stored(r.m) == Concat(Bodies(frames)) + part
    ensures r.m.outValid <==> |r.delivered| < |Concat(Bodies(frames)) + part|
    ensures forall k :: 0 <= k < |frames| ==> IsFrame(frames[k].beats)
  {
  }

  // ---------------------------------------------------------------- progress

  /** The input that may transfer next: that of the open frame, else the selected one. */
  function Next(w: Watch, i: Input): nat {
    if w.open && w.ports != [] then w.ports[|w.ports| - 1] else i.select
  }

  /** The input that may transfer, or is selected, has data. */
  predicate Insists(w: Watch, i: Input, p: nat) {
    p < |i.valid| && i.valid[p] && (!w.open ==> Selects(i) && i.select == p)
  }

  lemma TwoEdges(n: nat, r: Run, i: Input, j: Input, p: nat)
    requires RunSound(n, r) && Registers(r.m) && Wired(n, i) && Wired(n, j) && p < n
    requires i.valid[p] && j.valid[p] && (i.ready || !r.m.outValid)
    requires if r.m.frame then p == r.m.select else Selects(i) && p == i.select
    ensures |RunStep(n, RunStep(n, r, i), j).accepted[p]| > |r.accepted[p]|
  {
  }

  /**
   After every run, a frame's next beat, or the first one of a selected input,
   is taken within two edges, if the sink is ready or nothing is offered to it.
   */
  lemma OfferTaken(n: nat, m: Mux, ins: seq<Input>, i: Input, j: Input)
    requires Reset(n, m) && AllWired(n, ins) && Wired(n, i) && Wired(n, j)
    requires var w := Watched(Edges(n, m, ins));
      && Insists(w, i, Next(w, i)) && Next(w, i) < |j.valid| && j.valid[Next(w, i)]
      && (i.ready || !Execute(n, m, ins).m.outValid)
    ensures AllWired(n, ins + [i, j])
    ensures var p := Next(Watched(Edges(n, m, ins)), i);
      p < n && |Execute(n, m, ins + [i, j]).accepted[p]| > |Execute(n, m, ins).accepted[p]|
  {
    hide Passed, Faithful, Step, RunStep, Watched, Execute, Edges;
    var frames, part := PinsDecide(n, m, ins);
    TwoMore(n, m, ins, i, j);
    TwoEdges(n, Execute(n, m, ins), i, j, Next(Watched(Edges(n, m, ins)), i));
  }

  lemma TwoMore(n: nat, m: Mux, ins: seq<Input>, i: Input, j: Input)
    requires Reset(n, m) && AllWired(n, ins) && Wired(n, i) && Wired(n, j)
    ensures AllWired(n, ins + [i, j])
    ensures Execute(n, m, ins + [i, j]) == RunStep(n, RunStep(n, Execute(n, m, ins), i), j)
  {
    hide RunStep;
    assert (ins + [i, j])[..|ins| + 1] == ins + [i];
    assert (ins + [i])[..|ins|] == ins;
  }

  /** With a ready sink and no input the register pair empties within two edges. */
  lemma Empties(n: nat, r: Run, i: Input, j: Input)
    requires RunSound(n, r) && Registers(r.m) && Wired(n, i) && Wired(n, j) && i.ready && j.ready
    requires forall p :: 0 <= p < n ==> !i.valid[p] && !j.valid[p]
    ensures var r' := RunStep(n, RunStep(n, r, i), j);
      Stored(r'.m) == [] && r'.delivered == r.delivered + Stored(r.m)
  {
  }

  /** A beat that is offered stays until it is taken. */
  lemma Stable(n: nat, m: Mux, i: Input)
    requires Sound(n, m) && Wired(n, i) && Registers(m) && m.outValid && !i.ready
    ensures Step(n, m, i).outValid && Step(n, m, i).out == m.out
  {
  }

  // -------------------------------------------------------------- registers

  class Multiplexer {
    const n: nat
    var selectReg: nat
    var frameReg: bool
    var readyReg: seq<bool>
    var intReadyReg: bool
    var outValidReg: bool
    var outReg: Beat
    var tempValidReg: bool
    var tempReg: Beat

    function State(): Mux
      reads this
    {
      Mux(selectReg, frameReg, readyReg, intReadyReg, outValidReg, outReg, tempValidReg, tempReg)
    }

    constructor (n: nat)
      requires n >= 1
      ensures this.n == n && Reset(n, State())
    {
      this.n, selectReg, frameReg, readyReg := n, 0, false, seq(n, j => false);
      intReadyReg, outValidReg, tempValidReg := false, false, false;
      outReg, tempReg := BLANK, BLANK;
    }

    /** The output register pair on a clock edge. */
    method Datapath(validInt: bool, b: Beat, ready: bool, early: bool)
      modifies this`intReadyReg, this`outValidReg, this`outReg, this`tempValidReg, this`tempReg
      ensures var direct, refill := old(intReadyReg) && (ready || !old(outValidReg)), !old(intReadyReg) && ready;
        && intReadyReg == early
        && outValidReg == (if direct then validInt else if refill then old(tempValidReg) else old(outValidReg))
        && outReg == (if direct then b else if refill then old(tempReg) else old(outReg))
        && tempValidReg ==
             (if old(intReadyReg) && !direct then validInt else if refill then false else old(tempValidReg))
        && tempReg == (if old(intReadyReg) && !direct then b else old(tempReg))
    {
      if intReadyReg {
        if ready || !outValidReg {
          outValidReg, outReg := validInt, b;
        } else {
          tempValidReg, tempReg := validInt, b;
        }
      } else if ready {
        outValidReg, outReg := tempValidReg, tempReg;
        tempValidReg := false;
      }
      intReadyReg := early;
    }

    /** One clock edge; tready and the output as they were before it. */
    method Clock(i: Input) returns (tready: seq<bool>, tvalid: bool, beat: Beat)
      requires Sound(n, State()) && Wired(n, i)
      modifies this
      ensures tready == old(State()).ready && tvalid == old(State()).outValid && beat == old(State()).out
      ensures State() == Step(n, old(State()), i)
    {
      tready, tvalid, beat := readyReg, outValidReg, outReg;
      var current := i.beats[selectReg];
      var transfer := i.valid[selectReg] && readyReg[selectReg];
      var validInt := transfer && frameReg;
      var early := i.ready || (!tempValidReg && (!outValidReg || !validInt));
      var selectNext, frameNext := selectReg, frameReg;
      if transfer && current.last {
        frameNext := false;
      }
      if !frameReg && i.enable && i.select < n && i.valid[i.select] {
        frameNext := true;
        selectNext := i.select;
      }
      selectReg, frameReg := selectNext, frameNext;
      readyReg := seq(n, j => early && frameNext && j == selectNext);
      Datapath(validInt, current, i.ready, early);
    }
  }
}
