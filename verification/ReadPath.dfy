/**
 The registers behind the memory of both FIFOs: the RAM pipeline and the
 output FIFO, clocked with non-blocking assignments (every right-hand side is
 taken from the values before the edge).
 */
module ReadPath {
  import opened Words
  import opened Streams
  import opened Ring
  import R = FifoRead

  ghost predicate BubbleFrom(p: R.Pipe, i: nat) {
    exists k :: i <= k < |p| && p[k].None?
  }

  /** Stage i after an edge, as the loop over the stages computes it. */
  ghost function Stage(p: R.Pipe, ready: bool, feed: Option<Beat>, i: nat): Option<Beat>
    requires i < |p|
  {
    if ready || BubbleFrom(p, i) then (if i == 0 then feed else p[i - 1]) else p[i]
  }

  lemma {:induction false} AdvanceStages(p: R.Pipe, ready: bool, feed: Option<Beat>)
    ensures forall i :: 0 <= i < |p| ==> R.Advance(p, ready, feed)[i] == Stage(p, ready, feed, i)
  {
    if p == [] {
    } else if ready || R.Last(p).None? {
      forall i | 0 <= i < |p| ensures R.Advance(p, ready, feed)[i] == Stage(p, ready, feed, i) {
        assert !ready ==> p[|p| - 1].None? && BubbleFrom(p, i);
      }
    } else {
      var front := R.Front(p);
      AdvanceStages(front, false, feed);
      forall i | 0 <= i < |p| ensures R.Advance(p, ready, feed)[i] == Stage(p, ready, feed, i) {
        assert BubbleFrom(front, i) <==> BubbleFrom(p, i) by {
          if BubbleFrom(p, i) {
            var k :| i <= k < |p| && p[k].None?;
            assert front[k].None?;
          }
          if BubbleFrom(front, i) {
            var k :| i <= k < |front| && front[k].None?;
            assert p[k].None?;
          }
        }
      }
    }
  }

  class Pipeline {
    const valid: array<bool>
    const data: array<Beat>
    ghost const Repr: set<object>

    ghost predicate Valid()
      reads this, Repr
    {
      Repr == {this, valid, data} && valid.Length == data.Length >= 1
    }

    ghost function Stages(): (p: R.Pipe)
      requires Valid()
      reads Repr
      ensures |p| == valid.Length
    {
      View(valid[..], data[..])
    }

    static function View(v: seq<bool>, d: seq<Beat>): (p: R.Pipe)
      requires |v| == |d|
      ensures |p| == |v|
    {
      seq(|v|, i requires 0 <= i < |v| => if v[i] then Some(d[i]) else None)
    }

    constructor (n: nat)
      ensures Valid() && fresh(Repr)
      ensures Stages() == seq(n + 1, i => None)
    {
      var v := new bool[n + 1](i => false);
      var d := new Beat[n + 1](i => BLANK);
      valid, data := v, d;
      Repr := {this, v, d};
    }

    /** The output is ready, or (~valid) >> i is not zero: stage i moves. */
    static method Moves(v: seq<bool>, i: nat, ready: bool, ghost p: R.Pipe) returns (moves: bool)
      requires |p| == |v| && forall k :: 0 <= k < |v| ==> (p[k].None? <==> !v[k])
      requires i < |v|
      ensures moves == (ready || BubbleFrom(p, i))
    {
      moves := ready;
      for k := i to |v|
        invariant moves <==> ready || exists m :: i <= m < k && p[m].None?
      {
        moves := moves || !v[k];
      }
    }

    /** The word at the top and whether it is valid. */
    method Top() returns (isValid: bool, word: Beat)
      requires Valid()
      ensures isValid == R.Last(Stages()).Some? && (isValid ==> word == R.Last(Stages()).value)
    {
      var n := valid.Length;
      isValid, word := valid[n - 1], data[n - 1];
    }

    /** Entry i is that of the stage below where goes[i], else it stays. */
    static ghost function Shifted<T>(xs: seq<T>, goes: seq<bool>): (ys: seq<T>)
      requires |xs| == |goes|
      ensures |ys| == |xs|
    {
      seq(|xs|, i requires 0 <= i < |xs| => if i > 0 && goes[i] then xs[i - 1] else xs[i])
    }

    /** The stages above j are done; entry j still counts only if it stays. */
    static ghost predicate Partial<T>(xs: seq<T>, goes: seq<bool>, now: seq<T>, j: nat)
      requires |xs| == |goes|
    {
      && |now| == |xs| && j < |xs|
      && (forall i :: j < i < |xs| ==> now[i] == Shifted(xs, goes)[i])
      && (!goes[j] ==> now[j] == xs[j])
      && (forall i :: 0 <= i < j ==> now[i] == xs[i])
    }

    /** One turn of the loop; the entry below a moved one is cleared to any value. */
    static lemma PartialStep<T>(xs: seq<T>, goes: seq<bool>, now: seq<T>, j: nat, cleared: T)
      requires |xs| == |goes| && 0 < j < |xs| && Partial(xs, goes, now, j) && (goes[j] ==> goes[j - 1])
      ensures Partial(xs, goes, if goes[j] then now[j := xs[j - 1]][j - 1 := cleared] else now, j - 1)
    {
    }

    /** Stage j takes the word of the stage below, which becomes invalid. */
    method Move(j: nat, isValid: bool, word: Beat)
      requires Valid() && 0 < j < valid.Length
      modifies valid, data
      ensures Valid()
      ensures valid[..] == old(valid[..])[j := isValid][j - 1 := false]
      ensures data[..] == old(data[..])[j := word][j - 1 := old(data[j - 1])]
    {
      valid[j], data[j] := isValid, word;
      valid[j - 1] := false;
    }

    /** The loop over the stages, from the top down; stage 0 is left to the caller. */
    method Shift(ready: bool, ghost p: R.Pipe, ghost goes: seq<bool>)
      requires Valid() && p == Stages()
      requires |goes| == |p| && forall i :: 0 <= i < |p| ==> goes[i] == (ready || BubbleFrom(p, i))
      requires forall i :: 0 < i < |p| ==> (goes[i] ==> goes[i - 1])
      modifies valid, data
      ensures Valid()
      ensures Partial(old(valid[..]), goes, valid[..], 0)
      ensures Partial(old(data[..]), goes, data[..], 0)
    {
      var v, d, n := valid[..], data[..], valid.Length;
      if ready { valid[n - 1] := false; }
      var j := n - 1;
      while j > 0
        invariant 0 <= j < n
        invariant Partial(v, goes, valid[..], j)
        invariant Partial(d, goes, data[..], j)
      {
        var moves := Moves(v, j, ready, p);
        PartialStep(v, goes, valid[..], j, false);
        PartialStep(d, goes, data[..], j, data[j - 1]);
        if moves { Move(j, v[j - 1], d[j - 1]); }
        j := j - 1;
      }
    }

    /** One edge; moved tells whether stage 0 could take a word, load whether it is offered one. */
    method Clock(ready: bool, load: bool, word: Beat) returns (moved: bool)
      requires Valid()
      modifies valid, data
      ensures Valid()
      ensures moved == (ready || R.Bubble(old(Stages())))
      ensures Stages() == R.Advance(old(Stages()), ready, if moved && load then Some(word) else None)
    {
      ghost var p, v, d := Stages(), valid[..], data[..];
      ghost var goes := seq(|p|, i requires 0 <= i < |p| => ready || BubbleFrom(p, i));
      moved := Moves(valid[..], 0, ready, p);
      Shift(ready, p, goes);
      if moved {
        valid[0], data[0] := load, word;
      }
      ShiftedView(v, d, goes, valid[..], data[..], ready, if moved && load then Some(word) else None);
    }
  }

  lemma ShiftedView(v: seq<bool>, d: seq<Beat>, goes: seq<bool>, v': seq<bool>, d': seq<Beat>,
                    ready: bool, feed: Option<Beat>)
    requires |v| == |d| == |goes| == |v'| == |d'| > 0
    requires forall i :: 0 <= i < |v| ==> goes[i] == (ready || BubbleFrom(Pipeline.View(v, d), i))
    requires forall i :: 0 < i < |v| ==> v'[i] == Pipeline.Shifted(v, goes)[i]
    requires forall i :: 0 < i < |d| ==> d'[i] == Pipeline.Shifted(d, goes)[i]
    requires if goes[0] then feed == (if v'[0] then Some(d'[0]) else None) else v'[0] == v[0] && d'[0] == d[0]
    ensures Pipeline.View(v', d') == R.Advance(Pipeline.View(v, d), ready, feed)
  {
    var p := Pipeline.View(v, d);
    AdvanceStages(p, ready, feed);
    forall i | 0 <= i < |v| ensures Pipeline.View(v', d')[i] == Stage(p, ready, feed, i) {}
  }

  /** The output FIFO and the output register behind it. */
  class OutputFifo {
    const k: nat
    const mem: array<Beat>
    var wr: Word
    var rd: Word
    var halfFull: bool
    var outValid: bool
    var outWord: Beat
    ghost const Repr: set<object>
    ghost var pushed: seq<Beat>
    ghost var popped: nat

    ghost predicate Valid()
      reads this, Repr
    {
      && Repr == {this, mem}
      && k >= 1
      && mem.Length == Pow2(k)
      && popped <= |pushed| <= popped + Pow2(k)
      && wr == Enc(|pushed|, k + 1) && rd == Enc(popped, k + 1)
      && Holds(mem[..], popped, pushed)
    }

    ghost function Contents(): seq<Beat>
      requires Valid()
      reads Repr
    {
      pushed[popped..]
    }

    ghost function Out(): Option<Beat>
      reads this
    {
      if outValid then Some(outWord) else None
    }

    constructor (k: nat)
      requires k >= 1
      ensures Valid() && fresh(Repr)
      ensures this.k == k && Contents() == [] && !halfFull && Out() == None
    {
      var m := new Beat[Pow2(k)](i => BLANK);
      this.k, mem := k, m;
      wr, rd := Enc(0, k + 1), Enc(0, k + 1);
      halfFull, outValid, outWord := false, false, BLANK;
      pushed, popped := [], 0;
      Repr := {this, m};
    }

    /** Number of words held, as the difference of the wrapped pointers. */
    method Level() returns (n: nat)
      requires Valid()
      ensures n == |Contents()|
    {
      n := (Dec(wr) + Pow2(k + 1) - Dec(rd)) % Pow2(k + 1);
      DecEnc(|pushed|, k + 1);
      DecEnc(popped, k + 1);
      Ring.Distance(|pushed|, popped, Pow2(k + 1));
    }

    method Push(word: Beat)
      requires Valid() && |Contents()| < Pow2(k)
      modifies this`wr, this`pushed, mem
      ensures Valid() && pushed == old(pushed) + [word]
    {
      Address(|pushed|, k);
      HoldsStore(mem[..], popped, pushed, word);
      IncEnc(|pushed|, k + 1);
      var a := Dec(wr[..k]);
      ghost var was := mem[..];
      mem[a] := word;
      assert mem[..] == was[a := word];
      wr := Inc(wr);
      pushed := pushed + [word];
    }

    method Pop(word: Beat)
      requires Valid() && Contents() != [] && word == Contents()[0]
      modifies this`rd, this`popped, this`outValid, this`outWord
      ensures Valid() && popped == old(popped) + 1 && Out() == Some(word)
    {
      IncEnc(popped, k + 1);
      outWord, outValid := word, true;
      rd := Inc(rd);
      popped := popped + 1;
    }

    /** The wires computed from the registers before the edge. */
    method Wires() returns (level: nat, full: bool, empty: bool, next: Beat)
      requires Valid()
      ensures level == |Contents()| && full == (level == Pow2(k)) && empty == (Contents() == [])
      ensures !empty ==> next == Contents()[0]
    {
      level := Level();
      FullTest(|pushed|, popped, k);
      EncWindow(popped, |pushed|, k + 1);
      Address(popped, k);
      full, empty := wr == FlipTop(rd), wr == rd;
      next := mem[Dec(rd[..k])];
    }

    /** One edge: the pipeline's top word comes in, the output register is refilled. */
    method Clock(topValid: bool, top: Beat, ready: bool)
      requires Valid()
      modifies Repr
      ensures Valid()
      ensures var old_ := old(Contents());
        var pops := old_ != [] && (old(Out()).None? || ready);
        && Contents() == (if pops then old_[1..] else old_) + (if topValid && |old_| < Pow2(k) then [top] else [])
        && Out() == (if pops then Some(old_[0]) else if ready then None else old(Out()))
        && halfFull == (|old_| >= Pow2(k - 1))
    {
      hide Enc, Holds, FlipTop;
      ghost var held := Contents();
      var level, full, empty, next := Wires();
      var refill := !empty && (!outValid || ready);
      halfFull := level >= Pow2(k - 1);
      outValid := outValid && !ready;
      if !full && topValid { Push(top); }
      ghost var grown := held + (if !full && topValid then [top] else []);
      assert Contents() == grown;
      assert held != [] ==> grown[1..] == held[1..] + (if !full && topValid then [top] else []);
      if refill { Pop(next); }
    }
  }

  /** The read pointer, the RAM pipeline and the output FIFO together. */
  class ReadSide {
    const c: Config
    const pipe: Pipeline
    const out: OutputFifo
    var rdPtr: Word
    ghost const Repr: set<object>

    ghost predicate Valid()
      reads this, Repr
    {
      && pipe in Repr && out in Repr
      && Repr == {this} + pipe.Repr + out.Repr
      && this !in pipe.Repr && this !in out.Repr
      && pipe.Repr !! out.Repr
      && pipe.Valid() && out.Valid()
      && out.k == R.OutWidth(c)
    }

    /** The registers are those of r. */
    ghost predicate Reads(r: R.Read)
      reads this, Repr
    {
      && Valid()
      && rdPtr == Enc(r.rd, c.addrWidth + 1)
      && pipe.Stages() == r.pipe
      && (c.outputFifo ==> out.Contents() == r.fifo && out.Out() == r.out && out.halfFull == r.halfFull)
    }

    constructor (c: Config)
      ensures this.c == c && fresh(Repr)
      ensures Reads(R.Init(c))
    {
      var p := new Pipeline(c.ramPipeline);
      var o := new OutputFifo(R.OutWidth(c));
      this.c, pipe, out := c, p, o;
      rdPtr := Enc(0, c.addrWidth + 1);
      Repr := {this} + p.Repr + o.Repr;
    }

    /** The word offered on the output port. */
    method Output(ghost r: R.Read) returns (valid: bool, word: Beat)
      requires Reads(r)
      ensures r.pipe != []
      ensures valid == R.Offer(c, r).Some? && (valid ==> word == R.Offer(c, r).value)
    {
      if c.outputFifo {
        valid, word := out.outValid, out.outWord;
      } else {
        valid, word := pipe.Top();
      }
    }

    /** The pipeline and the read pointer. */
    method Fetch(load: bool, word: Beat, ready: bool, ghost r: R.Read, ghost log: seq<Beat>, ghost limit: nat)
      returns (took: bool)
      requires Reads(r) && limit <= |log|
      requires load == (r.rd < limit && (c.outputFifo ==> !r.halfFull)) && (load ==> word == log[r.rd])
      modifies this`rdPtr, pipe.valid, pipe.data
      ensures Valid()
      ensures took == R.Takes(c, r, limit, ready)
      ensures rdPtr == Enc(if took then r.rd + 1 else r.rd, c.addrWidth + 1)
      ensures pipe.Stages() == R.Advance(r.pipe, R.PipeReady(c, ready), if took then Some(log[r.rd]) else None)
    {
      var moved := pipe.Clock(c.outputFifo || ready, load, word);
      took := moved && load;
      if took {
        IncEnc(r.rd, c.addrWidth + 1);
        rdPtr := Inc(rdPtr);
      }
    }

    /** The whole clocked block of the read side; word is what the memory's read port shows. */
    method ReadLogic(empty: bool, word: Beat, ready: bool, ghost r: R.Read, ghost log: seq<Beat>, ghost limit: nat)
      returns (took: bool)
      requires Reads(r) && R.ReadInv(c, r, log, limit)
      requires empty == (r.rd == limit) && (!empty ==> word == log[r.rd])
      modifies Repr
      ensures took == R.Takes(c, r, limit, ready)
      ensures Reads(R.Step(c, r, log, limit, ready))
    {
      hide Enc, R.ReadInv, R.Advance, R.Bubble, R.Half, R.Capacity;
      R.Bounds(c, r, log, limit);
      var load := !empty && (c.outputFifo ==> !out.halfFull);
      var topValid, top := pipe.Top();
      took := Fetch(load, word, ready, r, log, limit);
      if c.outputFifo { Drain(topValid, top, ready, r); }
    }

    /** The output FIFO takes the word that was at the top before the edge. */
    method Drain(topValid: bool, top: Beat, ready: bool, ghost r: R.Read)
      requires Valid() && c.outputFifo && r.pipe != []
      requires out.Contents() == r.fifo && out.Out() == r.out
      requires topValid == R.Last(r.pipe).Some? && (topValid ==> top == R.Last(r.pipe).value)
      modifies out.Repr
      ensures Valid()
      ensures out.Contents() ==
        (if R.Pops(c, r, ready) then r.fifo[1..] else r.fifo) + (if R.Pushes(c, r) then OptSeq(R.Last(r.pipe)) else [])
      ensures out.Out() == if R.Pops(c, r, ready) then Some(r.fifo[0]) else if ready then None else r.out
      ensures out.halfFull == (|r.fifo| >= R.Half(c))
    {
      out.Clock(topValid, top, ready);
    }
  }
}
