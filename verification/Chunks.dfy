/**
 The burst splitter: an AXI burst of alen + 1 transfers becomes commands for
 chunks of 2^chunk transfers each.
 */
module Chunks {
  import opened Words
  import S = Streams

  /** step is the address increment of one chunk; addresses have addrWidth bits. */
  datatype Config = Config(chunk: nat, addrWidth: nat, step: nat)
  {
    /** The slice of the length that the counter takes has at least one bit. */
    predicate Valid() { chunk <= 3 }

    function Space(): nat { Pow2(addrWidth) }

    /** alen_i[7:CHUNK] */
    function Chunks(alen: nat): nat {
      QuotientIsNat(alen, Pow2(chunk));
      alen / Pow2(chunk)
    }

    /** alen_i[CSB:CHUNK]: without the top bits of the length. */
    function Slice(alen: nat): nat
      requires Valid()
    {
      Chunks(alen) % Pow2(8 - 2 * chunk)
    }

    /** How many commands the splitter issues for a burst. */
    function Length(alen: nat): nat
      requires Valid()
    {
      if Chunks(alen) == 0 then 1 else if Slice(alen) == 0 then 2 else 1 + Slice(alen)
    }
  }

  datatype Request = Request(alen: nat, id: nat, addr: nat)
  {
    predicate Valid(c: Config) { alen < 256 && addr < c.Space() }
  }

  /** more is xseq_o: further commands of the same burst follow. */
  datatype Command = Command(more: bool, id: nat, addr: nat)

  datatype State = State(busy: bool, id: nat, addr: nat, count: nat)

  datatype Input = Input(valid: bool, request: Request, ready: bool)

  function Next(count: nat): nat { if count > 0 then count - 1 else count }

  predicate Accepts(s: State, i: Input) { !s.busy && i.valid && i.ready }

  /** A command is transferred on this edge. */
  predicate Issues(s: State, i: Input) { i.ready && (s.busy || i.valid) }

  function Issued(c: Config, s: State, i: Input): Command {
    Command((!s.busy && i.valid && i.ready && c.Chunks(i.request.alen) != 0) || Next(s.count) > 0,
            if s.busy then s.id else i.request.id,
            if s.busy then s.addr else i.request.addr)
  }

  function Step(c: Config, s: State, i: Input): State
    requires c.Valid()
  {
    if Accepts(s, i) then
      State(c.Chunks(i.request.alen) != 0, i.request.id, (i.request.addr + c.step) % c.Space(), c.Slice(i.request.alen))
    else if s.busy && i.ready then
      State(Next(s.count) > 0, s.id, (s.addr + c.step) % c.Space(), Next(s.count))
    else s
  }

  // ------------------------------------------------------------------ runs

  datatype Run = Run(s: State, requests: seq<Request>, commands: seq<Command>)

  /** After reset; identifier and address hold anything. */
  predicate Reset(s: State) { !s.busy && s.count == 0 }

  function RunStep(c: Config, r: Run, i: Input): Run
    requires c.Valid()
  {
    Run(Step(c, r.s, i),
        if Accepts(r.s, i) then r.requests + [i.request] else r.requests,
        if Issues(r.s, i) then r.commands + [Issued(c, r.s, i)] else r.commands)
  }

  /** n commands at ascending addresses, wrapping around; all but the last announce more. */
  function Burst(c: Config, id: nat, addr: nat, n: nat): (cs: seq<Command>)
    ensures |cs| == n
  {
    seq(n, i requires 0 <= i < n => Command(i < n - 1, id, (addr + i * c.step) % c.Space()))
  }

  function Expected(c: Config, q: Request): seq<Command>
    requires c.Valid()
  {
    Burst(c, q.id, q.addr, c.Length(q.alen))
  }

  function AllExpected(c: Config, qs: seq<Request>): seq<Command>
    requires c.Valid()
  {
    if qs == [] then [] else AllExpected(c, qs[..|qs| - 1]) + Expected(c, qs[|qs| - 1])
  }

  /** The commands still to come of the burst in progress. */
  function Remaining(c: Config, s: State): seq<Command> {
    if s.busy then Burst(c, s.id, s.addr, if s.count == 0 then 1 else s.count) else []
  }

  ghost predicate Inv(c: Config, r: Run) {
    && c.Valid()
    && (!r.s.busy ==> r.s.count == 0)
    && (r.s.busy ==> r.s.addr < c.Space())
    && r.commands + Remaining(c, r.s) == AllExpected(c, r.requests)
  }

  lemma QuotientIsNat(n: nat, d: nat)
    requires d > 0
    ensures n / d >= 0
  {
    var q := n / d;
    assert n == q * d + n % d;
    assert -q * d == -(q * d);
    if q < 0 { MulGe(-q, d); assert false; }
  }

  lemma Distribute(a: nat, b: nat, p: nat)
    ensures (a + b) * p == a * p + b * p
  {
  }

  lemma ModAdd(x: nat, y: nat, p: nat)
    requires p > 0
    ensures (x % p + y) % p == (x + y) % p
  {
    var q, r := x / p, x % p;
    var q', r' := (r + y) / p, (r + y) % p;
    assert x == q * p + r && r + y == q' * p + r';
    Distribute(q, q', p);
    ModUnique(x + y, p, q + q', r');
  }

  /** A burst is its first command and the burst from the next address. */
  lemma BurstHead(c: Config, id: nat, addr: nat, n: nat)
    requires addr < c.Space() && n > 0
    ensures Burst(c, id, addr, n) == [Command(n > 1, id, addr)] + Burst(c, id, (addr + c.step) % c.Space(), n - 1)
  {
    var p := c.Space();
    ModUnique(addr, p, 0, addr);
    forall i | 1 <= i < n
      ensures ((addr + c.step) % p + (i - 1) * c.step) % p == (addr + i * c.step) % p
    {
      ModAdd(addr + c.step, (i - 1) * c.step, p);
      assert c.step + (i - 1) * c.step == i * c.step;
    }
  }

  /** The commands after one that is issued, and those that remain. */
  lemma Continues(c: Config, r: Run, i: Input, before: seq<Command>)
    requires c.Valid() && Issues(r.s, i)
    requires before == [Issued(c, r.s, i)] + Remaining(c, Step(c, r.s, i))
    ensures var r' := RunStep(c, r, i); r'.commands + Remaining(c, r'.s) == r.commands + before
  {
    hide Burst, Step, Issued, Remaining;
    S.Assoc(r.commands, [Issued(c, r.s, i)], Remaining(c, Step(c, r.s, i)));
  }

  lemma AcceptBurst(c: Config, s: State, i: Input)
    requires c.Valid() && i.request.Valid(c) && Accepts(s, i) && s.count == 0
    ensures Expected(c, i.request) == [Issued(c, s, i)] + Remaining(c, Step(c, s, i))
  {
    hide Burst;
    var q, s' := i.request, Step(c, s, i);
    BurstHead(c, q.id, q.addr, c.Length(q.alen));
    NoBurst(c, q.id, s'.addr);
  }

  lemma RemainingBurst(c: Config, s: State, i: Input)
    requires c.Valid() && s.busy && i.ready && s.addr < c.Space()
    ensures Remaining(c, s) == [Issued(c, s, i)] + Remaining(c, Step(c, s, i))
  {
    hide Burst;
    BurstHead(c, s.id, s.addr, if s.count == 0 then 1 else s.count);
    NoBurst(c, s.id, Step(c, s, i).addr);
  }

  lemma NoBurst(c: Config, id: nat, addr: nat)
    ensures Burst(c, id, addr, 0) == []
  {
  }

  lemma StateKept(c: Config, s: State, i: Input)
    requires c.Valid() && (!s.busy ==> s.count == 0) && (s.busy ==> s.addr < c.Space())
    ensures var s' := Step(c, s, i); (!s'.busy ==> s'.count == 0) && (s'.busy ==> s'.addr < c.Space())
  {
  }

  lemma AcceptStep(c: Config, r: Run, i: Input)
    requires Inv(c, r) && i.request.Valid(c) && Accepts(r.s, i)
    ensures Inv(c, RunStep(c, r, i))
  {
    hide Burst, Step, Issued, Expected;
    assert (r.requests + [i.request])[..|r.requests|] == r.requests;
    assert r.commands == AllExpected(c, r.requests);
    StateKept(c, r.s, i);
    AcceptBurst(c, r.s, i);
    Continues(c, r, i, Expected(c, i.request));
  }

  lemma ContinueStep(c: Config, r: Run, i: Input)
    requires Inv(c, r) && r.s.busy && i.ready
    ensures Inv(c, RunStep(c, r, i))
  {
    hide Burst, Step, Issued, Remaining, AllExpected;
    StateKept(c, r.s, i);
    RemainingBurst(c, r.s, i);
    Continues(c, r, i, Remaining(c, r.s));
  }

  predicate Fitting(c: Config, ins: seq<Input>) {
    forall k :: 0 <= k < |ins| ==> ins[k].request.Valid(c)
  }

  function Execute(c: Config, s: State, ins: seq<Input>): Run
    requires c.Valid()
  {
    if ins == [] then Run(s, [], []) else RunStep(c, Execute(c, s, ins[..|ins| - 1]), ins[|ins| - 1])
  }

  lemma {:induction false} RunInv(c: Config, s: State, ins: seq<Input>)
    requires c.Valid() && Reset(s) && Fitting(c, ins)
    ensures Inv(c, Execute(c, s, ins))
  {
    if ins != [] {
      var r, i := Execute(c, s, ins[..|ins| - 1]), ins[|ins| - 1];
      RunInv(c, s, ins[..|ins| - 1]);
      if Accepts(r.s, i) { AcceptStep(c, r, i); } else if r.s.busy && i.ready { ContinueStep(c, r, i); }
    }
  }

  /**
   For any requests and any ready pattern: the commands issued, and those of
   the burst in progress, are request after request its commands, with its
   identifier, ascending addresses, and xseq low on the last one alone.
   */
  lemma Splits(c: Config, s: State, ins: seq<Input>)
    requires c.Valid() && Reset(s) && Fitting(c, ins)
    ensures var r := Execute(c, s, ins);
      && r.commands + Remaining(c, r.s) == AllExpected(c, r.requests)
      && r.commands <= AllExpected(c, r.requests)
      && |Remaining(c, r.s)| < Pow2(8 - 2 * c.chunk)
  {
    RunInv(c, s, ins);
    CountFits(c, s, ins);
    Pow2Least(c);
  }

  // ---------------------------------------------------------------- progress

  /** An edge at which the other side is ready issues the next command of the burst in progress. */
  lemma ReadyEdge(c: Config, s: State, i: Input)
    requires c.Valid() && i.ready && (s.busy ==> s.addr < c.Space())
    ensures s.busy ==> |Remaining(c, Step(c, s, i))| == |Remaining(c, s)| - 1
    ensures !s.busy && !i.valid ==> Step(c, s, i) == s
  {
    hide Burst;
    if s.busy { RemainingBurst(c, s, i); }
  }

  lemma {:induction false} Works(c: Config, s: State, ins: seq<Input>, more: seq<Input>)
    requires c.Valid() && Reset(s) && Fitting(c, ins + more) && forall i :: i in more ==> i.ready
    ensures var r, r' := Execute(c, s, ins), Execute(c, s, ins + more);
      && r.requests <= r'.requests
      && (|r'.requests| > |r.requests| || !r'.s.busy || |Remaining(c, r'.s)| + |more| <= |Remaining(c, r.s)|)
      && ((forall i :: i in more ==> i.valid) && |r'.requests| == |r.requests| ==>
           |Remaining(c, r'.s)| + |more| <= |Remaining(c, r.s)|)
      && ((forall i :: i in more ==> !i.valid) ==> r'.requests == r.requests)
  {
    hide Burst, Remaining;
    if more == [] {
      assert ins + more == ins;
    } else {
      var k := |more| - 1;
      var front, i := more[..k], more[k];
      assert (ins + more)[..|ins + more| - 1] == ins + front;
      assert i in more && more == front + [i];
      Works(c, s, ins, front);
      RunInv(c, s, ins + front);
      ReadyEdge(c, Execute(c, s, ins + front).s, i);
    }
  }

  /** A request that is offered is taken once the burst in progress has been issued. */
  lemma RequestTaken(c: Config, s: State, ins: seq<Input>, more: seq<Input>)
    requires c.Valid() && Reset(s) && Fitting(c, ins + more) && forall i :: i in more ==> i.ready && i.valid
    requires |more| > |Remaining(c, Execute(c, s, ins).s)|
    ensures |Execute(c, s, ins + more).requests| > |Execute(c, s, ins).requests|
  {
    Works(c, s, ins, more);
  }

  /** Without a request the burst in progress is completed: then all commands of all requests are out. */
  lemma AllIssued(c: Config, s: State, ins: seq<Input>, more: seq<Input>)
    requires c.Valid() && Reset(s) && Fitting(c, ins + more) && forall i :: i in more ==> i.ready && !i.valid
    requires |more| >= |Remaining(c, Execute(c, s, ins).s)|
    ensures var r, r' := Execute(c, s, ins), Execute(c, s, ins + more);
      r'.commands == AllExpected(c, r.requests) && r'.requests == r.requests
  {
    Works(c, s, ins, more);
    RunInv(c, s, ins + more);
  }

  lemma Pow2Least(c: Config)
    requires c.Valid()
    ensures Pow2(8 - 2 * c.chunk) >= 4
  {
    assert Pow2(8 - 2 * c.chunk) == 2 * Pow2(7 - 2 * c.chunk);
    assert Pow2(7 - 2 * c.chunk) == 2 * Pow2(6 - 2 * c.chunk);
  }

  lemma {:induction false} CountFits(c: Config, s: State, ins: seq<Input>)
    requires c.Valid() && Reset(s) && Fitting(c, ins)
    ensures Execute(c, s, ins).s.count < Pow2(8 - 2 * c.chunk)
  {
    if ins != [] { CountFits(c, s, ins[..|ins| - 1]); }
  }

  /**
   A burst gets one command per chunk exactly when its length has none of the
   top bits that the counter leaves out.
   */
  lemma LengthExact(c: Config, alen: nat)
    requires c.Valid() && alen < 256
    ensures c.Length(alen) == alen / Pow2(c.chunk) + 1 <==> alen < Pow2(8 - c.chunk)
  {
    var p, w := Pow2(c.chunk), Pow2(8 - 2 * c.chunk);
    PowAdd(c.chunk, 8 - 2 * c.chunk);
    Pow2Least(c);
    QuotientLess(alen, p, w);
    if alen < p * w { ModUnique(alen / p, w, 0, alen / p); }
  }

  lemma QuotientLess(n: nat, p: nat, w: nat)
    requires p > 0
    ensures n / p < w <==> n < p * w
  {
    var q := n / p;
    if q < w {
      MulLe(q + 1, w, p);
      assert (q + 1) * p == q * p + p > n;
    } else {
      MulLe(w, q, p);
      assert q * p <= n;
    }
  }

  lemma MulLe(a: nat, b: nat, p: nat)
    requires a <= b
    ensures a * p <= b * p
  {
    assert b * p == a * p + (b - a) * p;
  }

  lemma {:induction false} PowAdd(a: nat, b: nat)
    ensures Pow2(a) * Pow2(b) == Pow2(a + b)
  {
    if a > 0 {
      PowAdd(a - 1, b);
      DoubleProduct(Pow2(a - 1), Pow2(b));
    }
  }

  /** With chunks of four, 65 transfers need 17 commands; the splitter issues two. */
  lemma LongBurstCutShort(width: nat, step: nat)
    ensures var c := Config(2, width, step);
      c.Length(64) == 2 && 64 / Pow2(2) + 1 == 17
  {
    assert Pow2(2) == 4 && Pow2(4) == 16;
  }

  // -------------------------------------------------------------- registers

  class Splitter {
    const c: Config
    var busyQ: bool
    var tridQ: nat
    var addrQ: nat
    var count: nat

    function Registers(): State
      reads this
    {
      State(busyQ, tridQ, addrQ, count)
    }

    constructor (c: Config, trid: nat, addr: nat)
      ensures this.c == c && Reset(Registers())
    {
      this.c, busyQ, tridQ, addrQ, count := c, false, trid, addr, 0;
    }

    /** One clock edge: the outputs before it, then the registers. */
    method Clock(avalid: bool, q: Request, xready: bool) returns (aready: bool, xvalid: bool, command: Command)
      requires c.Valid()
      modifies this
      ensures var i := Input(avalid, q, xready);
        && Registers() == Step(c, old(Registers()), i)
        && ((aready && avalid) <==> Accepts(old(Registers()), i))
        && ((xvalid && xready) <==> Issues(old(Registers()), i))
        && command == Issued(c, old(Registers()), i)
        && (old(busyQ) ==> xvalid)
    {
      var cnext := if count > 0 then count - 1 else count;
      var chunks := q.alen / Pow2(c.chunk);
      aready := !busyQ && xready;
      xvalid := (avalid && xready) || busyQ;
      command := Command((!busyQ && avalid && xready && chunks != 0) || cnext > 0,
                         if busyQ then tridQ else q.id, if busyQ then addrQ else q.addr);
      if !busyQ && avalid && xready {
        busyQ := chunks != 0;
        tridQ := q.id;
        addrQ := (q.addr + c.step) % Pow2(c.addrWidth);
        count := chunks % Pow2(8 - 2 * c.chunk);
      } else if busyQ && xready {
        busyQ := cnext > 0;
        addrQ := (addrQ + c.step) % Pow2(c.addrWidth);
        count := cnext;
      }
    }
  }
}
