/**
 Bulk IN with a link that plays by the rules: after some delay it holds each
 byte of a data packet on the bus until nxt, then raises stp for one cycle.
 */
module LinkReply {
  import opened Crc16
  import opened Ulpi
  import opened UlpiBus
  import I = InTransaction
  import H = UsbHost

  /** pos counts the packet's bytes that were taken, plus one once stp was shown. */
  datatype Device = Device(delay: nat, packet: seq<Byte>, pos: nat)

  function Signals(d: Device): Link {
    if d.delay > 0 || d.pos > |d.packet| then QUIET
    else if d.pos == |d.packet| then Link(true, 0, 0)
    else Link(false, d.packet[d.pos], 0)
  }

  function Advance(d: Device, i: Bus): Device {
    if d.delay > 0 then d.(delay := d.delay - 1)
    else if d.pos < |d.packet| then if !i.dir && i.nxt then d.(pos := d.pos + 1) else d
    else if d.pos == |d.packet| then d.(pos := d.pos + 1)
    else d
  }

  /** Host and link; calls counts the calls, stalls those in which reception was throttled while not moving. */
  datatype Loop = Loop(h: H.Host, bus: Bus, code: Code, d: Device, calls: nat, stalls: nat)

  function Step(l: Loop, wait: bool): (l': Loop)
    requires Sound(l.h.x)
    ensures Sound(l'.h.x)
  {
    if l.code != More then l
    else
      var token := l.h.x.kind == In;
      var i := Seen(l.bus, if token then QUIET else Signals(l.d));
      var s := H.Step(l.h, wait, i);
      Loop(s.h, s.out, s.code, if token then l.d else Advance(l.d, i), l.calls + 1,
           if wait && Receiving(l.h.x.kind) && l.h.x.stage == DataBody && !i.nxt then l.stalls + 1 else l.stalls)
  }

  function Start(h: H.Host, d: Device): Loop {
    Loop(h, Bus(false, false, false, 0, 0), More, d, 0, 0)
  }

  function Execute(h: H.Host, d: Device, waits: seq<bool>): (l: Loop)
    requires Sound(h.x)
    ensures Sound(l.h.x)
  {
    if waits == [] then Start(h, d) else Step(Execute(h, d, waits[..|waits| - 1]), waits[|waits| - 1])
  }

  /** The link answers with the expected identifier and some bytes, or none. */
  predicate Answers(h: H.Host, d: Device, bytes: seq<Byte>) {
    && I.Ready(h)
    && d.pos == 0
    && d.packet == [I.ExpectedPid(h.x.epSeq[h.x.endpoint])] + bytes
  }

  /** Nothing follows the identifier. */
  predicate Bare(d: Device) { |d.packet| == 1 }

  /**
   Its first byte comes in time. Without one the time-out stays armed until the
   packet has been ended.
   */
  predicate Prompt(h: H.Host, d: Device) {
    d.delay <= (if Bare(d) then 32 else 36) && h.cycle + 49 < 0x1_0000_0000
  }

  /** The bytes fit the receive buffer, and the receiver's check accepts them there. */
  predicate Passes(h: H.Host, bytes: seq<Byte>) {
    2 <= |h.x.rx| && |bytes| <= |h.x.rx| && CheckRx(bytes + h.x.rx[|bytes|..], |bytes|)
  }

  predicate Proper(h: H.Host, d: Device, bytes: seq<Byte>) {
    Answers(h, d, bytes) && Prompt(h, d) && Passes(h, bytes)
  }

  /** Calls that make progress, still needed. */
  function Left(l: Loop): nat
    requires Sound(l.h.x)
  {
    var x := l.h.x;
    var n := if |l.d.packet| > 0 then |l.d.packet| - 1 else 0;
    if l.code != More then 0
    else match x.kind
      case In => TokenLeft(x.stage) + l.d.delay + 2 * n + 15
      case DnAck => AckLeft(x.stage)
      case _ =>
        match x.stage
        case NoXfer => l.d.delay + 2 * n + 15
        case DataPid => 2 * n + 13 + 1
        case DataBody => if x.rxPtr < n then 2 * (n - x.rxPtr) + (if l.bus.nxt then 0 else 1) + 12 else 12
        case _ => EopLeft(x.stage) + 7
  }

  function AckLeft(stage: Stage): nat {
    match stage
    case NoXfer => 7
    case AssertDir => 6
    case InitRxCmd => 5
    case _ => EopLeft(stage)
  }

  /** The first data byte, or the end of a packet without any, will still be in time. */
  predicate InTime(l: Loop) {
    var x, now, end := l.h.x, l.h.cycle, if Bare(l.d) then 4 else 0;
    match x.stage
    case NoXfer => now + l.d.delay + 3 + end < x.cycle
    case DataPid => now + 2 + end < x.cycle
    case DataBody => x.rxPtr > 0 || (l.bus.nxt && !Bare(l.d)) || now + 1 + end < x.cycle
    case _ => Bare(l.d) ==> now + EopLeft(x.stage) < x.cycle
  }

  /** The receive buffer holds the first bytes of the packet, and its old content behind them. */
  ghost predicate Received(x: Xfer, bytes: seq<Byte>, rx0: seq<Byte>) {
    && x.rxPtr <= |bytes| && x.rxPtr <= |x.rx| == |rx0|
    && x.rx == bytes[..x.rxPtr] + rx0[x.rxPtr..]
  }

  /** While the packet's identifier and bytes are on their way. */
  ghost predicate Arriving(l: Loop, toggle: bool, bytes: seq<Byte>, rx0: seq<Byte>) {
    var x, d := l.h.x, l.d;
    && x.kind == (if toggle then UpData1 else UpData0)
    && I.FitsIn(x.stage, l.bus)
    && d.packet == [I.ExpectedPid(toggle)] + bytes
    && Received(x, bytes, rx0)
    && (x.stage != NoXfer ==> d.delay == 0)
    && match x.stage
       case NoXfer => x.rxPtr == 0 && d.pos == 0
       case DataPid => x.rxPtr == 0 && d.pos == 0 && l.bus.nxt
       case DataBody => d.pos == 1 + x.rxPtr
       case _ => false
  }

  /** The length without the CRC, and the CRC of a packet that has one and data, are in the transfer. */
  predicate Noted(x: Xfer, bytes: seq<Byte>) {
    && x.rxLen == |bytes| - 2
    && (|bytes| > 2 ==> x.crc1 == bytes[|bytes| - 2] && x.crc2 == bytes[|bytes| - 1])
  }

  /** All of it has arrived, and the link is quiet again. */
  ghost predicate Arrived(l: Loop, bytes: seq<Byte>, rx0: seq<Byte>) {
    && Received(l.h.x, bytes, rx0) && l.h.x.rxPtr == |bytes| && Noted(l.h.x, bytes)
    && l.d.pos > |l.d.packet|
    && l.d.delay == 0
  }

  /** The packet is being received, in time, or has been received and is being ended. */
  ghost predicate Receives(l: Loop, toggle: bool, bytes: seq<Byte>, rx0: seq<Byte>) {
    var x := l.h.x;
    if EopLeft(x.stage) > 0 then
      && x.kind == (if toggle then UpData1 else UpData0)
      && x.stage in {DataStop, EndRxCmd, Eop, LineIdle} && Fits(x.stage, l.bus)
      && Arrived(l, bytes, rx0) && InTime(l)
    else Arriving(l, toggle, bytes, rx0) && InTime(l)
  }

  ghost predicate Inv(h0: H.Host, d0: Device, bytes: seq<Byte>, l: Loop)
    requires Proper(h0, d0, bytes)
  {
    var x0, x := h0.x, l.h.x;
    var toggle := x0.epSeq[x0.endpoint];
    && Sound(x) && l.h.op == h0.op && x.endpoint == x0.endpoint && l.d.packet == d0.packet
    && x.epSeq == (if l.code == Done then Flip(x0.epSeq, x0.endpoint) else x0.epSeq)
    && l.calls + Left(l) <= 2 * |bytes| + d0.delay + 24 + l.stalls
    && if l.code == More then
         if x.kind == In then
           TokenLeft(x.stage) > 0 && Fits(x.stage, l.bus) && x == x0.(stage := x.stage) && l.d == d0
           && l.h.cycle + TokenLeft(x.stage) == h0.cycle + 9
         else if Receiving(x.kind) then Receives(l, toggle, bytes, x0.rx)
         else
           x.kind == DnAck && AckLeft(x.stage) > 0 && Fits(x.stage, l.bus) && Arrived(l, bytes, x0.rx)
           && (x.stage == AssertDir ==> l.bus.nxt)
       else l.code == Done && x.kind == Idle && Arrived(l, bytes, x0.rx)
  }

  lemma TokenStep(h0: H.Host, d0: Device, bytes: seq<Byte>, l: Loop, wait: bool)
    requires Proper(h0, d0, bytes) && Inv(h0, d0, bytes, l) && l.code == More && l.h.x.kind == In
    ensures Inv(h0, d0, bytes, Step(l, wait))
  {
    hide Fits, TokenLeft, TokenRest, H.BulkOut, DataRecv, AckSend, H.Ignore, TokenSend, Seen, Driven, Checks;
    TokenCall(l.h.x, l.bus, QUIET);
    H.TokenSound(l.h.x, Seen(l.bus, QUIET));
  }

  lemma HeadStep(h0: H.Host, d0: Device, bytes: seq<Byte>, l: Loop, wait: bool)
    requires Proper(h0, d0, bytes) && Inv(h0, d0, bytes, l) && l.code == More
    requires Receiving(l.h.x.kind) && l.h.x.stage in {NoXfer, DataPid}
    ensures Inv(h0, d0, bytes, Step(l, wait))
  {
    hide H.BulkOut, TokenSend, AckSend, H.Ignore, CheckRx, Crc, Low, High, Checks, TokenLeft, Collect, DriveEop;
  }

  lemma ByteStep(h0: H.Host, d0: Device, bytes: seq<Byte>, l: Loop, wait: bool)
    requires Proper(h0, d0, bytes) && Inv(h0, d0, bytes, l) && l.code == More
    requires Receiving(l.h.x.kind) && l.h.x.stage == DataBody && l.h.x.rxPtr < |bytes|
    ensures Inv(h0, d0, bytes, Step(l, wait))
  {
    hide H.BulkOut, TokenSend, AckSend, H.Ignore, CheckRx, Crc, Low, High, Checks, TokenLeft, DriveEop;
    OneMore(l.h.x, bytes, h0.x.rx);
  }

  lemma StopStep(h0: H.Host, d0: Device, bytes: seq<Byte>, l: Loop, wait: bool)
    requires Proper(h0, d0, bytes) && Inv(h0, d0, bytes, l) && l.code == More
    requires Receiving(l.h.x.kind) && l.h.x.stage == DataBody && l.h.x.rxPtr == |bytes|
    ensures Inv(h0, d0, bytes, Step(l, wait))
  {
    hide H.BulkOut, TokenSend, AckSend, H.Ignore, CheckRx, Crc, Low, High, Checks, TokenLeft, DriveEop;
    assert bytes[..|bytes|] == bytes;
    StopNotes(l.h.x, Seen(l.bus, Signals(l.d)), bytes);
  }

  lemma StopNotes(x: Xfer, i: Bus, bytes: seq<Byte>)
    requires Sound(x) && x.rxPtr == |bytes| && x.rx[..|bytes|] == bytes && i.stp && CheckRx(x.rx, x.rxPtr)
    ensures Noted(Collect(x, i).x, bytes)
  {
    hide Crc, Low, High;
    if |bytes| > 2 { assert x.rx[|bytes| - 2] == bytes[|bytes| - 2] && x.rx[|bytes| - 1] == bytes[|bytes| - 1]; }
  }

  lemma OneMore(x: Xfer, bytes: seq<Byte>, rx0: seq<Byte>)
    requires Received(x, bytes, rx0) && x.rxPtr < |bytes| && x.rxPtr < |x.rx|
    ensures x.rx[x.rxPtr := bytes[x.rxPtr]] == bytes[..x.rxPtr + 1] + rx0[x.rxPtr + 1..]
  {
  }

  lemma EndStep(h0: H.Host, d0: Device, bytes: seq<Byte>, l: Loop, wait: bool)
    requires Proper(h0, d0, bytes) && Inv(h0, d0, bytes, l) && l.code == More
    requires Receiving(l.h.x.kind) && EopLeft(l.h.x.stage) > 0
    ensures Inv(h0, d0, bytes, Step(l, wait))
  {
    hide H.BulkOut, TokenSend, AckSend, H.Ignore, CheckRx, Crc, Low, High, Checks, TokenLeft, Collect,
         DriveEop, Driven;
    EopCall(l.h.x, l.bus, QUIET);
  }

  lemma AckStep(h0: H.Host, d0: Device, bytes: seq<Byte>, l: Loop, wait: bool)
    requires Proper(h0, d0, bytes) && Inv(h0, d0, bytes, l) && l.code == More && l.h.x.kind == DnAck
    ensures Inv(h0, d0, bytes, Step(l, wait))
  {
    hide H.BulkOut, TokenSend, DataRecv, H.Ignore, CheckRx, Crc, Low, High, Checks, TokenLeft;
  }

  lemma AnyStep(h0: H.Host, d0: Device, bytes: seq<Byte>, l: Loop, wait: bool)
    requires Proper(h0, d0, bytes) && Inv(h0, d0, bytes, l)
    ensures Inv(h0, d0, bytes, Step(l, wait))
  {
    hide H.Step, TokenLeft, Checks, Proper, I.FitsIn;
    var x := l.h.x;
    if l.code == More {
      if x.kind == In { TokenStep(h0, d0, bytes, l, wait); }
      else if x.kind == DnAck { AckStep(h0, d0, bytes, l, wait); }
      else if x.stage == NoXfer || x.stage == DataPid { HeadStep(h0, d0, bytes, l, wait); }
      else if x.stage != DataBody { EndStep(h0, d0, bytes, l, wait); }
      else if x.rxPtr < |bytes| { ByteStep(h0, d0, bytes, l, wait); }
      else { StopStep(h0, d0, bytes, l, wait); }
    }
  }

  lemma Begins(h0: H.Host, d0: Device, bytes: seq<Byte>)
    requires Proper(h0, d0, bytes)
    ensures Inv(h0, d0, bytes, Start(h0, d0))
  {
    hide Checks;
  }

  lemma {:induction false} RunInv(h0: H.Host, d0: Device, bytes: seq<Byte>, waits: seq<bool>)
    requires Proper(h0, d0, bytes)
    ensures Inv(h0, d0, bytes, Execute(h0, d0, waits))
    ensures var l := Execute(h0, d0, waits); l.code == More ==> l.calls == |waits|
  {
    hide Inv, H.Step;
    if waits == [] {
      Begins(h0, d0, bytes);
    } else {
      var k := |waits| - 1;
      RunInv(h0, d0, bytes, waits[..k]);
      AnyStep(h0, d0, bytes, Execute(h0, d0, waits[..k]), waits[k]);
    }
  }

  lemma Outcome(h0: H.Host, d0: Device, bytes: seq<Byte>, l: Loop)
    requires Proper(h0, d0, bytes) && Inv(h0, d0, bytes, l)
    ensures l.code == More || l.code == Done
    ensures l.code == More ==> l.calls < 2 * |bytes| + d0.delay + 24 + l.stalls
    ensures Receiving(l.h.x.kind) && l.h.x.stage == DataBody ==>
      l.h.x.rxPtr <= |bytes| && l.h.x.rx[..l.h.x.rxPtr] == bytes[..l.h.x.rxPtr]
  {
    hide Checks, TokenLeft, Fits;
  }

  /** The packet was received and acknowledged, its length and CRC noted, and the toggle flipped. */
  predicate Succeeds(h0: H.Host, bytes: seq<Byte>, l: Loop)
    requires Sound(h0.x)
  {
    && l.code == Done
    && l.h.x.rxPtr == |bytes| <= |l.h.x.rx| && l.h.x.rx[..l.h.x.rxPtr] == bytes
    && Noted(l.h.x, bytes)
    && l.h.x.epSeq == Flip(h0.x.epSeq, h0.x.endpoint)
  }

  /**
   With a proper link the transaction succeeds, however reception is
   throttled: at every moment the receive buffer holds the first bytes of the
   packet in order; no error occurs; and all but the stalled calls count
   towards a bound.
   */
  lemma Completes(h0: H.Host, d0: Device, bytes: seq<Byte>, waits: seq<bool>)
    requires Proper(h0, d0, bytes)
    ensures var l := Execute(h0, d0, waits);
      var x := l.h.x;
      && (l.code == More || Succeeds(h0, bytes, l))
      && (Receiving(x.kind) && x.stage == DataBody ==>
           x.rxPtr <= |bytes| && x.rx[..x.rxPtr] == bytes[..x.rxPtr])
      && (l.code == More ==> x.epSeq == h0.x.epSeq)
      && (|waits| >= 2 * |bytes| + d0.delay + 24 + l.stalls ==> l.code == Done)
  {
    hide Checks, TokenLeft, H.Step, Receives, Left;
    var l := Execute(h0, d0, waits);
    RunInv(h0, d0, bytes, waits);
    Outcome(h0, d0, bytes, l);
    assert bytes[..|bytes|] == bytes;
  }

  /** After a throttled call of reception the next one takes no byte. */
  lemma Throttled(l: Loop, wait: bool)
    requires Sound(l.h.x) && l.code == More && l.h.op.BulkIN? && Receiving(l.h.x.kind) && l.h.x.stage == DataBody
    ensures var m := Step(l, true);
      m.code == More && Receiving(m.h.x.kind) && m.h.x.stage == DataBody && m.h.x.rxPtr > 0 ==>
        !m.bus.nxt && Step(m, wait).h.x.rxPtr == m.h.x.rxPtr
  {
    hide H.BulkOut, TokenSend, AckSend, H.Ignore, CheckRx, Crc, Low, High, DriveEop;
  }

  // ------------------------------------------------------ links that are not

  /** Nothing was received, and the first byte will not come before the deadline. */
  predicate TooLate(l: Loop) { l.h.x.rxPtr == 0 && !InTime(l) }

  /** What stands in the way of success. */
  predicate Doomed(h0: H.Host, bytes: seq<Byte>, l: Loop) { TooLate(l) || !Passes(h0, bytes) }

  /** A packet without a byte is being ended, but not before the deadline. */
  predicate EndsTooLate(l: Loop) {
    && l.h.x.stage in {DataStop, EndRxCmd, Eop, LineIdle} && Fits(l.h.x.stage, l.bus)
    && Bare(l.d) && l.d.delay == 0 && l.d.pos > |l.d.packet| && TooLate(l)
  }

  /** The transaction has not acknowledged anything, and will not. */
  ghost predicate Lost(h0: H.Host, d0: Device, bytes: seq<Byte>, l: Loop)
    requires Answers(h0, d0, bytes)
  {
    var x0, x := h0.x, l.h.x;
    && Sound(x) && l.h.op == h0.op && x.endpoint == x0.endpoint && x.epSeq == x0.epSeq
    && (l.code == More ==>
         if x.kind == In then
           TokenLeft(x.stage) > 0 && Fits(x.stage, l.bus) && x == x0.(stage := x.stage) && l.d == d0
           && l.h.cycle + TokenLeft(x.stage) == h0.cycle + 9
         else if Receiving(x.kind) then
           if EopLeft(x.stage) > 0 then EndsTooLate(l)
           else Arriving(l, x0.epSeq[x0.endpoint], bytes, x0.rx) && Doomed(h0, bytes, l)
         else x.kind == TimeOut)
  }

  lemma LostToken(h0: H.Host, d0: Device, bytes: seq<Byte>, l: Loop, wait: bool)
    requires Answers(h0, d0, bytes) && Lost(h0, d0, bytes, l) && l.code == More && l.h.x.kind == In
    requires !(Prompt(h0, d0) && Passes(h0, bytes))
    ensures Lost(h0, d0, bytes, Step(l, wait))
  {
    hide Fits, TokenLeft, TokenRest, H.BulkOut, DataRecv, AckSend, H.Ignore, TokenSend, Seen, Driven, Checks, Passes;
    TokenCall(l.h.x, l.bus, QUIET);
    H.TokenSound(l.h.x, Seen(l.bus, QUIET));
  }

  lemma LostHead(h0: H.Host, d0: Device, bytes: seq<Byte>, l: Loop, wait: bool)
    requires Answers(h0, d0, bytes) && Lost(h0, d0, bytes, l) && l.code == More
    requires Receiving(l.h.x.kind) && l.h.x.stage in {NoXfer, DataPid}
    ensures Lost(h0, d0, bytes, Step(l, wait))
  {
    hide H.BulkOut, TokenSend, AckSend, H.Ignore, CheckRx, Crc, Low, High, Checks, TokenLeft, Collect, DriveEop,
      Passes;
  }

  lemma LostByte(h0: H.Host, d0: Device, bytes: seq<Byte>, l: Loop, wait: bool)
    requires Answers(h0, d0, bytes) && Lost(h0, d0, bytes, l) && l.code == More
    requires Receiving(l.h.x.kind) && l.h.x.stage == DataBody && l.h.x.rxPtr < |bytes|
    ensures Lost(h0, d0, bytes, Step(l, wait))
  {
    hide H.BulkOut, TokenSend, AckSend, H.Ignore, CheckRx, Crc, Low, High, Checks, TokenLeft, DriveEop, Passes;
    if l.h.x.rxPtr < |l.h.x.rx| { OneMore(l.h.x, bytes, h0.x.rx); }
  }

  lemma LostStop(h0: H.Host, d0: Device, bytes: seq<Byte>, l: Loop, wait: bool)
    requires Answers(h0, d0, bytes) && Lost(h0, d0, bytes, l) && l.code == More
    requires Receiving(l.h.x.kind) && l.h.x.stage == DataBody && l.h.x.rxPtr == |bytes|
    ensures Lost(h0, d0, bytes, Step(l, wait))
  {
    hide H.BulkOut, TokenSend, AckSend, H.Ignore, CheckRx, Crc, Low, High, Checks, TokenLeft, DriveEop;
    assert bytes[..|bytes|] == bytes;
  }

  lemma LostEnd(h0: H.Host, d0: Device, bytes: seq<Byte>, l: Loop, wait: bool)
    requires Answers(h0, d0, bytes) && Lost(h0, d0, bytes, l) && l.code == More
    requires Receiving(l.h.x.kind) && EopLeft(l.h.x.stage) > 0
    ensures Lost(h0, d0, bytes, Step(l, wait))
  {
    hide H.BulkOut, TokenSend, AckSend, H.Ignore, CheckRx, Crc, Low, High, Checks, TokenLeft, Collect,
         DriveEop, Driven, Passes;
    EopCall(l.h.x, l.bus, QUIET);
  }

  lemma LostIgnore(h0: H.Host, d0: Device, bytes: seq<Byte>, l: Loop, wait: bool)
    requires Answers(h0, d0, bytes) && Lost(h0, d0, bytes, l) && l.code == More && l.h.x.kind == TimeOut
    ensures Lost(h0, d0, bytes, Step(l, wait))
  {
    hide H.BulkOut, TokenSend, AckSend, DataRecv, CheckRx, Crc, Low, High, Checks, TokenLeft;
  }

  lemma LostStep(h0: H.Host, d0: Device, bytes: seq<Byte>, l: Loop, wait: bool)
    requires Answers(h0, d0, bytes) && !(Prompt(h0, d0) && Passes(h0, bytes)) && Lost(h0, d0, bytes, l)
    ensures Lost(h0, d0, bytes, Step(l, wait))
  {
    hide H.Step, TokenLeft, Checks, Passes, I.FitsIn, Prompt;
    var x := l.h.x;
    if l.code == More {
      if x.kind == In { LostToken(h0, d0, bytes, l, wait); }
      else if x.kind == TimeOut { LostIgnore(h0, d0, bytes, l, wait); }
      else if EopLeft(x.stage) > 0 { LostEnd(h0, d0, bytes, l, wait); }
      else if x.stage != DataBody { LostHead(h0, d0, bytes, l, wait); }
      else if x.rxPtr < |bytes| { LostByte(h0, d0, bytes, l, wait); }
      else { LostStop(h0, d0, bytes, l, wait); }
    }
  }

  lemma {:induction false} RunLost(h0: H.Host, d0: Device, bytes: seq<Byte>, waits: seq<bool>)
    requires Answers(h0, d0, bytes) && !(Prompt(h0, d0) && Passes(h0, bytes))
    ensures Lost(h0, d0, bytes, Execute(h0, d0, waits))
  {
    hide H.Step, Passes, Prompt, Arriving;
    if waits != [] {
      var k := |waits| - 1;
      RunLost(h0, d0, bytes, waits[..k]);
      LostStep(h0, d0, bytes, Execute(h0, d0, waits[..k]), waits[k]);
    }
  }

  /** Without throttling no call stalls. */
  lemma {:induction false} NoStalls(h0: H.Host, d0: Device, n: nat)
    requires Sound(h0.x)
    ensures Execute(h0, d0, seq(n, i => false)).stalls == 0
  {
    if n > 0 {
      assert seq(n, i => false)[..n - 1] == seq(n - 1, i => false);
      NoStalls(h0, d0, n - 1);
    }
  }

  /**
   A link that sends the expected identifier can be acknowledged exactly if it
   is prompt, its bytes fit and the check accepts them; then every run that is
   long enough acknowledges it.
   */
  lemma SucceedsExactly(h0: H.Host, d0: Device, bytes: seq<Byte>)
    requires Answers(h0, d0, bytes)
    ensures (exists waits :: Succeeds(h0, bytes, Execute(h0, d0, waits))) <==> Prompt(h0, d0) && Passes(h0, bytes)
  {
    hide Checks, Prompt, Passes, H.Step;
    if Prompt(h0, d0) && Passes(h0, bytes) {
      var n := 2 * |bytes| + d0.delay + 24;
      var waits := seq(n, i => false);
      NoStalls(h0, d0, n);
      Completes(h0, d0, bytes, waits);
      assert Succeeds(h0, bytes, Execute(h0, d0, waits));
    } else {
      forall waits ensures !Succeeds(h0, bytes, Execute(h0, d0, waits)) {
        RunLost(h0, d0, bytes, waits);
      }
    }
  }

  /**
   For packets long enough to carry a CRC: acknowledged exactly if the CRC is
   right, the first byte comes within 36 calls and before the 32-bit deadline
   wraps, and data and CRC fit the receive buffer.
   */
  lemma PacketExactly(h0: H.Host, d0: Device, bytes: seq<Byte>)
    requires Answers(h0, d0, bytes) && |bytes| >= 2
    ensures (exists waits :: Succeeds(h0, bytes, Execute(h0, d0, waits))) <==>
      Checks(bytes) && d0.delay <= 36 && |bytes| <= |h0.x.rx| && h0.cycle + 49 < 0x1_0000_0000
  {
    hide Checks, CheckRx;
    SucceedsExactly(h0, d0, bytes);
    if |bytes| <= |h0.x.rx| {
      var rx := bytes + h0.x.rx[|bytes|..];
      assert rx[..|bytes|] == bytes;
      CheckRxExact(rx, |bytes|);
    }
  }

  /**
   A packet of nothing but the identifier is acknowledged exactly if it comes
   within 32 calls and the buffer starts with two zeros from earlier packets.
   */
  lemma BareExactly(h0: H.Host, d0: Device)
    requires Answers(h0, d0, [])
    ensures (exists waits :: Succeeds(h0, [], Execute(h0, d0, waits))) <==>
      d0.delay <= 32 && h0.x.rx[0] == h0.x.rx[1] == 0 && h0.cycle + 49 < 0x1_0000_0000
    ensures !Checks([])
  {
    SucceedsExactly(h0, d0, []);
    assert [] + h0.x.rx[0..] == h0.x.rx;
    assert !Ones(16)[1] == Residue()[1];
  }

  /**
   A single zero byte is acknowledged although it has no CRC, if the buffer
   still holds a zero behind it.
   */
  lemma ShortAcknowledged(h0: H.Host, d0: Device)
    requires Answers(h0, d0, [0]) && Prompt(h0, d0) && h0.x.rx[1] == 0
    ensures var waits := seq(26 + d0.delay, i => false);
      Succeeds(h0, [0], Execute(h0, d0, waits)) && !Checks([0])
  {
    hide Checks;
    var n := 26 + d0.delay;
    var rx := [0] + h0.x.rx[1..];
    assert rx[..1] == [0];
    ShortPacket(rx, 1);
    NoStalls(h0, d0, n);
    Completes(h0, d0, [0], seq(n, i => false));
  }
}
