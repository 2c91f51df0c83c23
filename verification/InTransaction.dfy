/** Whole bulk IN transactions with an arbitrary link. */
module InTransaction {
  import opened Streams
  import opened Crc16
  import opened Ulpi
  import opened UlpiBus
  import H = UsbHost

  /**
   tokens are the bytes driven in the token packet and sent those driven after
   it; pid is the packet identifier the link began its packet with.
   */
  datatype Run = Run(h: H.Host, bus: Bus, code: Code, tokens: seq<Byte>, sent: seq<Byte>, pid: Option<Byte>)

  /** A transaction as the caller sets it up. */
  predicate Ready(h: H.Host) {
    Sound(h.x) && h.op.BulkIN? && h.x.kind == In && h.x.stage == NoXfer && h.x.rxPtr == 0
  }

  function Start(h: H.Host): Run {
    Run(h, Bus(false, false, false, 0, 0), More, [], [], None)
  }

  function RunStep(r: Run, call: Call): (r': Run)
    requires Sound(r.h.x)
    ensures Sound(r'.h.x)
  {
    if r.code != More then r
    else
      var x, i := r.h.x, Seen(r.bus, call.link);
      var s := H.Step(r.h, call.wait, i);
      var bytes := if s.code == More || s.code == Done then Driven(s.out) else [];
      Run(s.h, s.out, s.code,
          if x.kind == In then r.tokens + bytes else r.tokens,
          if x.kind == In then r.sent else r.sent + bytes,
          if Receiving(x.kind) && x.stage == DataPid then Some(i.a) else r.pid)
  }

  function Execute(h: H.Host, calls: seq<Call>): (r: Run)
    requires Sound(h.x)
    ensures Sound(r.h.x)
  {
    if calls == [] then Start(h) else RunStep(Execute(h, calls[..|calls| - 1]), calls[|calls| - 1])
  }

  /** The transfer after some calls. */
  function After(h: H.Host): seq<Call> -> Xfer
    requires Sound(h.x)
  {
    (calls: seq<Call>) => Execute(h, calls).h.x
  }

  /** The ULPI transmit command of the data packet whose toggle is expected. */
  function ExpectedPid(toggle: bool): Byte { if toggle then 0x4B else 0x43 }

  /** The packet so far began with the expected identifier, and its end passed the check. */
  predicate Accepted(x: Xfer, toggle: bool, pid: Option<Byte>) {
    && pid == Some(ExpectedPid(toggle))
    && 2 <= |x.rx| && x.rxPtr <= |x.rx| && CheckRx(x.rx, x.rxPtr)
  }

  /** The bus while the link owns it, and while the host ends or sends a packet. */
  predicate FitsIn(stage: Stage, bus: Bus) {
    if stage == DataPid || stage == DataBody then !bus.dir else Fits(stage, bus)
  }

  ghost predicate ReceiveInv(toggle: bool, r: Run) {
    var x := r.h.x;
    && x.kind == (if toggle then UpData1 else UpData0)
    && x.stage in {NoXfer, DataPid, DataBody, DataStop, EndRxCmd, Eop, LineIdle}
    && FitsIn(x.stage, r.bus)
    && (x.stage == DataBody ==> r.pid == Some(ExpectedPid(toggle)))
    && (EopLeft(x.stage) > 0 ==> Accepted(x, toggle, r.pid))
    && r.sent == []
  }

  ghost predicate AckInv(toggle: bool, r: Run) {
    var x := r.h.x;
    && x.kind == DnAck
    && x.stage in {NoXfer, AssertDir, InitRxCmd, HskPid, EndRxCmd, Eop, LineIdle}
    && Fits(x.stage, r.bus)
    && Accepted(x, toggle, r.pid)
    && r.sent == if x.stage in {NoXfer, AssertDir, InitRxCmd} then [] else [0xD2]
  }

  ghost predicate TimeOutInv(r: Run) {
    var x := r.h.x;
    && x.kind == TimeOut
    && x.stage in {NoXfer, DataPid, DataBody, DataStop, EndRxCmd, Eop, LineIdle}
    && (x.stage == DataPid ==> r.h.cycle >= x.cycle)
    && FitsIn(x.stage, r.bus)
    && r.sent == []
  }

  ghost predicate Inv(h0: H.Host, r: Run)
    requires Ready(h0)
  {
    var x0, x := h0.x, r.h.x;
    var toggle := x0.epSeq[x0.endpoint];
    && Sound(x) && r.h.op == h0.op && x.endpoint == x0.endpoint
    && r.tokens + (if r.code == More && x.kind == In then TokenRest(x) else []) == [0x69, x0.tok1, x0.tok2]
    && (x.epSeq == if r.code == Done && r.sent == [0xD2] then Flip(x0.epSeq, x0.endpoint) else x0.epSeq)
    && (r.sent == [] || r.sent == [0xD2])
    && (x.kind == DnAck || r.sent == [0xD2] ==> Accepted(x, toggle, r.pid))
    && (r.code == More ==>
         if x.kind == In then
           TokenLeft(x.stage) > 0 && Fits(x.stage, r.bus) && x == x0.(stage := x.stage) && r.sent == []
         else if Receiving(x.kind) then ReceiveInv(toggle, r)
         else if x.kind == DnAck then AckInv(toggle, r)
         else TimeOutInv(r))
  }

  /** A call of the token packet; after the last one the host waits for data. */
  lemma TokenPhase(x: Xfer, cycle: nat, wait: bool, bus: Bus, link: Link)
    requires Sound(x) && x.kind == In && TokenLeft(x.stage) > 0 && Fits(x.stage, bus) && Calm(x, link)
    ensures var b := H.BulkIn(x, cycle, wait, Seen(bus, link));
      && b.code == More
      && if x.stage == LineIdle then
           && b.x == x.(kind := if x.epSeq[x.endpoint] then UpData1 else UpData0, stage := NoXfer,
                        cycle := H.Deadline(cycle))
           && Fits(NoXfer, b.out) && Driven(b.out) == TokenRest(x) && TokenLeft(x.stage) == 1
         else
           && b.x == x.(stage := b.x.stage) && TokenLeft(b.x.stage) == TokenLeft(x.stage) - 1 > 0
           && Fits(b.x.stage, b.out)
           && Driven(b.out) + TokenRest(b.x) == TokenRest(x)
  {
    hide Fits, TokenLeft, TokenRest, TokenSend, Seen, Driven;
    TokenCall(x, bus, link);
  }

  lemma TokenGoesOn(h0: H.Host, r: Run, call: Call)
    requires Ready(h0) && Inv(h0, r) && r.code == More && r.h.x.kind == In && Calm(r.h.x, call.link)
    requires r.h.x.stage != LineIdle
    ensures Inv(h0, RunStep(r, call))
  {
    hide H.BulkOut, H.BulkIn, Fits, TokenLeft, TokenRest, Seen, Driven, CheckRx, PidByte, ReceiveInv, AckInv,
      TimeOutInv;
    TokenPhase(r.h.x, r.h.cycle + 1, call.wait, r.bus, call.link);
  }

  lemma TokenEnds(h0: H.Host, r: Run, call: Call)
    requires Ready(h0) && Inv(h0, r) && r.code == More && r.h.x.kind == In && Calm(r.h.x, call.link)
    requires r.h.x.stage == LineIdle
    ensures Inv(h0, RunStep(r, call))
  {
    hide H.BulkOut, H.BulkIn, Fits, TokenLeft, TokenRest, Seen, Driven, CheckRx, PidByte, AckInv, TimeOutInv;
    TokenPhase(r.h.x, r.h.cycle + 1, call.wait, r.bus, call.link);
    FitsNone(RunStep(r, call).bus);
  }

  lemma TokenStep(h0: H.Host, r: Run, call: Call)
    requires Ready(h0) && Inv(h0, r) && r.code == More && r.h.x.kind == In && Calm(r.h.x, call.link)
    ensures Inv(h0, RunStep(r, call))
  {
    hide Inv, RunStep, Calm;
    if r.h.x.stage == LineIdle { TokenEnds(h0, r, call); } else { TokenGoesOn(h0, r, call); }
  }

  lemma FitsNone(bus: Bus)
    ensures FitsIn(NoXfer, bus) == Fits(NoXfer, bus)
  {
  }

  /** A call after the token, in terms of the transaction's step. */
  lemma AfterToken(r: Run, call: Call)
    requires Sound(r.h.x) && r.code == More && r.h.x.kind != In && r.h.op.BulkIN?
    ensures var x, i := r.h.x, Seen(r.bus, call.link);
      var b, r' := H.BulkIn(x, r.h.cycle + 1, call.wait, i), RunStep(r, call);
      && Sound(b.x) && r'.code == b.code && r'.h == H.Host(r.h.op, r.h.cycle + 1, b.x) && r'.bus == b.out
      && r'.tokens == r.tokens
      && r'.sent == r.sent + (if b.code == More || b.code == Done then Driven(b.out) else [])
      && r'.pid == if Receiving(x.kind) && x.stage == DataPid then Some(i.a) else r.pid
  {
    hide H.BulkIn, H.BulkOut, Seen, Driven;
    H.BulkInSound(r.h.x, r.h.cycle + 1, call.wait, Seen(r.bus, call.link));
  }

  lemma ReceiveFirst(h0: H.Host, r: Run, call: Call)
    requires Ready(h0) && Inv(h0, r) && r.code == More && Receiving(r.h.x.kind) && r.h.x.stage == NoXfer
    ensures Inv(h0, RunStep(r, call))
  {
    hide RunStep, Sound, PidByte, H.BulkOut, TokenSend, AckSend, H.Ignore, CheckRx, Crc, Low, High, TokenRest,
      TokenLeft, Collect, DriveEop;
    AfterToken(r, call);
  }

  /** The call that looks at the packet identifier. */
  lemma PidCall(x: Xfer, cycle: nat, wait: bool, bus: Bus, link: Link)
    requires Sound(x) && x.stage == DataPid && !bus.dir
    requires x.kind == if x.epSeq[x.endpoint] then UpData1 else UpData0
    ensures var i := Seen(bus, link);
      var b := H.BulkIn(x, cycle, wait, i);
      && b.x.epSeq == x.epSeq && b.x.endpoint == x.endpoint && b.code != Done
      && (b.x.kind == x.kind || b.x.kind == TimeOut)
      && (b.code == More ==>
           && b.x.stage == DataBody && !b.out.dir && Driven(b.out) == []
           && (b.x.kind == x.kind ==> i.a == ExpectedPid(x.epSeq[x.endpoint])))
  {
    hide H.BulkOut, TokenSend, AckSend, H.Ignore, Collect, DriveEop;
  }

  lemma ReceivePid(h0: H.Host, r: Run, call: Call)
    requires Ready(h0) && Inv(h0, r) && r.code == More && Receiving(r.h.x.kind) && r.h.x.stage == DataPid
    ensures Inv(h0, RunStep(r, call))
  {
    hide RunStep, Sound, H.BulkIn, CheckRx, TokenRest, TokenLeft, Driven, Seen, Fits, PidByte;
    AfterToken(r, call);
    PidCall(r.h.x, r.h.cycle + 1, call.wait, r.bus, call.link);
  }

  /** The call that sees the end of the packet. */
  lemma StopCall(x: Xfer, cycle: nat, wait: bool, bus: Bus, link: Link)
    requires Sound(x) && Receiving(x.kind) && x.stage == DataBody && !bus.dir && link.stp
    ensures var b := H.BulkIn(x, cycle, wait, Seen(bus, link));
      && b.x.epSeq == x.epSeq && b.x.endpoint == x.endpoint && b.x.rx == x.rx && b.x.rxPtr == x.rxPtr
      && b.code != Done
      && (b.x.kind == x.kind || b.x.kind == TimeOut)
      && (b.code == More ==>
           && b.x.stage == DataStop && Fits(DataStop, b.out) && Driven(b.out) == []
           && (b.x.kind == x.kind ==> CheckRx(x.rx, x.rxPtr)))
  {
    hide H.BulkOut, TokenSend, AckSend, H.Ignore, CheckRx, Crc, Low, High, DriveEop;
  }

  lemma ReceiveStop(h0: H.Host, r: Run, call: Call)
    requires Ready(h0) && Inv(h0, r) && r.code == More && Receiving(r.h.x.kind) && r.h.x.stage == DataBody
    requires call.link.stp
    ensures Inv(h0, RunStep(r, call))
  {
    hide RunStep, H.BulkIn, CheckRx, TokenRest, TokenLeft, Driven, Seen, PidByte;
    AfterToken(r, call);
    StopCall(r.h.x, r.h.cycle + 1, call.wait, r.bus, call.link);
  }

  lemma ReceiveByte(h0: H.Host, r: Run, call: Call)
    requires Ready(h0) && Inv(h0, r) && r.code == More && Receiving(r.h.x.kind) && r.h.x.stage == DataBody
    requires !call.link.stp
    ensures Inv(h0, RunStep(r, call))
  {
    hide RunStep, Sound, PidByte, H.BulkOut, TokenSend, AckSend, H.Ignore, CheckRx, Crc, Low, High, TokenRest,
      TokenLeft, DriveEop, Fits;
    AfterToken(r, call);
  }

  /** A call at the end of the packet, which nothing received so far depends on. */
  lemma EndCall(x: Xfer, cycle: nat, wait: bool, bus: Bus, link: Link)
    requires Sound(x) && Receiving(x.kind) && EopLeft(x.stage) > 0 && Fits(x.stage, bus)
    ensures var b := H.BulkIn(x, cycle, wait, Seen(bus, link));
      && Driven(b.out) == []
      && b.x == x.(kind := b.x.kind, stage := b.x.stage)
      && if b.code != More then
           b.code == Abort && b.x == x
         else
           && FitsIn(b.x.stage, b.out)
           && (if x.stage == LineIdle then b.x.stage == NoXfer
               else EopLeft(b.x.stage) > 0 && b.x.stage in {EndRxCmd, Eop, LineIdle})
           && (b.x.kind == TimeOut || b.x.kind == if x.stage == LineIdle then DnAck else x.kind)
  {
    hide H.BulkOut, TokenSend, AckSend, H.Ignore, Collect, DriveEop, Driven, Seen, Fits;
    EopCall(x, bus, link);
    FitsEop(x, bus);
  }

  lemma FitsEop(x: Xfer, bus: Bus)
    requires EopLeft(x.stage) > 0
    ensures FitsIn(x.stage, bus) == Fits(x.stage, bus) && FitsIn(NoXfer, bus) == Fits(NoXfer, bus)
    ensures forall s: Stage :: EopLeft(s) > 0 ==> FitsIn(s, bus) == Fits(s, bus)
  {
  }

  lemma ReceiveEnd(h0: H.Host, r: Run, call: Call)
    requires Ready(h0) && Inv(h0, r) && r.code == More && Receiving(r.h.x.kind) && EopLeft(r.h.x.stage) > 0
    ensures Inv(h0, RunStep(r, call))
  {
    hide RunStep, Sound, H.BulkIn, CheckRx, TokenRest, TokenLeft, Driven, Seen, PidByte;
    AfterToken(r, call);
    EndCall(r.h.x, r.h.cycle + 1, call.wait, r.bus, call.link);
  }

  lemma AckHead(h0: H.Host, r: Run, call: Call)
    requires Ready(h0) && Inv(h0, r) && r.code == More && r.h.x.kind == DnAck && EopLeft(r.h.x.stage) == 0
    ensures Inv(h0, RunStep(r, call))
  {
    hide RunStep, Sound, SeqMatches, H.BulkOut, TokenSend, DataRecv, H.Ignore, CheckRx, Crc, Low, High, TokenRest,
      TokenLeft, DriveEop;
    AfterToken(r, call);
  }

  lemma AckEnd(h0: H.Host, r: Run, call: Call)
    requires Ready(h0) && Inv(h0, r) && r.code == More && r.h.x.kind == DnAck && EopLeft(r.h.x.stage) > 0
    ensures Inv(h0, RunStep(r, call))
  {
    hide RunStep, Sound, PidByte, H.BulkOut, TokenSend, DataRecv, H.Ignore, CheckRx, Crc, Low, High, TokenRest,
      TokenLeft, DriveEop,
         Driven, Fits, Seen;
    AfterToken(r, call);
    EopCall(r.h.x, r.bus, call.link);
  }

  /** A call of a transaction that times out: it ends, or takes and ends what the link still sends. */
  lemma IgnoreCall(x: Xfer, cycle: nat, wait: bool, bus: Bus, link: Link)
    requires Sound(x) && x.kind == TimeOut && FitsIn(x.stage, bus)
    requires x.stage in {NoXfer, DataPid, DataBody, DataStop, EndRxCmd, Eop, LineIdle}
    requires x.stage == DataPid ==> cycle >= x.cycle
    ensures var b := H.BulkIn(x, cycle, wait, Seen(bus, link));
      && b.x.epSeq == x.epSeq && b.x.endpoint == x.endpoint && b.x.kind in {TimeOut, Idle}
      && (b.code == More ==>
           && b.x.kind == TimeOut && Driven(b.out) == [] && FitsIn(b.x.stage, b.out)
           && b.x.stage in {NoXfer, DataBody, DataStop, EndRxCmd, Eop, LineIdle})
      && (b.code == Done ==> Driven(b.out) == [])
  {
    hide H.BulkOut, TokenSend, DataRecv, AckSend, CheckRx, Crc, Low, High;
  }

  lemma TimeOutStep(h0: H.Host, r: Run, call: Call)
    requires Ready(h0) && Inv(h0, r) && r.code == More && r.h.x.kind == TimeOut
    ensures Inv(h0, RunStep(r, call))
  {
    hide RunStep, Sound, H.BulkIn, CheckRx, TokenRest, TokenLeft, Driven, Seen, FitsIn, PidByte;
    AfterToken(r, call);
    IgnoreCall(r.h.x, r.h.cycle + 1, call.wait, r.bus, call.link);
  }

  lemma AnyStep(h0: H.Host, r: Run, call: Call)
    requires Ready(h0) && Inv(h0, r) && Calm(r.h.x, call.link)
    ensures Inv(h0, RunStep(r, call))
  {
    hide H.Step, TokenRest, TokenLeft, CheckRx;
    var x := r.h.x;
    if r.code == More {
      if x.kind == In { TokenStep(h0, r, call); }
      else if Receiving(x.kind) {
        if x.stage == DataBody {
          if call.link.stp { ReceiveStop(h0, r, call); } else { ReceiveByte(h0, r, call); }
        }
        else if EopLeft(x.stage) > 0 { ReceiveEnd(h0, r, call); }
        else if x.stage == NoXfer { ReceiveFirst(h0, r, call); }
        else { ReceivePid(h0, r, call); }
      }
      else if x.kind == DnAck {
        if EopLeft(x.stage) > 0 { AckEnd(h0, r, call); } else { AckHead(h0, r, call); }
      }
      else { TimeOutStep(h0, r, call); }
    }
  }

  lemma Begins(h0: H.Host)
    requires Ready(h0)
    ensures Inv(h0, Start(h0))
  {
  }

  lemma {:induction false} RunInv(h0: H.Host, calls: seq<Call>)
    requires Ready(h0) && AllCalm(After(h0), calls)
    ensures Inv(h0, Execute(h0, calls))
  {
    hide Inv, RunStep;
    if calls == [] {
      Begins(h0);
    } else {
      var k := |calls| - 1;
      RunInv(h0, calls[..k]);
      AnyStep(h0, Execute(h0, calls[..k]), calls[k]);
    }
  }

  /**
   A bulk IN transaction, whatever the link does after the token and however
   reception is throttled: an ACK is sent only after a packet with the expected
   identifier that passed the check, which is a packet with a right CRC exactly
   if at least two bytes follow the identifier; the toggle has flipped, once, exactly if
   the transaction completed with an ACK, so never on a time-out or an error.
   */
  lemma Transaction(h0: H.Host, calls: seq<Call>)
    requires Ready(h0) && AllCalm(After(h0), calls)
    ensures var r, x0 := Execute(h0, calls), h0.x;
      && r.tokens <= [0x69, x0.tok1, x0.tok2]
      && (r.sent == [] || r.sent == [0xD2])
      && (r.h.x.kind == DnAck || r.sent == [0xD2] ==>
           && r.pid == Some(ExpectedPid(x0.epSeq[x0.endpoint]))
           && r.h.x.rxPtr <= |r.h.x.rx|
           && (Checks(r.h.x.rx[..r.h.x.rxPtr]) <==> r.h.x.rxPtr >= 2))
      && r.h.x.epSeq == (if r.code == Done && r.sent == [0xD2] then Flip(x0.epSeq, x0.endpoint) else x0.epSeq)
  {
    hide CheckRx, Checks, TokenRest, Execute, ReceiveInv, AckInv, TimeOutInv, AllCalm, TokenLeft, Fits;
    RunInv(h0, calls);
    var r := Execute(h0, calls);
    CheckRxExact(r.h.x.rx, r.h.x.rxPtr);
    if r.h.x.rxPtr < 2 && CheckRx(r.h.x.rx, r.h.x.rxPtr) { ShortPacket(r.h.x.rx, r.h.x.rxPtr); }
  }
}
