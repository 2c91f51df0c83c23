/** Whole bulk OUT transactions, call by call. */
module OutTransaction {
  import opened Streams
  import opened Crc16
  import opened Ulpi
  import opened UlpiBus
  import H = UsbHost

  /**
   tokens and data are the bytes driven in the two packets the host sends, the
   counters the calls spent on each packet, and answer the first thing other
   than silence the link says before the deadline.
   */
  datatype Run = Run(
    h: H.Host,
    bus: Bus,
    code: Code,
    tokens: seq<Byte>,
    data: seq<Byte>,
    tokenCalls: nat,
    dataCalls: nat,
    ackCalls: nat,
    answer: Option<Byte>)

  /** A transaction as the caller sets it up, the CRC fields included. */
  predicate Ready(h: H.Host) {
    && Sound(h.x) && h.op.BulkOUT? && h.x.kind == Out && h.x.stage == NoXfer
    && h.x.crc1 == Low(Crc(h.x.tx)) && h.x.crc2 == High(Crc(h.x.tx))
  }

  function Start(h: H.Host): Run {
    Run(h, Bus(false, false, false, 0, 0), More, [], [], 0, 0, 0, None)
  }

  function Answer(r: Run, i: Bus): Option<Byte> {
    if r.answer == None && r.h.cycle + 1 < r.h.x.cycle && !BusIdle(i) then Some(i.a) else r.answer
  }

  /** The calls stop when the transaction has reported its end or an error. */
  function RunStep(r: Run, call: Call): (r': Run)
    requires Sound(r.h.x)
    ensures Sound(r'.h.x)
  {
    if r.code != More then r
    else
      var kind, i := r.h.x.kind, Seen(r.bus, call.link);
      var s := H.Step(r.h, call.wait, i);
      var bytes := Driven(s.out);
      if kind == Out then
        r.(h := s.h, bus := s.out, code := s.code, tokens := r.tokens + bytes, tokenCalls := r.tokenCalls + 1)
      else if Sending(kind) then
        r.(h := s.h, bus := s.out, code := s.code, data := r.data + bytes, dataCalls := r.dataCalls + 1)
      else
        r.(h := s.h, bus := s.out, code := s.code, ackCalls := r.ackCalls + 1, answer := Answer(r, i))
  }

  function Execute(h: H.Host, calls: seq<Call>): (r: Run)
    requires Sound(h.x)
    ensures Sound(r.h.x)
  {
    if calls == [] then Start(h) else RunStep(Execute(h, calls[..|calls| - 1]), calls[|calls| - 1])
  }

  /** The transfer after some calls. */
  function After(h: H.Host): seq<Call> -> Xfer
    requires Sound(h.x)
  {
    (calls: seq<Call>) => Execute(h, calls).h.x
  }

  // ------------------------------------------------------------ data packets

  function DataPidByte(toggle: bool): Byte { if toggle then 0x4B else 0xC3 }

  /** What a data packet consists of. */
  function Packet(x: Xfer): seq<Byte>
    requires Sound(x)
  {
    [DataPidByte(x.epSeq[x.endpoint])] + x.tx + [Low(Crc(x.tx)), High(Crc(x.tx))]
  }

  function DataRest(x: Xfer): seq<Byte>
    requires Sound(x)
  {
    match x.stage
    case NoXfer | AssertDir | InitRxCmd => Packet(x)
    case DataPid | DataBody => x.tx[x.txPtr..] + [Low(Crc(x.tx)), High(Crc(x.tx))]
    case DataCrc1 => [High(Crc(x.tx))]
    case _ => []
  }

  /** At most so many calls are left of the data packet: a byte may cost one wait-state. */
  function DataLeft(x: Xfer, bus: Bus): nat
    requires Sound(x)
  {
    var n := |x.tx| - x.txPtr;
    var waited := if n > 0 && !bus.nxt then 1 else 0;
    match x.stage
    case NoXfer => 2 * n + 10
    case AssertDir => 2 * n + 9 - waited
    case InitRxCmd => 2 * n + 7
    case DataPid | DataBody => 2 * n + 6 - waited
    case DataCrc1 => 5
    case DataCrc2 | EndRxCmd | Eop | LineIdle => EopLeft(x.stage)
    case _ => 0
  }

  /** So many calls are left of the data packet if no wait-state follows. */
  function DataLeast(x: Xfer): nat
    requires Sound(x)
  {
    match x.stage
    case NoXfer => |x.tx| - x.txPtr + 9
    case AssertDir => |x.tx| - x.txPtr + 8
    case InitRxCmd => |x.tx| - x.txPtr + 7
    case DataPid | DataBody => |x.tx| - x.txPtr + 6
    case DataCrc1 => 5
    case _ => EopLeft(x.stage)
  }

  predicate DataSound(x: Xfer, bus: Bus) {
    && Sound(x) && Sending(x.kind)
    && x.kind == (if x.epSeq[x.endpoint] then DnData1 else DnData0)
    && x.crc1 == Low(Crc(x.tx)) && x.crc2 == High(Crc(x.tx))
    && DataLeft(x, bus) > 0 && Fits(x.stage, bus)
    && (x.stage in {DataCrc1, DataCrc2, EndRxCmd, Eop, LineIdle} ==> x.txPtr == |x.tx|)
  }

  /** A wait-state drives no byte and is followed by a byte. */
  lemma WaitCall(x: Xfer, bus: Bus, link: Link)
    requires DataSound(x, bus) && x.txPtr < |x.tx| && bus.nxt
    ensures var out := Seen(bus, link).(nxt := false, a := 0x5D);
      Driven(out) == [] && DataSound(x, out) && DataLeft(x, out) < DataLeft(x, bus)
  {
  }

  lemma DataByte(x: Xfer)
    requires Sound(x) && Sending(x.kind) && x.txPtr < |x.tx| && x.stage in {DataPid, DataBody}
    ensures DataRest(x) == [x.tx[x.txPtr]] + DataRest(x.(stage := DataBody, txPtr := x.txPtr + 1))
  {
  }

  /** The call after the last data byte, which a packet without data reaches at once. */
  lemma DataEnd(x: Xfer)
    requires Sound(x) && x.txPtr == |x.tx| && x.stage in {DataPid, DataBody}
    ensures DataRest(x) == [Low(Crc(x.tx))] + DataRest(x.(stage := DataCrc1))
    ensures x.tx == [] ==> Low(Crc(x.tx)) == 0
  {
    hide Crc, Low, High;
    if x.tx == [] { EmptyCrc(); }
  }

  lemma DataStart(x: Xfer)
    requires Sound(x) && x.txPtr == 0 && x.stage == InitRxCmd
    ensures DataRest(x) == [DataPidByte(x.epSeq[x.endpoint])] + DataRest(x.(stage := DataPid))
  {
  }

  /** What one call of a data packet does that is not a wait-state. */
  ghost predicate Sends(x: Xfer, bus: Bus, link: Link)
    requires DataSound(x, bus)
  {
    var r := DataSend(x, Seen(bus, link));
    && Sound(r.x)
    && Driven(r.out) + (if r.code == Done then [] else DataRest(r.x)) == DataRest(x)
    && r.x == x.(kind := r.x.kind, stage := r.x.stage, txPtr := r.x.txPtr)
    && if x.stage == LineIdle then
         r.code == Done && r.x == x.(kind := Idle, stage := NoXfer) && !r.out.dir && !r.out.nxt
       else
         r.code == More && DataSound(r.x, r.out) && DataLeft(r.x, r.out) < DataLeft(x, bus)
  }

  lemma SendEnd(x: Xfer, bus: Bus, link: Link)
    requires DataSound(x, bus) && Calm(x, link) && EopLeft(x.stage) > 0
    ensures Sends(x, bus, link)
  {
    hide DriveEop, Crc, Low, High, Packet;
    EopCall(x, bus, link);
  }

  lemma SendByte(x: Xfer, bus: Bus, link: Link)
    requires DataSound(x, bus) && Calm(x, link) && x.stage in {DataPid, DataBody}
    ensures Sends(x, bus, link)
  {
    hide DriveEop, DataRest, Crc, Low, High;
    if x.txPtr < |x.tx| { DataByte(x); } else { DataEnd(x); }
  }

  /** Before its identifier, all of a packet is still to be driven. */
  lemma WholePacket(x: Xfer, y: Xfer)
    requires Sound(x) && Sound(y) && x.epSeq == y.epSeq && x.endpoint == y.endpoint && x.tx == y.tx
    requires y.stage in {NoXfer, AssertDir, InitRxCmd}
    ensures DataRest(y) == Packet(y) == Packet(x)
  {
    hide Crc, Low, High;
  }

  lemma SendHead(x: Xfer, bus: Bus, link: Link)
    requires DataSound(x, bus) && Calm(x, link) && x.stage in {NoXfer, AssertDir, InitRxCmd}
    ensures Sends(x, bus, link)
  {
    hide DriveEop, DataRest, Packet, Crc, Low, High;
    WholePacket(x, x);
    if x.stage == InitRxCmd {
      DataStart(x);
    } else {
      WholePacket(x, DataSend(x, Seen(bus, link)).x);
    }
  }

  lemma SendCrc(x: Xfer, bus: Bus, link: Link)
    requires DataSound(x, bus) && Calm(x, link) && x.stage == DataCrc1
    ensures Sends(x, bus, link)
  {
    hide DriveEop, Packet, Crc, Low, High;
  }

  lemma SendCall(x: Xfer, bus: Bus, link: Link)
    requires DataSound(x, bus) && Calm(x, link)
    ensures Sends(x, bus, link)
  {
    hide Sends, Crc, Low, High;
    if EopLeft(x.stage) > 0 { SendEnd(x, bus, link); }
    else if x.stage in {DataPid, DataBody} { SendByte(x, bus, link); }
    else if x.stage == DataCrc1 { SendCrc(x, bus, link); }
    else { SendHead(x, bus, link); }
  }

  // --------------------------------------------------------------- handshake

  /** At most so many handshake calls are left. */
  function AckLeft(h: H.Host): nat {
    if h.cycle + 1 >= h.x.cycle then 1 else h.x.cycle - h.cycle
  }

  /** The toggle is flipped exactly if the first answer was the ACK byte. */
  function Toggles(seq0: seq<bool>, ep: nat, answer: Option<Byte>): seq<bool>
    requires ep < |seq0|
  {
    if answer == Some(0x42) then Flip(seq0, ep) else seq0
  }

  predicate AckSound(x: Xfer, answer: Option<Byte>) {
    && x.kind == UpAck
    && x.stage in {NoXfer, HskPid, HskStop}
    && (x.stage == NoXfer <==> answer == None)
    && (x.stage != NoXfer ==> answer == Some(0x42))
  }

  // ------------------------------------------------------- the whole transaction

  /** Nothing but progress changes: the endpoint, the data and, until an ACK, the toggles. */
  predicate SameTransfer(h0: H.Host, h: H.Host) {
    h.op == h0.op && h.x.endpoint == h0.x.endpoint && h.x.tx == h0.x.tx
  }

  ghost predicate Inv(h0: H.Host, r: Run)
    requires Ready(h0)
  {
    var x0, x := h0.x, r.h.x;
    && Sound(x) && SameTransfer(h0, r.h)
    && x.epSeq == Toggles(x0.epSeq, x0.endpoint, r.answer)
    && r.tokens + (if r.code == More && x.kind == Out then TokenRest(x) else []) == [0xE1, x0.tok1, x0.tok2]
    && r.data + (if r.code != More then []
                 else if x.kind == Out then Packet(x0)
                 else if Sending(x.kind) then DataRest(x)
                 else []) == Packet(x0)
    && r.tokenCalls + (if r.code == More && x.kind == Out then TokenLeft(x.stage) else 0) == 9
    && r.dataCalls + (if r.code == More && Sending(x.kind) then DataLeft(x, r.bus) else 0) <= 2 * |x0.tx| + 10
    && r.ackCalls + (if r.code == More && x.kind == UpAck then AckLeft(r.h) else 0) <= 40
    && (if r.code == More then Progress(x0, r) else Ended(r))
  }

  /** It ends in the handshake; with an error or a failed assertion only if the link answered. */
  ghost predicate Ended(r: Run) {
    && r.ackCalls > 0
    && (r.code == Bad <==> r.answer.Some? && r.answer != Some(0x42))
    && (r.code != Done ==> r.answer.Some?)
    && (r.code == Done ==> r.h.x.kind == Idle)
  }

  /** Where a transaction stands that goes on. */
  ghost predicate Progress(x0: Xfer, r: Run) {
    var x := r.h.x;
    if x.kind == Out then
      && TokenLeft(x.stage) > 0 && Fits(x.stage, r.bus)
      && x == x0.(stage := x.stage)
      && r.data == [] && r.dataCalls == r.ackCalls == 0 && r.answer == None
    else if Sending(x.kind) then
      DataSound(x, r.bus) && r.ackCalls == 0 && r.answer == None
    else AckSound(x, r.answer)
  }

  /** A call of the token packet; after the last one the data packet begins. */
  lemma TokenPhase(x: Xfer, cycle: nat, wait: bool, bus: Bus, link: Link)
    requires Sound(x) && x.kind == Out && TokenLeft(x.stage) > 0 && Fits(x.stage, bus) && Calm(x, link)
    ensures var b := H.BulkOut(x, cycle, wait, Seen(bus, link));
      && b.code == More
      && if x.stage == LineIdle then
           && b.x == x.(kind := if x.epSeq[x.endpoint] then DnData1 else DnData0, stage := NoXfer)
           && Fits(NoXfer, b.out) && Driven(b.out) == TokenRest(x) && TokenLeft(x.stage) == 1
         else
           && b.x == x.(stage := b.x.stage) && TokenLeft(b.x.stage) == TokenLeft(x.stage) - 1 > 0
           && Fits(b.x.stage, b.out) && Driven(b.out) + TokenRest(b.x) == TokenRest(x)
  {
    hide Fits, TokenLeft, TokenRest, TokenSend, Seen, Driven;
    TokenCall(x, bus, link);
  }

  lemma OutGoesOn(h0: H.Host, r: Run, call: Call)
    requires Ready(h0) && Inv(h0, r) && r.code == More && r.h.x.kind == Out && Calm(r.h.x, call.link)
    requires r.h.x.stage != LineIdle
    ensures Inv(h0, RunStep(r, call))
  {
    hide Fits, TokenLeft, TokenRest, Packet, DataRest, DataLeft, AckLeft, Crc, Low, High, Seen, Driven,
         H.BulkIn, H.BulkOut;
    TokenPhase(r.h.x, r.h.cycle + 1, call.wait, r.bus, call.link);
  }

  lemma OutEnds(h0: H.Host, r: Run, call: Call)
    requires Ready(h0) && Inv(h0, r) && r.code == More && r.h.x.kind == Out && Calm(r.h.x, call.link)
    requires r.h.x.stage == LineIdle
    ensures Inv(h0, RunStep(r, call))
  {
    hide TokenLeft, TokenRest, Packet, DataRest, AckLeft, Crc, Low, High, Seen, Driven, H.BulkIn, H.BulkOut;
    TokenPhase(r.h.x, r.h.cycle + 1, call.wait, r.bus, call.link);
    WholePacket(h0.x, RunStep(r, call).h.x);
  }

  lemma OutCall(h0: H.Host, r: Run, call: Call)
    requires Ready(h0) && Inv(h0, r) && r.code == More && r.h.x.kind == Out && Calm(r.h.x, call.link)
    ensures Inv(h0, RunStep(r, call))
  {
    hide Inv, RunStep;
    if r.h.x.stage == LineIdle { OutEnds(h0, r, call); } else { OutGoesOn(h0, r, call); }
  }

  /** A call of the data packet; after the last one the handshake begins. */
  lemma DataPhase(x: Xfer, cycle: nat, wait: bool, bus: Bus, link: Link)
    requires DataSound(x, bus) && Calm(x, link)
    ensures var b := H.BulkOut(x, cycle, wait, Seen(bus, link));
      && b.code == More && DataLeft(x, bus) > 0
      && if x.stage == LineIdle then
           && b.x == x.(kind := UpAck, stage := NoXfer, cycle := H.Deadline(cycle))
           && Driven(b.out) == DataRest(x) && !b.out.dir && !b.out.nxt
         else
           && b.x == x.(kind := b.x.kind, stage := b.x.stage, txPtr := b.x.txPtr) && Sending(b.x.kind)
           && DataSound(b.x, b.out) && DataLeft(b.x, b.out) < DataLeft(x, bus)
           && Driven(b.out) + DataRest(b.x) == DataRest(x)
  {
    hide Crc, Low, High, DataSend, DataRest, Driven, Calm;
    if x.txPtr < |x.tx| && bus.nxt && wait { WaitCall(x, bus, link); } else { SendCall(x, bus, link); }
  }

  lemma DataCall(h0: H.Host, r: Run, call: Call)
    requires Ready(h0) && Inv(h0, r) && r.code == More && Sending(r.h.x.kind) && Calm(r.h.x, call.link)
    ensures Inv(h0, RunStep(r, call))
  {
    hide H.BulkIn, H.BulkOut, DataRest, DataLeft, Packet, Fits, Driven, TokenRest, TokenLeft, DataSound, Crc,
         Low, High, Seen, Calm;
    DataSoundly(r.h.x, r.bus);
    DataPhase(r.h.x, r.h.cycle + 1, call.wait, r.bus, call.link);
  }

  lemma DataSoundly(x: Xfer, bus: Bus)
    requires DataSound(x, bus)
    ensures Sound(x) && Sending(x.kind)
  {
  }

  /** A busy link is an error: at the start of the data packet, or, by an assertion, at the end of a packet. */
  lemma BusyRefused(h0: H.Host, r: Run, call: Call)
    requires Ready(h0) && Inv(h0, r) && r.code == More && r.h.x.kind != UpAck
    ensures var r' := RunStep(r, call);
      && (r'.code == More <==> Calm(r.h.x, call.link))
      && (!Calm(r.h.x, call.link) ==> r'.code == if r.h.x.stage == NoXfer then Bad else Abort)
  {
    hide H.BulkIn, AckRecv, Crc, Low, High, TokenRest, DataRest, Packet, Inv;
    if Calm(r.h.x, call.link) {
      AnyCall(h0, r, call);
      Continues(h0, r, call);
    } else {
      BusySending(h0, r);
    }
  }

  lemma Continues(h0: H.Host, r: Run, call: Call)
    requires Ready(h0) && Inv(h0, r) && r.code == More && r.h.x.kind != UpAck && Calm(r.h.x, call.link)
    ensures RunStep(r, call).code == More
  {
    hide H.BulkIn, H.BulkOut, Crc, Low, High, TokenRest, DataRest, Packet, Driven, Seen;
    if r.h.x.kind == Out { TokenPhase(r.h.x, r.h.cycle + 1, call.wait, r.bus, call.link); }
    else { DataPhase(r.h.x, r.h.cycle + 1, call.wait, r.bus, call.link); }
  }

  lemma BusySending(h0: H.Host, r: Run)
    requires Ready(h0) && Inv(h0, r) && r.code == More && r.h.x.kind != UpAck
    ensures r.h.op.BulkOUT? && Sound(r.h.x) && (r.h.x.kind == Out || DataSound(r.h.x, r.bus))
    ensures r.h.x.kind == Out ==> TokenLeft(r.h.x.stage) > 0 && Fits(r.h.x.stage, r.bus)
  {
  }

  lemma AckCall(h0: H.Host, r: Run, call: Call)
    requires Ready(h0) && Inv(h0, r) && r.code == More && r.h.x.kind == UpAck
    ensures Inv(h0, RunStep(r, call))
  {
    hide H.BulkIn, TokenSend, DataSend, Crc, Low, High;
  }

  lemma {:induction false} RunInv(h0: H.Host, calls: seq<Call>)
    requires Ready(h0) && AllCalm(After(h0), calls)
    ensures Inv(h0, Execute(h0, calls))
    ensures var r := Execute(h0, calls); r.code == More ==> r.tokenCalls + r.dataCalls + r.ackCalls == |calls|
  {
    hide Crc, Low, High;
    if calls != [] {
      var front, call := calls[..|calls| - 1], calls[|calls| - 1];
      RunInv(h0, front);
      AnyCall(h0, Execute(h0, front), call);
    } else {
      Begins(h0);
    }
  }

  lemma Begins(h0: H.Host)
    requires Ready(h0)
    ensures Inv(h0, Start(h0))
  {
    hide Crc, Low, High;
  }

  lemma AnyCall(h0: H.Host, r: Run, call: Call)
    requires Ready(h0) && Inv(h0, r) && Calm(r.h.x, call.link)
    ensures Inv(h0, RunStep(r, call))
  {
    hide H.Step, Packet, DataRest, TokenRest, DataLeft, TokenLeft, DataSound;
    if r.code == More {
      if r.h.x.kind == Out { OutCall(h0, r, call); }
      else if Sending(r.h.x.kind) { DataCall(h0, r, call); }
      else { AckCall(h0, r, call); }
    }
  }

  /**
   A bulk OUT transaction, whatever wait-states are inserted and whatever the
   link answers in the end: the token and the data packet, with its CRC, are
   driven byte for byte; the packets and the handshake keep to their bounds of
   calls, so it ends; and the toggle has flipped, once, exactly if the first
   answer within the deadline is the ACK byte.
   */
  lemma Transaction(h0: H.Host, calls: seq<Call>)
    requires Ready(h0) && AllCalm(After(h0), calls)
    ensures var r, x0 := Execute(h0, calls), h0.x;
      && r.tokens <= [0xE1, x0.tok1, x0.tok2]
      && r.data <= Packet(x0)
      && r.tokenCalls <= 9 && r.dataCalls <= 2 * |x0.tx| + 10 && r.ackCalls <= 40
      && (r.ackCalls > 0 ==> r.tokens == [0xE1, x0.tok1, x0.tok2] && r.data == Packet(x0))
      && r.h.x.epSeq == Toggles(x0.epSeq, x0.endpoint, r.answer)
      && (|calls| >= 9 + (2 * |x0.tx| + 10) + 40 ==> r.code != More)
      && (r.code != More ==> Ended(r))
  {
    hide Crc, Low, High, Packet, DataRest, TokenRest, H.Step;
    RunInv(h0, calls);
    Bounded(h0, Execute(h0, calls));
  }

  lemma Bounded(h0: H.Host, r: Run)
    requires Ready(h0) && Inv(h0, r)
    ensures r.code == More ==> r.tokenCalls + r.dataCalls + r.ackCalls < 9 + (2 * |h0.x.tx| + 10) + 40
    ensures r.ackCalls > 0 ==> r.tokens == [0xE1, h0.x.tok1, h0.x.tok2] && r.data == Packet(h0.x)
  {
    hide Crc, Low, High, Packet, DataRest, TokenRest, DataLeft;
  }
}
