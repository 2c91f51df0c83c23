/**
 What the host puts on the bus for each packet it sends, RX CMDs included: the
 receiver is active from before the first byte to after the last one.
 */
module PacketsSent {
  import opened Crc16
  import opened Ulpi
  import opened UlpiBus
  import O = OutTransaction
  import H = UsbHost

  /** An RX CMD on the bus: data the host drives without nxt. */
  function Command(out: Bus): seq<Byte> {
    if out.dir && !out.nxt && out.b == 0 then [out.a] else []
  }

  /** A packet so far: the bytes driven and the RX CMDs, and the calls it took. */
  datatype Packet = Packet(x: Xfer, bus: Bus, over: bool, driven: seq<Byte>, commands: seq<Byte>, calls: nat)

  /** The step that sends it; a data packet's is that of the transaction, with its wait-states. */
  function Drive(x: Xfer, wait: bool, i: Bus): Reply
    requires Sound(x)
  {
    if Token(x.kind) then TokenSend(x, i) else if x.kind == DnAck then AckSend(x, i) else H.BulkOut(x, 0, wait, i)
  }

  function Send(p: Packet, call: Call): (p': Packet)
    requires Sound(p.x)
    ensures Sound(p'.x)
  {
    if p.over then p
    else
      var i := Seen(p.bus, call.link);
      DriveSound(p.x, call.wait, i);
      var r := Drive(p.x, call.wait, i);
      Packet(r.x, r.out, r.code != More || r.x.kind == UpAck,
             p.driven + Driven(r.out), p.commands + Command(r.out), p.calls + 1)
  }

  lemma DriveSound(x: Xfer, wait: bool, i: Bus)
    requires Sound(x)
    ensures Sound(Drive(x, wait, i).x)
  {
    hide TokenSend, AckSend, H.BulkOut;
    if Token(x.kind) { H.TokenSound(x, i); }
    else if x.kind == DnAck { H.AckSound(x, i); }
    else { H.BulkOutSound(x, 0, wait, i); }
  }

  function Execute(x: Xfer, bus: Bus, calls: seq<Call>): (p: Packet)
    requires Sound(x)
    ensures Sound(p.x)
  {
    if calls == [] then Packet(x, bus, false, [], [], 0)
    else Send(Execute(x, bus, calls[..|calls| - 1]), calls[|calls| - 1])
  }

  /** The identifiers of table 8-1, each below its complement. */
  function Identifier(k: Kind): Byte
    requires Token(k)
  {
    match k
    case Out => 0xE1
    case In => 0x69
    case Sof => 0xA5
    case Setup => 0x2D
  }

  lemma Identifiers(k: Kind)
    requires Token(k)
    ensures PidByte(k) == Identifier(k) && Identifier(k) % 16 + Identifier(k) / 16 == 15
  {
  }

  /** The RX CMDs still to come. */
  function CommandsLeft(stage: Stage): seq<Byte> {
    match stage
    case NoXfer | AssertDir => [0x5D, 0x4C, 0x4D]
    case EndRxCmd => [0x4D]
    case Eop | LineIdle => []
    case _ => [0x4C, 0x4D]
  }

  // -------------------------------------------------------------- the token

  lemma TokenCommand(x: Xfer, bus: Bus, link: Link)
    requires Token(x.kind) && TokenLeft(x.stage) > 0 && Fits(x.stage, bus) && Calm(x, link)
    ensures var r := TokenSend(x, Seen(bus, link));
      Command(r.out) + (if r.code == Done then [] else CommandsLeft(r.x.stage)) == CommandsLeft(x.stage)
  {
  }

  /** The link is calm while the packet is sent. */
  predicate AllCalm(x: Xfer, bus: Bus, calls: seq<Call>)
    requires Sound(x)
  {
    forall k :: 0 <= k < |calls| ==>
      var p := Execute(x, bus, calls[..k]); !p.over ==> Calm(p.x, calls[k].link)
  }

  lemma CalmFront(x: Xfer, bus: Bus, calls: seq<Call>)
    requires Sound(x) && AllCalm(x, bus, calls) && calls != []
    ensures var k := |calls| - 1;
      AllCalm(x, bus, calls[..k]) &&
      (!Execute(x, bus, calls[..k]).over ==> Calm(Execute(x, bus, calls[..k]).x, calls[k].link))
  {
    var front := calls[..|calls| - 1];
    forall k | 0 <= k < |front|
      ensures !Execute(x, bus, front[..k]).over ==> Calm(Execute(x, bus, front[..k]).x, front[k].link)
    {
      assert front[..k] == calls[..k] && front[k] == calls[k];
    }
  }

  ghost predicate InToken(x: Xfer, p: Packet)
    requires Token(x.kind)
  {
    && (if p.over then p.calls == 9 else
          && TokenLeft(p.x.stage) > 0 && Fits(p.x.stage, p.bus) && p.x == x.(stage := p.x.stage)
          && p.calls + TokenLeft(p.x.stage) == 9)
    && p.driven + (if p.over then [] else TokenRest(p.x)) == [Identifier(x.kind), x.tok1, x.tok2]
    && p.commands + (if p.over then [] else CommandsLeft(p.x.stage)) == [0x5D, 0x4C, 0x4D]
  }

  /** The step of a token packet. */
  lemma TokenSends(p: Packet, call: Call)
    requires Sound(p.x) && Token(p.x.kind) && !p.over
    ensures var r, p' := TokenSend(p.x, Seen(p.bus, call.link)), Send(p, call);
      && p'.x == r.x && p'.bus == r.out && (p'.over <==> r.code != More || r.x.kind == UpAck)
      && p'.driven == p.driven + Driven(r.out) && p'.commands == p.commands + Command(r.out)
      && p'.calls == p.calls + 1
  {
    hide TokenSend, AckSend, H.BulkOut, Driven, Command, Seen;
  }

  lemma TokenStep(x: Xfer, p: Packet, call: Call)
    requires Sound(x) && Token(x.kind) && Sound(p.x) && InToken(x, p) && (!p.over ==> Calm(p.x, call.link))
    ensures InToken(x, Send(p, call))
  {
    hide TokenSend, Send, Fits, TokenLeft, TokenRest, Driven, Command, CommandsLeft, Seen, Identifier, Calm, Sound;
    if p.over {
      Counted(p, call);
    } else {
      var p' := Send(p, call);
      TokenSends(p, call);
      TokenCall(p.x, p.bus, call.link);
      TokenCommand(p.x, p.bus, call.link);
      Joined(p.driven, Driven(p'.bus), if p'.over then [] else TokenRest(p'.x), TokenRest(p.x));
      Joined(p.commands, Command(p'.bus), if p'.over then [] else CommandsLeft(p'.x.stage), CommandsLeft(p.x.stage));
    }
  }

  lemma Joined(before: seq<Byte>, now: seq<Byte>, left: seq<Byte>, rest: seq<Byte>)
    requires now + left == rest
    ensures before + now + left == before + rest
  {
  }

  /**
   A token packet of any kind, from a free bus: nine calls, its identifier and
   two bytes, and the RX CMDs around them.
   */
  lemma {:induction false} TokenPacket(x: Xfer, bus: Bus, calls: seq<Call>)
    requires Sound(x) && Token(x.kind) && x.stage == NoXfer && Fits(NoXfer, bus) && AllCalm(x, bus, calls)
    ensures var p := Execute(x, bus, calls);
      && InToken(x, p) && (p.over <==> |calls| >= 9) && p.calls == (if |calls| < 9 then |calls| else 9)
      && (p.over ==>
           p.driven == [Identifier(x.kind), x.tok1, x.tok2] && p.commands == [0x5D, 0x4C, 0x4D])
  {
    hide TokenSend, AckSend, H.BulkOut, Fits, Driven, Command, Seen, AllCalm, Calm;
    if calls == [] {
      Identifiers(x.kind);
    } else {
      var k := |calls| - 1;
      CalmFront(x, bus, calls);
      TokenPacket(x, bus, calls[..k]);
      TokenStep(x, Execute(x, bus, calls[..k]), calls[k]);
      Counted(Execute(x, bus, calls[..k]), calls[k]);
    }
  }

  lemma Counted(p: Packet, call: Call)
    requires Sound(p.x)
    ensures Send(p, call).calls == if p.over then p.calls else p.calls + 1
    ensures p.over ==> Send(p, call) == p
  {
    hide Drive;
  }

  // ------------------------------------------------------- the data packet

  /** The RX CMD that a wait-state shows, repeated. */
  function Pauses(n: nat): (cs: seq<Byte>)
    ensures |cs| == n
  {
    seq(n, i => 0x5D)
  }

  /** While the bus turns around it has no logic levels. */
  predicate Turned(stage: Stage, bus: Bus) { stage == AssertDir ==> bus.b != 0 }

  predicate Waited(x: Xfer, wait: bool, bus: Bus) { x.txPtr < |x.tx| && bus.nxt && wait }

  /** A wait-state shows the RX CMD again, but not while the bus turns around. */
  lemma WaitCommand(x: Xfer, wait: bool, bus: Bus, link: Link)
    requires O.DataSound(x, bus) && Turned(x.stage, bus) && Waited(x, wait, bus)
    ensures var b := H.BulkOut(x, 0, wait, Seen(bus, link));
      && b.code == More && b.x == x && !b.out.nxt && Turned(x.stage, b.out)
      && x.stage in {AssertDir, InitRxCmd, DataPid, DataBody}
      && (x.stage != AssertDir ==> CommandsLeft(x.stage) == [0x4C, 0x4D])
      && Command(b.out) == if x.stage == AssertDir then [] else [0x5D]
  {
    hide Crc, Low, High, DataSend;
  }

  /** What any other call of a data packet does to RX CMDs and to the calls left. */
  ghost predicate Moves(x: Xfer, b: Reply)
    requires Sound(x)
  {
    && Sound(b.x) && (b.code != More || b.x.kind == UpAck <==> x.stage == LineIdle)
    && Command(b.out) + (if x.stage == LineIdle then [] else CommandsLeft(b.x.stage)) == CommandsLeft(x.stage)
    && if x.stage == LineIdle then O.DataLeast(x) == 1
       else
         && O.DataLeast(b.x) + 1 == O.DataLeast(x) && b.x.stage != NoXfer
         && Turned(b.x.stage, b.out) && (b.x.stage == AssertDir ==> x.stage == NoXfer)
  }

  lemma EndMoves(x: Xfer, wait: bool, bus: Bus, link: Link)
    requires O.DataSound(x, bus) && Calm(x, link) && EopLeft(x.stage) > 0
    ensures Moves(x, H.BulkOut(x, 0, wait, Seen(bus, link)))
  {
    hide Crc, Low, High, DriveEop, CommandsLeft, Command, Seen;
    H.BulkOutSound(x, 0, wait, Seen(bus, link));
    EopCall(x, bus, link);
    EndCommand(x, bus, link);
  }

  lemma BodyMoves(x: Xfer, wait: bool, bus: Bus, link: Link)
    requires O.DataSound(x, bus) && Calm(x, link) && EopLeft(x.stage) == 0 && !Waited(x, wait, bus)
    ensures Moves(x, H.BulkOut(x, 0, wait, Seen(bus, link)))
  {
    hide Crc, Low, High, DriveEop;
    H.BulkOutSound(x, 0, wait, Seen(bus, link));
  }

  lemma EndCommand(x: Xfer, bus: Bus, link: Link)
    requires EopLeft(x.stage) > 0 && Fits(x.stage, bus)
    ensures var r := DriveEop(x, Seen(bus, link));
      Command(r.out) + (if x.stage == LineIdle then [] else CommandsLeft(r.x.stage)) == CommandsLeft(x.stage)
  {
  }

  /** n calls of a packet that needs least ones, m of its RX CMDs up to the last byte. */
  predicate Paced(least: nat, m: nat, calls: nat) { m >= 1 && m - 1 <= calls - least <= m }

  /** The bytes of a data packet so far. */
  ghost predicate Bytes(x: Xfer, p: Packet)
    requires Sound(x)
  {
    && Sound(p.x) && p.x.tx == x.tx && p.x.epSeq == x.epSeq && p.x.endpoint == x.endpoint
    && p.driven + (if p.over then [] else O.DataRest(p.x)) == O.Packet(x)
    && (!p.over ==> O.DataSound(p.x, p.bus))
  }

  /** Its RX CMDs so far. */
  ghost predicate Commands(x: Xfer, p: Packet, m: nat) {
    && Sound(p.x)
    && p.commands + (if p.over then [] else CommandsLeft(p.x.stage)) == Pauses(m) + [0x4C, 0x4D]
    && Paced(|x.tx| + 9, m, p.calls + if p.over then 0 else O.DataLeast(p.x))
    && (!p.over ==>
         && Turned(p.x.stage, p.bus)
         && (p.x.stage == NoXfer || (p.x.stage == AssertDir && p.bus.nxt) ==>
              p.calls + O.DataLeast(p.x) == |x.tx| + 9 && m == 1))
  }

  lemma MorePauses(cs: seq<Byte>, m: nat)
    requires cs + [0x4C, 0x4D] == Pauses(m) + [0x4C, 0x4D]
    ensures cs + [0x5D] + [0x4C, 0x4D] == Pauses(m + 1) + [0x4C, 0x4D]
  {
    assert (cs + [0x4C, 0x4D])[..m] == cs;
  }

  lemma BytesStep(x: Xfer, p: Packet, call: Call)
    requires Sound(x) && Bytes(x, p) && !p.over && Calm(p.x, call.link)
    ensures Bytes(x, Send(p, call))
  {
    hide TokenSend, AckSend, H.BulkOut, Fits, Driven, Command, Seen, Calm, O.DataRest, O.Packet, O.DataSound;
    Sends(p, call);
    O.DataPhase(p.x, 0, call.wait, p.bus, call.link);
  }

  /** The step of the data packet, in terms of the transaction's. */
  lemma Sends(p: Packet, call: Call)
    requires O.DataSound(p.x, p.bus) && Sound(p.x) && !p.over
    ensures Sending(p.x.kind)
    ensures var i := Seen(p.bus, call.link);
      var b, p' := H.BulkOut(p.x, 0, call.wait, i), Send(p, call);
      && p'.x == b.x && p'.bus == b.out && (p'.over <==> b.code != More || b.x.kind == UpAck)
      && p'.driven == p.driven + Driven(b.out) && p'.commands == p.commands + Command(b.out)
      && p'.calls == p.calls + 1
  {
    hide H.BulkOut, Driven, Command, Seen, TokenSend, AckSend;
  }

  /** The calls of a packet, with those that are left without further wait-states. */
  function Total(p: Packet): nat
    requires Sound(p.x)
  {
    p.calls + if p.over then 0 else O.DataLeast(p.x)
  }

  lemma WaitStep(x: Xfer, p: Packet, call: Call, m: nat) returns (m': nat)
    requires Commands(x, p, m) && O.DataSound(p.x, p.bus) && !p.over && Waited(p.x, call.wait, p.bus)
    ensures Commands(x, Send(p, call), m') && Total(Send(p, call)) == Total(p) + 1
  {
    hide H.BulkOut, Driven, Command, Seen, O.DataSound, Send, CommandsLeft, Pauses, O.DataLeast;
    Sends(p, call);
    WaitCommand(p.x, call.wait, p.bus, call.link);
    m' := m;
    if p.x.stage != AssertDir {
      MorePauses(p.commands, m);
      m' := m + 1;
    }
  }

  lemma MoveStep(x: Xfer, p: Packet, call: Call, m: nat)
    requires Commands(x, p, m) && O.DataSound(p.x, p.bus) && !p.over && !Waited(p.x, call.wait, p.bus)
    requires Calm(p.x, call.link)
    ensures Commands(x, Send(p, call), m) && Total(Send(p, call)) == Total(p)
  {
    hide H.BulkOut, Driven, Command, Seen, O.DataSound, Send, CommandsLeft, Pauses, O.DataLeast, Calm, Turned;
    Sends(p, call);
    if EopLeft(p.x.stage) > 0 { EndMoves(p.x, call.wait, p.bus, call.link); }
    else { BodyMoves(p.x, call.wait, p.bus, call.link); }
  }

  /** How many calls are wait-states: the coin came up while a byte was to follow and nxt was high. */
  function Waits(x: Xfer, bus: Bus, calls: seq<Call>): nat
    requires Sound(x)
  {
    if calls == [] then 0
    else
      var p, call := Execute(x, bus, calls[..|calls| - 1]), calls[|calls| - 1];
      Waits(x, bus, calls[..|calls| - 1]) + if !p.over && Waited(p.x, call.wait, p.bus) then 1 else 0
  }

  lemma {:induction false} DataRun(x: Xfer, bus: Bus, calls: seq<Call>) returns (m: nat)
    requires O.DataSound(x, bus) && x.stage == NoXfer && x.txPtr == 0 && AllCalm(x, bus, calls)
    ensures Sound(x)
    ensures var p := Execute(x, bus, calls);
      && Bytes(x, p) && Commands(x, p, m) && p.calls <= |calls| && (!p.over ==> p.calls == |calls|)
      && Total(p) == |x.tx| + 9 + Waits(x, bus, calls)
  {
    hide Commands, Send, AllCalm, O.DataSound, O.Packet, O.DataRest;
    DataStarts(x, bus);
    m := 1;
    if calls != [] {
      var k := |calls| - 1;
      var p := Execute(x, bus, calls[..k]);
      CalmFront(x, bus, calls);
      m := DataRun(x, bus, calls[..k]);
      Counted(p, calls[k]);
      OverKept(p, calls[k]);
      if !p.over {
        BytesStep(x, p, calls[k]);
        if Waited(p.x, calls[k].wait, p.bus) { m := WaitStep(x, p, calls[k], m); } else { MoveStep(x, p, calls[k], m); }
      }
    }
  }

  lemma OverKept(p: Packet, call: Call)
    requires Sound(p.x)
    ensures p.over ==> Send(p, call).over
  {
    hide Drive;
  }

  lemma DataStarts(x: Xfer, bus: Bus)
    requires O.DataSound(x, bus) && x.stage == NoXfer && x.txPtr == 0
    ensures Sound(x)
    ensures var p := Packet(x, bus, false, [], [], 0); Bytes(x, p) && Commands(x, p, 1)
  {
    hide Crc, Low, High;
    assert Pauses(1) == [0x5D];
  }

  /**
   A data packet, from a free bus and with any wait-states: its bytes, and the
   RX CMDs around and between them, one for every wait-state but for one while
   the bus turns around.
   */
  lemma DataPacket(x: Xfer, bus: Bus, calls: seq<Call>) returns (m: nat)
    requires O.DataSound(x, bus) && x.stage == NoXfer && x.txPtr == 0 && AllCalm(x, bus, calls)
    ensures Sound(x)
    ensures var p := Execute(x, bus, calls);
      && (p.over ==>
           && p.driven == O.Packet(x) && p.commands == Pauses(m) + [0x4C, 0x4D]
           && Paced(|x.tx| + 9, m, p.calls)
           && p.calls == |x.tx| + 9 + Waits(x, bus, calls) <= |calls|)
      && p.driven <= O.Packet(x) && p.commands <= Pauses(m) + [0x4C, 0x4D]
  {
    hide O.Packet, O.DataRest, CommandsLeft, Send, O.DataLeast;
    m := DataRun(x, bus, calls);
  }

  // -------------------------------------------------------- the handshake

  ghost predicate InAck(x: Xfer, p: Packet) {
    && (if p.over then p.calls == 7 else
          && p.calls < 7 && p.x == x.(stage := p.x.stage) && !p.bus.stp
          && (match p.calls
              case 0 => p.x.stage == NoXfer && Fits(NoXfer, p.bus) && BusIdle(p.bus)
              case 1 => p.x.stage == AssertDir && p.bus.dir && p.bus.nxt
              case 2 => p.x.stage == InitRxCmd && Fits(InitRxCmd, p.bus)
              case _ => EopLeft(p.x.stage) == 7 - p.calls && Fits(p.x.stage, p.bus)))
    && p.driven == (if p.calls <= 2 then [] else [0xD2])
    && p.commands + (if p.over then [] else CommandsLeft(p.x.stage)) == [0x5D, 0x4C, 0x4D]
  }

  lemma AckHead(x: Xfer, p: Packet, call: Call)
    requires Sound(x) && x.kind == DnAck && Sound(p.x) && InAck(x, p) && call.link == QUIET && p.calls < 3 && !p.over
    ensures InAck(x, Send(p, call))
  {
    hide TokenSend, H.BulkOut, DriveEop;
  }

  lemma AckEnd(x: Xfer, p: Packet, call: Call)
    requires Sound(x) && x.kind == DnAck && Sound(p.x) && InAck(x, p) && call.link == QUIET && p.calls >= 3 && !p.over
    ensures InAck(x, Send(p, call))
  {
    hide Send, AckSend, DriveEop, Driven, Command, Seen, CommandsLeft, Fits, Sound;
    var p' := Send(p, call);
    AckSends(p, call);
    EopCall(p.x, p.bus, QUIET);
    EndCommand(p.x, p.bus, QUIET);
    QuietEnd(p.x, p.bus);
    Joined(p.commands, Command(p'.bus), if p'.over then [] else CommandsLeft(p'.x.stage), CommandsLeft(p.x.stage));
  }

  /** The step of the ACK packet. */
  lemma AckSends(p: Packet, call: Call)
    requires Sound(p.x) && p.x.kind == DnAck && !p.over
    ensures var r, p' := AckSend(p.x, Seen(p.bus, call.link)), Send(p, call);
      && p'.x == r.x && p'.bus == r.out && (p'.over <==> r.code != More || r.x.kind == UpAck)
      && p'.driven == p.driven + Driven(r.out) && p'.commands == p.commands + Command(r.out)
      && p'.calls == p.calls + 1
  {
    hide TokenSend, AckSend, H.BulkOut, Driven, Command, Seen;
  }

  lemma QuietEnd(x: Xfer, bus: Bus)
    requires EopLeft(x.stage) > 0
    ensures DriveEop(x, Seen(bus, QUIET)).out.stp == false
    ensures AckSend(x.(kind := DnAck), Seen(bus, QUIET)) == DriveEop(x.(kind := DnAck), Seen(bus, QUIET))
  {
  }

  predicate AllQuiet(calls: seq<Call>) { forall call :: call in calls ==> call.link == QUIET }

  /** The ACK packet, from an idle bus: seven calls, its identifier and the RX CMDs around it. */
  lemma {:induction false} AckPacket(x: Xfer, bus: Bus, calls: seq<Call>)
    requires Sound(x) && x.kind == DnAck && x.stage == NoXfer && BusIdle(bus) && AllQuiet(calls)
    ensures var p := Execute(x, bus, calls);
      && InAck(x, p) && (p.over <==> |calls| >= 7) && p.calls == (if |calls| < 7 then |calls| else 7)
      && (p.over ==> p.driven == [0xD2] && p.commands == [0x5D, 0x4C, 0x4D])
  {
    hide Send;
    if calls != [] {
      var k := |calls| - 1;
      var p := Execute(x, bus, calls[..k]);
      assert calls[k] in calls;
      AckPacket(x, bus, calls[..k]);
      if !p.over {
        if p.calls < 3 { AckHead(x, p, calls[k]); } else { AckEnd(x, p, calls[k]); }
      }
      Counted(p, calls[k]);
    }
  }
}
