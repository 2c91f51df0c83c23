/**
 The transaction steps of the simulated USB host, one bus cycle a call: they
 read the ULPI bus, update the transfer and drive the bus. Outputs start as a
 copy of the inputs.
 */
module Ulpi {
  import opened Words
  import opened Crc16

  /** data is the pair (a, b); b is zero when a is driven with logic levels. */
  datatype Bus = Bus(dir: bool, stp: bool, nxt: bool, a: Byte, b: Byte)

  datatype Kind = Idle | Setup | Out | In | Sof | DnData0 | DnData1 | DnAck | UpAck | UpData0 | UpData1 | TimeOut

  datatype Stage =
    | NoXfer | AssertDir | InitRxCmd | TokenPid | Token1 | Token2 | HskPid | HskStop
    | DataPid | DataBody | DataCrc1 | DataCrc2 | DataStop | EndRxCmd | Eop | LineIdle

  /** 0, 1, -1, -2 and -3, or a failed assertion. */
  datatype Code = More | Done | Bad | BadPid | BadSeq | Abort

  /** tx holds the tx_len bytes to send; rx is the whole receive buffer. */
  datatype Xfer = Xfer(
    kind: Kind,
    stage: Stage,
    endpoint: nat,
    epSeq: seq<bool>,
    cycle: nat,
    tx: seq<Byte>,
    txPtr: nat,
    rx: seq<Byte>,
    rxLen: int,
    rxPtr: nat,
    tok1: Byte,
    tok2: Byte,
    crc1: Byte,
    crc2: Byte)

  datatype Reply = Reply(code: Code, x: Xfer, out: Bus)

  predicate Sending(k: Kind) { k.DnData0? || k.DnData1? }

  predicate Receiving(k: Kind) { k.UpData0? || k.UpData1? }

  predicate Token(k: Kind) { k.Setup? || k.Out? || k.In? || k.Sof? }

  /** Nothing of the outgoing data was driven yet. */
  predicate Unsent(x: Xfer) {
    x.kind.Out? || (Sending(x.kind) && x.stage in {NoXfer, AssertDir, InitRxCmd, DataPid})
  }

  predicate Sound(x: Xfer) {
    && x.endpoint < 16 == |x.epSeq|
    && x.txPtr <= |x.tx|
    && (Unsent(x) ==> x.txPtr == 0)
    && 2 <= |x.rx| && x.rxPtr <= |x.rx|
  }

  /** A packet identifier and, above it, its complement. */
  function PidByte(k: Kind): Byte {
    var pid := match k
      case Setup => 13
      case Out => 1
      case In => 9
      case Sof => 5
      case DnAck | UpAck => 2
      case DnData0 | UpData0 => 3
      case DnData1 | UpData1 => 11
      case Idle | TimeOut => 15;
    if k.Idle? || k.TimeOut? then 255
    else if k.UpAck? || Receiving(k) then pid + 0x10
    else pid + 16 * (15 - pid)
  }

  predicate BusIdle(i: Bus) { i.a == 0 && i.b == 0 && !i.dir && !i.nxt && !i.stp }

  /** The data toggle of a packet identifier is the one the endpoint expects. */
  predicate SeqMatches(x: Xfer, pid: nat)
    requires Sound(x)
  {
    (pid == 3 && !x.epSeq[x.endpoint]) || (pid == 11 && x.epSeq[x.endpoint])
  }

  function Flip(s: seq<bool>, ep: nat): seq<bool>
    requires ep < |s|
  {
    s[ep := !s[ep]]
  }

  /** The receiver's check of a data packet; fewer than three bytes take the zero-length branch. */
  predicate CheckRx(rx: seq<Byte>, ptr: nat)
    requires 2 <= |rx| && ptr <= |rx|
  {
    if ptr > 2 then
      var crc := Crc(rx[..ptr - 2]);
      Low(crc) == rx[ptr - 2] && High(crc) == rx[ptr - 1] && Dec(Crc(rx[..ptr])) == 0x4FFE
    else rx[0] == 0 && rx[1] == 0
  }

  lemma CheckCode(bytes: seq<Byte>)
    ensures Dec(Crc(bytes)) == 0x4FFE <==> Checks(bytes)
  {
    var r := Feed(Start(), Bits(bytes));
    var n := [false] + Ones(11) + [false, false, true, false];
    assert Not(Residue()) == n;
    CodeValue();
    DecBound(n);
    DecBound(Not(r));
    assert Not(Not(r)) == r && Not(n) == Residue();
  }

  lemma TopBits()
    ensures Dec([false, false, true, false]) == 4
  {
    var top := [false, false, true, false];
    assert top[1..] == [false, true, false] && top[1..][1..] == [true, false] && [true, false][1..] == [false];
  }

  lemma CodeValue()
    ensures Dec([false] + Ones(11) + [false, false, true, false]) == 0x4FFE
  {
    DecAppend([false] + Ones(11), [false, false, true, false]);
    DecAppend([false], Ones(11));
    DecZerosOnes(11);
    TopBits();
    assert Pow2(11) == 2048 && Pow2(12) == 4096;
  }

  lemma EmptyCrc()
    ensures Low(Crc([])) == 0 && High(Crc([])) == 0
  {
    assert Not(Ones(16))[..8] == Zeros(8) && Not(Ones(16))[8..] == Zeros(8);
    DecZerosOnes(8);
  }

  /**
   With at least two bytes received, the receiver's check is the CRC check:
   the comparison of the trailer already implies the comparison with 0x4FFE,
   and the zero-length branch agrees. With fewer, it looks at two bytes of
   which one or both are left over from earlier packets.
   */
  lemma CheckRxExact(rx: seq<Byte>, ptr: nat)
    requires 2 <= |rx| && ptr <= |rx|
    ensures ptr >= 2 ==> (CheckRx(rx, ptr) <==> Checks(rx[..ptr]))
    ensures ptr > 2 ==> (CheckRx(rx, ptr) <==>
      Low(Crc(rx[..ptr - 2])) == rx[ptr - 2] && High(Crc(rx[..ptr - 2])) == rx[ptr - 1])
    ensures ptr < 2 ==> (CheckRx(rx, ptr) <==> rx[0] == 0 && rx[1] == 0)
  {
    if ptr >= 2 {
      var m := rx[..ptr - 2];
      assert rx[..ptr] == m + [rx[ptr - 2], rx[ptr - 1]];
      ResidueTheorem(m, rx[ptr - 2], rx[ptr - 1]);
      CheckCode(rx[..ptr]);
      if ptr == 2 { EmptyCrc(); }
    }
  }

  lemma ZeroByte()
    ensures Bits([0]) == Zeros(8)
  {
    assert [0][..0] == [] && Bits([]) == [];
    DecZerosOnes(8);
    DecBound(Zeros(8));
  }

  /** A packet too short to hold a CRC that the receiver lets pass is never a valid one. */
  lemma ShortPacket(rx: seq<Byte>, ptr: nat)
    requires 2 <= |rx| && ptr < 2 && CheckRx(rx, ptr)
    ensures !Checks(rx[..ptr])
  {
    assert !Ones(16)[1] == Residue()[1];
    if ptr == 1 {
      assert rx[..1] == [0];
      ZeroByte();
      FeedZeros(Start(), 8);
      Fades(3);
      assert !Fading(3)[15] && Residue()[15];
    }
  }

  // ------------------------------------------------------ the step functions

  /** Ends a packet: two RX CMDs, then the bus is released and must be idle. */
  function DriveEop(x: Xfer, i: Bus): Reply {
    match x.stage
    case NoXfer => Reply(Done, x, i)
    case Token2 | DataCrc2 | HskPid =>
      if !(i.dir && i.nxt && i.b == 0) then Reply(Abort, x, i)
      else Reply(More, x.(stage := EndRxCmd), i.(nxt := false, a := 0x4C))
    case DataStop =>
      if i.nxt then Reply(Abort, x, i)
      else Reply(More, x.(stage := EndRxCmd), i.(a := 0x4C, b := 0))
    case EndRxCmd =>
      if !(i.dir && !i.nxt && i.b == 0) then Reply(Abort, x, i)
      else Reply(More, x.(stage := Eop), i.(a := 0x4D))
    case Eop =>
      if !(i.dir && !i.nxt && i.b == 0) then Reply(Abort, x, i)
      else Reply(More, x.(stage := LineIdle), i.(dir := false, a := 0, b := 0xFF))
    case LineIdle =>
      if !(!i.dir && !i.nxt && i.a == 0) then Reply(Abort, x, i)
      else Reply(Done, x.(kind := Idle, stage := NoXfer), i)
    case _ => Reply(Bad, x, i)
  }

  function TokenSend(x: Xfer, i: Bus): Reply {
    if !x.stage.NoXfer? && !x.stage.LineIdle? && !i.dir then Reply(Bad, x, i)
    else if !Token(x.kind) then Reply(Bad, x, i)
    else match x.stage
      case NoXfer => Reply(More, x.(stage := AssertDir), i.(dir := true, nxt := true, a := 0, b := 0xFF))
      case AssertDir => Reply(More, x.(stage := InitRxCmd), i.(nxt := false, a := 0x5D, b := 0))
      case InitRxCmd => Reply(More, x.(stage := TokenPid), i.(dir := true, nxt := true, a := PidByte(x.kind)))
      case TokenPid => Reply(More, x.(stage := Token1), i.(nxt := true, a := x.tok1, b := 0))
      case Token1 =>
        if !(i.dir && i.nxt && i.b == 0) then Reply(Abort, x, i)
        else Reply(More, x.(stage := Token2), i.(a := x.tok2))
      case _ => DriveEop(x, i)
  }

  function DataSend(x: Xfer, i: Bus): Reply
    requires Sound(x)
  {
    var pid := if x.kind.DnData0? then 0xC3 else 0x4B;
    if !SeqMatches(x, pid % 16) || !Sending(x.kind) then Reply(Bad, x, i)
    else match x.stage
      case NoXfer =>
        if i.a != 0 || i.stp then Reply(Bad, x, i)
        else Reply(More, x.(stage := AssertDir), i.(dir := true, nxt := true, a := 0, b := 0xFF))
      case AssertDir => Reply(More, x.(stage := InitRxCmd), i.(nxt := false, a := 0x5D, b := 0))
      case InitRxCmd => Reply(More, x.(stage := DataPid), i.(nxt := true, a := pid, b := 0))
      case DataPid =>
        if x.tx != [] then
          Reply(More, x.(stage := DataBody, txPtr := x.txPtr + 1), i.(nxt := true, a := x.tx[x.txPtr], b := 0))
        else Reply(More, x.(stage := DataCrc1), i.(nxt := true, a := 0, b := 0))
      case DataBody =>
        if x.txPtr < |x.tx| then
          Reply(More, x.(txPtr := x.txPtr + 1), i.(nxt := true, a := x.tx[x.txPtr], b := 0))
        else Reply(More, x.(stage := DataCrc1), i.(nxt := true, a := x.crc1, b := 0))
      case DataCrc1 => Reply(More, x.(stage := DataCrc2), i.(nxt := true, a := x.crc2, b := 0))
      case _ => DriveEop(x, i)
  }

  /** One byte more in the receive buffer; the source does not guard its end. */
  function Collect(x: Xfer, i: Bus): Reply
    requires Sound(x)
  {
    if i.stp then
      var crc := Crc(x.rx[..if x.rxPtr > 2 then x.rxPtr - 2 else 0]);
      var x' := x.(stage := DataStop, rxLen := x.rxPtr - 2);
      Reply(if CheckRx(x.rx, x.rxPtr) then More else Bad,
            if x.rxPtr > 2 then x'.(crc1 := Low(crc), crc2 := High(crc)) else x',
            i.(nxt := false, a := 0, dir := true, b := 0xFF))
    else if i.nxt then
      if x.rxPtr == |x.rx| then Reply(Abort, x, i)
      else Reply(More, x.(rx := x.rx[x.rxPtr := i.a], rxPtr := x.rxPtr + 1), i)
    else Reply(More, x, i.(nxt := true))
  }

  function DataRecv(x: Xfer, i: Bus): Reply
    requires Sound(x)
  {
    if !Receiving(x.kind) then Reply(Bad, x, i)
    else match x.stage
      case NoXfer =>
        if i.a != 0 then Reply(More, x.(stage := DataPid), i.(dir := false, nxt := true))
        else Reply(More, x, i.(dir := false))
      case DataPid =>
        if !(!i.dir && i.nxt && i.b == 0) then Reply(Abort, x, i)
        else Reply(
          if i.a != 0x43 && i.a != 0x4B then BadPid else if !SeqMatches(x, i.a % 16) then BadSeq else More,
          x.(stage := DataBody, rxPtr := 0), i.(nxt := false))
      case DataBody => if i.dir then Reply(Abort, x, i) else Collect(x, i)
      case _ => DriveEop(x, i)
  }

  function AckRecv(x: Xfer, i: Bus): Reply
    requires Sound(x)
  {
    if !x.kind.UpAck? then Reply(Bad, x, i)
    else match x.stage
      case NoXfer =>
        if BusIdle(i) then Reply(More, x, i)
        else if i.a == 0x42 then
          Reply(More, x.(stage := HskPid, epSeq := Flip(x.epSeq, x.endpoint)), i.(nxt := true))
        else Reply(Bad, x, i)
      case HskPid =>
        if i.dir || i.b != 0 then Reply(Abort, x, i)
        else Reply(More, if i.stp then x.(stage := HskStop) else x, i.(nxt := false))
      case HskStop =>
        if i.dir || i.nxt || i.stp then Reply(Abort, x, i) else Reply(Done, x.(stage := NoXfer), i)
      case _ => Reply(Bad, x, i)
  }

  function AckSend(x: Xfer, i: Bus): Reply {
    if !x.kind.DnAck? then Reply(Bad, x, i)
    else match x.stage
      case NoXfer =>
        if !BusIdle(i) then Reply(Bad, x, i)
        else Reply(More, x.(stage := AssertDir), i.(dir := true, nxt := true, a := 0, b := 0xFF))
      case AssertDir =>
        if !(i.dir && i.nxt && !i.stp) then Reply(Abort, x, i)
        else Reply(More, x.(stage := InitRxCmd), i.(nxt := false, a := 0x5D, b := 0))
      case InitRxCmd =>
        if !(i.dir && !i.nxt && !i.stp && i.b == 0) then Reply(Abort, x, i)
        else Reply(More, x.(stage := HskPid), i.(nxt := true, a := PidByte(x.kind)))
      case _ => DriveEop(x, i)
  }

  // ---------------------------------------------------------- the transfer

  class Transfer {
    var kind: Kind
    var stage: Stage
    var endpoint: nat
    var epSeq: seq<bool>
    var cycle: nat
    var tx: seq<Byte>
    var txPtr: nat
    const rx: array<Byte>
    var rxLen: int
    var rxPtr: nat
    var tok1: Byte
    var tok2: Byte
    var crc1: Byte
    var crc2: Byte

    function State(): Xfer
      reads this, rx
    {
      Xfer(kind, stage, endpoint, epSeq, cycle, tx, txPtr, rx[..], rxLen, rxPtr, tok1, tok2, crc1, crc2)
    }

    constructor ()
      ensures Sound(State()) && fresh(rx)
      ensures kind == Idle && stage == NoXfer && rx.Length == 512
    {
      kind, stage, endpoint, epSeq, cycle := Idle, NoXfer, 0, seq(16, i => false), 0;
      tx, txPtr, rxLen, rxPtr := [], 0, 0, 0;
      rx := new Byte[512](i => 0);
      tok1, tok2, crc1, crc2 := 0, 0, 0, 0;
    }

    method DriveEopStep(i: Bus) returns (code: Code, out: Bus)
      modifies this`kind, this`stage
      ensures Reply(code, State(), out) == DriveEop(old(State()), i)
    {
      code, out := More, i;
      match stage
      case NoXfer =>
        code := Done;
      case Token2 | DataCrc2 | HskPid =>
        if !(i.dir && i.nxt && i.b == 0) { return Abort, i; }
        out := out.(nxt := false, a := 0x4C);
        stage := EndRxCmd;
      case DataStop =>
        if i.nxt { return Abort, i; }
        out := out.(a := 0x4C, b := 0);
        stage := EndRxCmd;
      case EndRxCmd =>
        if !(out.dir && !out.nxt && out.b == 0) { return Abort, i; }
        out := out.(a := 0x4D);
        stage := Eop;
      case Eop =>
        if !(out.dir && !out.nxt && out.b == 0) { return Abort, i; }
        out := out.(dir := false, a := 0, b := 0xFF);
        stage := LineIdle;
      case LineIdle =>
        if i.dir || i.nxt || i.a != 0 { return Abort, i; }
        kind, stage, code := Idle, NoXfer, Done;
      case _ =>
        code := Bad;
    }

    method TokenSendStep(i: Bus) returns (code: Code, out: Bus)
      modifies this`kind, this`stage
      ensures Reply(code, State(), out) == TokenSend(old(State()), i)
    {
      if !stage.NoXfer? && !stage.LineIdle? && !i.dir { return Bad, i; }
      if !Token(kind) { return Bad, i; }
      code, out := More, i;
      match stage
      case NoXfer =>
        out := out.(dir := true, nxt := true, a := 0, b := 0xFF);
        stage := AssertDir;
      case AssertDir =>
        out := out.(nxt := false, a := 0x5D, b := 0);
        stage := InitRxCmd;
      case InitRxCmd =>
        out := out.(dir := true, nxt := true, a := PidByte(kind));
        stage := TokenPid;
      case TokenPid =>
        out := out.(nxt := true, a := tok1, b := 0);
        stage := Token1;
      case Token1 =>
        if !(out.dir && out.nxt && out.b == 0) { return Abort, i; }
        out := out.(a := tok2);
        stage := Token2;
      case _ =>
        code, out := DriveEopStep(i);
    }

    method DataSendStep(i: Bus) returns (code: Code, out: Bus)
      requires Sound(State())
      modifies this`kind, this`stage, this`txPtr
      ensures Reply(code, State(), out) == DataSend(old(State()), i)
    {
      var pid := if kind.DnData0? then 0xC3 else 0x4B;
      if !SeqMatches(State(), pid % 16) || !Sending(kind) { return Bad, i; }
      code, out := More, i;
      match stage
      case NoXfer =>
        if i.a != 0 || i.stp { return Bad, i; }
        out := out.(dir := true, nxt := true, a := 0, b := 0xFF);
        stage := AssertDir;
      case AssertDir =>
        out := out.(nxt := false, a := 0x5D, b := 0);
        stage := InitRxCmd;
      case InitRxCmd =>
        out := out.(nxt := true, a := pid, b := 0);
        stage := DataPid;
      case DataPid =>
        out := out.(nxt := true, b := 0);
        if |tx| > 0 {
          out := out.(a := tx[txPtr]);
          txPtr := txPtr + 1;
          stage := DataBody;
        } else {
          out := out.(a := 0);
          stage := DataCrc1;
        }
      case DataBody =>
        out := out.(nxt := true, b := 0);
        if txPtr < |tx| {
          out := out.(a := tx[txPtr]);
          txPtr := txPtr + 1;
        } else {
          out := out.(a := crc1);
          stage := DataCrc1;
        }
      case DataCrc1 =>
        out := out.(nxt := true, a := crc2, b := 0);
        stage := DataCrc2;
      case _ =>
        code, out := DriveEopStep(i);
    }

    method CheckRxCrc16() returns (ok: bool)
      requires Sound(State()) && rxLen == rxPtr - 2
      modifies this`crc1, this`crc2
      ensures ok == CheckRx(rx[..], rxPtr)
      ensures rxPtr <= 2 ==> crc1 == old(crc1) && crc2 == old(crc2)
      ensures rxPtr > 2 ==> crc1 == Low(Crc(rx[..][..rxPtr - 2])) && crc2 == High(Crc(rx[..][..rxPtr - 2]))
    {
      var len := rxLen;
      if len > 0 {
        assert rx[..len] == rx[..][..len] && rx[..rxPtr] == rx[..][..rxPtr];
        var crc := Calc(rx[..len]);
        var cod := Calc(rx[..rxPtr]);
        crc1, crc2 := Low(crc), High(crc);
        ok := crc1 == rx[len] && crc2 == rx[len + 1] && Dec(cod) == 0x4FFE;
      } else {
        ok := rx[0] == 0 && rx[1] == 0;
      }
    }

    /** A data byte from the link, or the end of its packet. */
    method CollectStep(i: Bus) returns (code: Code, out: Bus)
      requires Sound(State())
      modifies this`stage, this`rxLen, this`rxPtr, this`crc1, this`crc2, rx
      ensures Reply(code, State(), out) == Collect(old(State()), i)
    {
      code, out := More, i;
      if i.stp {
        out := out.(nxt := false, a := 0, dir := true, b := 0xFF);
        stage := DataStop;
        rxLen := rxPtr - 2;
        var ok := CheckRxCrc16();
        if !ok { code := Bad; }
      } else if i.nxt {
        if rxPtr == rx.Length { return Abort, i; }
        rx[rxPtr] := i.a;
        rxPtr := rxPtr + 1;
      } else {
        out := out.(nxt := true);
      }
    }

    method DataRecvStep(i: Bus) returns (code: Code, out: Bus)
      requires Sound(State())
      modifies this`kind, this`stage, this`rxLen, this`rxPtr, this`crc1, this`crc2, rx
      ensures Reply(code, State(), out) == DataRecv(old(State()), i)
    {
      if !Receiving(kind) { return Bad, i; }
      code, out := More, i;
      match stage
      case NoXfer =>
        out := out.(dir := false);
        if i.a != 0 {
          out := out.(nxt := true);
          stage := DataPid;
        }
      case DataPid =>
        if i.dir || !i.nxt || i.b != 0 { return Abort, i; }
        out := out.(nxt := false);
        stage := DataBody;
        rxPtr := 0;
        if i.a != 0x43 && i.a != 0x4B {
          code := BadPid;
        } else if !SeqMatches(State(), i.a % 16) {
          code := BadSeq;
        }
      case DataBody =>
        if i.dir { return Abort, i; }
        code, out := CollectStep(i);
      case _ =>
        code, out := DriveEopStep(i);
    }

    /** The endpoint expects the other data packet next; no other endpoint is affected. */
    method Acknowledge()
      requires endpoint < |epSeq|
      modifies this`epSeq
      ensures |epSeq| == |old(epSeq)|
      ensures epSeq[endpoint] != old(epSeq)[endpoint]
      ensures forall k :: 0 <= k < |epSeq| && k != endpoint ==> epSeq[k] == old(epSeq)[k]
    {
      epSeq := epSeq[endpoint := !epSeq[endpoint]];
    }

    method AckRecvStep(i: Bus) returns (code: Code, out: Bus)
      requires Sound(State())
      modifies this`stage, this`epSeq
      ensures Reply(code, State(), out) == AckRecv(old(State()), i)
    {
      if !kind.UpAck? { return Bad, i; }
      code, out := More, i;
      match stage
      case NoXfer =>
        if !BusIdle(i) {
          if i.a == 0x42 {
            out := out.(nxt := true);
            stage := HskPid;
            Acknowledge();
            assert epSeq == Flip(old(epSeq), endpoint);
          } else {
            code := Bad;
          }
        }
      case HskPid =>
        if i.dir || i.b != 0 { return Abort, i; }
        out := out.(nxt := false);
        if i.stp { stage := HskStop; }
      case HskStop =>
        if i.dir || i.nxt || i.stp { return Abort, i; }
        stage := NoXfer;
        code := Done;
      case _ =>
        code := Bad;
    }

    method AckSendStep(i: Bus) returns (code: Code, out: Bus)
      modifies this`kind, this`stage
      ensures Reply(code, State(), out) == AckSend(old(State()), i)
    {
      if !kind.DnAck? { return Bad, i; }
      code, out := More, i;
      match stage
      case NoXfer =>
        if !BusIdle(i) { return Bad, i; }
        out := out.(dir := true, nxt := true, a := 0, b := 0xFF);
        stage := AssertDir;
      case AssertDir =>
        if !(i.dir && i.nxt && !i.stp) { return Abort, i; }
        out := out.(nxt := false, a := 0x5D, b := 0);
        stage := InitRxCmd;
      case InitRxCmd =>
        if !(i.dir && !i.nxt && !i.stp && i.b == 0) { return Abort, i; }
        out := out.(nxt := true, a := PidByte(kind));
        stage := HskPid;
      case _ =>
        code, out := DriveEopStep(i);
    }
  }
}
