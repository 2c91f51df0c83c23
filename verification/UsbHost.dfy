/** The host's bulk transactions, and the call that runs them once a bus cycle. */
module UsbHost {
  import opened Crc16
  import opened Ulpi

  const TURNAROUND := 40

  /** Deadlines are kept in 32 bits. */
  function Deadline(cycle: nat): nat { (cycle + TURNAROUND) % 0x1_0000_0000 }

  /** wait is the coin that inserts a wait-state where the source consults its random numbers. */
  function BulkOut(x: Xfer, cycle: nat, wait: bool, i: Bus): Reply
    requires Sound(x)
  {
    match x.kind
    case Out =>
      var r := TokenSend(x, i);
      if r.code == Done then
        Reply(More, r.x.(kind := if x.epSeq[x.endpoint] then DnData1 else DnData0, stage := NoXfer), r.out)
      else r
    case DnData0 | DnData1 =>
      if x.txPtr < |x.tx| && i.nxt && wait then Reply(More, x, i.(nxt := false, a := 0x5D))
      else
        var r := DataSend(x, i);
        if r.code == Done then
          Reply(More, r.x.(kind := UpAck, stage := NoXfer, cycle := Deadline(cycle)), r.out)
        else r
    case UpAck =>
      if cycle >= x.cycle then Reply(Done, x.(kind := Idle, stage := NoXfer), i)
      else
        var r := AckRecv(x, i);
        if r.code == Done then r.(x := r.x.(kind := Idle, stage := NoXfer)) else r
    case _ => Reply(Bad, x, i)
  }

  /** After reception, in a transaction that times out: bytes are still taken, the rest of the packet is ended. */
  function Ignore(x: Xfer, i: Bus): Reply
    requires Sound(x)
  {
    if x.stage == DataBody then
      if i.dir || i.b != 0 then Reply(Abort, x, i) else Collect(x, i)
    else
      var r := DriveEop(x, i);
      if r.code == Bad || r.code == Abort then r else r.(code := More, x := r.x.(kind := TimeOut))
  }

  function BulkIn(x: Xfer, cycle: nat, wait: bool, i: Bus): Reply
    requires Sound(x)
  {
    match x.kind
    case In =>
      var r := TokenSend(x, i);
      if r.code == Done then
        Reply(More,
              r.x.(kind := if x.epSeq[x.endpoint] then UpData1 else UpData0, stage := NoXfer, cycle := Deadline(cycle)),
              r.out)
      else r
    case UpData0 | UpData1 =>
      var r := DataRecv(x, i);
      if r.code == Abort then r
      else if r.x.rxPtr == 0 && cycle >= x.cycle then Reply(More, r.x.(kind := TimeOut), r.out)
      else if r.code == BadSeq then Reply(More, r.x.(kind := TimeOut, cycle := Deadline(cycle)), r.out)
      else if r.code == Done then Reply(More, r.x.(kind := DnAck, stage := NoXfer), r.out)
      else if r.code == More && r.x.rxPtr > 0 && r.out.nxt && wait then r.(out := r.out.(nxt := false))
      else r
    case DnAck =>
      var r := AckSend(x, i);
      if r.code == Done then
        r.(x := r.x.(kind := Idle, stage := NoXfer, epSeq := Flip(x.epSeq, x.endpoint)))
      else r
    case TimeOut =>
      if cycle >= x.cycle then Reply(Done, x.(kind := Idle, stage := NoXfer), i)
      else Ignore(x, i)
    case Idle => Reply(Done, x, i)
    case _ => Reply(Bad, x, i)
  }

  datatype Operation = BulkOUT | BulkIN

  /** The cycle counter advances before the transaction looks at it. */
  datatype Host = Host(op: Operation, cycle: nat, x: Xfer)

  datatype Result = Result(code: Code, h: Host, out: Bus)

  function Step(h: Host, wait: bool, i: Bus): (r: Result)
    requires Sound(h.x)
    ensures Sound(r.h.x)
  {
    var cycle := h.cycle + 1;
    StepSound(h.x, cycle, wait, i);
    var r := if h.op.BulkOUT? then BulkOut(h.x, cycle, wait, i) else BulkIn(h.x, cycle, wait, i);
    Result(r.code, Host(h.op, cycle, r.x), r.out)
  }

  lemma CollectSound(x: Xfer, i: Bus)
    requires Sound(x) && !Sending(x.kind)
    ensures Sound(Collect(x, i).x) && Collect(x, i).x.kind == x.kind
  {
    hide Crc, CheckRx;
  }

  lemma EopSound(x: Xfer, i: Bus)
    requires Sound(x)
    ensures var x' := DriveEop(x, i).x; x' == x.(kind := x'.kind, stage := x'.stage) && Sound(x')
    ensures var r := DriveEop(x, i); r.code == Done ==> r.x.stage == NoXfer
    ensures var x' := DriveEop(x, i).x; x'.kind == Idle || x' == x || (x'.kind == x.kind && x'.stage != DataPid)
  {
  }

  lemma TokenSound(x: Xfer, i: Bus)
    requires Sound(x)
    ensures var x' := TokenSend(x, i).x; x' == x.(kind := x'.kind, stage := x'.stage)
    ensures Token(x.kind) ==> Sound(TokenSend(x, i).x)
  {
    hide DriveEop;
    EopSound(x, i);
  }

  lemma DataSendSound(x: Xfer, i: Bus)
    requires Sound(x)
    ensures Sound(DataSend(x, i).x)
  {
    hide DriveEop;
    EopSound(x, i);
  }

  lemma AckSound(x: Xfer, i: Bus)
    requires Sound(x)
    ensures x.kind.UpAck? ==> Sound(AckRecv(x, i).x)
    ensures x.kind.DnAck? ==> Sound(AckSend(x, i).x) && !Sending(AckSend(x, i).x.kind)
  {
    hide DriveEop;
    EopSound(x, i);
  }

  lemma BulkOutSound(x: Xfer, cycle: nat, wait: bool, i: Bus)
    requires Sound(x)
    ensures Sound(BulkOut(x, cycle, wait, i).x)
  {
    hide TokenSend, DataSend, AckRecv;
    match x.kind
    case Out => TokenSound(x, i);
    case DnData0 | DnData1 => DataSendSound(x, i);
    case UpAck => AckSound(x, i);
    case _ =>
  }

  lemma ReceiveSound(x: Xfer, i: Bus)
    requires Sound(x) && Receiving(x.kind)
    ensures Sound(DataRecv(x, i).x) && !Sending(DataRecv(x, i).x.kind) && !DataRecv(x, i).x.kind.Out?
  {
    hide DriveEop, Collect;
    EopSound(x, i);
    CollectSound(x, i);
  }

  lemma BulkInSound(x: Xfer, cycle: nat, wait: bool, i: Bus)
    requires Sound(x)
    ensures Sound(BulkIn(x, cycle, wait, i).x)
  {
    hide TokenSend, DataRecv, AckSend, Ignore;
    match x.kind
    case In => TokenSound(x, i);
    case UpData0 | UpData1 => ReceiveSound(x, i);
    case DnAck => AckSound(x, i);
    case TimeOut => IgnoreSound(x, i);
    case _ =>
  }

  lemma IgnoreSound(x: Xfer, i: Bus)
    requires Sound(x) && x.kind.TimeOut?
    ensures Sound(Ignore(x, i).x)
  {
    hide DriveEop, Collect;
    EopSound(x, i);
    CollectSound(x, i);
  }

  /**
   Where reception stops for want of a guard: a byte is transferred, and the
   receive buffer is already full.
   */
  lemma OverrunExactly(x: Xfer, i: Bus)
    requires Sound(x) && x.stage == DataBody && !i.dir
    ensures Receiving(x.kind) ==> (DataRecv(x, i).code == Abort <==> i.nxt && !i.stp && x.rxPtr == |x.rx|)
    ensures x.kind == TimeOut ==>
      (Ignore(x, i).code == Abort <==> i.b != 0 || (i.nxt && !i.stp && x.rxPtr == |x.rx|))
  {
    hide CheckRx, Crc;
  }

  /** Otherwise every call keeps the indices within their buffers. */
  lemma StepSound(x: Xfer, cycle: nat, wait: bool, i: Bus)
    requires Sound(x)
    ensures Sound(BulkOut(x, cycle, wait, i).x) && Sound(BulkIn(x, cycle, wait, i).x)
  {
    BulkOutSound(x, cycle, wait, i);
    BulkInSound(x, cycle, wait, i);
  }

  class Controller {
    const xfer: Transfer
    var op: Operation
    var cycle: nat

    function State(): Host
      reads this, xfer, xfer.rx
    {
      Host(op, cycle, xfer.State())
    }

    constructor ()
      ensures fresh(xfer) && fresh(xfer.rx) && Sound(xfer.State()) && cycle == 0
    {
      op, cycle := BulkOUT, 0;
      xfer := new Transfer();
    }

    method BulkOutStep(wait: bool, i: Bus) returns (code: Code, out: Bus)
      requires Sound(xfer.State())
      modifies xfer
      ensures Reply(code, xfer.State(), out) == BulkOut(old(xfer.State()), cycle, wait, i)
    {
      match xfer.kind
      case Out =>
        code, out := xfer.TokenSendStep(i);
        if code == Done {
          xfer.kind := if xfer.epSeq[xfer.endpoint] then DnData1 else DnData0;
          xfer.stage := NoXfer;
          code := More;
        }
      case DnData0 | DnData1 =>
        if xfer.txPtr < |xfer.tx| && i.nxt && wait {
          return More, i.(nxt := false, a := 0x5D);
        }
        code, out := xfer.DataSendStep(i);
        if code == Done {
          xfer.kind := UpAck;
          xfer.stage := NoXfer;
          xfer.cycle := (cycle + TURNAROUND) % 0x1_0000_0000;
          code := More;
        }
      case UpAck =>
        if cycle >= xfer.cycle {
          xfer.kind := Idle;
          xfer.stage := NoXfer;
          return Done, i;
        }
        code, out := xfer.AckRecvStep(i);
        if code == Done {
          xfer.kind := Idle;
          xfer.stage := NoXfer;
        }
      case _ =>
        return Bad, i;
    }

    /** The branch of a transaction that timed out. */
    method IgnoreStep(i: Bus) returns (code: Code, out: Bus)
      requires Sound(xfer.State()) && xfer.kind == TimeOut
      modifies xfer, xfer.rx
      ensures Reply(code, xfer.State(), out) == Ignore(old(xfer.State()), i)
    {
      hide CheckRx, Crc;
      if xfer.stage == DataBody {
        if i.dir || i.b != 0 { return Abort, i; }
        code, out := xfer.CollectStep(i);
      } else {
        code, out := xfer.DriveEopStep(i);
        if code != Bad && code != Abort {
          xfer.kind := TimeOut;
          code := More;
        }
      }
    }

    method ReceiveStep(wait: bool, i: Bus) returns (code: Code, out: Bus)
      requires Sound(xfer.State()) && Receiving(xfer.kind)
      modifies xfer, xfer.rx
      ensures Reply(code, xfer.State(), out) == BulkIn(old(xfer.State()), cycle, wait, i)
    {
      hide Collect, DriveEop;
      code, out := xfer.DataRecvStep(i);
      if code == Abort {
        return;
      } else if xfer.rxPtr == 0 && cycle >= xfer.cycle {
        xfer.kind := TimeOut;
        code := More;
      } else if code == BadSeq {
        xfer.kind := TimeOut;
        xfer.cycle := (cycle + TURNAROUND) % 0x1_0000_0000;
        code := More;
      } else if code == Done {
        xfer.kind := DnAck;
        xfer.stage := NoXfer;
        code := More;
      } else if code == More && xfer.rxPtr > 0 && out.nxt && wait {
        out := out.(nxt := false);
      }
    }

    method BulkInStep(wait: bool, i: Bus) returns (code: Code, out: Bus)
      requires Sound(xfer.State())
      modifies xfer, xfer.rx
      ensures Reply(code, xfer.State(), out) == BulkIn(old(xfer.State()), cycle, wait, i)
    {
      hide Collect, DriveEop, DataRecv;
      match xfer.kind
      case In =>
        code, out := xfer.TokenSendStep(i);
        if code == Done {
          xfer.kind := if xfer.epSeq[xfer.endpoint] then UpData1 else UpData0;
          xfer.stage := NoXfer;
          xfer.cycle := (cycle + TURNAROUND) % 0x1_0000_0000;
          code := More;
        }
      case UpData0 | UpData1 =>
        code, out := ReceiveStep(wait, i);
      case DnAck =>
        code, out := xfer.AckSendStep(i);
        if code == Done {
          xfer.Acknowledge();
          assert xfer.epSeq == Flip(old(xfer.epSeq), xfer.endpoint);
          xfer.kind := Idle;
          xfer.stage := NoXfer;
        }
      case TimeOut =>
        if cycle >= xfer.cycle {
          xfer.kind := Idle;
          xfer.stage := NoXfer;
          return Done, i;
        }
        code, out := IgnoreStep(i);
      case Idle =>
        return Done, i;
      case _ =>
        return Bad, i;
    }

    /** One bus cycle of the bulk operations. */
    method HostStep(wait: bool, i: Bus) returns (code: Code, out: Bus)
      requires Sound(xfer.State())
      modifies this`cycle, xfer, xfer.rx
      ensures Sound(xfer.State())
      ensures Result(code, State(), out) == Step(old(State()), wait, i)
    {
      hide BulkOut, BulkIn;
      StepSound(xfer.State(), cycle + 1, wait, i);
      cycle := cycle + 1;
      match op
      case BulkOUT =>
        code, out := BulkOutStep(wait, i);
      case BulkIN =>
        code, out := BulkInStep(wait, i);
    }
  }
}
