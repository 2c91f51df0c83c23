/** Bulk IN transactions that are given up: how long the host waits, and what it makes of a wrong packet. */
module NoReply {
  import opened Streams
  import opened Crc16
  import opened Ulpi
  import opened UlpiBus
  import I = InTransaction
  import H = UsbHost

  // ------------------------------------------------------------- any link

  /** When the token has been sent. */
  function Sent(h0: H.Host): nat { h0.cycle + 9 }

  /** How far a transaction in which no byte was received can be after k calls. */
  ghost predicate Waits(h0: H.Host, r: I.Run, k: nat) {
    var x := r.h.x;
    && Sound(x) && r.h.op.BulkIN?
    && (x.stage in {NoXfer, DataPid} && (x.kind == In || Receiving(x.kind)) ==> x.rxPtr == 0)
    && (r.code == More ==>
         && r.h.cycle == h0.cycle + k
         && if x.kind == In then x.rxPtr == 0 && TokenLeft(x.stage) > 0 && TokenLeft(x.stage) + k == 9
            else if Receiving(x.kind) then
              && k >= 9 && x.cycle == H.Deadline(Sent(h0))
              && (x.rxPtr == 0 ==> k == 9 || r.h.cycle < x.cycle)
            else if x.kind == TimeOut then x.cycle <= h0.cycle + 88 && (k <= 49 || r.h.cycle < x.cycle)
            else true)
  }

  /** What reception does to the fields that the time-out looks at. */
  lemma Received(x: Xfer, i: Bus)
    requires Sound(x) && Receiving(x.kind) && (x.stage in {NoXfer, DataPid} ==> x.rxPtr == 0)
    ensures var r := DataRecv(x, i);
      && r.x.cycle == x.cycle && (r.x.rxPtr == 0 ==> x.rxPtr == 0)
      && (r.code == More ==> r.x.kind == x.kind)
      && (r.code == BadSeq ==> r.x.rxPtr == 0)
      && (Receiving(r.x.kind) && r.x.stage in {NoXfer, DataPid} ==> r.x.rxPtr == 0)
      && (r.code != Done ==> r.x.kind == x.kind)
      && (r.code == Done ==> r.x.kind == Idle)
  {
    hide DriveEop, Collect;
    if x.stage == DataBody { Collected(x, i); } else { H.EopSound(x, i); Ended(x, i); }
  }

  lemma Collected(x: Xfer, i: Bus)
    requires Sound(x)
    ensures var r := Collect(x, i);
      && r.x.cycle == x.cycle && r.x.kind == x.kind && r.x.stage in {x.stage, DataStop}
      && x.rxPtr <= r.x.rxPtr && r.code in {More, Bad, Abort}
  {
    hide Crc, CheckRx, Low, High;
  }

  lemma Ended(x: Xfer, i: Bus)
    ensures var r := DriveEop(x, i);
      && r.code in {More, Done, Bad, Abort}
      && (r.code == Done && x.stage != NoXfer ==> r.x.kind == Idle)
      && (r.code != Done ==> r.x.kind == x.kind)
      && (r.x.stage == x.stage || r.x.stage in {EndRxCmd, Eop, LineIdle} || r.x.kind == Idle)
  {
  }

  /** A call of reception: the time-out strikes only before the first byte. */
  lemma ReceiveCall(x: Xfer, cycle: nat, wait: bool, i: Bus)
    requires Sound(x) && Receiving(x.kind) && (x.stage in {NoXfer, DataPid} ==> x.rxPtr == 0)
    ensures var b := H.BulkIn(x, cycle, wait, i);
      && Sound(b.x)
      && (b.x.stage in {NoXfer, DataPid} && Receiving(b.x.kind) ==> b.x.rxPtr == 0)
      && b.x.kind != In
      && (b.code == More ==>
           if Receiving(b.x.kind) then
             b.x.cycle == x.cycle && (b.x.rxPtr == 0 ==> cycle < x.cycle && x.rxPtr == 0)
           else if b.x.kind == TimeOut then
             x.rxPtr == 0 && b.x.cycle == if cycle >= x.cycle then x.cycle else H.Deadline(cycle)
           else b.x.kind == DnAck)
  {
    hide H.BulkOut, TokenSend, AckSend, H.Ignore, DataRecv;
    H.BulkInSound(x, cycle, wait, i);
    Received(x, i);
  }

  lemma IgnoreCall(x: Xfer, cycle: nat, wait: bool, i: Bus)
    requires Sound(x) && x.kind == TimeOut
    ensures var b := H.BulkIn(x, cycle, wait, i);
      && Sound(b.x) && b.x.kind != In && !Receiving(b.x.kind)
      && (b.code == More ==> b.x.kind == TimeOut && b.x.cycle == x.cycle && cycle < x.cycle)
  {
    hide H.BulkOut, TokenSend, DataRecv, AckSend, CheckRx, Crc, Low, High;
    H.BulkInSound(x, cycle, wait, i);
  }

  lemma AckCall(x: Xfer, cycle: nat, wait: bool, i: Bus)
    requires Sound(x) && x.kind == DnAck
    ensures var b := H.BulkIn(x, cycle, wait, i);
      Sound(b.x) && (b.code == More ==> b.x.kind == DnAck) && b.x.kind != In && !Receiving(b.x.kind)
  {
    hide H.BulkOut, TokenSend, DataRecv, H.Ignore, CheckRx, Crc, Low, High, DriveEop;
    H.BulkInSound(x, cycle, wait, i);
    Ended(x, i);
  }

  lemma InToken(h0: H.Host, r: I.Run)
    requires I.Ready(h0) && I.Inv(h0, r) && r.code == More && r.h.x.kind == In
    ensures r.h.op.BulkIN? && Sound(r.h.x) && TokenLeft(r.h.x.stage) > 0 && Fits(r.h.x.stage, r.bus)
    ensures r.h.x == h0.x.(stage := r.h.x.stage) && r.sent == []
  {
  }

  lemma Deadlines(cycle: nat)
    ensures H.Deadline(cycle) <= cycle + 40
  {
  }

  lemma WaitsToken(h0: H.Host, r: I.Run, call: Call, k: nat)
    requires I.Ready(h0) && Waits(h0, r, k) && I.Inv(h0, r) && Calm(r.h.x, call.link) && r.code == More
    requires r.h.x.kind == In
    ensures Waits(h0, I.RunStep(r, call), k + 1)
  {
    hide H.BulkOut, H.BulkIn, TokenRest, Seen, Driven, CheckRx, PidByte, I.ReceiveInv, I.AckInv, I.TimeOutInv;
    I.TokenPhase(r.h.x, r.h.cycle + 1, call.wait, r.bus, call.link);
    InToken(h0, r);
  }

  lemma WaitsOn(h0: H.Host, r: I.Run, call: Call, k: nat)
    requires I.Ready(h0) && Waits(h0, r, k) && r.code == More && r.h.x.kind != In
    requires Receiving(r.h.x.kind) || r.h.x.kind in {TimeOut, DnAck}
    ensures Waits(h0, I.RunStep(r, call), k + 1)
  {
    hide H.BulkOut, H.BulkIn, Seen, Driven, Sound, I.RunStep, H.Deadline;
    I.AfterToken(r, call);
    var x, cycle, i := r.h.x, r.h.cycle + 1, Seen(r.bus, call.link);
    Deadlines(Sent(h0));
    Deadlines(cycle);
    if Receiving(x.kind) { ReceiveCall(x, cycle, call.wait, i); }
    else if x.kind == TimeOut { IgnoreCall(x, cycle, call.wait, i); }
    else { AckCall(x, cycle, call.wait, i); }
  }

  lemma Kinds(h0: H.Host, r: I.Run)
    requires I.Ready(h0) && I.Inv(h0, r) && r.code == More
    ensures r.h.x.kind == In || Receiving(r.h.x.kind) || r.h.x.kind in {TimeOut, DnAck}
  {
  }

  lemma {:induction false} RunWaits(h0: H.Host, calls: seq<Call>)
    requires I.Ready(h0) && AllCalm(I.After(h0), calls)
    ensures Waits(h0, I.Execute(h0, calls), |calls|) && I.Inv(h0, I.Execute(h0, calls))
  {
    hide Waits, I.Inv, I.RunStep;
    if calls == [] {
      WaitsStart(h0);
      I.Begins(h0);
    } else {
      var k := |calls| - 1;
      var r := I.Execute(h0, calls[..k]);
      RunWaits(h0, calls[..k]);
      I.AnyStep(h0, r, calls[k]);
      WaitsStep(h0, r, calls[k], k);
    }
  }

  lemma WaitsStart(h0: H.Host)
    requires I.Ready(h0)
    ensures Waits(h0, I.Start(h0), 0)
  {
  }

  lemma WaitsStep(h0: H.Host, r: I.Run, call: Call, k: nat)
    requires I.Ready(h0) && Waits(h0, r, k) && I.Inv(h0, r) && Calm(r.h.x, call.link)
    ensures Waits(h0, I.RunStep(r, call), k + 1)
  {
    hide H.Step, I.Inv;
    if r.code == More {
      Kinds(h0, r);
      if r.h.x.kind == In { WaitsToken(h0, r, call, k); } else { WaitsOn(h0, r, call, k); }
    }
  }

  /**
   Whatever the link does: if no byte behind the expected identifier has come,
   the time-out is reached within 49 calls, and a transaction in its time-out
   is over after 88.
   */
  lemma GivesUp(h0: H.Host, calls: seq<Call>)
    requires I.Ready(h0) && AllCalm(I.After(h0), calls)
    ensures var r := I.Execute(h0, calls);
      r.code == More ==>
        && (r.h.x.kind == In ==> |calls| < 9)
        && (Receiving(r.h.x.kind) && r.h.x.rxPtr == 0 ==> |calls| < 49)
        && (r.h.x.kind == TimeOut ==> |calls| < 88)
  {
    hide I.Inv;
    RunWaits(h0, calls);
    Deadlines(Sent(h0));
  }

  // ---------------------------------------------------------- a silent link

  predicate Silent(calls: seq<Call>) { forall call :: call in calls ==> call.link == QUIET }

  /** The host waits for a packet that never begins. */
  ghost predicate Alone(h0: H.Host, r: I.Run)
    requires I.Ready(h0)
  {
    var x := r.h.x;
    && I.Inv(h0, r) && r.pid == None
    && (r.code == More ==>
         x.kind == In || ((Receiving(x.kind) || x.kind == TimeOut) && x.stage == NoXfer && x.rxPtr == 0
                          && (x.kind == TimeOut ==> r.h.cycle >= x.cycle)))
    && (r.code != More ==> r.code == Done && x.kind == Idle)
  }

  lemma AloneCall(x: Xfer, cycle: nat, wait: bool, bus: Bus)
    requires Sound(x) && (Receiving(x.kind) || x.kind == TimeOut) && x.stage == NoXfer && x.rxPtr == 0 && !bus.dir
    requires x.kind == TimeOut ==> cycle >= x.cycle
    ensures var b := H.BulkIn(x, cycle, wait, Seen(bus, QUIET));
      if x.kind == TimeOut then b.code == Done && b.x.kind == Idle
      else
        && b.code == More && b.x == x.(kind := b.x.kind)
        && if cycle >= x.cycle then b.x.kind == TimeOut else b.x.kind == x.kind
  {
    hide H.BulkOut, TokenSend, AckSend, H.Ignore, CheckRx, Crc, Low, High, Collect, DriveEop;
  }

  lemma AloneStep(h0: H.Host, r: I.Run, wait: bool)
    requires I.Ready(h0) && Alone(h0, r)
    ensures Alone(h0, I.RunStep(r, Call(wait, QUIET)))
  {
    hide H.BulkOut, H.BulkIn, Seen, Driven, CheckRx, PidByte, I.Inv, I.RunStep;
    I.AnyStep(h0, r, Call(wait, QUIET));
    InvSound(h0, r);
    if r.code != More {
      Stops(r, Call(wait, QUIET));
    } else if r.h.x.kind == In {
      AloneToken(h0, r, wait);
    } else {
      BusFree(h0, r);
      I.AfterToken(r, Call(wait, QUIET));
      AloneCall(r.h.x, r.h.cycle + 1, wait, r.bus);
    }
  }

  lemma InvSound(h0: H.Host, r: I.Run)
    requires I.Ready(h0) && I.Inv(h0, r)
    ensures Sound(r.h.x)
  {
  }

  lemma Stops(r: I.Run, call: Call)
    requires Sound(r.h.x) && r.code != More
    ensures I.RunStep(r, call) == r
  {
  }

  lemma BusFree(h0: H.Host, r: I.Run)
    requires I.Ready(h0) && I.Inv(h0, r) && r.code == More && r.h.x.stage == NoXfer
    requires Receiving(r.h.x.kind) || r.h.x.kind == TimeOut
    ensures r.h.op.BulkIN? && Sound(r.h.x) && !r.bus.dir
  {
  }

  lemma AloneToken(h0: H.Host, r: I.Run, wait: bool)
    requires I.Ready(h0) && Alone(h0, r) && r.code == More && r.h.x.kind == In
    ensures var r' := I.RunStep(r, Call(wait, QUIET));
      && r'.pid == None && r'.code == More
      && (r'.h.x.kind == In || (Receiving(r'.h.x.kind) && r'.h.x.stage == NoXfer && r'.h.x.rxPtr == 0))
  {
    hide H.BulkOut, H.BulkIn, TokenRest, Seen, Driven, CheckRx, PidByte, I.ReceiveInv, I.AckInv, I.TimeOutInv;
    I.TokenPhase(r.h.x, r.h.cycle + 1, wait, r.bus, QUIET);
    InToken(h0, r);
  }

  lemma {:induction false} RunAlone(h0: H.Host, calls: seq<Call>)
    requires I.Ready(h0) && Silent(calls)
    ensures Alone(h0, I.Execute(h0, calls)) && AllCalm(I.After(h0), calls)
  {
    hide Alone, I.RunStep;
    if calls == [] {
      I.Begins(h0);
      AloneStart(h0);
    } else {
      var k := |calls| - 1;
      assert calls[k] in calls;
      RunAlone(h0, calls[..k]);
      AloneStep(h0, I.Execute(h0, calls[..k]), calls[k].wait);
    }
  }

  lemma AloneStart(h0: H.Host)
    requires I.Ready(h0) && I.Inv(h0, I.Start(h0))
    ensures Alone(h0, I.Start(h0))
  {
  }

  /**
   If the link stays silent, the transaction ends without an error after at
   most 50 calls: the token has been sent and nothing else, and the toggle is
   what it was.
   */
  lemma SilentLink(h0: H.Host, calls: seq<Call>)
    requires I.Ready(h0) && Silent(calls)
    ensures var r, x0 := I.Execute(h0, calls), h0.x;
      && (|calls| >= 50 ==> r.code == Done)
      && (r.code == Done ==> r.h.x.kind == Idle && r.tokens == [0x69, x0.tok1, x0.tok2])
      && (r.code == More || r.code == Done)
      && r.sent == [] && r.h.x.epSeq == x0.epSeq
  {
    hide CheckRx, TokenRest, I.ReceiveInv, I.AckInv, I.TimeOutInv, TokenLeft, Fits, I.Execute;
    RunAlone(h0, calls);
    RunWaits(h0, calls);
    Deadlines(Sent(h0));
  }
}
