/**
 Bulk IN with a link whose packet begins with the wrong identifier: that of the
 other toggle, which the host lets pass without an ACK, or none it knows.
 */
module WrongPacket {
  import opened Crc16
  import opened Ulpi
  import opened UlpiBus
  import I = InTransaction
  import L = LinkReply
  import N = NoReply
  import H = UsbHost

  /** Host and link, which sleeps until the token has been sent. */
  datatype Talk = Talk(r: I.Run, d: L.Device)

  function NextCall(t: Talk, wait: bool): Call {
    Call(wait, if t.r.h.x.kind == In then QUIET else L.Signals(t.d))
  }

  function Step(t: Talk, wait: bool): (t': Talk)
    requires Sound(t.r.h.x)
    ensures Sound(t'.r.h.x)
  {
    var call := NextCall(t, wait);
    Talk(I.RunStep(t.r, call),
         if t.r.code == More && t.r.h.x.kind != In then L.Advance(t.d, Seen(t.r.bus, call.link)) else t.d)
  }

  function Execute(h: H.Host, d: L.Device, waits: seq<bool>): (t: Talk)
    requires Sound(h.x)
    ensures Sound(t.r.h.x)
  {
    if waits == [] then Talk(I.Start(h), d) else Step(Execute(h, d, waits[..|waits| - 1]), waits[|waits| - 1])
  }

  /** A packet with an identifier that is not the expected one. */
  predicate Wrong(h: H.Host, d: L.Device, pid: Byte, bytes: seq<Byte>) {
    && I.Ready(h)
    && d.pos == 0 && d.packet == [pid] + bytes
    && pid != 0 && pid != I.ExpectedPid(h.x.epSeq[h.x.endpoint])
  }

  /** The call in which the host sees the identifier and rejects it, if the time-out does not strike before. */
  function Rejection(h0: H.Host, d0: L.Device): nat { N.Sent(h0) + d0.delay + 2 }

  /** It is rejected before the time-out strikes, and a second deadline fits 32 bits if there is one. */
  predicate Timely(h0: H.Host, d0: L.Device, pid: Byte) {
    d0.delay <= 37 && h0.cycle + (if Known(pid) then d0.delay + 51 else 49) < 0x1_0000_0000
  }

  predicate Known(pid: Byte) { pid in {0x43, 0x4B} }

  /** The token is being sent, the host waits for the packet, or is about to look at its identifier. */
  ghost predicate Before(h0: H.Host, d0: L.Device, t: Talk) {
    var r, x := t.r, t.r.h.x;
    && Sound(x) && r.code == More && r.h.op.BulkIN? && r.sent == []
    && if x.kind == In then
         && TokenLeft(x.stage) > 0 && Fits(x.stage, r.bus) && x == h0.x.(stage := x.stage)
         && r.h.cycle + TokenLeft(x.stage) == N.Sent(h0) && t.d == d0
       else
         && x.kind == (if x.epSeq[x.endpoint] then UpData1 else UpData0)
         && x == h0.x.(kind := x.kind, stage := x.stage, cycle := H.Deadline(N.Sent(h0))) && !r.bus.dir
         && N.Sent(h0) <= r.h.cycle
         && if x.stage == NoXfer then
              && r.h.cycle <= N.Sent(h0) + d0.delay && !r.bus.nxt
              && t.d == d0.(delay := d0.delay - (r.h.cycle - N.Sent(h0)))
              && (r.h.cycle > N.Sent(h0) ==> r.h.cycle < x.cycle)
            else
              && x.stage == DataPid && r.bus.nxt && t.d == d0.(delay := 0)
              && r.h.cycle + 1 == Rejection(h0, d0) && r.h.cycle < x.cycle
  }

  /** The time-out has struck, and the next call ends the transaction. */
  ghost predicate Late(h0: H.Host, d0: L.Device, pid: Byte, t: Talk) {
    var r, x := t.r, t.r.h.x;
    && Sound(x) && r.code == More && r.h.op.BulkIN? && r.sent == []
    && x.kind == TimeOut && r.h.cycle >= x.cycle && x.rxPtr == 0 && x.rx == h0.x.rx && x.epSeq == h0.x.epSeq
    && !r.bus.dir && !Timely(h0, d0, pid) && r.h.cycle <= N.Sent(h0) + 40
  }

  lemma TokenStep(h0: H.Host, d0: L.Device, t: Talk, wait: bool)
    requires I.Ready(h0) && Before(h0, d0, t) && t.r.h.x.kind == In
    ensures Before(h0, d0, Step(t, wait))
  {
    hide H.BulkOut, H.BulkIn, TokenRest, Seen, Driven, PidByte;
    I.TokenPhase(t.r.h.x, t.r.h.cycle + 1, wait, t.r.bus, QUIET);
  }

  lemma TimeLeft(h0: H.Host)
    ensures var c := N.Sent(h0);
      if c + 40 < 0x1_0000_0000 then H.Deadline(c) == c + 40 else H.Deadline(c) <= c
  {
  }

  /** A call before the identifier. */
  lemma WaitCall(x: Xfer, cycle: nat, wait: bool, bus: Bus, d: L.Device)
    requires Sound(x) && Receiving(x.kind) && x.stage == NoXfer && x.rxPtr == 0 && !bus.dir && !bus.nxt
    requires d.pos == 0 && d.packet != [] && d.packet[0] != 0
    ensures var i := Seen(bus, L.Signals(d));
      var b := H.BulkIn(x, cycle, wait, i);
      && b.code == More
      && b.x == x.(kind := if cycle >= x.cycle then TimeOut else x.kind,
                   stage := if d.delay > 0 then NoXfer else DataPid)
      && !b.out.dir && b.out.nxt == (d.delay == 0) && Driven(b.out) == []
      && L.Advance(d, i) == d.(delay := if d.delay > 0 then d.delay - 1 else 0)
  {
    hide H.BulkOut, TokenSend, AckSend, H.Ignore, Collect, DriveEop;
  }

  lemma WaitStep(h0: H.Host, d0: L.Device, pid: Byte, bytes: seq<Byte>, t: Talk, wait: bool)
    requires Wrong(h0, d0, pid, bytes) && Before(h0, d0, t) && t.r.h.x.kind != In && t.r.h.x.stage == NoXfer
    ensures Before(h0, d0, Step(t, wait)) || Late(h0, d0, pid, Step(t, wait))
  {
    hide H.BulkOut, H.BulkIn, Seen, Driven, L.Signals, L.Advance, Sound, I.RunStep, H.Deadline;
    var r := t.r;
    TimeLeft(h0);
    I.AfterToken(r, NextCall(t, wait));
    WaitCall(r.h.x, r.h.cycle + 1, wait, r.bus, t.d);
  }

  /** The host looks at the identifier. */
  lemma PidCall(x: Xfer, cycle: nat, wait: bool, bus: Bus, d: L.Device, pid: Byte)
    requires Sound(x) && Receiving(x.kind) && x.stage == DataPid && x.rxPtr == 0 && !bus.dir && bus.nxt
    requires d.pos == 0 && d.delay == 0 && d.packet != [] && d.packet[0] == pid
    requires pid != I.ExpectedPid(x.epSeq[x.endpoint])
    ensures var i := Seen(bus, L.Signals(d));
      var b := H.BulkIn(x, cycle, wait, i);
      && L.Advance(d, i) == d.(pos := 1) && !b.out.dir && !b.out.nxt && Driven(b.out) == []
      && if cycle >= x.cycle then b.code == More && b.x == x.(kind := TimeOut, stage := DataBody)
         else if Known(pid) then
           b.code == More && b.x == x.(kind := TimeOut, stage := DataBody, cycle := H.Deadline(cycle))
         else b.code == BadPid && b.x == x.(stage := DataBody)
  {
    hide H.BulkOut, TokenSend, AckSend, H.Ignore, Collect, DriveEop, H.Deadline;
  }

  // ----------------------------------------------------- the other toggle

  /** If the packet is let pass, it fits the receive buffer and its end passes the check. */
  predicate Proper(h0: H.Host, d0: L.Device, pid: Byte, bytes: seq<Byte>) {
    Known(pid) && Timely(h0, d0, pid) ==> L.Passes(h0, bytes)
  }

  /** After so many calls the end of the packet has been seen. */
  function Length(bytes: seq<Byte>): nat { if bytes == [] then 1 else |bytes| + 2 }

  function Ending(q: nat): Stage {
    if q == 0 then DataStop
    else if q == 1 then EndRxCmd
    else if q == 2 then Eop
    else if q == 3 then LineIdle
    else NoXfer
  }

  /** How many bytes have been taken after j calls. */
  function Taken(bytes: seq<Byte>, j: nat): nat {
    if j == 0 then 0 else if j - 1 < |bytes| then j - 1 else |bytes|
  }

  /** The packet is taken to its end, byte after byte, while the host waits for its deadline. */
  ghost predicate Listens(x: Xfer, bus: Bus, d: L.Device, pid: Byte, bytes: seq<Byte>, rx0: seq<Byte>, j: nat) {
    && Sound(x) && x.kind == TimeOut && d.delay == 0 && d.packet == [pid] + bytes
    && L.Received(x, bytes, rx0) && x.rxPtr == Taken(bytes, j)
    && if j < Length(bytes) then
         x.stage == DataBody && !bus.dir && bus.nxt == (j > 0) && d.pos == 1 + x.rxPtr
       else
         x.stage == Ending(j - Length(bytes)) && Fits(x.stage, bus) && d.pos > |d.packet|
  }

  lemma ListenByte(x: Xfer, bus: Bus, d: L.Device, pid: Byte, bytes: seq<Byte>, rx0: seq<Byte>, j: nat)
    requires Listens(x, bus, d, pid, bytes, rx0, j) && j < Length(bytes) && j <= |bytes| && bytes != []
    requires |bytes| <= |rx0|
    ensures var i := Seen(bus, L.Signals(d));
      var b := H.Ignore(x, i);
      && b.code == More && b.x.cycle == x.cycle && b.x.epSeq == x.epSeq && Driven(b.out) == []
      && Listens(b.x, b.out, L.Advance(d, i), pid, bytes, rx0, j + 1)
  {
    hide CheckRx, Crc, Low, High, DriveEop;
    if j > 0 { L.OneMore(x, bytes, rx0); }
  }

  lemma ListenStop(x: Xfer, bus: Bus, d: L.Device, pid: Byte, bytes: seq<Byte>, rx0: seq<Byte>, j: nat)
    requires Listens(x, bus, d, pid, bytes, rx0, j) && j + 1 == Length(bytes)
    requires 2 <= |rx0| && |bytes| <= |rx0| && CheckRx(bytes + rx0[|bytes|..], |bytes|)
    ensures var i := Seen(bus, L.Signals(d));
      var b := H.Ignore(x, i);
      && b.code == More && b.x.cycle == x.cycle && b.x.epSeq == x.epSeq && Driven(b.out) == []
      && Listens(b.x, b.out, L.Advance(d, i), pid, bytes, rx0, j + 1)
  {
    hide CheckRx, Crc, Low, High, DriveEop;
    assert bytes[..|bytes|] == bytes;
  }

  lemma ListenEnd(x: Xfer, bus: Bus, d: L.Device, pid: Byte, bytes: seq<Byte>, rx0: seq<Byte>, j: nat)
    requires Listens(x, bus, d, pid, bytes, rx0, j) && j >= Length(bytes)
    ensures var i := Seen(bus, L.Signals(d));
      var b := H.Ignore(x, i);
      && b.code == More && b.x.cycle == x.cycle && b.x.epSeq == x.epSeq && Driven(b.out) == []
      && Listens(b.x, b.out, L.Advance(d, i), pid, bytes, rx0, j + 1)
  {
    hide CheckRx, Crc, Low, High;
  }

  lemma ListenCall(x: Xfer, cycle: nat, wait: bool, bus: Bus, d: L.Device, pid: Byte, bytes: seq<Byte>,
                   rx0: seq<Byte>, j: nat)
    requires Listens(x, bus, d, pid, bytes, rx0, j)
    requires 2 <= |rx0| && |bytes| <= |rx0| && CheckRx(bytes + rx0[|bytes|..], |bytes|)
    ensures var i := Seen(bus, L.Signals(d));
      var b := H.BulkIn(x, cycle, wait, i);
      && b.x.epSeq == x.epSeq && b.x.cycle == x.cycle && Driven(b.out) == []
      && if cycle >= x.cycle then
           b.code == Done && b.x == x.(kind := Idle, stage := NoXfer)
         else
           b.code == More && Listens(b.x, b.out, L.Advance(d, i), pid, bytes, rx0, j + 1)
  {
    hide Listens, H.Ignore, CheckRx, H.BulkOut, TokenSend, AckSend, DataRecv;
    Listening(x, bus, d, pid, bytes, rx0, j);
    if cycle < x.cycle {
      if j >= Length(bytes) { ListenEnd(x, bus, d, pid, bytes, rx0, j); }
      else if j + 1 == Length(bytes) { ListenStop(x, bus, d, pid, bytes, rx0, j); }
      else { ListenByte(x, bus, d, pid, bytes, rx0, j); }
    }
  }

  lemma Listening(x: Xfer, bus: Bus, d: L.Device, pid: Byte, bytes: seq<Byte>, rx0: seq<Byte>, j: nat)
    requires Listens(x, bus, d, pid, bytes, rx0, j)
    ensures Sound(x) && x.kind == TimeOut && Driven(Seen(bus, L.Signals(d))) == []
  {
  }

  /** The packet has been rejected and is let pass. */
  ghost predicate Passing(h0: H.Host, d0: L.Device, pid: Byte, bytes: seq<Byte>, t: Talk) {
    var r, x, since := t.r, t.r.h.x, Rejection(h0, d0);
    && r.code == More && r.h.op.BulkIN? && r.sent == [] && x.epSeq == h0.x.epSeq
    && x.cycle == since + 40 && since <= r.h.cycle < x.cycle
    && Known(pid) && Timely(h0, d0, pid)
    && Listens(x, r.bus, t.d, pid, bytes, h0.x.rx, r.h.cycle - since)
  }

  /** How it ends: with an error for an unknown identifier in time, else with a time-out. */
  ghost predicate Over(h0: H.Host, d0: L.Device, pid: Byte, bytes: seq<Byte>, t: Talk) {
    var r, x := t.r, t.r.h.x;
    && Sound(x) && r.sent == [] && x.epSeq == h0.x.epSeq
    && if Timely(h0, d0, pid) && !Known(pid) then r.code == BadPid
       else
         && r.code == Done && x.kind == Idle
         && L.Received(x, bytes, h0.x.rx)
         && x.rxPtr == if Timely(h0, d0, pid) then Taken(bytes, 39) else 0
  }

  ghost predicate Inv(h0: H.Host, d0: L.Device, pid: Byte, bytes: seq<Byte>, t: Talk) {
    || Before(h0, d0, t) || Late(h0, d0, pid, t)
    || Passing(h0, d0, pid, bytes, t) || Over(h0, d0, pid, bytes, t)
  }

  lemma PidStep(h0: H.Host, d0: L.Device, pid: Byte, bytes: seq<Byte>, t: Talk, wait: bool)
    requires Wrong(h0, d0, pid, bytes) && Before(h0, d0, t) && t.r.h.x.kind != In && t.r.h.x.stage == DataPid
    ensures Inv(h0, d0, pid, bytes, Step(t, wait))
  {
    hide H.BulkOut, H.BulkIn, Seen, Driven, L.Signals, L.Advance, I.RunStep, H.Deadline, Fits;
    var r := t.r;
    I.AfterToken(r, NextCall(t, wait));
    PidCall(r.h.x, r.h.cycle + 1, wait, r.bus, t.d, pid);
    TimeLeft(h0);
    SecondDeadline(h0, d0);
  }

  lemma SecondDeadline(h0: H.Host, d0: L.Device)
    ensures var c := Rejection(h0, d0);
      if c + 40 < 0x1_0000_0000 then H.Deadline(c) == c + 40 else H.Deadline(c) <= c
  {
  }

  lemma PassingStep(h0: H.Host, d0: L.Device, pid: Byte, bytes: seq<Byte>, t: Talk, wait: bool)
    requires Wrong(h0, d0, pid, bytes) && Proper(h0, d0, pid, bytes) && Passing(h0, d0, pid, bytes, t)
    ensures Inv(h0, d0, pid, bytes, Step(t, wait))
  {
    hide H.BulkOut, H.BulkIn, Seen, Driven, L.Signals, L.Advance, I.RunStep, Fits, CheckRx;
    var r := t.r;
    I.AfterToken(r, NextCall(t, wait));
    ListenCall(r.h.x, r.h.cycle + 1, wait, r.bus, t.d, pid, bytes, h0.x.rx, r.h.cycle - Rejection(h0, d0));
  }

  lemma LateStep(h0: H.Host, d0: L.Device, pid: Byte, bytes: seq<Byte>, t: Talk, wait: bool)
    requires Wrong(h0, d0, pid, bytes) && Late(h0, d0, pid, t)
    ensures Over(h0, d0, pid, bytes, Step(t, wait))
  {
    hide H.BulkOut, TokenSend, DataRecv, AckSend, H.Ignore, CheckRx;
    I.AfterToken(t.r, NextCall(t, wait));
    assert bytes[..0] + h0.x.rx[0..] == h0.x.rx;
  }

  lemma AnyStep(h0: H.Host, d0: L.Device, pid: Byte, bytes: seq<Byte>, t: Talk, wait: bool)
    requires Wrong(h0, d0, pid, bytes) && Proper(h0, d0, pid, bytes) && Inv(h0, d0, pid, bytes, t)
    ensures Inv(h0, d0, pid, bytes, Step(t, wait))
  {
    hide Step, Passing, Proper, Late, Over, H.Deadline;
    if Passing(h0, d0, pid, bytes, t) { PassingStep(h0, d0, pid, bytes, t, wait); }
    else if Late(h0, d0, pid, t) { LateStep(h0, d0, pid, bytes, t, wait); }
    else if Over(h0, d0, pid, bytes, t) { Stops(h0, d0, pid, bytes, t, wait); }
    else if t.r.h.x.kind == In { TokenStep(h0, d0, t, wait); }
    else if t.r.h.x.stage == NoXfer { WaitStep(h0, d0, pid, bytes, t, wait); }
    else { PidStep(h0, d0, pid, bytes, t, wait); }
  }

  lemma Stops(h0: H.Host, d0: L.Device, pid: Byte, bytes: seq<Byte>, t: Talk, wait: bool)
    requires Over(h0, d0, pid, bytes, t)
    ensures Step(t, wait) == t
  {
  }

  lemma {:induction false} RunInv(h0: H.Host, d0: L.Device, pid: Byte, bytes: seq<Byte>, waits: seq<bool>)
    requires Wrong(h0, d0, pid, bytes) && Proper(h0, d0, pid, bytes)
    ensures var t := Execute(h0, d0, waits);
      Inv(h0, d0, pid, bytes, t) && (t.r.code == More ==> t.r.h.cycle == h0.cycle + |waits|)
  {
    hide Inv, I.RunStep, Proper, NextCall;
    if waits == [] {
      Begins(h0, d0, pid, bytes);
    } else {
      var k := |waits| - 1;
      var t := Execute(h0, d0, waits[..k]);
      RunInv(h0, d0, pid, bytes, waits[..k]);
      AnyStep(h0, d0, pid, bytes, t, waits[k]);
      OneCall(t.r, NextCall(t, waits[k]));
    }
  }

  lemma Begins(h0: H.Host, d0: L.Device, pid: Byte, bytes: seq<Byte>)
    requires Wrong(h0, d0, pid, bytes)
    ensures Inv(h0, d0, pid, bytes, Talk(I.Start(h0), d0))
  {
    assert Before(h0, d0, Talk(I.Start(h0), d0));
  }

  lemma OneCall(r: I.Run, call: Call)
    requires Sound(r.h.x)
    ensures var r' := I.RunStep(r, call); r'.code == More ==> r.code == More && r'.h.cycle == r.h.cycle + 1
  {
    hide H.BulkIn, H.BulkOut;
  }

  lemma NotOver(h0: H.Host, d0: L.Device, pid: Byte, bytes: seq<Byte>, t: Talk)
    requires I.Ready(h0) && Inv(h0, d0, pid, bytes, t) && !Over(h0, d0, pid, bytes, t)
    ensures t.r.code == More && t.r.sent == [] && t.r.h.x.epSeq == h0.x.epSeq && t.r.h.cycle < h0.cycle + 88
  {
    hide L.Received, Listens, H.Deadline;
    N.Deadlines(N.Sent(h0));
  }

  /**
   However reception is throttled, no ACK is sent and the toggle keeps its
   value. A packet with the other toggle is let pass: the host ends with a
   time-out, with the packet's bytes in the buffer as far as they came. An
   identifier that is none is an error, if it comes before the time-out.
   */
  lemma Rejected(h0: H.Host, d0: L.Device, pid: Byte, bytes: seq<Byte>, waits: seq<bool>)
    requires Wrong(h0, d0, pid, bytes) && Proper(h0, d0, pid, bytes)
    ensures var r := Execute(h0, d0, waits).r;
      && r.sent == [] && r.h.x.epSeq == h0.x.epSeq
      && (r.code == More || r.code == if Timely(h0, d0, pid) && !Known(pid) then BadPid else Done)
      && (|waits| >= 88 ==> r.code != More)
      && (r.code == Done ==>
           && r.h.x.kind == Idle && L.Received(r.h.x, bytes, h0.x.rx)
           && r.h.x.rxPtr == if Timely(h0, d0, pid) then Taken(bytes, 39) else 0)
  {
    hide Proper, L.Received, Inv, Timely, Execute, Taken, I.ExpectedPid;
    RunInv(h0, d0, pid, bytes, waits);
    var t := Execute(h0, d0, waits);
    if !Over(h0, d0, pid, bytes, t) { NotOver(h0, d0, pid, bytes, t); }
  }
}
