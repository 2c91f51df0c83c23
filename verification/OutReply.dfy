/**
 Bulk OUT with a link that acknowledges: silent for a while, it shows the ACK
 byte until it sees nxt, then stp for one call.
 */
module OutReply {
  import opened Streams
  import opened Crc16
  import opened Ulpi
  import opened UlpiBus
  import O = OutTransaction
  import H = UsbHost

  /**
   The link in the handshake: silent for delay calls, it shows the ACK byte and
   keeps it until the host's nxt has been high. It then shows it for hold calls
   more, none if it sees nxt at once, one if nxt goes through a register; then
   stp for one call.
   */
  datatype Device = Device(delay: nat, hold: nat, seen: bool, done: bool)

  /** Before the handshake. */
  predicate Fresh(d: Device) { !d.seen && !d.done }

  /** What it shows while the host drives bus. */
  function Shows(d: Device, bus: Bus): Link {
    if d.delay > 0 || d.done then QUIET
    else if (d.seen || bus.nxt) && d.hold == 0 then Link(true, 0, 0)
    else Link(false, 0x42, 0)
  }

  function Advance(d: Device, bus: Bus): Device {
    if d.delay > 0 then d.(delay := d.delay - 1)
    else if d.done || !(d.seen || bus.nxt) then d
    else if d.hold == 0 then d.(done := true)
    else d.(hold := d.hold - 1, seen := true)
  }

  /** Host and link, which sleeps until the handshake. */
  datatype Loop = Loop(r: O.Run, d: Device)

  function NextCall(l: Loop, wait: bool): Call {
    Call(wait, if l.r.h.x.kind == UpAck then Shows(l.d, l.r.bus) else QUIET)
  }

  function Step(l: Loop, wait: bool): (l': Loop)
    requires Sound(l.r.h.x)
    ensures Sound(l'.r.h.x)
  {
    Loop(O.RunStep(l.r, NextCall(l, wait)), if l.r.h.x.kind == UpAck then Advance(l.d, l.r.bus) else l.d)
  }

  function Execute(h: H.Host, d: Device, waits: seq<bool>): (l: Loop)
    requires Sound(h.x)
    ensures Sound(l.r.h.x)
  {
    if waits == [] then Loop(O.Start(h), d) else Step(Execute(h, d, waits[..|waits| - 1]), waits[|waits| - 1])
  }

  /** How many coins came up for a wait-state. */
  function Coins(waits: seq<bool>): nat {
    if waits == [] then 0 else Coins(waits[..|waits| - 1]) + One(waits[|waits| - 1])
  }

  function One(b: bool): nat { if b then 1 else 0 }

  /** The handshake begins after so many calls, and the deadline still fits 32 bits. */
  predicate Fitting(h0: H.Host, dataCalls: nat) { h0.cycle + dataCalls + 49 < 0x1_0000_0000 }

  /** Where host and link stand after m calls of the handshake. */
  predicate Stands(x: Xfer, bus: Bus, d0: Device, d: Device, m: nat) {
    && m <= d0.delay + d0.hold + 2 && !bus.dir
    && x.kind == UpAck
    && if m <= d0.delay then x.stage == NoXfer && !bus.nxt && d == d0.(delay := d0.delay - m)
       else if m == d0.delay + 1 then x.stage == HskPid && bus.nxt && d == d0.(delay := 0)
       else if m < d0.delay + d0.hold + 2 then
         x.stage == HskPid && !bus.nxt && d == Device(0, d0.delay + d0.hold + 1 - m, true, false)
       else x.stage == HskStop && !bus.nxt && d.done && d.delay == 0
  }

  ghost predicate Timed(h0: H.Host, d0: Device, coins: nat, l: Loop)
    requires O.Ready(h0)
  {
    var r := l.r;
    var x0, x := h0.x, r.h.x;
    && O.Inv(h0, r)
    && r.h.cycle == h0.cycle + r.tokenCalls + r.dataCalls + r.ackCalls
    && (if r.code == More && x.kind == Out then true
        else if r.code == More && Sending(x.kind) then
          |x0.tx| + 9 <= r.dataCalls + O.DataLeast(x) <= |x0.tx| + 9 + coins
        else
          |x0.tx| + 9 <= r.dataCalls <= |x0.tx| + 9 + coins && x.cycle == H.Deadline(h0.cycle + 9 + r.dataCalls))
    && (r.code == More && x.kind == UpAck ==>
         Stands(x, r.bus, d0, l.d, r.ackCalls) && (r.ackCalls > 0 ==> r.h.cycle < x.cycle))
    && (r.code == More && x.kind != UpAck ==> l.d == d0)
    && (r.code != More ==> Concluded(h0, d0, r))
  }

  /** The toggle flips, and the handshake is complete in time, exactly under these conditions. */
  predicate Concluded(h0: H.Host, d0: Device, r: O.Run) {
    && r.code == Done
    && (r.answer == Some(0x42) <==> d0.delay <= 38 && Fitting(h0, r.dataCalls))
    && (r.h.cycle < r.h.x.cycle <==> d0.delay + d0.hold <= 36 && Fitting(h0, r.dataCalls))
  }

  /** A wait-state costs a call; every other call brings the data packet on. */
  lemma LeastCall(x: Xfer, cycle: nat, wait: bool, bus: Bus)
    requires O.DataSound(x, bus)
    ensures var b := H.BulkOut(x, cycle, wait, Seen(bus, QUIET));
      && Sound(b.x)
      && (x.stage != LineIdle ==>
           O.DataLeast(x) <= O.DataLeast(b.x) + 1 <= O.DataLeast(x) + One(wait))
      && (x.stage == LineIdle ==> O.DataLeast(x) == 1)
  {
    hide Crc, Low, High, DriveEop;
    if EopLeft(x.stage) > 0 { EopCall(x, bus, QUIET); }
  }

  lemma TokenStep(h0: H.Host, d0: Device, coins: nat, l: Loop, wait: bool)
    requires O.Ready(h0) && Timed(h0, d0, coins, l) && l.r.code == More && l.r.h.x.kind == Out
    ensures Timed(h0, d0, coins + One(wait), Step(l, wait))
  {
    hide H.BulkOut, H.BulkIn, Crc, Low, High, Fits, TokenRest, Driven, Seen, O.Packet, O.DataRest, O.Inv, Concluded;
    var r := l.r;
    O.AnyCall(h0, r, Call(wait, QUIET));
    InToken(h0, r);
    O.TokenPhase(r.h.x, r.h.cycle + 1, wait, r.bus, QUIET);
  }

  lemma InToken(h0: H.Host, r: O.Run)
    requires O.Ready(h0) && O.Inv(h0, r) && r.code == More && r.h.x.kind == Out
    ensures var x := r.h.x;
      && r.h.op == h0.op && Sound(x) && TokenLeft(x.stage) > 0 && Fits(x.stage, r.bus)
      && x == h0.x.(stage := x.stage) && x.txPtr == 0
      && r.dataCalls == r.ackCalls == 0
  {
  }

  lemma InData(h0: H.Host, r: O.Run)
    requires O.Ready(h0) && O.Inv(h0, r) && r.code == More && Sending(r.h.x.kind)
    ensures r.h.op == h0.op && r.h.op.BulkOUT? && O.DataSound(r.h.x, r.bus) && r.tokenCalls == 9 && r.ackCalls == 0
  {
  }

  /** A call while the host sends, in terms of the transaction's step. */
  lemma SendingCall(r: O.Run, call: Call)
    requires Sound(r.h.x) && r.code == More && Sending(r.h.x.kind) && r.h.op.BulkOUT?
    ensures var b, r' := H.BulkOut(r.h.x, r.h.cycle + 1, call.wait, Seen(r.bus, call.link)), O.RunStep(r, call);
      && r'.code == b.code && r'.h.x == b.x && r'.h.cycle == r.h.cycle + 1 && r'.bus == b.out
      && r'.tokenCalls == r.tokenCalls && r'.dataCalls == r.dataCalls + 1 && r'.ackCalls == r.ackCalls
  {
    hide H.BulkOut, Seen, Driven;
  }

  lemma DataStep(h0: H.Host, d0: Device, coins: nat, l: Loop, wait: bool)
    requires O.Ready(h0) && Timed(h0, d0, coins, l) && l.r.code == More && Sending(l.r.h.x.kind)
    ensures Timed(h0, d0, coins + One(wait), Step(l, wait))
  {
    hide H.BulkOut, Fits, Driven, Seen, O.DataRest, O.Inv, O.RunStep, O.DataSound, O.DataLeft, O.DataLeast,
         Concluded, H.Deadline, Shows, Fitting;
    var r := l.r;
    O.AnyCall(h0, r, Call(wait, QUIET));
    InData(h0, r);
    O.DataSoundly(r.h.x, r.bus);
    SendingCall(r, Call(wait, QUIET));
    O.DataPhase(r.h.x, r.h.cycle + 1, wait, r.bus, QUIET);
    LeastCall(r.h.x, r.h.cycle + 1, wait, r.bus);
  }

  /** One call of the handshake. */
  lemma AckPhase(x: Xfer, cycle: nat, wait: bool, bus: Bus, d0: Device, d: Device, m: nat)
    requires Sound(x) && Fresh(d0) && Stands(x, bus, d0, d, m)
    ensures var b := H.BulkOut(x, cycle, wait, Seen(bus, Shows(d, bus)));
      && b.x.cycle == x.cycle
      && if cycle >= x.cycle || m == d0.delay + d0.hold + 2 then b.code == Done
         else b.code == More && Stands(b.x, b.out, d0, Advance(d, bus), m + 1)
  {
  }

  lemma InAck(h0: H.Host, r: O.Run)
    requires O.Ready(h0) && O.Inv(h0, r) && r.code == More && r.h.x.kind == UpAck
    ensures r.h.op == h0.op && Sound(r.h.x) && r.tokenCalls == 9
    ensures r.answer == if r.h.x.stage == NoXfer then None else Some(0x42)
  {
  }

  lemma AckStep(h0: H.Host, d0: Device, coins: nat, l: Loop, wait: bool)
    requires O.Ready(h0) && Fresh(d0) && Timed(h0, d0, coins, l) && l.r.code == More && l.r.h.x.kind == UpAck
    ensures Timed(h0, d0, coins + One(wait), Step(l, wait))
  {
    hide H.BulkOut, H.BulkIn, Crc, Low, High, Driven, Seen, O.Inv, Shows, Advance;
    var r := l.r;
    O.AnyCall(h0, r, NextCall(l, wait));
    InAck(h0, r);
    AckPhase(r.h.x, r.h.cycle + 1, wait, r.bus, d0, l.d, r.ackCalls);
  }

  lemma AnyStep(h0: H.Host, d0: Device, coins: nat, l: Loop, wait: bool)
    requires O.Ready(h0) && Fresh(d0) && Timed(h0, d0, coins, l)
    ensures Timed(h0, d0, coins + One(wait), Step(l, wait))
  {
    hide H.Step, Crc, Low, High, O.RunStep, Concluded, Stands, Shows;
    if l.r.code != More {
      Stops(l.r, NextCall(l, wait));
    } else {
      Kinds(h0, l.r);
      if l.r.h.x.kind == Out { TokenStep(h0, d0, coins, l, wait); }
      else if l.r.h.x.kind == UpAck { AckStep(h0, d0, coins, l, wait); }
      else { DataStep(h0, d0, coins, l, wait); }
    }
  }

  lemma Stops(r: O.Run, call: Call)
    requires Sound(r.h.x) && r.code != More
    ensures O.RunStep(r, call) == r
  {
  }

  lemma OneCall(r: O.Run, call: Call)
    requires Sound(r.h.x)
    ensures var r' := O.RunStep(r, call);
      r'.code == More ==>
        r.code == More && r'.tokenCalls + r'.dataCalls + r'.ackCalls == r.tokenCalls + r.dataCalls + r.ackCalls + 1
  {
    hide H.Step;
  }

  lemma Kinds(h0: H.Host, r: O.Run)
    requires O.Ready(h0) && O.Inv(h0, r) && r.code == More
    ensures r.h.x.kind == Out || Sending(r.h.x.kind) || r.h.x.kind == UpAck
  {
  }

  lemma {:induction false} RunTimed(h0: H.Host, d0: Device, waits: seq<bool>)
    requires O.Ready(h0) && Fresh(d0)
    ensures var l := Execute(h0, d0, waits);
      && Timed(h0, d0, Coins(waits), l)
      && (l.r.code == More ==> l.r.tokenCalls + l.r.dataCalls + l.r.ackCalls == |waits|)
  {
    hide Timed, O.RunStep, NextCall;
    if waits == [] {
      Starts(h0, d0);
    } else {
      var k := |waits| - 1;
      var l := Execute(h0, d0, waits[..k]);
      RunTimed(h0, d0, waits[..k]);
      AnyStep(h0, d0, Coins(waits[..k]), l, waits[k]);
      OneCall(l.r, NextCall(l, waits[k]));
    }
  }

  lemma Starts(h0: H.Host, d0: Device)
    requires O.Ready(h0)
    ensures Timed(h0, d0, 0, Loop(O.Start(h0), d0))
  {
    O.Begins(h0);
  }

  /**
   Every transaction comes to its end without an error. The toggle has flipped
   exactly if the ACK byte showed within 38 calls and the deadline fitted 32
   bits; the handshake is complete before the deadline exactly if the link was
   through within 36. So a link that answers in calls 37 and 38 flips the
   toggle although the host reports a time-out.
   */
  lemma Ends(h0: H.Host, d0: Device, waits: seq<bool>)
    requires O.Ready(h0) && Fresh(d0)
    ensures var r, x0 := Execute(h0, d0, waits).r, h0.x;
      && (|waits| >= 2 * |x0.tx| + 59 ==> r.code == Done)
      && (r.code == More || r.code == Done)
      && (r.code == Done ==>
           && |x0.tx| + 9 <= r.dataCalls <= |x0.tx| + 9 + Coins(waits)
           && r.data == O.Packet(x0)
           && r.h.x.epSeq ==
                (if d0.delay <= 38 && Fitting(h0, r.dataCalls) then Flip(x0.epSeq, x0.endpoint) else x0.epSeq)
           && (r.h.cycle < r.h.x.cycle <==> d0.delay + d0.hold <= 36 && Fitting(h0, r.dataCalls)))
  {
    hide H.Step, Crc, Low, High, O.Packet, O.DataRest;
    RunTimed(h0, d0, waits);
    O.Bounded(h0, Execute(h0, d0, waits).r);
  }

  /** The toggle has flipped. */
  predicate Flipped(h0: H.Host, r: O.Run)
    requires O.Ready(h0)
  {
    r.h.x.epSeq == Flip(h0.x.epSeq, h0.x.endpoint)
  }

  /** The handshake came to its end before the deadline. */
  predicate Completed(r: O.Run) { r.code == Done && r.h.cycle < r.h.x.cycle }

  lemma FlippedInTime(h0: H.Host, d0: Device, coins: nat, l: Loop)
    requires O.Ready(h0) && Timed(h0, d0, coins, l) && Flipped(h0, l.r)
    ensures d0.delay <= 38 && Fitting(h0, |h0.x.tx| + 9)
  {
    hide Crc, Low, High, O.Packet, O.DataRest, TokenRest, O.DataLeast, O.DataLeft;
    assert Flip(h0.x.epSeq, h0.x.endpoint)[h0.x.endpoint] != h0.x.epSeq[h0.x.endpoint];
  }

  lemma {:induction false} NoCoins(n: nat)
    ensures Coins(seq(n, i => false)) == 0
  {
    if n > 0 {
      assert seq(n, i => false)[..n - 1] == seq(n - 1, i => false);
      NoCoins(n - 1);
    }
  }

  /** Some run flips the toggle exactly if the ACK byte comes within 38 calls and the deadline can fit 32 bits. */
  lemma FlipsExactly(h0: H.Host, d0: Device)
    requires O.Ready(h0) && Fresh(d0)
    ensures (exists waits :: Flipped(h0, Execute(h0, d0, waits).r)) <==>
      d0.delay <= 38 && h0.cycle + |h0.x.tx| + 58 < 0x1_0000_0000
  {
    hide Flipped, H.Step, Timed;
    if d0.delay <= 38 && Fitting(h0, |h0.x.tx| + 9) {
      Undelayed(h0, d0);
    } else {
      forall waits ensures !Flipped(h0, Execute(h0, d0, waits).r) {
        RunTimed(h0, d0, waits);
        if Flipped(h0, Execute(h0, d0, waits).r) {
          FlippedInTime(h0, d0, Coins(waits), Execute(h0, d0, waits));
        }
      }
    }
  }

  /** Without wait-states the handshake begins as early as it can. */
  lemma Undelayed(h0: H.Host, d0: Device)
    requires O.Ready(h0) && Fresh(d0)
    ensures var r := Execute(h0, d0, seq(2 * |h0.x.tx| + 59, i => false)).r;
      && r.code == Done
      && (d0.delay <= 38 && Fitting(h0, |h0.x.tx| + 9) ==> Flipped(h0, r))
      && (d0.delay + d0.hold <= 36 && Fitting(h0, |h0.x.tx| + 9) ==> Completed(r))
  {
    hide H.Step, O.Packet;
    var n := 2 * |h0.x.tx| + 59;
    Ends(h0, d0, seq(n, i => false));
    NoCoins(n);
  }

  /** Some run completes the handshake in time exactly if the link is through within 36 calls, too. */
  lemma CompletesExactly(h0: H.Host, d0: Device)
    requires O.Ready(h0) && Fresh(d0)
    ensures (exists waits :: Completed(Execute(h0, d0, waits).r)) <==>
      d0.delay + d0.hold <= 36 && h0.cycle + |h0.x.tx| + 58 < 0x1_0000_0000
  {
    hide H.Step, O.Packet;
    if d0.delay + d0.hold <= 36 && Fitting(h0, |h0.x.tx| + 9) {
      Undelayed(h0, d0);
    } else {
      forall waits ensures !Completed(Execute(h0, d0, waits).r) { Ends(h0, d0, waits); }
    }
  }
}
