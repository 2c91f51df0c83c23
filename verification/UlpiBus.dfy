/**
 The bus between the host and a link, and what the host drives packet by
 packet. dir and nxt are the host's; data is the host's while dir is set and
 the link's otherwise; stp is the link's.
 */
module UlpiBus {
  import opened Crc16
  import opened Ulpi

  datatype Link = Link(stp: bool, a: Byte, b: Byte)

  const QUIET := Link(false, 0, 0)

  /** What one call of the host meets: the coin it tosses and the link's signals. */
  datatype Call = Call(wait: bool, link: Link)

  /** What the next call sees after the host drove out. */
  function Seen(out: Bus, link: Link): Bus {
    if out.dir then out.(stp := link.stp) else Bus(false, link.stp, out.nxt, link.a, link.b)
  }

  /** A packet byte on the bus, as opposed to an RX CMD, a wait-state or a turn-around. */
  function Driven(out: Bus): seq<Byte> {
    if out.dir && out.nxt && out.b == 0 then [out.a] else []
  }

  /** The host's own signals between the calls of a packet it sends. */
  predicate Fits(stage: Stage, bus: Bus) {
    match stage
    case NoXfer | LineIdle => !bus.dir && !bus.nxt
    case AssertDir => bus.dir
    case InitRxCmd | EndRxCmd | Eop => bus.dir && !bus.nxt && bus.b == 0
    case DataStop => bus.dir && !bus.nxt
    case DataPid | DataBody => bus.dir && bus.b == 0
    case _ => bus.dir && bus.nxt && bus.b == 0
  }

  /** How many calls the end of a packet takes. */
  function EopLeft(stage: Stage): nat {
    match stage
    case Token2 | DataCrc2 | HskPid | DataStop => 4
    case EndRxCmd => 3
    case Eop => 2
    case LineIdle => 1
    case _ => 0
  }

  /** A packet is ended without driving a byte; the only demand on the link is that it idles at the end. */
  lemma EopCall(x: Xfer, bus: Bus, link: Link)
    requires EopLeft(x.stage) > 0 && Fits(x.stage, bus)
    ensures var r := DriveEop(x, Seen(bus, link));
      && Driven(r.out) == []
      && if x.stage == LineIdle then
           && r.out == Seen(bus, link) && Fits(NoXfer, r.out)
           && if link.a == 0 then r.code == Done && r.x == x.(kind := Idle, stage := NoXfer)
              else r.code == Abort && r.x == x
         else
           r.code == More && r.x == x.(stage := r.x.stage) && Fits(r.x.stage, r.out)
           && EopLeft(r.x.stage) == EopLeft(x.stage) - 1 > 0
  {
  }

  /**
   What the host's packets ask of the link, which they look at only while dir
   is low: an idle bus after a packet, and no stp when a data packet starts.
   */
  predicate Calm(x: Xfer, link: Link) {
    && ((Token(x.kind) || Sending(x.kind)) && x.stage == LineIdle ==> link.a == 0)
    && (Sending(x.kind) && x.stage == NoXfer ==> link.a == 0 && !link.stp)
  }

  /** The link is calm in every call; before gives the transfer after some of them. */
  predicate AllCalm(before: seq<Call> -> Xfer, calls: seq<Call>) {
    calls == [] ||
    var front, call := calls[..|calls| - 1], calls[|calls| - 1];
    AllCalm(before, front) && Calm(before(front), call.link)
  }

  // ------------------------------------------------------------ token packets

  function TokenLeft(stage: Stage): nat {
    match stage
    case NoXfer => 9
    case AssertDir => 8
    case InitRxCmd => 7
    case TokenPid => 6
    case Token1 => 5
    case Token2 | EndRxCmd | Eop | LineIdle => EopLeft(stage)
    case _ => 0
  }

  function TokenRest(x: Xfer): seq<Byte> {
    match x.stage
    case NoXfer | AssertDir | InitRxCmd => [PidByte(x.kind), x.tok1, x.tok2]
    case TokenPid => [x.tok1, x.tok2]
    case Token1 => [x.tok2]
    case _ => []
  }

  /** One call of a token packet. */
  lemma TokenCall(x: Xfer, bus: Bus, link: Link)
    requires Token(x.kind) && TokenLeft(x.stage) > 0 && Fits(x.stage, bus) && Calm(x, link)
    ensures var r := TokenSend(x, Seen(bus, link));
      && Driven(r.out) + (if r.code == Done then [] else TokenRest(r.x)) == TokenRest(x)
      && if x.stage == LineIdle then
           && r.code == Done && r.x == x.(kind := Idle, stage := NoXfer)
           && !r.out.dir && !r.out.nxt && Fits(NoXfer, r.out) && TokenLeft(x.stage) == 1
         else
           r.code == More && r.x == x.(stage := r.x.stage) && Fits(r.x.stage, r.out)
           && TokenLeft(r.x.stage) == TokenLeft(x.stage) - 1 > 0
  {
    hide DriveEop;
    if EopLeft(x.stage) > 0 { EopCall(x, bus, link); }
  }
}
