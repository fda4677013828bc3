/** icc_ether.c: the packets kept for each port, and the numbers its ports are known by. */
module EtherPorts {
  import opened Ports

  const NETHPT := 20
  const NPORT := MAXPORTS + NETHPT
  const ANYONE := 0xffff
  const BBPTYPE := 0x4242
  const RDAHEAD := 32

  datatype Mode = Mode(isOpen: bool, canRead: bool, canWrite: bool)
  datatype Packet = Packet(kind: int, destport: int, source: int, id: int)

  /** struct port, but for its configuration: pt_flag, pt_rc, pt_mrc and the receive queue. */
  datatype Line = Line(mode: Mode, sleeping: bool, accept: int, kind: int, rc: int, mrc: int, queue: seq<Packet>)

  const CLOSED := Line(Mode(false, false, false), false, 0, 0, 0, 0, [])

  /** pt_rc counts the queue, which stays within pt_mrc; a closed port keeps nothing. */
  predicate Counted(l: Line) {
    l.rc == |l.queue| && l.rc <= l.mrc && (!l.mode.isOpen ==> l.queue == []) && l.mrc <= RDAHEAD
  }

  // ----- one port -----

  /** icc_ethopen of a port that is not open. */
  function Opened(l: Line, bbp: bool, both: bool): Line {
    var mode := if bbp then Mode(true, true, both) else Mode(true, !both, both);
    l.(mode := mode, sleeping := false, rc := 0, mrc := 1, kind := if bbp then l.kind else 0)
  }

  function Appended(l: Line, p: Packet): Line {
    l.(queue := l.queue + [p], rc := l.rc + 1, sleeping := false)
  }

  /** A packet joins the end of the queue and is counted, and the reader is no longer asleep. */
  lemma {:induction false} AppendedTells(l: Line, p: Packet)
    ensures Appended(l, p) == Line(l.mode, false, l.accept, l.kind, l.rc + 1, l.mrc, l.queue + [p])
  {
  }

  /** The end of icc_ethread: the packet read is released. */
  function Consumed(l: Line): Line {
    l.(queue := if l.queue == [] then [] else l.queue[1..], rc := l.rc - 1)
  }

  /** BBPSET with another number throws away what was received for the old one. */
  function Flushed(l: Line): Line {
    if l.rc > 0 then l.(queue := [], rc := 0) else l
  }

  /** icc_ethread lets a reader past its wait. */
  predicate Readable(l: Line) { l.rc > 0 }

  /** A read that ends keeps the count right exactly when there still is a packet to release. Another reader
      of the port, or a BBPSET, can take it while the data is copied. */
  lemma {:induction false} ReadEndIsRightIff(l: Line)
    requires Counted(l)
    ensures Counted(Consumed(l)) <==> l.queue != []
  {
  }

  /** While nothing but packets for the port intervenes, that is so. */
  lemma {:induction false} UndisturbedRead(l: Line, ps: seq<Packet>)
    requires Counted(l) && Readable(l) && l.rc + |ps| <= l.mrc
    ensures Counted(AppendedAll(l, ps)) && AppendedAll(l, ps).queue == l.queue + ps
    ensures Counted(Consumed(AppendedAll(l, ps))) && Consumed(AppendedAll(l, ps)).queue == l.queue[1..] + ps
    decreases |ps|
  {
    if ps != [] {
      UndisturbedRead(Appended(l, ps[0]), ps[1..]);
      assert (l.queue + [ps[0]])[1..] + ps[1..] == l.queue[1..] + ps;
    }
  }

  function AppendedAll(l: Line, ps: seq<Packet>): Line
    decreases |ps|
  {
    if ps == [] then l else AppendedAll(Appended(l, ps[0]), ps[1..])
  }

  // ----- how long a miscount lasts -----

  /** Packets queued that are not counted. */
  function Missing(l: Line): int { |l.queue| - l.rc }

  datatype LineOp =
    | Arrive(p: Packet)
    | EndRead
    | MoreAhead                  // ETHPTSETBUF
    | Renumber                   // BBPSET with another number
    | Shut                       // icc_ethclose

  function Closed(l: Line): Line { CLOSED.(accept := l.accept, kind := l.kind) }

  function Do(l: Line, op: LineOp): Line {
    match op
    case Arrive(p) => Appended(l, p)
    case EndRead => Consumed(l)
    case MoreAhead => l.(mrc := RDAHEAD)
    case Renumber => Flushed(l)
    case Shut => Closed(l)
  }

  /** The queue and the count are both cleared: by closing the port, and by another number if the count is
      above 0. */
  predicate Clears(l: Line, op: LineOp) { op.Shut? || (op.Renumber? && l.rc > 0) }

  /** A read that found its packet gone adds to the miscount, clearing ends it, and all else keeps it. */
  lemma {:induction false} MissingAfter(l: Line, op: LineOp)
    ensures Missing(Do(l, op)) ==
      if Clears(l, op) then 0 else Missing(l) + if op.EndRead? && l.queue == [] then 1 else 0
  {
  }

  predicate NoneClears(l: Line, ops: seq<LineOp>)
    decreases |ops|
  {
    ops != [] ==> !Clears(l, ops[0]) && NoneClears(Do(l, ops[0]), ops[1..])
  }

  function DoAll(l: Line, ops: seq<LineOp>): Line
    decreases |ops|
  {
    if ops == [] then l else DoAll(Do(l, ops[0]), ops[1..])
  }

  /** Until it is cleared a miscount never shrinks, and while the port does not look readable at least that
      many packets are queued. */
  lemma {:induction false} MiscountLasts(l: Line, ops: seq<LineOp>)
    requires NoneClears(l, ops)
    ensures Missing(DoAll(l, ops)) >= Missing(l)
    ensures !Readable(DoAll(l, ops)) ==> |DoAll(l, ops).queue| >= Missing(l) + DoAll(l, ops).rc
    decreases |ops|
  {
    if ops != [] {
      MissingAfter(l, ops[0]);
      MiscountLasts(Do(l, ops[0]), ops[1..]);
    }
  }

  /** Arrivals alone: one packet more is queued than is counted, and a lone one is never readable. */
  lemma {:induction false} MiscountHides(l: Line, ps: seq<Packet>)
    requires Counted(l) && l.queue == []
    ensures var u := AppendedAll(Consumed(l), ps);
      u.rc == |u.queue| - 1 && u.queue == ps && (|ps| == 1 ==> !Readable(u))
  {
    MiscountStays(Consumed(l), ps);
  }

  lemma {:induction false} MiscountStays(l: Line, ps: seq<Packet>)
    requires l.rc == |l.queue| - 1
    ensures var u := AppendedAll(l, ps); u.rc == |u.queue| - 1 && u.queue == l.queue + ps
    decreases |ps|
  {
    if ps != [] {
      MiscountStays(Appended(l, ps[0]), ps[1..]);
      assert (l.queue + [ps[0]]) + ps[1..] == l.queue + ps;
    }
  }

  // ----- the driver -----

  /** A 16-bit word as a short. */
  function Short(k: int): int { if k < 0x8000 then k else k - 0x1_0000 }

  /** The protocol test. For packets from the network the port's type is a short and the packet's is not;
      for the station's own both are shorts. */
  predicate SameKind(kind: int, pkind: int, local: bool) { if local then kind == pkind else Short(kind) == pkind }

  /** So a port for a protocol from 0x8000 on hears nothing from the network. */
  lemma {:induction false} HeardIff(kind: int)
    requires 0 <= kind < 0x1_0000
    ensures (exists pkind :: 0 <= pkind < 0x1_0000 && SameKind(kind, pkind, false)) <==> kind < 0x8000
  {
    if kind < 0x8000 { assert SameKind(kind, kind, false); }
  }

  /** Port i takes packet p, on the conditions of icc_ethrint in their order. wake is false for a packet to be
      kept only if somebody waits for it; bbp tells the two kinds of port apart. */
  predicate Takes(ls: seq<Line>, ps: seq<Port>, i: int, p: Packet, bbp: bool, wake: bool, local: bool)
    requires 0 <= i < |ls| == NPORT == |ps|
  {
    var l := ls[i];
    if bbp then
      && i < MAXPORTS && ps[i].conf && ps[i].inport == p.destport
      && l.rc < l.mrc && l.mode.isOpen && l.mode.canRead
      && (l.accept == p.id || l.accept == ANYONE) && (wake || l.sleeping)
    else
      && MAXPORTS <= i && FirstOfKind(ls, ps, i, p.kind, local) && l.rc < l.mrc && (wake || l.sleeping)
  }

  predicate OfKind(ls: seq<Line>, ps: seq<Port>, i: int, kind: int, local: bool)
    requires 0 <= i < |ls| == |ps|
  {
    ps[i].conf && ls[i].mode.isOpen && ls[i].mode.canRead && SameKind(ls[i].kind, kind, local)
  }

  predicate FirstOfKind(ls: seq<Line>, ps: seq<Port>, i: int, kind: int, local: bool)
    requires 0 <= i < |ls| == |ps|
  {
    OfKind(ls, ps, i, kind, local) && forall j :: MAXPORTS <= j < i ==> !OfKind(ls, ps, j, kind, local)
  }

  /** Who hears a packet. One for a port number: the configured port of that number, if it is open for reading,
      has room, and accepts the station the packet is from or any (0xffff). One of a protocol: the first port open
      and configured to read it, if that one has room. While nobody may be waken up, a sleeper only. */
  lemma {:induction false} TakesIff(ls: seq<Line>, ps: seq<Port>, i: int, p: Packet, bbp: bool, wake: bool, local: bool)
    requires 0 <= i < |ls| == NPORT == |ps|
    ensures var l := ls[i];
      Takes(ls, ps, i, p, bbp, wake, local) <==>
        && (i < MAXPORTS <==> bbp) && ps[i].conf && l.mode.isOpen && l.mode.canRead && l.rc < l.mrc
        && (bbp ==> ps[i].inport == p.destport && l.accept in {p.id, 0xffff})
        && (!bbp ==> (if local then l.kind else (if l.kind < 0x8000 then l.kind else l.kind - 0x1_0000)) == p.kind)
        && (!bbp ==> forall j :: MAXPORTS <= j < i ==> !OfKind(ls, ps, j, p.kind, local))
        && (!wake ==> l.sleeping)
  {
  }

  /** No packet is for two ports. */
  lemma {:induction false} OneTaker(ls: seq<Line>, ps: seq<Port>, i: int, j: int, p: Packet, bbp: bool, wake: bool,
      local: bool)
    requires |ls| == NPORT == |ps| && 0 <= i < j < NPORT && Distinct(ps[..MAXPORTS])
    ensures !(Takes(ls, ps, i, p, bbp, wake, local) && Takes(ls, ps, j, p, bbp, wake, local))
  {
    if j < MAXPORTS { assert Apart(ps[..MAXPORTS], i, j); }
  }

  // ----- one reader a protocol -----

  /** Port i is configured to read protocol kind. */
  predicate Reader(ls: seq<Line>, ps: seq<Port>, i: int, kind: int)
    requires 0 <= i < |ls| == |ps|
  {
    ps[i].conf && ls[i].mode.canRead && !ls[i].mode.canWrite && ls[i].kind == kind
  }

  predicate Alone(ls: seq<Line>, ps: seq<Port>, i: int, j: int)
    requires 0 <= i < |ls| == |ps| && 0 <= j < |ls|
  {
    i != j && Reader(ls, ps, i, ls[i].kind) ==> !Reader(ls, ps, j, ls[i].kind)
  }

  predicate OneReader(ls: seq<Line>, ps: seq<Port>)
    requires |ls| == |ps| == NPORT
  {
    forall i, j :: MAXPORTS <= i < NPORT && MAXPORTS <= j < NPORT ==> Alone(ls, ps, i, j)
  }

  predicate Rival(ls: seq<Line>, ps: seq<Port>, dev: int, kind: int)
    requires |ls| == |ps| == NPORT
  {
    exists j :: MAXPORTS <= j < NPORT && j != dev && Reader(ls, ps, j, kind)
  }

  /** ETHPTSET looks for a rival only when the protocol changes. Configuring a port for a protocol leaves one
      reader each exactly when there is none, or the port does not read. */
  lemma {:induction false} OneReaderIff(ls: seq<Line>, ps: seq<Port>, dev: int, kind: int, ls': seq<Line>,
      ps': seq<Port>)
    requires |ls| == |ps| == NPORT && MAXPORTS <= dev < NPORT && OneReader(ls, ps)
    requires ls' == ls[dev := ls[dev].(kind := kind)] && ps' == ps[dev := Port(true, ps[dev].inport)]
    requires !(ls[dev].mode.canRead && ls[dev].mode.canWrite)
    ensures OneReader(ls', ps') <==> !ls[dev].mode.canRead || !Rival(ls, ps, dev, kind)
  {
    if ls[dev].mode.canRead && Rival(ls, ps, dev, kind) {
      var j :| MAXPORTS <= j < NPORT && j != dev && Reader(ls, ps, j, kind);
      assert !Alone(ls', ps', dev, j);
    } else {
      forall i, j | MAXPORTS <= i < NPORT && MAXPORTS <= j < NPORT ensures Alone(ls', ps', i, j) {
        assert Alone(ls, ps, i, j);
        assert i != dev ==> (Reader(ls', ps', i, kind) <==> Reader(ls, ps, i, kind));
        assert j != dev ==> (Reader(ls', ps', j, kind) <==> Reader(ls, ps, j, kind));
      }
    }
  }

  /** Taking a configuration away leaves one reader each. */
  lemma {:induction false} OneReaderLess(ls: seq<Line>, ps: seq<Port>, dev: int, ls': seq<Line>, ps': seq<Port>)
    requires |ls| == |ps| == |ls'| == |ps'| == NPORT && 0 <= dev < NPORT && OneReader(ls, ps) && !ps'[dev].conf
    requires forall i :: 0 <= i < NPORT && i != dev ==> ls'[i] == ls[i] && ps'[i] == ps[i]
    ensures OneReader(ls', ps')
  {
    forall i, j | MAXPORTS <= i < NPORT && MAXPORTS <= j < NPORT
      ensures Alone(ls', ps', i, j)
    {
      assert Alone(ls, ps, i, j);
    }
  }

  class Driver {
    var line: seq<Line>
    var port: seq<Port>       // P_CONFIG and pt_inport
    var free: int             // portctrl.bb_free

    ghost predicate Valid()
      reads this
    {
      && |line| == |port| == NPORT && Distinct(port[..MAXPORTS]) && FREEMIN <= free <= FREEMAX
      && forall i :: 0 <= i < NPORT ==> Counted(line[i])
    }

    constructor ()
      ensures Valid() && forall i :: 0 <= i < NPORT ==> line[i] == CLOSED && !port[i].conf
    {
      line := seq(NPORT, _ => CLOSED);
      port := seq(NPORT, _ => Port(false, 0));
      free := FREEMIN;
    }

    /** icc_ethopen, once the hardware is there. */
    method Open(dev: nat, both: bool) returns (ok: bool)
      requires Valid()
      modifies this
      ensures Valid() && |old(line)| == NPORT == |old(port)| && ok == (dev < NPORT && !old(line)[dev].mode.isOpen)
      ensures !ok ==> line == old(line) && port == old(port)
      ensures ok ==> line == old(line)[dev := Opened(old(line)[dev], dev < MAXPORTS, both)]
      ensures ok ==> port == old(port)[dev := Port(false, old(port)[dev].inport)]
      ensures ok ==> var l := line[dev];
        && l.queue == [] && l.rc == 0 && l.mrc == 1 && !l.sleeping && l.mode.isOpen && l.accept == old(line)[dev].accept
        && (if dev < MAXPORTS then l.mode.canRead && l.mode.canWrite == both && l.kind == old(line)[dev].kind
            else l.mode.canRead == !both && l.mode.canWrite == both && l.kind == 0)
    {
      if dev >= NPORT { return false; }
      if line[dev].mode.isOpen { return false; }
      Unconfigure(dev);
      if dev < MAXPORTS {
        line := line[dev := line[dev].(mode := Mode(true, true, both), sleeping := false, mrc := 1)];
      } else {
        line := line[dev := line[dev].(mode := Mode(true, !both, both), sleeping := false, kind := 0, mrc := 1)];
      }
      line := line[dev := line[dev].(rc := 0)];
      ok := true;
    }

    method Unconfigure(dev: nat)
      requires Valid() && dev < NPORT
      modifies this`port
      ensures Valid() && port == old(port)[dev := Port(false, old(port)[dev].inport)]
    {
      if dev < MAXPORTS { Cleared(port[..MAXPORTS], dev, port[dev].inport); }
      ghost var was := port;
      port := port[dev := port[dev].(conf := false)];
      assert dev < MAXPORTS ==> port[..MAXPORTS] == was[..MAXPORTS][dev := Port(false, was[dev].inport)];
      assert dev >= MAXPORTS ==> port[..MAXPORTS] == was[..MAXPORTS];
    }

    /** icc_ethclose */
    method Close(dev: nat)
      requires Valid() && dev < NPORT
      modifies this`line, this`port
      ensures Valid() && dev < |old(line)| == |old(port)|
      ensures port == old(port)[dev := Port(false, old(port)[dev].inport)]
      ensures line == old(line)[dev := Closed(old(line)[dev])]
      ensures line[dev] == Line(Mode(false, false, false), false, old(line)[dev].accept, old(line)[dev].kind, 0, 0, [])
    {
      Unconfigure(dev);
      line := line[dev := line[dev].(queue := [])];
      line := line[dev := line[dev].(mrc := 0, rc := 0)];
      line := line[dev := line[dev].(mode := Mode(false, false, false), sleeping := false)];
    }

    /** icc_ethrint for a whole packet: the port that takes it, or -1 when the buffer is released. */
    method Receive(p: Packet, wake: bool) returns (i: int)
      requires Valid()
      modifies this`line
      ensures Valid() && Delivered(old(line), p, p.kind == 0 || p.kind == BBPTYPE, wake, false, i)
    {
      if p.kind == 0 || p.kind == BBPTYPE { i := ToNumber(p, wake, false); } else { i := ToKind(p, wake, false); }
    }

    /** icc_ethwrite to this very station, up to the delivery: -2 for a port not configured. */
    method Loopback(dev: nat, outport: int, station: int) returns (i: int)
      requires Valid() && dev < NPORT
      modifies this`line
      ensures Valid() && (i == -2 <==> !port[dev].conf) && (i == -2 ==> line == old(line)) && dev < |old(line)|
      ensures i != -2 ==>
        var kind := if dev < MAXPORTS then BBPTYPE else old(line)[dev].kind;
        Delivered(old(line), Packet(kind, outport, station, station), dev < MAXPORTS, true, true, i)
    {
      if !port[dev].conf { return -2; }
      var p := Packet(if dev < MAXPORTS then BBPTYPE else line[dev].kind, outport, station, station);
      if dev < MAXPORTS { i := ToNumber(p, true, true); } else { i := ToKind(p, true, true); }
    }

    /** Packet p went to port i, behind what that port had; or nowhere, since no port takes it. */
    ghost predicate Delivered(was: seq<Line>, p: Packet, bbp: bool, wake: bool, local: bool, i: int)
      reads this
    {
      && |was| == NPORT == |port| && -1 <= i < NPORT
      && (i >= 0 ==> Takes(was, port, i, p, bbp, wake, local) && line == was[i := Appended(was[i], p)])
      && (i < 0 ==> line == was && forall j :: 0 <= j < NPORT ==> !Takes(was, port, j, p, bbp, wake, local))
    }

    method ToNumber(p: Packet, wake: bool, local: bool) returns (i: int)
      requires Valid()
      modifies this`line
      ensures Valid() && Delivered(old(line), p, true, wake, local, i)
    {
      i := FindNumber(p.destport);
      if i < MAXPORTS {
        var l := line[i];
        Others(i);
        var hears := l.mode.isOpen && l.mode.canRead && (l.accept == p.id || l.accept == ANYONE);
        if l.rc < l.mrc && hears && (wake || l.sleeping) {
          Append(i, p);
          return;
        }
      }
      i := -1;
    }

    /** rq_append and what goes with it: the packet is counted, and a sleeping reader is woken. */
    method Append(i: int, p: Packet)
      requires 0 <= i < |line|
      modifies this`line
      ensures line == old(line)[i := Appended(old(line)[i], p)]
    {
      line := line[i := line[i].(queue := line[i].queue + [p])];
      line := line[i := line[i].(rc := line[i].rc + 1)];
      if line[i].sleeping { line := line[i := line[i].(sleeping := false)]; }
    }

    method ToKind(p: Packet, wake: bool, local: bool) returns (i: int)
      requires Valid()
      modifies this`line
      ensures Valid() && Delivered(old(line), p, false, wake, local, i)
    {
      i := FindKind(p.kind, local);
      if i < NPORT {
        var l := line[i];
        if l.rc < l.mrc && (wake || l.sleeping) {
          Append(i, p);
          return;
        }
      }
      i := -1;
    }

    lemma Others(i: int)
      requires Valid() && 0 <= i < MAXPORTS && port[i].conf
      ensures forall j :: 0 <= j < MAXPORTS && j != i ==> !(port[j].conf && port[j].inport == port[i].inport)
    {
      forall j | 0 <= j < MAXPORTS && j != i ensures !(port[j].conf && port[j].inport == port[i].inport) {
        if j < i { assert Apart(port[..MAXPORTS], j, i); } else { assert Apart(port[..MAXPORTS], i, j); }
      }
    }

    method FindNumber(n: int) returns (i: int)
      requires Valid()
      ensures 0 <= i <= MAXPORTS && (i < MAXPORTS ==> port[i].conf && port[i].inport == n)
      ensures forall j :: 0 <= j < i ==> !(port[j].conf && port[j].inport == n)
    {
      i := 0;
      while i < MAXPORTS && !(port[i].conf && n == port[i].inport)
        invariant 0 <= i <= MAXPORTS && forall j :: 0 <= j < i ==> !(port[j].conf && port[j].inport == n)
      {
        i := i + 1;
      }
    }

    method FindKind(kind: int, local: bool) returns (i: int)
      requires Valid()
      ensures MAXPORTS <= i <= NPORT && (i < NPORT ==> FirstOfKind(line, port, i, kind, local))
      ensures forall j :: MAXPORTS <= j < i ==> !OfKind(line, port, j, kind, local)
    {
      i := MAXPORTS;
      while i < NPORT &&
            !(port[i].conf && line[i].mode.isOpen && line[i].mode.canRead && SameKind(line[i].kind, kind, local))
        invariant MAXPORTS <= i <= NPORT && forall j :: MAXPORTS <= j < i ==> !OfKind(line, port, j, kind, local)
      {
        i := i + 1;
      }
    }

    /** icc_ethread up to its copy: the packet to be copied, when there is one. */
    method ReadBegin(dev: nat) returns (ready: bool)
      requires Valid() && dev < NPORT
      modifies this`line
      ensures Valid() && dev < |old(line)| && ready == Readable(old(line)[dev])
      ensures line == if ready then old(line) else old(line)[dev := old(line)[dev].(sleeping := true)]
    {
      if line[dev].rc <= 0 {
        line := line[dev := line[dev].(sleeping := true)];
        return false;
      }
      ready := true;
    }

    /** icc_ethread from its copy on. */
    method ReadEnd(dev: nat)
      requires Valid() && dev < NPORT
      modifies this`line
      ensures dev < |old(line)| && line == old(line)[dev := Consumed(old(line)[dev])]
      ensures Valid() <==> old(line)[dev].queue != []
    {
      ReadEndIsRightIff(line[dev]);
      var l := line[dev];
      line := line[dev := l.(queue := if l.queue == [] then [] else l.queue[1..])];
      line := line[dev := line[dev].(rc := line[dev].rc - 1)];
      assert line[dev] == Consumed(l);
    }

    /** icc_bbpioctl BBPSET */
    method BbpSet(dev: nat, asked: int, accept: int, copied: bool) returns (result: Set)
      requires Valid() && dev < MAXPORTS
      modifies this
      ensures Valid() && dev < |old(line)| == |old(port)| == NPORT && port[MAXPORTS..] == old(port)[MAXPORTS..]
      ensures SetTo(old(port)[..MAXPORTS], old(free), dev, asked, copied, result, port[..MAXPORTS], free)
      ensures copied ==>
        var l := old(line)[dev];
        line == old(line)[dev := (if asked != old(port)[dev].inport then Flushed(l) else l).(accept := accept)]
      ensures !copied ==> line == old(line)[dev := old(line)[dev].(accept := accept)]
    {
      var was := port[dev].inport;
      line := line[dev := line[dev].(accept := accept)];
      if copied && asked != was && line[dev].rc > 0 {
        line := line[dev := line[dev].(rc := 0)];
        line := line[dev := line[dev].(queue := [])];
      }
      var numbers;
      result, numbers, free := Configure(port[..MAXPORTS], free, dev, asked, copied);
      port := numbers + port[MAXPORTS..];
      assert port[..MAXPORTS] == numbers;
    }

    /** ETHPTSETBUF */
    method SetBuf(dev: nat) returns (ok: bool)
      requires Valid() && MAXPORTS <= dev < NPORT
      modifies this`line
      ensures Valid() && ok == port[dev].conf && dev < |old(line)|
      ensures line == if ok then old(line)[dev := old(line)[dev].(mrc := 32)] else old(line)
    {
      if !port[dev].conf { return false; }
      line := line[dev := line[dev].(mrc := RDAHEAD)];
      ok := true;
    }

    /** icc_ethptclash: a configured port with the protocol, whose read flag equals the opening mode. */
    method ProtoClash(kind: int, mode: Mode) returns (b: bool)
      requires Valid()
      ensures b <==> exists j :: MAXPORTS <= j < NPORT && HasProto(line, port, j, kind, mode)
    {
      var i := MAXPORTS;
      while i < NPORT
        invariant MAXPORTS <= i <= NPORT && forall j :: MAXPORTS <= j < i ==> !HasProto(line, port, j, kind, mode)
      {
        if port[i].conf && line[i].kind == kind && Flags(Mode(true, line[i].mode.canRead, false)) == Flags(mode) {
          assert HasProto(line, port, i, kind, mode);
          return true;
        }
        i := i + 1;
      }
      b := false;
    }

    /** icc_ethptioctl ETHPTSET */
    method EthSet(dev: nat, kind: int, copied: bool) returns (ok: bool)
      requires Valid() && MAXPORTS <= dev < NPORT && !(line[dev].mode.canRead && line[dev].mode.canWrite)
      modifies this`line, this`port
      ensures Valid() && |old(line)| == |old(port)| == NPORT && ok == port[dev].conf
      ensures ok <==>
        copied && kind !in {0, BBPTYPE, 0x800, 0x806}
        && (kind == old(line)[dev].kind || !Clashing(old(line), old(port), dev, kind))
      ensures ok ==> line == old(line)[dev := old(line)[dev].(kind := kind)]
      ensures !ok ==> line == old(line)
      ensures forall i :: 0 <= i < NPORT && i != dev ==> port[i] == old(port)[i]
      ensures OneReader(old(line), old(port)) ==>
        var l := old(line)[dev];
        (OneReader(line, port) <==> !(ok && kind == l.kind && l.mode.canRead && Rival(old(line), old(port), dev, kind)))
    {
      ghost var line0, port0 := line, port;
      Unconfigure(dev);
      ghost var port1 := port;
      if OneReader(line0, port0) { OneReaderLess(line0, port0, dev, line0, port1); }
      if !copied { return false; }
      if kind == 0 || kind == BBPTYPE || kind == 0x800 || kind == 0x806 { return false; }
      if line[dev].kind != kind {
        var clash := ProtoClash(kind, line[dev].mode);
        ClashIsOther(line0, port0, port1, dev, kind);
        if clash { return false; }
        NoRival(dev, kind);
        line := line[dev := line[dev].(kind := kind)];
      }
      port := port[dev := port[dev].(conf := true)];
      assert port[..MAXPORTS] == port1[..MAXPORTS];
      if OneReader(line0, port0) {
        assert line == line0[dev := line0[dev].(kind := kind)];
        OneReaderIff(line0, port1, dev, kind, line, port);
        SameRivals(line0, port0, port1, dev, kind);
      }
      ok := true;
    }

    lemma NoRival(dev: int, kind: int)
      requires Valid() && MAXPORTS <= dev < NPORT && !(line[dev].mode.canRead && line[dev].mode.canWrite)
      requires !exists j :: MAXPORTS <= j < NPORT && HasProto(line, port, j, kind, line[dev].mode)
      ensures line[dev].mode.canRead ==> !Rival(line, port, dev, kind)
    {
      if line[dev].mode.canRead && Rival(line, port, dev, kind) {
        var j :| MAXPORTS <= j < NPORT && j != dev && Reader(line, port, j, kind);
        assert HasProto(line, port, j, kind, line[dev].mode);
      }
    }
  }

  predicate HasProto(ls: seq<Line>, ps: seq<Port>, i: int, kind: int, mode: Mode)
    requires 0 <= i < |ps| == |ls|
  {
    ps[i].conf && ls[i].kind == kind && Flags(Mode(true, ls[i].mode.canRead, false)) == Flags(mode)
  }

  /** Another configured port has the protocol, in the way ProtoClash looks for it. */
  predicate Clashing(ls: seq<Line>, ps: seq<Port>, dev: nat, kind: int)
    requires |ps| == |ls| == NPORT && dev < NPORT
  {
    exists j :: MAXPORTS <= j < NPORT && j != dev && HasProto(ls, ps, j, kind, ls[dev].mode)
  }

  lemma {:induction false} ClashIsOther(ls: seq<Line>, ps: seq<Port>, ps': seq<Port>, dev: nat, kind: int)
    requires |ps| == |ls| == |ps'| == NPORT && MAXPORTS <= dev < NPORT && !ps'[dev].conf
    requires forall i :: 0 <= i < NPORT && i != dev ==> ps'[i] == ps[i]
    ensures Clashing(ls, ps, dev, kind) <==>
      exists j :: MAXPORTS <= j < NPORT && HasProto(ls, ps', j, kind, ls[dev].mode)
  {
    if Clashing(ls, ps, dev, kind) {
      var j :| MAXPORTS <= j < NPORT && j != dev && HasProto(ls, ps, j, kind, ls[dev].mode);
      assert HasProto(ls, ps', j, kind, ls[dev].mode);
    }
    if j :| MAXPORTS <= j < NPORT && HasProto(ls, ps', j, kind, ls[dev].mode) {
      assert HasProto(ls, ps, j, kind, ls[dev].mode);
    }
  }

  /** RREAD is 2 and RWRITE 4. */
  function Flags(m: Mode): int { (if m.canRead then 2 else 0) + if m.canWrite then 4 else 0 }

  lemma {:induction false} SameRivals(ls: seq<Line>, ps: seq<Port>, ps': seq<Port>, dev: int, kind: int)
    requires |ls| == |ps| == |ps'| == NPORT && forall i :: 0 <= i < NPORT && i != dev ==> ps'[i] == ps[i]
    ensures Rival(ls, ps, dev, kind) <==> Rival(ls, ps', dev, kind)
  {
    forall j | MAXPORTS <= j < NPORT && j != dev ensures Reader(ls, ps, j, kind) <==> Reader(ls, ps', j, kind) {}
  }

  // ----- these states are reached -----

  /** A protocol set, refused for a reserved one, taken by another port and set again: two readers. */
  method TwoReaders(kind: int) returns (d: Driver)
    requires kind !in {0, BBPTYPE, 0x800, 0x806}
    ensures fresh(d) && d.Valid() && !OneReader(d.line, d.port)
  {
    d := new Driver();
    var a := d.Open(MAXPORTS, false);
    var b := d.Open(MAXPORTS + 1, false);
    var first := d.EthSet(MAXPORTS, kind, true);
    var refused := d.EthSet(MAXPORTS, 0x800, true);
    var second := d.EthSet(MAXPORTS + 1, kind, true);
    var again := d.EthSet(MAXPORTS, kind, true);
    assert !Alone(d.line, d.port, MAXPORTS, MAXPORTS + 1);
  }

  /** Two readers of one port, past the wait together: the second finds its packet gone. */
  method TwoReads() returns (d: Driver)
    ensures fresh(d) && |d.line| == NPORT && Missing(d.line[0]) == 1
  {
    d := new Driver();
    var a := d.Open(0, false);
    var done := d.BbpSet(0, 2000, ANYONE, true);
    var p := Packet(BBPTYPE, 2000, 0, 0);
    ghost var was := d.line;
    var i := d.Receive(p, true);
    assert Takes(was, d.port, 0, p, true, true, false);
    var r1 := d.ReadBegin(0);
    var r2 := d.ReadBegin(0);
    d.ReadEnd(0);
    d.ReadEnd(0);
  }
}
