/** kmouse.c, with the parts of kmpp.c, ktablet.c and cbip.c it works through: the motion of the mouse,
    collected, merged and sent as messages from a pool that may be dry. */
module Mouse {
  import opened Chain
  import opened Pool
  import opened MessagePort

  const MOUSE_MSG := 106
  const TAB_MSG := 107

  const WORD := 0x1_0000

  /** A short after an addition. */
  function Short(x: int): (s: int)
    ensures -0x8000 <= s < 0x8000
  {
    (x + 0x8000) % WORD - 0x8000
  }

  datatype Point = Point(x: int, y: int)

  function Moved(p: Point, d: Point): Point { Point(Short(p.x + d.x), Short(p.y + d.y)) }

  datatype Body = Body(id: int, pos: Point, event: bv16, buttons: bv16, time: int)

  datatype Wait = CLIENT | MOUSE | TABLET | KEYBOARD | TTY

  // ----- what is where -----

  datatype Axis = X | Y

  function Along(p: Point, a: Axis): int { if a == X then p.x else p.y }

  /** The motion in one message. */
  function Share(b: Body, a: Axis): int { if b.id == MOUSE_MSG then Along(b.pos, a) else 0 }

  /** The motion on the port. */
  function OnPort(q: seq<int>, body: seq<Body>, a: Axis): int
    requires InRange(q, body)
  {
    if q == [] then 0 else Share(body[q[0]], a) + OnPort(q[1..], body, a)
  }

  predicate InRange(q: seq<int>, body: seq<Body>) { forall i :: 0 <= i < |q| ==> 0 <= q[i] < |body| }

  /** The history: motion reported by the hardware, motion others sent as mouse messages of their own, and
      motion the server has received; and by how many words the sums kept in shorts have wrapped. */
  datatype Ledger = Ledger(moved: Point, sent: Point, got: Point, wraps: Point)

  function Owed(l: Ledger, a: Axis): int { Along(l.moved, a) + Along(l.sent, a) - Along(l.got, a) }

  function Plus(p: Point, d: Point): Point { Point(p.x + d.x, p.y + d.y) }

  function ShareOf(b: Body): Point { Point(Share(b, X), Share(b, Y)) }

  /** How often a short wraps when it is to hold x. */
  function Turns(x: int): (k: int)
    ensures Short(x) == x - k * WORD
    ensures k == 0 <==> -0x8000 <= x < 0x8000
  {
    (x + 0x8000) / WORD
  }

  function TurnsOf(p: Point, d: Point): Point { Point(Turns(p.x + d.x), Turns(p.y + d.y)) }

  /** The sum of two points fits in two shorts. */
  predicate SumFits(p: Point, d: Point) { -0x8000 <= p.x + d.x < 0x8000 && -0x8000 <= p.y + d.y < 0x8000 }

  /** Nothing is lost and nothing counted twice, up to the wraps. */
  predicate Even(l: Ledger, q: seq<int>, body: seq<Body>, pos: Point, a: Axis)
    requires InRange(q, body)
  {
    Owed(l, a) == OnPort(q, body, a) + Along(pos, a) + WORD * Along(l.wraps, a)
  }

  ghost predicate Balanced(l: Ledger, q: seq<int>, body: seq<Body>, pos: Point) {
    InRange(q, body) && forall a :: Even(l, q, body, pos, a)
  }

  /** While no sum has wrapped, the motion still owed to the server is exactly what is on the port or pending. */
  lemma {:induction false} ExactWithoutWraps(l: Ledger, q: seq<int>, body: seq<Body>, pos: Point, a: Axis)
    requires Balanced(l, q, body, pos) && l.wraps == Point(0, 0)
    ensures Owed(l, a) == OnPort(q, body, a) + Along(pos, a)
  {
    assert Even(l, q, body, pos, a);
  }

  /** A sum that fits does not wrap. */
  lemma {:induction false} FitsIffNoTurn(p: Point, d: Point)
    ensures SumFits(p, d) <==> TurnsOf(p, d) == Point(0, 0)
  {
  }

  lemma {:induction false} OnPortMore(q: seq<int>, body: seq<Body>, x: int, a: Axis)
    requires InRange(q, body) && 0 <= x < |body|
    ensures InRange(q + [x], body) && OnPort(q + [x], body, a) == OnPort(q, body, a) + Share(body[x], a)
    ensures InRange([x] + q, body) && OnPort([x] + q, body, a) == OnPort(q, body, a) + Share(body[x], a)
  {
    assert ([x] + q)[1..] == q;
    if q != [] {
      OnPortMore(q[1..], body, x, a);
      assert (q + [x])[1..] == q[1..] + [x];
    }
  }

  lemma {:induction false} OnPortSame(q: seq<int>, body: seq<Body>, body': seq<Body>, a: Axis)
    requires InRange(q, body) && |body'| == |body|
    requires forall x :: 0 <= x < |body| && x in q ==> Share(body'[x], a) == Share(body[x], a)
    ensures InRange(q, body') && OnPort(q, body', a) == OnPort(q, body, a)
  {
    if q != [] {
      assert q[0] in q;
      OnPortSame(q[1..], body, body', a);
    }
  }

  lemma {:induction false} OnPortChange(q: seq<int>, body: seq<Body>, x: int, b: Body, a: Axis)
    requires InRange(q, body) && NoDup(q) && x in q && 0 <= x < |body|
    ensures InRange(q, body[x := b])
    ensures OnPort(q, body[x := b], a) == OnPort(q, body, a) - Share(body[x], a) + Share(b, a)
  {
    if q[0] == x {
      assert x !in q[1..];
      OnPortSame(q[1..], body, body[x := b], a);
    } else {
      OnPortChange(q[1..], body, x, b, a);
    }
  }

  // ----- the motion kept, step by step -----

  function Counted(l: Ledger, pos: Point, d: Point): Ledger {
    l.(moved := Plus(l.moved, d), wraps := Plus(l.wraps, TurnsOf(pos, d)))
  }

  /** The hardware counters are added to pos. */
  lemma {:induction false} CountKeeps(l: Ledger, q: seq<int>, body: seq<Body>, pos: Point, d: Point)
    requires Balanced(l, q, body, pos)
    ensures Balanced(Counted(l, pos, d), q, body, Moved(pos, d))
  {
    var l', pos' := Counted(l, pos, d), Moved(pos, d);
    forall a ensures Even(l', q, body, pos', a) {
      assert Even(l, q, body, pos, a);
    }
  }

  /** pos leaves in a message of its own. */
  lemma {:induction false} SendKeeps(l: Ledger, q: seq<int>, body: seq<Body>, pos: Point, x: int, b: Body)
    requires Balanced(l, q, body, pos) && 0 <= x < |body| && x !in q && b.id == MOUSE_MSG && b.pos == pos
    ensures Balanced(l, q + [x], body[x := b], Point(0, 0))
  {
    var q', body', pos' := q + [x], body[x := b], Point(0, 0);
    forall a ensures InRange(q', body') && Even(l, q', body', pos', a) {
      assert Even(l, q, body, pos, a);
      OnPortSame(q, body, body', a);
      OnPortMore(q, body', x, a);
    }
  }

  function Merged(l: Ledger, p: Point, pos: Point): Ledger { l.(wraps := Plus(l.wraps, TurnsOf(p, pos))) }

  /** The books l with the motion d entered. They stay free of wraps when the sum with pos fits, and the sum
      with the message it may be merged into. */
  predicate Entered(was: Ledger, pos0: Point, body0: seq<Body>, cur0: int, d: Point, l: Ledger) {
    && l.moved == Plus(was.moved, d) && l.sent == was.sent && l.got == was.got
    && (SumFits(pos0, d) && (0 <= cur0 < |body0| ==> SumFits(body0[cur0].pos, Moved(pos0, d))) ==>
          l.wraps == was.wraps)
  }

  lemma {:induction false} EnteredOnce(l: Ledger, pos: Point, body: seq<Body>, cur: int, d: Point)
    ensures Entered(l, pos, body, cur, d, Counted(l, pos, d))
    ensures 0 <= cur < |body| ==>
      Entered(l, pos, body, cur, d, Merged(Counted(l, pos, d), body[cur].pos, Moved(pos, d)))
  {
  }

  /** pos is merged into a mouse message still on the port. */
  lemma {:induction false} MergeKeeps(l: Ledger, q: seq<int>, body: seq<Body>, pos: Point, x: int)
    requires Balanced(l, q, body, pos) && 0 <= x < |body| && x in q && NoDup(q) && body[x].id == MOUSE_MSG
    ensures Balanced(Merged(l, body[x].pos, pos), q, body[x := body[x].(pos := Moved(body[x].pos, pos))], Point(0, 0))
  {
    var l' := Merged(l, body[x].pos, pos);
    var b := body[x].(pos := Moved(body[x].pos, pos));
    var body', pos' := body[x := b], Point(0, 0);
    forall a ensures InRange(q, body') && Even(l', q, body', pos', a) {
      assert Even(l, q, body, pos, a);
      OnPortChange(q, body, x, b, a);
    }
  }

  /** The server takes the first message. */
  lemma {:induction false} ReceiveKeeps(l: Ledger, q: seq<int>, body: seq<Body>, pos: Point)
    requires Balanced(l, q, body, pos) && q != []
    ensures 0 <= q[0] < |body| && Balanced(l.(got := Plus(l.got, ShareOf(body[q[0]]))), q[1..], body, pos)
  {
    var l', q' := l.(got := Plus(l.got, ShareOf(body[q[0]]))), q[1..];
    forall a ensures InRange(q', body) && Even(l', q', body, pos, a) {
      assert Even(l, q, body, pos, a);
    }
  }

  /** Someone else sends a message. */
  lemma {:induction false} OtherKeeps(l: Ledger, q: seq<int>, body: seq<Body>, pos: Point, x: int, b: Body,
      q': seq<int>)
    requires Balanced(l, q, body, pos) && 0 <= x < |body| && x !in q && (q' == q + [x] || q' == [x] + q)
    ensures Balanced(l.(sent := Plus(l.sent, ShareOf(b))), q', body[x := b], pos)
  {
    var l', body' := l.(sent := Plus(l.sent, ShareOf(b))), body[x := b];
    forall a ensures InRange(q', body') && Even(l', q', body', pos, a) {
      assert Even(l, q, body, pos, a);
      OnPortSame(q, body, body', a);
      OnPortMore(q, body', x, a);
    }
  }

  /** A message that carries no motion is changed where it is. */
  lemma {:induction false} StillKeeps(l: Ledger, q: seq<int>, body: seq<Body>, pos: Point, x: int, b: Body)
    requires Balanced(l, q, body, pos) && 0 <= x < |body| && (x !in q || ShareOf(b) == ShareOf(body[x]))
    ensures Balanced(l, q, body[x := b], pos)
  {
    var body' := body[x := b];
    forall a ensures InRange(q, body') && Even(l, q, body', pos, a) {
      assert Even(l, q, body, pos, a);
      OnPortSame(q, body, body', a);
    }
  }

  // ----- the service loop of proc_bmt_request -----

  datatype Pass = Served(who: Wait, toggle: int) | Again(toggle: int)

  /** One turn of the loop, with its fall-through. */
  function Turn(toggle: int, waiting: set<Wait>): Pass {
    if toggle == 2 && MOUSE in waiting then Served(MOUSE, 4)
    else if TABLET in waiting then Served(TABLET, 2)
    else Again(2)
  }

  function Service(toggle: int, waiting: set<Wait>, n: nat): Pass
    decreases n
  {
    if n == 0 then Again(toggle) else
      var p := Turn(toggle, waiting);
      if p.Served? then p else Service(p.toggle, waiting, n - 1)
  }

  /** The loop ends, and then within two turns, exactly when the mouse or the tablet waits. */
  lemma {:induction false} ServiceEndsIff(toggle: int, waiting: set<Wait>)
    requires toggle == 2 || toggle == 4
    ensures (exists n: nat :: Service(toggle, waiting, n).Served?) <==> MOUSE in waiting || TABLET in waiting
    ensures MOUSE in waiting || TABLET in waiting ==> Service(toggle, waiting, 2).Served?
  {
    if MOUSE in waiting || TABLET in waiting {
      ServedInTwo(toggle, waiting);
    } else {
      forall n: nat ensures !Service(toggle, waiting, n).Served? { NeverServed(toggle, waiting, n); }
    }
  }

  lemma {:induction false} NeverServed(toggle: int, waiting: set<Wait>, n: nat)
    requires MOUSE !in waiting && TABLET !in waiting
    ensures !Service(toggle, waiting, n).Served?
    decreases n
  {
    if n > 0 { NeverServed(2, waiting, n - 1); }
  }

  /** Neither device can shut the other out: whoever was served last yields when both wait. */
  lemma {:induction false} ServiceAlternates(toggle: int, waiting: set<Wait>, again: set<Wait>)
    requires (toggle == 2 || toggle == 4) && {MOUSE, TABLET} <= again
    requires MOUSE in waiting || TABLET in waiting
    ensures var p := Service(toggle, waiting, 2);
      p.Served? && Service(p.toggle, again, 2).Served? && Service(p.toggle, again, 2).who != p.who
  {
    ServedInTwo(toggle, waiting);
    ServedInTwo(Service(toggle, waiting, 2).toggle, again);
  }

  lemma {:induction false} ServedInTwo(toggle: int, waiting: set<Wait>)
    requires MOUSE in waiting || TABLET in waiting
    ensures var p := Turn(toggle, waiting); Service(toggle, waiting, 2) == if p.Served? then p else Turn(2, waiting)
    ensures Service(toggle, waiting, 2).Served?
  {
    var p := Turn(toggle, waiting);
    if !p.Served? {
      assert Service(2, waiting, 1) == Turn(2, waiting);
    }
  }

  // ----- buttons -----

  const L_DONE: bv16 := 0x10
  const R_DONE: bv16 := 0x04
  const M_DONE: bv16 := 0x01
  const L_UP: bv16 := 0x20
  const M_UP: bv16 := 0x02
  const R_UP: bv16 := 0x08
  const BUTTON_DONE: bv16 := L_DONE | M_DONE | R_DONE
  const R_BUTTON: bv16 := 1
  const M_BUTTON: bv16 := 2
  const L_BUTTON: bv16 := 4

  /** mouse_keys: the event and the buttons for a mouse status. */
  function Keys(status: bv16): (bv16, bv16) {
    var chg := status ^ BUTTON_DONE;
    var l := if chg & L_DONE == 0 then (0, 0) else if status & L_UP != 0 then (L_BUTTON, 0) else (R_BUTTON, 0xf4);
    var m :=
      if chg & M_DONE == 0 then l
      else if status & M_UP != 0 then (L_BUTTON | R_BUTTON, l.1) else (M_BUTTON, l.1 | 0xf2);
    if chg & R_DONE == 0 then m
    else if status & R_UP != 0 then (L_BUTTON | M_BUTTON, m.1) else (M_BUTTON | R_BUTTON, m.1 | 0xf1)
  }

  /** The test vsync_int makes for a change agrees with the event: a message that motion may be merged
      into later never hides a button. */
  lemma {:induction false} ChangeIffEvent(status: bv16)
    ensures status & BUTTON_DONE != BUTTON_DONE <==> Keys(status).0 != 0
  {
    var chg := status ^ BUTTON_DONE;
    assert (status & BUTTON_DONE == BUTTON_DONE) <==> (chg & L_DONE == 0 && chg & M_DONE == 0 && chg & R_DONE == 0);
  }

  /** What the event and the buttons are, from the bits of the status: a button that is not done is down, or up
      with the bit beside it. The last of left, middle and right that changed makes the event. */
  lemma {:induction false} KeysTell(status: bv16)
    ensures Keys(status).0 ==
      if status & 0x04 == 0 then (if status & 0x08 != 0 then 6 else 3)
      else if status & 0x01 == 0 then (if status & 0x02 != 0 then 5 else 2)
      else if status & 0x10 == 0 then (if status & 0x20 != 0 then 4 else 1)
      else 0
    ensures Keys(status).1 & 4 != 0 <==> status & 0x30 == 0
    ensures Keys(status).1 & 2 != 0 <==> status & 0x03 == 0
    ensures Keys(status).1 & 1 != 0 <==> status & 0x0c == 0
    ensures Keys(status).1 & 0xfff8 == if Keys(status).1 == 0 then 0 else 0xf0
  {
    var chg := status ^ BUTTON_DONE;
    assert (chg & L_DONE == 0 <==> status & L_DONE != 0) && (chg & M_DONE == 0 <==> status & M_DONE != 0);
    assert chg & R_DONE == 0 <==> status & R_DONE != 0;
  }

  // ----- the driver of one device -----

  /** What a message sent by the mouse, or by the tablet, did to the pool. */
  function Sent(m: Model): Model
    requires m.free != [] && 0 <= m.free[0] < |m.place|
  {
    Posted(Got(m), m.free[0])
  }

  class Device {
    var link: seq<int>
    var flag: seq<set<Flag>>
    var body: seq<Body>
    var first: int
    var last: int
    var free: int
    var poolFlag: set<Wait>
    var serverWaits: bool
    var tick: int

    var event: bv16             // struct mdescr
    var buttons: bv16
    var change: bool
    var pos: Point
    var curmsg: int

    var tabPos: Point           // struct tabrec
    var tabEvent: bv16
    var tabLast: bv16
    var tabMsg: int

    var toggle: int
    ghost var m: Model
    ghost var ledger: Ledger

    ghost predicate Core()
      reads this
    {
      && Shape(link, flag, first, last, free, m) && |body| == |m.place|
      && Balanced(ledger, m.q, body, pos)
      && (curmsg == NULL || 0 <= curmsg < |body|) && (tabMsg == NULL || 0 <= tabMsg < |body|)
      && (toggle == 2 || toggle == 4) && KEYBOARD !in poolFlag && TTY !in poolFlag
    }

    /** Whoever waits for a message finds the pool dry, and motion not sent yet has a request noted. */
    ghost predicate Noted()
      reads this
    {
      && (MOUSE in poolFlag || TABLET in poolFlag ==> m.free == [])
      && (pos != Point(0, 0) ==> MOUSE in poolFlag)
    }

    ghost predicate Valid()
      reads this
    {
      Core() && Noted()
    }

    /** mpp_init and mice_open. */
    constructor (n: nat)
      requires n > 0
      ensures Valid() && |m.place| == n && m.q == [] && |m.free| == n
      ensures ledger == Ledger(Point(0, 0), Point(0, 0), Point(0, 0), Point(0, 0)) && pos == Point(0, 0)
      ensures curmsg == NULL
    {
      var l: seq<int> := seq(n, i => i + 1);
      l := l[n - 1 := NULL];
      link := l;
      flag := seq(n, _ => {});
      body := seq(n, _ => Body(0, Point(0, 0), 0, 0, 0));
      first, last, free := ENDLINK, ENDLINK, 0;
      poolFlag, serverWaits, tick := {}, false, 0;
      event, buttons, change, pos, curmsg := 0, 0, false, Point(0, 0), NULL;
      tabPos, tabEvent, tabLast, tabMsg := Point(0, 0), 0, 0, NULL;
      toggle := 4;
      ghost var all := seq(n, i => i);
      m := Model([], all, seq(n, _ => Where.Free));
      ledger := Ledger(Point(0, 0), Point(0, 0), Point(0, 0), Point(0, 0));
      new;
      forall j | 0 <= j < n ensures LinkOk(link, all, NULL, j) {}
      forall x ensures Here(m, x) && Marked(flag, m, x) { assert 0 <= x < n ==> all[x] == x && all[x] in all; }
      forall a ensures Even(ledger, m.q, body, pos, a) {}
    }

    method GetMsg() returns (x: int)
      requires Core()
      modifies this`free, this`m
      ensures Core()
      ensures old(m.free) == [] ==> x == NULL && m == old(m)
      ensures old(m.free) != [] ==>
        x == old(m.free)[0] && 0 <= x < |old(m.place)| && m == Got(old(m)) && m.place[x] == Hand
    {
      hide Rep, FlagsTell, Balanced;
      FreeFact(link, flag, first, last, free, m);
      x := free;
      if free != NULL {
        free := link[free];
        m := Got(m);
      }
    }

    /** send_cbmt and send_driver_msg: a message joins the port at its end, or at its front. */
    method Send(x: int, ahead: bool)
      requires Shape(link, flag, first, last, free, m) && 0 <= x < |m.place| && m.place[x] == Hand
      modifies this`link, this`flag, this`first, this`last, this`serverWaits, this`m
      ensures Shape(link, flag, first, last, free, m) && m == if ahead then Pushed(old(m), x) else Posted(old(m), x)
      ensures x < |old(flag)| && flag == old(flag)[x := old(flag)[x] - {REPLIED} + {IN_QUEUE}]
    {
      hide Rep, FlagsTell;
      SendFact(link, flag, first, last, free, m, x, ahead);
      flag := flag[x := flag[x] - {REPLIED}];
      flag := flag[x := flag[x] + {IN_QUEUE}];
      assert flag == old(flag)[x := old(flag)[x] - {REPLIED} + {IN_QUEUE}];
      if first == ENDLINK {
        link := link[x := ENDLINK];
        first, last := x, x;
        if serverWaits { serverWaits := false; }
      } else if ahead {
        link := link[x := first];
        first := x;
      } else {
        link := link[x := ENDLINK];
        link := link[last := x];
        last := x;
      }
      m := if ahead then Pushed(m, x) else Posted(m, x);
    }

    /** send_mouse_rec. Motion leaves at once while the pool has a message; otherwise it is merged into the
        last mouse message, if that still waits on the port and no button changed, or kept. */
    method SendMouseRec()
      requires Core()
      modifies this`link, this`flag, this`first, this`last, this`free, this`serverWaits, this`m, this`body, this`pos,
        this`curmsg, this`poolFlag, this`ledger
      ensures Core()
      ensures old(m.free) != [] ==> 0 <= old(m.free)[0] < |old(m.place)| == |old(body)| && m == Sent(old(m))
      ensures old(m.free) != [] ==> poolFlag == old(poolFlag) && pos == Point(0, 0) && curmsg == old(m.free)[0]
      ensures old(m.free) != [] ==> body == old(body)[curmsg := Body(MOUSE_MSG, old(pos), event, buttons, tick)]
      ensures old(m.free) == [] ==> poolFlag == old(poolFlag) + {MOUSE} && m == old(m) && curmsg == old(curmsg)
      ensures old(m.free) == [] && old(CanMerge()) ==> pos == Point(0, 0) && 0 <= curmsg < |old(body)|
      ensures old(m.free) == [] && old(CanMerge()) ==>
        body == old(body)[curmsg := old(body)[curmsg].(pos := Moved(old(body)[curmsg].pos, old(pos)))]
      ensures old(m.free) == [] && !old(CanMerge()) ==> pos == old(pos) && body == old(body)
      ensures |old(body)| == |old(m.place)| && (curmsg == NULL || 0 <= curmsg < |body|)
      ensures old(m.free) == [] ==>
        (old(CanMerge()) <==>
          curmsg != NULL && old(m.place)[curmsg] == Queued && old(body)[curmsg].id == 106 && !old(change))
      ensures ledger ==
        if old(m.free) == [] && old(CanMerge()) then Merged(old(ledger), old(body)[curmsg].pos, old(pos))
        else old(ledger)
    {
      hide Rep, FlagsTell, Balanced, Moved, Merged;
      FreeFact(link, flag, first, last, free, m);
      if curmsg != NULL { FlagAt(flag, m, curmsg); }
      var msg := GetMsg();
      if msg == NULL {
        poolFlag := poolFlag + {MOUSE};
        if curmsg != NULL && IN_QUEUE in flag[curmsg] && body[curmsg].id == MOUSE_MSG && !change {
          MergeFact(link, flag, first, last, free, m, ledger, body, pos, curmsg);
          ledger := Merged(ledger, body[curmsg].pos, pos);
          body := body[curmsg := body[curmsg].(pos := Moved(body[curmsg].pos, pos))];
          pos := Point(0, 0);
        }
      } else {
        SendMouse(msg);
      }
    }

    method SendMouse(msg: int)
      requires Core() && 0 <= msg < |m.place| && m.place[msg] == Hand
      modifies this`link, this`flag, this`first, this`last, this`serverWaits, this`m, this`body, this`pos, this`curmsg
      ensures Core() && m == Posted(old(m), msg) && pos == Point(0, 0) && curmsg == msg && msg < |old(body)|
      ensures body == old(body)[msg := Body(MOUSE_MSG, old(pos), event, buttons, tick)]
    {
      hide Rep, FlagsTell, Balanced;
      NewFact(link, flag, first, last, free, m, ledger, body, pos, msg, Body(MOUSE_MSG, pos, event, buttons, tick));
      body := body[msg := Body(MOUSE_MSG, pos, event, buttons, tick)];
      curmsg := msg;
      pos := Point(0, 0);
      Send(msg, false);
    }

    ghost predicate CanMerge()
      requires Core()
      reads this
    {
      curmsg != NULL && m.place[curmsg] == Queued && body[curmsg].id == MOUSE_MSG && !change
    }

    /** tab_send_msg: the tablet reports a position, not a motion, so the newest one replaces the last. */
    method TabSend()
      requires Valid()
      modifies this`link, this`flag, this`first, this`last, this`free, this`serverWaits, this`m, this`body,
        this`tabMsg, this`poolFlag
      ensures Valid()
      ensures old(TabMerges()) ==>
        m == old(m) && tabMsg == old(tabMsg) && poolFlag == old(poolFlag) && 0 <= tabMsg < |old(body)|
      ensures old(TabMerges()) ==> body == old(body)[tabMsg := old(body)[tabMsg].(pos := tabPos, time := tick)]
      ensures !old(TabMerges()) && old(m.free) == [] ==>
        m == old(m) && tabMsg == NULL && poolFlag == old(poolFlag) + {TABLET} && body == old(body)
      ensures !old(TabMerges()) && old(m.free) != [] ==> 0 <= old(m.free)[0] < |old(m.place)| && m == Sent(old(m))
      ensures !old(TabMerges()) && old(m.free) != [] ==> tabMsg == old(m.free)[0] && tabMsg < |old(body)|
      ensures !old(TabMerges()) && old(m.free) != [] ==>
        body == old(body)[tabMsg := Body(TAB_MSG, tabPos, tabLast, old(body)[tabMsg].buttons, tick)]
    {
      hide Rep, FlagsTell, Balanced;
      FreeFact(link, flag, first, last, free, m);
      if tabMsg != NULL { FlagAt(flag, m, tabMsg); }
      hide Shape;
      if tabMsg != NULL && IN_QUEUE in flag[tabMsg] && body[tabMsg].id == TAB_MSG {
        if body[tabMsg].event == tabLast {
          StillKeeps(ledger, m.q, body, pos, tabMsg, body[tabMsg].(pos := tabPos, time := tick));
          body := body[tabMsg := body[tabMsg].(pos := tabPos, time := tick)];
          return;
        }
      }
      var msg := GetMsg();
      if msg == NULL {
        tabMsg := NULL;
        poolFlag := poolFlag + {TABLET};
        return;
      }
      SendTablet(msg, tabLast);
      tabMsg := msg;
    }

    /** A tablet message is filled in and sent. */
    method SendTablet(msg: int, e: bv16)
      requires Core() && 0 <= msg < |m.place| && m.place[msg] == Hand
      modifies this`link, this`flag, this`first, this`last, this`serverWaits, this`m, this`body
      ensures Core() && m == Posted(old(m), msg) && msg < |old(body)|
      ensures body == old(body)[msg := Body(TAB_MSG, tabPos, e, old(body)[msg].buttons, tick)]
    {
      hide Rep, FlagsTell, Balanced;
      var b := Body(TAB_MSG, tabPos, e, body[msg].buttons, tick);
      TabFact(link, flag, first, last, free, m, ledger, body, pos, msg, b);
      body := body[msg := b];
      Send(msg, false);
    }

    ghost predicate TabMerges()
      requires Core()
      reads this
    {
      tabMsg != NULL && m.place[tabMsg] == Queued && body[tabMsg].id == TAB_MSG && body[tabMsg].event == tabLast
    }

    /** The tablet's message still waits on the port, for the same event. */
    lemma TabMergesTells()
      requires Core()
      ensures TabMerges() <==>
        tabMsg != NULL && m.place[tabMsg] == Queued && body[tabMsg].id == 107 && body[tabMsg].event == tabLast
    {
    }

    /** tab_request, which counts on the pool not being dry. */
    method TabRequest()
      requires Core() && m.free != []
      modifies this`link, this`flag, this`first, this`last, this`free, this`serverWaits, this`m, this`body
      ensures Core() && 0 <= old(m.free)[0] < |old(m.place)| == |old(body)| && m == Sent(old(m))
      ensures var x := old(m.free)[0];
        body == old(body)[x := Body(TAB_MSG, tabPos, tabEvent, old(body)[x].buttons, tick)]
    {
      hide Rep, FlagsTell, Balanced;
      FreeFact(link, flag, first, last, free, m);
      var msg := GetMsg();
      SendTablet(msg, tabEvent);
    }

    /** proc_bmt_request: one device that waits is served, within two turns of the loop. */
    method ProcRequest() returns (ghost turns: nat)
      requires Core() && m.free != [] && (MOUSE in poolFlag || TABLET in poolFlag)
      modifies this
      ensures Core() && 0 <= old(m.free)[0] < |old(m.place)| && m == Sent(old(m)) && ledger == old(ledger)
      ensures 1 <= turns <= 2
      ensures Service(old(toggle), old(poolFlag), turns) == Served(Service(old(toggle), old(poolFlag), 2).who, toggle)
      ensures poolFlag == old(poolFlag) - {Service(old(toggle), old(poolFlag), 2).who}
      ensures old(m.free)[0] < |body|
      ensures var mouse := Service(old(toggle), old(poolFlag), 2).who == MOUSE;
        body[old(m.free)[0]].id == if mouse then MOUSE_MSG else TAB_MSG
      ensures old(pos) == Point(0, 0) ==> pos == Point(0, 0)
      ensures MOUSE in old(poolFlag) && MOUSE !in poolFlag ==> pos == Point(0, 0)
    {
      hide Shape, Balanced;
      ghost var t0 := toggle;
      turns := 0;
      ServedInTwo(toggle, poolFlag);
      while true
        invariant Core() && m == old(m) && poolFlag == old(poolFlag) && pos == old(pos) && ledger == old(ledger)
        invariant (turns == 0 && toggle == t0) || (turns == 1 && toggle == 2 && !Turn(t0, poolFlag).Served?)
        decreases 1 - turns
      {
        turns := turns + 1;
        if toggle == 2 {
          toggle := 4;
          if MOUSE in poolFlag {
            poolFlag := poolFlag - {MOUSE};
            SendMouseRec();
            return;
          }
        }
        toggle := 2;
        if TABLET in poolFlag {
          poolFlag := poolFlag - {TABLET};
          TabRequest();
          return;
        }
      }
    }

    /** Messages that are not released; and devices that wait for one. */
    predicate Stays(flags: set<Flag>) { LONG_ERROR in flags || NORELEASE in flags }
    predicate DeviceWaits(waiting: set<Wait>) { MOUSE in waiting || TABLET in waiting }

    /** release_cbmt. */
    method Release(x: int)
      requires Valid() && 0 <= x < |m.place| && m.place[x] == Hand
      modifies this
      ensures Valid() && ledger == old(ledger)
      ensures !Stays(old(flag)[x]) && !DeviceWaits(old(poolFlag)) ==> flag == old(flag)[x := {}]
      ensures Stays(old(flag)[x]) ==> m == old(m)
      ensures !Stays(old(flag)[x]) && !DeviceWaits(old(poolFlag)) ==> m == Released(old(m), x)
      ensures !Stays(old(flag)[x]) && DeviceWaits(old(poolFlag)) ==> m == Posted(Got(Released(old(m), x)), x)
    {
      hide Rep, FlagsTell, Balanced;
      ReleaseFact(link, flag, first, last, free, m, x);
      if LONG_ERROR in flag[x] { return; }
      if NORELEASE in flag[x] { return; }
      link := link[x := free];
      flag := flag[x := {}];
      free := x;
      m := Released(m, x);
      if TTY in poolFlag || TABLET in poolFlag || KEYBOARD in poolFlag || MOUSE in poolFlag {
        var _ := ProcRequest();
      }
      if CLIENT in poolFlag { poolFlag := poolFlag - {CLIENT}; }
    }

    /** request_cbmt, one round: a message for a client, or a note that one waits. */
    method Request() returns (x: int)
      requires Valid()
      modifies this`free, this`m, this`poolFlag
      ensures Valid()
      ensures x == NULL <==> old(m.free) == []
      ensures x != NULL ==> 0 <= x < |old(m.place)| && x == old(m.free)[0] && m == Got(old(m)) && m.place[x] == Hand
      ensures x == NULL ==> m == old(m) && poolFlag == old(poolFlag) + {CLIENT}
    {
      x := GetMsg();
      if x == NULL { poolFlag := poolFlag + {CLIENT}; }
    }

    /** A client fills in a message of its own, flags included, and sends it. */
    method ClientSend(x: int, b: Body, f: set<Flag>, ahead: bool)
      requires Valid() && 0 <= x < |m.place| && m.place[x] == Hand
      modifies this`link, this`flag, this`first, this`last, this`serverWaits, this`m, this`body, this`ledger
      ensures Valid() && m == if ahead then Pushed(old(m), x) else Posted(old(m), x)
      ensures x < |old(body)| == |old(flag)| && body == old(body)[x := b]
      ensures flag == old(flag)[x := f - {REPLIED} + {IN_QUEUE}]
      ensures ledger == old(ledger).(sent := Plus(old(ledger).sent, ShareOf(b)))
    {
      hide Rep, FlagsTell, Balanced;
      OtherFact(link, flag, first, last, free, m, ledger, body, pos, x, b, f, ahead);
      body := body[x := b];
      flag := flag[x := f - {IN_QUEUE}];
      ledger := ledger.(sent := Plus(ledger.sent, ShareOf(b)));
      assert f - {IN_QUEUE} - {REPLIED} + {IN_QUEUE} == f - {REPLIED} + {IN_QUEUE};
      Send(x, ahead);
    }

    /** receive_cbmt without waiting: the first message, or NULL. */
    method Receive() returns (x: int)
      requires Valid()
      modifies this`link, this`flag, this`first, this`serverWaits, this`m, this`ledger
      ensures Valid()
      ensures old(m.q) == [] ==> x == NULL && m == old(m) && ledger == old(ledger) && serverWaits
      ensures old(m.q) != [] ==> x == old(m.q)[0] && 0 <= x < |old(m.place)| == |body| && m == Received(old(m))
      ensures old(m.q) != [] ==> x < |old(flag)| && flag == old(flag)[x := old(flag)[x] - {IN_QUEUE}]
      ensures old(m.q) != [] ==> ledger == old(ledger).(got := Plus(old(ledger).got, ShareOf(body[x])))
    {
      hide Rep, FlagsTell, Balanced;
      ReceiveFact(link, flag, first, last, free, m);
      if first == ENDLINK {
        serverWaits := true;
        return NULL;
      }
      ReceiveKeeps(ledger, m.q, body, pos);
      x := first;
      first := link[first];
      link := link[x := NULL];
      flag := flag[x := flag[x] - {IN_QUEUE}];
      ledger := ledger.(got := Plus(ledger.got, ShareOf(body[x])));
      m := Received(m);
    }

    /** The counters are added to pos. */
    method Count(d: Point)
      requires Core()
      modifies this`pos, this`ledger
      ensures Core() && pos == Moved(old(pos), d) && ledger == Counted(old(ledger), old(pos), d)
    {
      hide Shape, Balanced;
      CountKeeps(ledger, m.q, body, pos, d);
      ledger := Counted(ledger, pos, d);
      pos := Moved(pos, d);
    }

    /** vsync_int for one device: the counters and the buttons are read. */
    method Vsync(d: Point, status: bv16)
      requires Valid()
      modifies this
      ensures Valid() && tick == old(tick) + 17
      ensures Entered(old(ledger), old(pos), old(body), old(curmsg), d, ledger)
      ensures old(m.free) != [] ==> pos == Point(0, 0)
      ensures old(m.free) != [] && (Moved(old(pos), d) != Point(0, 0) || change) ==> m == Sent(old(m))
      ensures Moved(old(pos), d) == Point(0, 0) && !change ==> m == old(m) && body == old(body)
      ensures old(m.free) != [] && (Moved(old(pos), d) != Point(0, 0) || change) ==>
        Carries(old(body), old(m.free)[0], Moved(old(pos), d), status)
      ensures old(m.free) == [] ==> m == old(m) && curmsg == old(curmsg)
      ensures old(m.free) == [] && ((Moved(old(pos), d) == Point(0, 0) && !change) || !CanMerge()) ==>
        body == old(body) && pos == Moved(old(pos), d) && ledger == Counted(old(ledger), old(pos), d)
      ensures old(m.free) == [] && Moved(old(pos), d) != Point(0, 0) && CanMerge() ==>
        MergedInto(old(ledger), old(pos), old(body), old(curmsg), d)
    {
      EnteredOnce(ledger, pos, body, curmsg, d);
      hide Shape, Balanced, Keys, Entered, Counted, Merged, Moved;
      tick := tick + 17;
      buttons := status & 0xff;
      change := buttons & BUTTON_DONE != BUTTON_DONE;
      Count(d);
      if pos.x != 0 || pos.y != 0 || change { Report(status); }
    }

    /** button_int. */
    method ButtonInt(d: Point, status: bv16)
      requires Valid()
      modifies this
      ensures Valid()
      ensures Entered(old(ledger), old(pos), old(body), old(curmsg), d, ledger)
      ensures old(m.free) != [] ==>
        pos == Point(0, 0) && m == Sent(old(m)) && Carries(old(body), old(m.free)[0], Moved(old(pos), d), status)
      ensures old(m.free) == [] ==> m == old(m) && curmsg == old(curmsg)
      ensures old(m.free) == [] && !CanMerge() ==>
        body == old(body) && pos == Moved(old(pos), d) && ledger == Counted(old(ledger), old(pos), d)
      ensures old(m.free) == [] && CanMerge() ==> MergedInto(old(ledger), old(pos), old(body), old(curmsg), d)
    {
      EnteredOnce(ledger, pos, body, curmsg, d);
      hide Shape, Balanced, Keys, Entered, Counted, Merged, Moved;
      buttons := status & 0xff;
      change := buttons ^ BUTTON_DONE != 0;
      Count(d);
      Report(status);
    }

    /** What both interrupts end with. */
    method Report(ghost status: bv16)
      requires Core() && buttons == status & 0xff && (MOUSE in poolFlag || TABLET in poolFlag ==> m.free == [])
      modifies this`link, this`flag, this`first, this`last, this`free, this`serverWaits, this`m, this`body, this`pos,
        this`curmsg, this`poolFlag, this`event, this`buttons, this`ledger
      ensures Valid()
      ensures ledger == old(ledger) ||
        (0 <= old(curmsg) < |old(body)| && ledger == Merged(old(ledger), old(body)[old(curmsg)].pos, old(pos)))
      ensures old(m.free) != [] ==> pos == Point(0, 0) && 0 <= old(m.free)[0] < |old(m.place)| && m == Sent(old(m))
      ensures old(m.free) != [] ==> Carries(old(body), old(m.free)[0], old(pos), status)
      ensures old(m.free) == [] ==> m == old(m) && curmsg == old(curmsg) && (CanMerge() <==> old(CanMerge()))
      ensures old(m.free) == [] && !CanMerge() ==> body == old(body) && pos == old(pos) && ledger == old(ledger)
      ensures old(m.free) == [] && CanMerge() ==> 0 <= curmsg < |old(body)| && pos == Point(0, 0)
      ensures old(m.free) == [] && CanMerge() ==> var to := old(body)[curmsg];
        && body == old(body)[curmsg := to.(pos := Moved(to.pos, old(pos)))]
        && ledger == Merged(old(ledger), to.pos, old(pos))
    {
      hide Shape, Balanced, Keys;
      MouseKeys();
      SendMouseRec();
    }

    /** The motion d, and what was pending, is now in message x, and the sums may have wrapped. */
    ghost predicate MergedInto(was: Ledger, pos0: Point, body0: seq<Body>, x: int, d: Point)
      reads this
    {
      0 <= x < |body0| && pos == Point(0, 0) &&
      var to, sum := body0[x], Moved(pos0, d);
      body == body0[x := to.(pos := Moved(to.pos, sum))] && ledger == Merged(Counted(was, pos0, d), to.pos, sum)
    }

    /** Message x, and no other, now tells this motion and these buttons. */
    ghost predicate Carries(was: seq<Body>, x: int, p: Point, status: bv16)
      reads this
    {
      0 <= x < |was| && body == was[x := Body(MOUSE_MSG, p, Keys(status & 0xff).0, Keys(status & 0xff).1, tick)]
    }

    method MouseKeys()
      modifies this`event, this`buttons
      ensures (event, buttons) == Keys(old(buttons))
    {
      var status := buttons;
      var chg := buttons ^ BUTTON_DONE;
      event := 0;
      buttons := 0;
      if chg & L_DONE != 0 {
        if status & L_UP != 0 { event := L_BUTTON; } else { event := R_BUTTON; buttons := 0xf4; }
      }
      if chg & M_DONE != 0 {
        if status & M_UP != 0 { event := L_BUTTON | R_BUTTON; } else { event := M_BUTTON; buttons := buttons | 0xf2; }
      }
      if chg & R_DONE != 0 {
        if status & R_UP != 0 {
          event := L_BUTTON | M_BUTTON;
        } else {
          event := M_BUTTON | R_BUTTON;
          buttons := buttons | 0xf1;
        }
      }
    }
  }

  // ----- what each step does to the books -----

  /** The message the mouse would merge into is on the port, once. */
  lemma {:induction false} MergeFact(link: seq<int>, flag: seq<set<Flag>>, first: int, last: int, free: int, m: Model,
      l: Ledger, body: seq<Body>, pos: Point, x: int)
    requires Shape(link, flag, first, last, free, m) && |body| == |m.place| == |flag| && 0 <= x < |body|
    requires Balanced(l, m.q, body, pos) && IN_QUEUE in flag[x] && body[x].id == MOUSE_MSG
    ensures m.place[x] == Queued
    ensures Balanced(Merged(l, body[x].pos, pos), m.q, body[x := body[x].(pos := Moved(body[x].pos, pos))], Point(0, 0))
  {
    assert Marked(flag, m, x) && Here(m, x);
    MergeKeeps(l, m.q, body, pos, x);
  }

  lemma {:induction false} FlagAt(flag: seq<set<Flag>>, m: Model, x: int)
    requires FlagsTell(flag, m) && 0 <= x < |flag|
    ensures x < |m.place| && (IN_QUEUE in flag[x] <==> m.place[x] == Queued)
  {
    assert Marked(flag, m, x);
  }

  lemma {:induction false} NewFact(link: seq<int>, flag: seq<set<Flag>>, first: int, last: int, free: int, m: Model,
      l: Ledger, body: seq<Body>, pos: Point, x: int, b: Body)
    requires Shape(link, flag, first, last, free, m) && |body| == |m.place| && 0 <= x < |body| && m.place[x] == Hand
    requires Balanced(l, m.q, body, pos) && b.id == MOUSE_MSG && b.pos == pos
    ensures Balanced(l, m.q + [x], body[x := b], Point(0, 0))
  {
    NotQueued(m, x);
    SendKeeps(l, m.q, body, pos, x, b);
  }

  lemma {:induction false} TabFact(link: seq<int>, flag: seq<set<Flag>>, first: int, last: int, free: int, m: Model,
      l: Ledger, body: seq<Body>, pos: Point, x: int, b: Body)
    requires Shape(link, flag, first, last, free, m) && |body| == |m.place| && 0 <= x < |body| && m.place[x] == Hand
    requires Balanced(l, m.q, body, pos) && b.id == TAB_MSG
    ensures Balanced(l, m.q + [x], body[x := b], pos)
  {
    NotQueued(m, x);
    OtherKeeps(l, m.q, body, pos, x, b, m.q + [x]);
    assert l.(sent := Plus(l.sent, ShareOf(b))) == l;
  }

  lemma {:induction false} OtherFact(link: seq<int>, flag: seq<set<Flag>>, first: int, last: int, free: int, m: Model,
      l: Ledger, body: seq<Body>, pos: Point, x: int, b: Body, f: set<Flag>, ahead: bool)
    requires Shape(link, flag, first, last, free, m) && |body| == |m.place| && 0 <= x < |body| && m.place[x] == Hand
    requires Balanced(l, m.q, body, pos)
    ensures Balanced(l.(sent := Plus(l.sent, ShareOf(b))), if ahead then [x] + m.q else m.q + [x], body[x := b], pos)
    ensures |flag| == |body| && Shape(link, flag[x := f - {IN_QUEUE}], first, last, free, m)
  {
    NotQueued(m, x);
    OtherKeeps(l, m.q, body, pos, x, b, if ahead then [x] + m.q else m.q + [x]);
    Flags(flag, flag[x := f - {IN_QUEUE}], m, m, x);
  }

  lemma {:induction false} ReleaseFact(link: seq<int>, flag: seq<set<Flag>>, first: int, last: int, free: int, m: Model,
      x: int)
    requires Shape(link, flag, first, last, free, m) && 0 <= x < |m.place| && m.place[x] == Hand
    ensures |link| == |flag| == |m.place| && Shape(link[x := free], flag[x := {}], first, last, x, Released(m, x))
  {
    ReleaseRep(link, first, last, free, m, x);
    Flags(flag, flag[x := {}], m, Released(m, x), x);
  }

  lemma {:induction false} ReceiveFact(link: seq<int>, flag: seq<set<Flag>>, first: int, last: int, free: int, m: Model)
    requires Shape(link, flag, first, last, free, m)
    ensures first == ENDLINK <==> m.q == []
    ensures m.q != [] ==> 0 <= first < |m.place| == |link| == |flag| && first == m.q[0]
    ensures m.q != [] ==>
      Shape(link[first := NULL], flag[first := flag[first] - {IN_QUEUE}], link[first], last, free, Received(m))
  {
    Ends(link, first, last, free, m);
    if m.q != [] {
      ReceiveRep(link, first, last, free, m);
      Flags(flag, flag[first := flag[first] - {IN_QUEUE}], m, Received(m), first);
    }
  }

  lemma {:induction false} FreeFact(link: seq<int>, flag: seq<set<Flag>>, first: int, last: int, free: int, m: Model)
    requires Shape(link, flag, first, last, free, m)
    ensures |link| == |flag| == |m.place|
    ensures free == NULL <==> m.free == []
    ensures m.free != [] ==> free == m.free[0] && 0 <= free < |m.place| && m.place[free] == Where.Free
    ensures m.free != [] ==> Shape(link, flag, first, last, link[free], Got(m))
  {
    Ends(link, first, last, free, m);
    if m.free != [] {
      GetRep(link, first, last, free, m);
      assert Marked(flag, m, free);
      Flags(flag, flag, m, Got(m), free);
    }
  }

  lemma {:induction false} SendFact(link: seq<int>, flag: seq<set<Flag>>, first: int, last: int, free: int, m: Model,
      x: int, ahead: bool)
    requires Shape(link, flag, first, last, free, m) && 0 <= x < |m.place| && m.place[x] == Hand
    ensures |link| == |flag| == |m.place| && (first == ENDLINK <==> m.q == [])
    ensures var f := flag[x := flag[x] - {REPLIED} + {IN_QUEUE}];
      && (m.q == [] ==> Shape(link[x := ENDLINK], f, x, x, free, Posted(m, x)) && Pushed(m, x) == Posted(m, x))
      && (m.q != [] ==> 0 <= last < |link| && Shape(link[x := ENDLINK][last := x], f, first, x, free, Posted(m, x)))
      && (m.q != [] ==> Shape(link[x := first], f, x, last, free, Pushed(m, x)))
  {
    Ends(link, first, last, free, m);
    PostRep(link, first, last, free, m, x);
    PushRep(link, first, last, free, m, x);
    var f := flag[x := flag[x] - {REPLIED} + {IN_QUEUE}];
    Flags(flag, f, m, Posted(m, x), x);
    Flags(flag, f, m, Pushed(m, x), x);
    assert m.q == [] ==> [x] + m.q == m.q + [x];
  }

  // ----- a sum wraps -----

  /** A client holds the one message, and the mouse moves on and on by 127: pos wraps at the 259th tick. */
  method MoveOn(status: bv16) returns (d: Device)
    ensures fresh(d) && d.Valid() && d.ledger.moved == Point(259 * 127, 0) && d.ledger.wraps == Point(1, 0)
    ensures d.m.q == [] && d.pos == Point(259 * 127 - WORD, 0)
  {
    d := new Device(1);
    var held := d.Request();
    var k := 0;
    while k < 258
      invariant fresh(d) && d.Valid() && d.m.free == [] && d.m.q == [] && d.curmsg == NULL
      invariant 0 <= k <= 258 && d.pos == Point(127 * k, 0)
      invariant d.ledger == Ledger(Point(127 * k, 0), Point(0, 0), Point(0, 0), Point(0, 0))
    {
      d.Vsync(Point(127, 0), status);
      k := k + 1;
    }
    d.Vsync(Point(127, 0), status);
  }
}
