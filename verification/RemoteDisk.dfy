/** rmt.c: the queue of requests to the master's disk, sent one at a time and repeated until answered. */
module RemoteDisk {
  import opened Chain
  import Arithmetic

  const NULL := -1
  const ENXIO := 6

  datatype Buf = Buf(swap: bool, dev: int, count: nat, resid: int, error: int, failed: bool)

  /** One packet to the master: for which request, from which offset on. */
  datatype Packet = Packet(seqno: int, bp: int, offset: int, size: nat, count: nat)

  /** The driver without its pointers, with the timers it has running and the history of what it did. */
  datatype Tab = Tab(
    bufs: seq<Buf>, queue: seq<int>, answered: bool, active: int, errcnt: int, seqno: int,
    timers: multiset<int>, accepted: seq<int>, finished: seq<int>, log: seq<Packet>)

  /** What the driver is configured with. */
  datatype Config = Config(rootdev: int, swapdev: int, chunk: nat)

  function Next(seqno: int): int { if seqno + 1 > 9999 then 1 else seqno + 1 }

  predicate Legal(c: Config, b: Buf) { b.swap || b.dev == c.rootdev || b.dev == c.swapdev }

  predicate Known(t: Tab) { forall i :: 0 <= i < |t.queue| ==> 0 <= t.queue[i] < |t.bufs| }

  // ----- the steps -----

  /** How much one packet asks for: the whole count, as far as a packet goes. Swap commands carry no data. */
  function Size(c: Config, b: Buf): nat { if b.swap then 0 else if c.chunk > b.count then b.count else c.chunk }

  function PacketOf(c: Config, t: Tab): Packet
    requires t.queue != [] && 0 <= t.queue[0] < |t.bufs|
  {
    var b := t.bufs[t.queue[0]];
    Packet(t.seqno, t.queue[0], t.active, Size(c, b), b.count)
  }

  function Started(c: Config, t: Tab): Tab
    requires t.queue != [] && 0 <= t.queue[0] < |t.bufs|
  {
    t.(answered := false, timers := t.timers + multiset{t.seqno}, log := t.log + [PacketOf(c, t)])
  }

  function Appended(t: Tab, bp: int): Tab
    requires 0 <= bp < |t.bufs|
  {
    t.(bufs := t.bufs[bp := t.bufs[bp].(error := 0, failed := false)],
       queue := t.queue + [bp], accepted := t.accepted + [bp])
  }

  function Submitted(c: Config, t: Tab, bp: int): Tab
    requires 0 <= bp < |t.bufs|
  {
    if !Legal(c, t.bufs[bp]) then t else
      var u := Appended(t, bp);
      if t.queue == [] then Started(c, u.(active := 0, errcnt := 0, seqno := Next(t.seqno))) else u
  }

  function Removed(t: Tab): Tab
    requires t.queue != [] && 0 <= t.queue[0] < |t.bufs|
  {
    var bp := t.queue[0];
    t.(bufs := t.bufs[bp := t.bufs[bp].(resid := t.bufs[bp].count - t.active)],
       queue := t.queue[1..], finished := t.finished + [bp])
  }

  /** The request at the head is over. */
  function Finished(c: Config, t: Tab): Tab
    requires t.queue != [] && Known(t)
  {
    var u := Removed(t);
    if u.queue == [] then u.(seqno := Next(t.seqno))
    else Started(c, u.(active := 0, errcnt := 0, seqno := Next(t.seqno)))
  }

  function GivenUp(t: Tab): Tab
    requires t.queue != [] && Known(t)
  {
    t.(bufs := t.bufs[t.queue[0] := t.bufs[t.queue[0]].(failed := true, error := ENXIO)])
  }

  function Absorbed(t: Tab, bp: int, error: int): Tab
    requires 0 <= bp < |t.bufs|
  {
    var b := t.bufs[bp].(error := error, failed := t.bufs[bp].failed || error != 0);
    t.(answered := true, timers := t.timers[t.seqno := 0], bufs := t.bufs[bp := b])
  }

  function Fired(c: Config, t: Tab, s: int): Tab
    requires Known(t)
  {
    var u := t.(timers := t.timers - multiset{s});
    if t.queue == [] || t.answered || s != t.seqno then u
    else if t.errcnt >= 6 then Finished(c, GivenUp(u.(errcnt := t.errcnt + 1)))
    else Started(c, u.(errcnt := t.errcnt + 1))
  }

  /** A reply arrives. The receiver drops it unless it answers the request outstanding. */
  function Answered(c: Config, t: Tab, s: int, size: nat, error: int): Tab
    requires Known(t)
  {
    if t.queue == [] || t.answered || s != t.seqno then t else
      var bp := t.queue[0];
      var u := Absorbed(t, bp, error);
      var b := u.bufs[bp];
      if b.failed || b.swap then Finished(c, u)
      else if t.active + size >= b.count then Finished(c, u.(active := t.active + size))
      else Started(c, u.(active := t.active + size, errcnt := 0, seqno := Next(t.seqno)))
  }

  datatype Event = Submit(bp: int) | Fill(bp: int, b: Buf) | Timer(s: int) | Reply(s: int, size: nat, error: int)

  predicate Enabled(t: Tab, e: Event) { e.Submit? || e.Fill? ==> 0 <= e.bp < |t.bufs| && e.bp !in t.queue }

  function Step(c: Config, t: Tab, e: Event): Tab
    requires Known(t) && Enabled(t, e)
  {
    match e
    case Submit(bp) => Submitted(c, t, bp)
    case Fill(bp, b) => t.(bufs := t.bufs[bp := b])     // by its owner
    case Timer(s) => Fired(c, t, s)
    case Reply(s, size, error) => Answered(c, t, s, size, error)
  }

  // ----- what every run keeps -----

  /** How often the last packet has been sent in a row. */
  function Repeats(log: seq<Packet>): nat {
    if log == [] then 0
    else 1 + if |log| > 1 && log[|log| - 2] == log[|log| - 1] then Repeats(log[..|log| - 1]) else 0
  }

  predicate Capped(log: seq<Packet>) { forall i :: 0 <= i <= |log| ==> Repeats(log[..i]) <= 7 }

  predicate Outstanding(c: Config, t: Tab)
    requires t.queue != [] && 0 <= t.queue[0] < |t.bufs|
  {
    && !t.answered && 1 <= t.seqno <= 9999 && t.timers == multiset{t.seqno}
    && t.log != [] && t.log[|t.log| - 1] == PacketOf(c, t)
    && 0 <= t.errcnt <= 6 && Repeats(t.log) == t.errcnt + 1
    && 0 <= t.active && (t.active == 0 || t.active < t.bufs[t.queue[0]].count)
    && !t.bufs[t.queue[0]].failed
  }

  predicate Idle(t: Tab) {
    && 0 <= t.seqno <= 9999 && t.timers == multiset{}
    && (t.log != [] ==> 1 <= t.log[|t.log| - 1].seqno <= 9999 && t.seqno == Next(t.log[|t.log| - 1].seqno))
  }

  predicate Waiting(t: Tab, i: int)
    requires 0 <= i < |t.queue|
  {
    0 <= t.queue[i] < |t.bufs| && !t.bufs[t.queue[i]].failed
  }

  /** Accepted requests are over in the order they came, or still queued; one packet is outstanding, with
      its timer, exactly while a request is queued; and no packet was sent more than 7 times. */
  predicate Inv(c: Config, t: Tab) {
    && NoDup(t.queue) && (forall i :: 0 <= i < |t.queue| ==> Waiting(t, i))
    && t.accepted == t.finished + t.queue
    && Capped(t.log)
    && if t.queue == [] then Idle(t) else Waiting(t, 0) && Outstanding(c, t)
  }

  lemma {:induction false} LogMore(log: seq<Packet>, p: Packet)
    ensures Repeats(log + [p]) == 1 + if log != [] && log[|log| - 1] == p then Repeats(log) else 0
    ensures Capped(log) && Repeats(log + [p]) <= 7 ==> Capped(log + [p])
  {
    var all := log + [p];
    assert all[..|log|] == log;
    if Capped(log) && Repeats(all) <= 7 {
      forall i | 0 <= i <= |all| ensures Repeats(all[..i]) <= 7 {
        if i <= |log| { assert all[..i] == log[..i]; } else { assert all[..i] == all; }
      }
    }
  }

  /** A packet for a new sequence number is not a repetition. */
  lemma {:induction false} FreshStart(c: Config, t: Tab)
    requires t.queue != [] && NoDup(t.queue) && (forall i :: 0 <= i < |t.queue| ==> Waiting(t, i))
    requires t.accepted == t.finished + t.queue && Capped(t.log) && t.timers == multiset{}
    requires Waiting(t, 0) && t.errcnt == 0 && 0 <= t.active && (t.active == 0 || t.active < t.bufs[t.queue[0]].count)
    requires 1 <= t.seqno <= 9999 && (t.log != [] ==> t.log[|t.log| - 1].seqno != t.seqno)
    ensures Inv(c, Started(c, t))
  {
    LogMore(t.log, PacketOf(c, t));
    var u := Started(c, t);
    forall i | 0 <= i < |u.queue| ensures Waiting(u, i) { assert Waiting(t, i); }
    assert Waiting(t, 0);
  }

  lemma {:induction false} FinishedInv(c: Config, t: Tab)
    requires t.queue != [] && NoDup(t.queue) && Known(t) && (forall i :: 0 < i < |t.queue| ==> Waiting(t, i))
    requires t.accepted == t.finished + t.queue && Capped(t.log) && t.timers == multiset{}
    requires 1 <= t.seqno <= 9999 && t.log != [] && t.log[|t.log| - 1].seqno == t.seqno
    ensures Inv(c, Finished(c, t)) && Finished(c, t).finished == t.finished + [t.queue[0]]
    ensures Finished(c, t).queue == t.queue[1..]
  {
    var bp, v := t.queue[0], Finished(c, t);
    var u := Removed(t);
    assert t.queue == [bp] + u.queue;
    forall i | 0 <= i < |u.queue|
      ensures Waiting(u, i)
    {
      assert Waiting(t, i + 1); assert t.queue[i + 1] != t.queue[0];
    }
    assert NoDup(u.queue) by { NoDupRest(bp, u.queue); }
    if u.queue != [] {
      var w := u.(active := 0, errcnt := 0, seqno := Next(t.seqno));
      forall i | 0 <= i < |w.queue| ensures Waiting(w, i) { assert Waiting(u, i); }
      FreshStart(c, w);
    }
  }

  lemma {:induction false} SubmitInv(c: Config, t: Tab, bp: int)
    requires Inv(c, t) && 0 <= bp < |t.bufs| && bp !in t.queue
    ensures Inv(c, Submitted(c, t, bp))
  {
    if Legal(c, t.bufs[bp]) {
      var u := Appended(t, bp);
      forall i | 0 <= i < |u.queue|
        ensures Waiting(u, i)
      {
        if i < |t.queue| { assert Waiting(t, i); assert t.queue[i] in t.queue; }
      }
      assert u.accepted == u.finished + u.queue;
      if t.queue == [] {
        var w := u.(active := 0, errcnt := 0, seqno := Next(t.seqno));
        forall i | 0 <= i < |w.queue| ensures Waiting(w, i) { assert Waiting(u, i); }
        FreshStart(c, w);
      } else {
        assert t.queue[0] in t.queue;
      }
    }
  }

  lemma {:induction false} Heads(c: Config, t: Tab)
    requires Inv(c, t)
    ensures Known(t)
    ensures t.queue != [] ==> 0 <= t.queue[0] < |t.bufs| && !t.bufs[t.queue[0]].failed
  {
    forall i | 0 <= i < |t.queue| ensures 0 <= t.queue[i] < |t.bufs| { assert Waiting(t, i); }
    if t.queue != [] { assert Waiting(t, 0); }
  }

  lemma {:induction false} TimerInv(c: Config, t: Tab, s: int)
    requires Inv(c, t)
    ensures Known(t) && Inv(c, Fired(c, t, s))
  {
    hide Capped, Repeats, NoDup;
    Heads(c, t);
    var u := t.(timers := t.timers - multiset{s});
    if t.queue == [] || s != t.seqno {
      assert u.timers == t.timers;
    } else if t.errcnt >= 6 {
      var v := GivenUp(u.(errcnt := t.errcnt + 1));
      OthersWait(c, t, v);
      FinishedInv(c, v);
    } else {
      var v := u.(errcnt := t.errcnt + 1);
      LogMore(t.log, PacketOf(c, t));
      forall i | 0 <= i < |t.queue| ensures Waiting(Started(c, v), i) { assert Waiting(t, i); }
    }
  }

  /** A change of the head leaves the others alone. */
  lemma {:induction false} OthersWait(c: Config, t: Tab, u: Tab)
    requires Inv(c, t) && t.queue != [] && u.queue == t.queue && |u.bufs| == |t.bufs|
    requires forall x :: 0 <= x < |t.bufs| && x != t.queue[0] ==> u.bufs[x] == t.bufs[x]
    ensures Known(u) && forall i :: 0 < i < |u.queue| ==> Waiting(u, i)
  {
    Heads(c, t);
    forall i | 0 < i < |u.queue| ensures Waiting(u, i) { assert Waiting(t, i); assert t.queue[0] != t.queue[i]; }
  }

  lemma {:induction false} ReplyInv(c: Config, t: Tab, s: int, size: nat, error: int)
    requires Inv(c, t)
    ensures Known(t) && Inv(c, Answered(c, t, s, size, error))
  {
    hide Capped, Repeats, NoDup;
    Heads(c, t);
    if t.queue != [] && s == t.seqno {
      var bp := t.queue[0];
      var u := Absorbed(t, bp, error);
      var b := u.bufs[bp];
      OthersWait(c, t, u);
      if b.failed || b.swap {
        FinishedInv(c, u);
      } else {
        var v := u.(active := t.active + size);
        OthersWait(c, t, v);
        if t.active + size >= b.count {
          FinishedInv(c, v);
        } else {
          var w := v.(errcnt := 0, seqno := Next(t.seqno));
          OthersWait(c, t, w);
          assert Waiting(w, 0);
          FreshStart(c, w);
        }
      }
    }
  }

  lemma {:induction false} StepInv(c: Config, t: Tab, e: Event)
    requires Inv(c, t) && Enabled(t, e)
    ensures Known(t) && Inv(c, Step(c, t, e))
  {
    Heads(c, t);
    match e
    case Submit(bp) => SubmitInv(c, t, bp);
    case Fill(bp, b) =>
      var u := t.(bufs := t.bufs[bp := b]);
      assert t.queue != [] ==> t.queue[0] in t.queue;
      forall i | 0 <= i < |t.queue| ensures Waiting(u, i) { assert Waiting(t, i); assert t.queue[i] in t.queue; }
    case Timer(s) => TimerInv(c, t, s);
    case Reply(s, size, error) => ReplyInv(c, t, s, size, error);
  }

  predicate Start(t: Tab) {
    t.queue == [] && t.accepted == [] && t.finished == [] && t.log == [] && t.timers == multiset{} && t.seqno == 0
  }

  ghost predicate Reaches(c: Config, t: Tab, es: seq<Event>, u: Tab)
    decreases |es|
  {
    if es == [] then t == u else Known(t) && Enabled(t, es[0]) && Reaches(c, Step(c, t, es[0]), es[1..], u)
  }

  lemma {:induction false} EveryRun(c: Config, t: Tab, es: seq<Event>, u: Tab)
    requires (Inv(c, t) || Start(t)) && Reaches(c, t, es, u)
    ensures Inv(c, u)
    decreases |es|
  {
    if es != [] {
      StepInv(c, t, es[0]);
      EveryRun(c, Step(c, t, es[0]), es[1..], u);
    }
  }

  /** A timer for an old sequence number, and a reply to one, change nothing. */
  lemma {:induction false} StaleIsIgnored(c: Config, t: Tab, s: int, size: nat, error: int)
    requires Inv(c, t) && (s != t.seqno || t.queue == [])
    ensures Known(t) && Fired(c, t, s) == t && Answered(c, t, s, size, error) == t
  {
    Heads(c, t);
    assert t.timers - multiset{s} == t.timers;
  }

  // ----- every request is over in the end -----

  /** What the packet outstanding asks for. */
  function Asked(c: Config, t: Tab): nat
    requires t.queue != [] && Known(t)
  {
    Size(c, t.bufs[t.queue[0]])
  }

  /** An event that answers, or times out, the packet outstanding. */
  predicate Effective(c: Config, t: Tab, e: Event)
    requires Known(t)
  {
    && t.queue != []
    && match e
       case Submit(bp) => false
       case Fill(bp, b) => false
       case Timer(s) => s == t.seqno
       case Reply(s, size, error) => s == t.seqno && (size == Asked(c, t) || t.bufs[t.queue[0]].swap)
  }

  function Ceil(n: int, k: int): int
    requires k > 0
  {
    if n <= 0 then 0 else 1 + (n - 1) / k
  }

  /** How many effective events the head request can still take. */
  function Work(c: Config, t: Tab): int
    requires t.queue != [] && Known(t) && c.chunk > 0
  {
    7 * (Ceil(t.bufs[t.queue[0]].count - t.active, c.chunk) + 1) - t.errcnt
  }

  lemma {:induction false} CeilLess(n: int, k: int)
    requires k > 0 && n > k
    ensures Ceil(n - k, k) == Ceil(n, k) - 1
  {
    assert (n - 1 - k) / k == (n - 1) / k - 1 by {
      Arithmetic.ModUnique(n - 1 - k, k, (n - 1) / k - 1, (n - 1) % k);
    }
  }

  lemma {:induction false} OutstandingNow(c: Config, t: Tab)
    requires Inv(c, t) && t.queue != []
    ensures Known(t) && !t.answered && 0 <= t.errcnt <= 6 && 0 <= t.active && !t.bufs[t.queue[0]].failed
    ensures t.active == 0 || t.active < t.bufs[t.queue[0]].count
  {
    Heads(c, t);
  }

  lemma {:induction false} WorkLeft(c: Config, t: Tab)
    requires t.queue != [] && Known(t) && c.chunk > 0 && t.errcnt <= 6
    ensures Work(c, t) > 0
  {
    var n := t.bufs[t.queue[0]].count - t.active;
    assert Ceil(n, c.chunk) >= 0;
  }

  lemma {:induction false} ReplyProgress(c: Config, t: Tab, size: nat, error: int)
    requires t.queue != [] && Known(t) && c.chunk > 0 && (size == Asked(c, t) || t.bufs[t.queue[0]].swap)
    requires !t.answered && 0 <= t.errcnt <= 6 && 0 <= t.active
    requires (t.active == 0 || t.active < t.bufs[t.queue[0]].count)
    ensures var u := Answered(c, t, t.seqno, size, error);
      || (u.finished == t.finished + [t.queue[0]] && u.queue == t.queue[1..])
      || (u.finished == t.finished && u.queue == t.queue && Known(u) && Work(c, u) < Work(c, t))
  {
    AnsweredParts(c, t, t.seqno, size, error);
    var n := t.bufs[t.queue[0]].count - t.active;
    if n > c.chunk { CeilLess(n, c.chunk); }
  }

  lemma {:induction false} TimerProgress(c: Config, t: Tab)
    requires t.queue != [] && Known(t) && c.chunk > 0 && !t.answered && 0 <= t.errcnt <= 6
    ensures var u := Fired(c, t, t.seqno);
      || (u.finished == t.finished + [t.queue[0]] && u.queue == t.queue[1..])
      || (u.finished == t.finished && u.queue == t.queue && Known(u) && Work(c, u) < Work(c, t))
  {
  }

  /** Progress: an effective event ends the head request or brings its end nearer. */
  lemma {:induction false} EffectiveProgress(c: Config, t: Tab, e: Event)
    requires Inv(c, t) && Known(t) && c.chunk > 0 && Enabled(t, e) && Effective(c, t, e)
    ensures Work(c, t) > 0 && Known(Step(c, t, e))
    ensures var u := Step(c, t, e);
      || (u.finished == t.finished + [t.queue[0]] && u.queue == t.queue[1..])
      || (u.finished == t.finished && u.queue == t.queue && Work(c, u) < Work(c, t))
  {
    StepInv(c, t, e);
    Heads(c, Step(c, t, e));
    OutstandingNow(c, t);
    WorkLeft(c, t);
    hide Inv, Answered, Fired, Work, Asked, Known;
    match e
    case Timer(s) => TimerProgress(c, t);
    case Reply(s, size, error) => ReplyProgress(c, t, size, error);
  }

  lemma {:induction false} IdleProgress(c: Config, t: Tab, e: Event)
    requires Inv(c, t) && Known(t) && c.chunk > 0 && Enabled(t, e) && t.queue != [] && !(e.Reply? && e.s == t.seqno)
    requires !Effective(c, t, e)
    ensures Known(Step(c, t, e))
    ensures var u := Step(c, t, e); u.finished == t.finished && t.queue <= u.queue && Work(c, u) == Work(c, t)
  {
    StepInv(c, t, e);
    Heads(c, Step(c, t, e));
    assert t.queue[0] in t.queue;
    if e.Timer? { StaleIsIgnored(c, t, e.s, 0, 0); }
    if e.Reply? { StaleIsIgnored(c, t, e.s, e.size, e.error); }
  }

  /** Only replies of the size asked for; and how many events of a run are effective. */
  ghost predicate Proper(c: Config, t: Tab, es: seq<Event>)
    decreases |es|
  {
    es != [] ==>
      && Known(t) && Enabled(t, es[0])
      && (t.queue != [] && es[0].Reply? && es[0].s == t.seqno ==> Effective(c, t, es[0]))
      && Proper(c, Step(c, t, es[0]), es[1..])
  }

  ghost function Effects(c: Config, t: Tab, es: seq<Event>): nat
    requires Proper(c, t, es)
    decreases |es|
  {
    if es == [] then 0 else (if Effective(c, t, es[0]) then 1 else 0) + Effects(c, Step(c, t, es[0]), es[1..])
  }

  /** In any run with enough answers and timeouts the head request is over, whatever else happens. */
  lemma {:induction false} HeadCompletes(c: Config, t: Tab, es: seq<Event>, u: Tab)
    requires Inv(c, t) && Known(t) && c.chunk > 0 && t.queue != [] && Reaches(c, t, es, u) && Proper(c, t, es)
    requires Effects(c, t, es) >= Work(c, t)
    ensures t.finished + [t.queue[0]] <= u.finished
    decreases |es|
  {
    if es == [] {
      EffectiveProgress(c, t, Timer(t.seqno));
      return;
    }
    var v := Step(c, t, es[0]);
    StepInv(c, t, es[0]);
    Heads(c, v);
    if Effective(c, t, es[0]) {
      EffectiveProgress(c, t, es[0]);
      if v.finished == t.finished + [t.queue[0]] {
        FinishedGrows(c, v, es[1..], u);
      } else {
        HeadCompletes(c, v, es[1..], u);
      }
    } else {
      IdleProgress(c, t, es[0]);
      HeadCompletes(c, v, es[1..], u);
    }
  }

  lemma {:induction false} StepGrows(c: Config, t: Tab, e: Event)
    requires Known(t) && Enabled(t, e)
    ensures t.finished <= Step(c, t, e).finished
  {
  }

  lemma {:induction false} FinishedGrows(c: Config, t: Tab, es: seq<Event>, u: Tab)
    requires Inv(c, t) && Reaches(c, t, es, u)
    ensures t.finished <= u.finished
    decreases |es|
  {
    hide Inv, Step;
    if es != [] {
      StepInv(c, t, es[0]);
      StepGrows(c, t, es[0]);
      FinishedGrows(c, Step(c, t, es[0]), es[1..], u);
    }
  }

  // ----- the transfers of one request -----

  /** The packets of a request whose replies carry what was asked for: one chunk behind the other. */
  predicate Aligned(c: Config, p: Packet) {
    && (p.size == 0 || p.size == if c.chunk > p.count then p.count else c.chunk)
    && 0 <= p.offset && (p.offset == 0 || (p.offset < p.count && p.size > 0 && p.offset % p.size == 0))
  }

  predicate Within(p: Packet) { p.offset + p.size <= p.count }

  /** The packet that asks for more than is left: the last one of a count that is no multiple of the chunk. */
  predicate RunsOver(c: Config, p: Packet)
    requires c.chunk > 0
  {
    p.count > c.chunk && p.count % c.chunk != 0 && p.offset == p.count - p.count % c.chunk
  }

  lemma {:induction false} WithinIff(c: Config, p: Packet)
    requires c.chunk > 0 && Aligned(c, p)
    ensures Within(p) <==> !RunsOver(c, p)
  {
    var n, k := p.count, c.chunk;
    var q, r := n / k, n % k;
    if p.size == 0 || n <= k {
      if p.offset > 0 { Arithmetic.ModUnique(p.offset, p.size, 0, p.offset); }
    } else {
      var j := p.offset / k;
      assert p.offset == j * k && n == q * k + r;
      Arithmetic.Multiples(j, q, k);
    }
  }

  predicate AllAligned(c: Config, log: seq<Packet>) { forall i :: 0 <= i < |log| ==> Aligned(c, log[i]) }

  lemma {:induction false} NextAligned(c: Config, t: Tab, u: Tab)
    requires t.queue != [] && 0 <= t.queue[0] < |t.bufs| && u.queue == t.queue && |u.bufs| == |t.bufs|
    requires u.bufs[t.queue[0]].count == t.bufs[t.queue[0]].count && !t.bufs[t.queue[0]].swap
    requires !u.bufs[t.queue[0]].swap
    requires Aligned(c, PacketOf(c, t)) && u.active == t.active + Size(c, t.bufs[t.queue[0]]) < t.bufs[t.queue[0]].count
    requires c.chunk > 0
    ensures Aligned(c, PacketOf(c, u))
  {
    var n := Size(c, t.bufs[t.queue[0]]);
    Arithmetic.ModShift(t.active, 1, n);
  }

  /** Each step of a proper run sends aligned packets only. */
  lemma {:induction false} AlignedStep(c: Config, t: Tab, e: Event)
    requires Inv(c, t) && Known(t) && c.chunk > 0 && Enabled(t, e) && AllAligned(c, t.log)
    requires t.queue != [] && e.Reply? && e.s == t.seqno ==> Effective(c, t, e)
    ensures AllAligned(c, Step(c, t, e).log)
  {
    if t.queue != [] { OutstandingNow(c, t); }
    match e
    case Submit(bp) =>
    case Fill(bp, b) =>
    case Timer(s) => FiredAligned(c, t, s);
    case Reply(s, size, error) => if t.queue != [] && s == t.seqno { AcceptedAligned(c, t, size, error); }
  }

  lemma {:induction false} FinishedAligned(c: Config, t: Tab)
    requires t.queue != [] && Known(t) && AllAligned(c, t.log)
    ensures AllAligned(c, Finished(c, t).log)
  {
  }

  lemma {:induction false} FiredAligned(c: Config, t: Tab, s: int)
    requires Inv(c, t) && Known(t) && AllAligned(c, t.log)
    ensures AllAligned(c, Fired(c, t, s).log)
  {
    hide Finished;
    if t.queue != [] && s == t.seqno {
      LastAligned(c, t);
      var u := t.(timers := t.timers - multiset{s}, errcnt := t.errcnt + 1);
      FinishedAligned(c, GivenUp(u));
      assert PacketOf(c, u) == PacketOf(c, t);
    }
  }

  lemma {:induction false} LastAligned(c: Config, t: Tab)
    requires Inv(c, t) && t.queue != [] && AllAligned(c, t.log)
    ensures Known(t) && Aligned(c, PacketOf(c, t)) && t.log != [] && t.log[|t.log| - 1] == PacketOf(c, t)
  {
    Heads(c, t);
  }

  lemma {:induction false} AcceptedAligned(c: Config, t: Tab, size: nat, error: int)
    requires Inv(c, t) && Known(t) && c.chunk > 0 && t.queue != [] && AllAligned(c, t.log)
    requires size == Asked(c, t) || t.bufs[t.queue[0]].swap
    ensures AllAligned(c, Answered(c, t, t.seqno, size, error).log)
  {
    hide Finished;
    LastAligned(c, t);
    var u := Absorbed(t, t.queue[0], error);
    var b := u.bufs[t.queue[0]];
    if b.failed || b.swap {
      FinishedAligned(c, u);
    } else {
      var v := u.(active := t.active + size);
      if v.active >= b.count {
        FinishedAligned(c, v);
      } else {
        NextAligned(c, t, v.(errcnt := 0, seqno := Next(t.seqno)));
      }
    }
  }

  /** In every proper run, a packet stays within its request exactly when it is not the last one of a count
      that is no multiple of the chunk: that one runs over. */
  lemma {:induction false} EveryPacketWithinIff(c: Config, t: Tab, es: seq<Event>, u: Tab, i: int)
    requires (Start(t) || (Inv(c, t) && AllAligned(c, t.log))) && c.chunk > 0
    requires Reaches(c, t, es, u) && Proper(c, t, es) && 0 <= i < |u.log|
    ensures Within(u.log[i]) <==> !RunsOver(c, u.log[i])
    decreases |es|
  {
    if es == [] {
      WithinIff(c, u.log[i]);
    } else {
      StepInv(c, t, es[0]);
      AlignedStep(c, t, es[0]);
      EveryPacketWithinIff(c, Step(c, t, es[0]), es[1..], u, i);
    }
  }

  /** And a request that ends by its last reply has sent that packet: of the transfers of a request, all stay
      within it exactly when one packet takes it all or the chunk divides its count. */
  lemma {:induction false} LastPacketRunsOverIff(c: Config, t: Tab, size: nat)
    requires Inv(c, t) && AllAligned(c, t.log) && c.chunk > 0 && t.queue != [] && Known(t) && size == Asked(c, t)
    requires var b := t.bufs[t.queue[0]]; !b.swap && 0 < b.count <= t.active + size
    ensures Answered(c, t, t.seqno, size, 0).finished == t.finished + [t.queue[0]]
    ensures var n := t.bufs[t.queue[0]].count;
      t.log != [] && (Within(t.log[|t.log| - 1]) <==> n <= c.chunk || n % c.chunk == 0)
  {
    LastAligned(c, t);
    OutstandingNow(c, t);
    AnsweredParts(c, t, t.seqno, size, 0);
    hide Inv, Answered, Aligned, AllAligned;
    WithinIff(c, PacketOf(c, t));
    LastOffset(c, PacketOf(c, t));
  }

  /** A request for bp is on its way, chunk after chunk. */
  predicate Underway(c: Config, t: Tab, bp: int) {
    && 0 <= bp < |t.bufs| && t.queue == [bp] && !t.answered && 0 <= t.active < t.bufs[bp].count
    && !t.bufs[bp].swap && !t.bufs[bp].failed && 0 < c.chunk < t.bufs[bp].count && t.active % c.chunk == 0
    && t.log != [] && t.log[|t.log| - 1] == PacketOf(c, t)
  }

  /** It happens: the first request of a run, for any count above one chunk that is no multiple of it, answered
      chunk by chunk, sends that packet. */
  lemma {:induction false} RunOverIsReached(c: Config, t: Tab, bp: int) returns (es: seq<Event>, u: Tab)
    requires Start(t) && 0 <= bp < |t.bufs| && Legal(c, t.bufs[bp]) && !t.bufs[bp].swap
    requires 0 < c.chunk < t.bufs[bp].count && t.bufs[bp].count % c.chunk != 0
    ensures Reaches(c, t, es, u) && Proper(c, t, es) && u.log != [] && !Within(u.log[|u.log| - 1])
  {
    var t1 := Step(c, t, Submit(bp));
    assert Underway(c, t1, bp);
    es, u := ChunkAfterChunk(c, t1, bp);
    es := [Submit(bp)] + es;
  }

  lemma {:induction false} ChunkAfterChunk(c: Config, t: Tab, bp: int) returns (es: seq<Event>, u: Tab)
    requires Underway(c, t, bp) && t.bufs[bp].count % c.chunk != 0
    ensures Reaches(c, t, es, u) && Proper(c, t, es) && u.log != [] && !Within(u.log[|u.log| - 1])
    decreases t.bufs[bp].count - t.active
  {
    if t.active + c.chunk > t.bufs[bp].count {
      es, u := [], t;
    } else {
      NextChunk(c, t, bp);
      var t1 := Step(c, t, Reply(t.seqno, c.chunk, 0));
      es, u := ChunkAfterChunk(c, t1, bp);
      es := [Reply(t.seqno, c.chunk, 0)] + es;
    }
  }

  lemma {:induction false} NextChunk(c: Config, t: Tab, bp: int)
    requires Underway(c, t, bp) && t.bufs[bp].count % c.chunk != 0 && t.active + c.chunk <= t.bufs[bp].count
    ensures Known(t)
    ensures var u := Step(c, t, Reply(t.seqno, c.chunk, 0));
      Underway(c, u, bp) && u.active == t.active + c.chunk && u.bufs[bp].count == t.bufs[bp].count
  {
    Arithmetic.ModShift(t.active, 1, c.chunk);
  }

  lemma {:induction false} LastOffset(c: Config, p: Packet)
    requires c.chunk > 0 && Aligned(c, p) && p.size > 0 && p.offset + p.size >= p.count
    ensures p.count > c.chunk && p.count % c.chunk != 0 ==> p.offset == p.count - p.count % c.chunk
  {
    var n, k := p.count, c.chunk;
    if n > k && n % k != 0 {
      var q, j := n / k, p.offset / k;
      assert p.offset == j * k && n == q * k + n % k;
      Arithmetic.Multiples(j, q, k);
    }
  }

  // ----- the driver -----

  /** The pointers: requests linked through b_actf, and the ends of that list in rmttab. */
  ghost predicate Rep(link: seq<int>, actf: int, actl: int, queue: seq<int>) {
    && Linked(link, queue, NULL) && actf == Head(queue, NULL)
    && (queue != [] ==> actl == queue[|queue| - 1])
  }

  lemma {:induction false} RepHead(link: seq<int>, actf: int, actl: int, queue: seq<int>)
    requires Rep(link, actf, actl, queue)
    ensures forall i :: 0 <= i < |queue| ==> 0 <= queue[i] < |link|
    ensures actf == NULL <==> queue == []
    ensures queue != [] ==> actf == queue[0]
  {
    forall i | 0 <= i < |queue| ensures 0 <= queue[i] < |link| { At(link, queue, NULL, i); }
  }

  lemma {:induction false} RepSubmit(link: seq<int>, actf: int, actl: int, queue: seq<int>, bp: int)
    requires Rep(link, actf, actl, queue) && 0 <= bp < |link| && bp !in queue
    ensures queue == [] ==> Rep(link[bp := NULL], bp, bp, queue + [bp])
    ensures queue != [] ==> 0 <= actl < |link| && Rep(link[bp := NULL][actl := bp], actf, bp, queue + [bp])
  {
    if queue == [] {
      Cons(link, queue, NULL, bp);
      assert queue + [bp] == [bp] + queue;
    } else {
      Snoc(link, queue, NULL, bp);
    }
  }

  lemma {:induction false} RepFinish(link: seq<int>, actf: int, actl: int, queue: seq<int>)
    requires Rep(link, actf, actl, queue) && queue != []
    ensures 0 <= actf < |link| && Rep(link, link[actf], if queue[1..] == [] then NULL else actl, queue[1..])
    ensures link[actf] == NULL <==> queue[1..] == []
    ensures queue[1..] != [] ==> link[actf] == queue[1] != actf
  {
    Rest(link, queue, NULL);
    RepHead(link, link[actf], if queue[1..] == [] then NULL else actl, queue[1..]);
  }

  lemma {:induction false} SubmitParts(c: Config, t: Tab, bp: int)
    requires 0 <= bp < |t.bufs| && Legal(c, t.bufs[bp])
    ensures Appended(t, bp).queue != []
    ensures t.queue == [] ==>
      Submitted(c, t, bp) == Started(c, Appended(t, bp).(active := 0, errcnt := 0, seqno := Next(t.seqno)))
    ensures t.queue != [] ==> Submitted(c, t, bp) == Appended(t, bp)
  {
  }

  lemma {:induction false} FinishParts(c: Config, t: Tab)
    requires t.queue != [] && Known(t)
    ensures Removed(t).queue == [] ==> Finished(c, t) == Removed(t).(seqno := Next(t.seqno))
    ensures Removed(t).queue != [] ==>
      Finished(c, t) == Started(c, Removed(t).(active := 0, errcnt := 0, seqno := Next(t.seqno)))
  {
  }

  function Ticked(t: Tab, s: int): Tab { t.(timers := t.timers - multiset{s}) }

  function Expired(c: Config, t: Tab): Tab
    requires t.queue != [] && Known(t)
  {
    var u := t.(errcnt := t.errcnt + 1);
    if t.errcnt >= 6 then Finished(c, GivenUp(u)) else Started(c, u)
  }

  lemma {:induction false} FiredParts(c: Config, t: Tab, s: int)
    requires Known(t)
    ensures Known(Ticked(t, s)) && Ticked(t, s).queue == t.queue
    ensures Fired(c, t, s) ==
      if t.queue == [] || t.answered || s != t.seqno then Ticked(t, s) else Expired(c, Ticked(t, s))
  {
  }

  function Accepted(c: Config, t: Tab, size: nat, error: int): Tab
    requires t.queue != [] && Known(t)
  {
    var u := Absorbed(t, t.queue[0], error);
    var b := u.bufs[t.queue[0]];
    if b.failed || b.swap then Finished(c, u)
    else if t.active + size >= b.count then Finished(c, u.(active := t.active + size))
    else Started(c, u.(active := t.active + size, errcnt := 0, seqno := Next(t.seqno)))
  }

  lemma {:induction false} AnsweredParts(c: Config, t: Tab, s: int, size: nat, error: int)
    requires Known(t)
    ensures Answered(c, t, s, size, error) ==
      if t.queue == [] || t.answered || s != t.seqno then t else Accepted(c, t, size, error)
  {
  }

  // ----- what becomes of the request at the head, field by field -----

  /** The packet that starts at offset `at` of request bp. */
  function Ask(c: Config, t: Tab, seqno: int, bp: int, at: int): Packet
    requires 0 <= bp < |t.bufs|
  {
    var b := t.bufs[bp];
    Packet(seqno, bp, at, if b.swap then 0 else if b.count <= c.chunk then b.count else c.chunk, b.count)
  }

  /** The head request has left, with `done` of its bytes done, and the next one has sent its first packet. */
  ghost predicate HeadOver(c: Config, t: Tab, u: Tab, error: int, failed: bool, done: int)
    requires t.queue != [] && Known(t)
  {
    var bp := t.queue[0]; var b := t.bufs[bp];
    && u.bufs == t.bufs[bp := Buf(b.swap, b.dev, b.count, b.count - done, error, failed)]
    && u.queue == t.queue[1..] && u.finished == t.finished + [bp] && u.accepted == t.accepted && Known(u)
    && u.seqno == (if t.seqno == 9999 then 1 else t.seqno + 1)
    && (u.queue == [] ==> u.log == t.log && u.timers == multiset{})
    && (u.queue != [] ==>
          u.active == 0 && u.errcnt == 0 && u.timers == multiset{u.seqno} && !u.answered
          && u.log == t.log + [Ask(c, u, u.seqno, u.queue[0], 0)])
  }

  /** A reply to the packet outstanding. An error fails the request; a reply to a swap command, or for the last
      bytes, ends it; and any other asks for the bytes behind those done. */
  lemma {:induction false} ReplyOutcome(c: Config, t: Tab, size: nat, error: int)
    requires Inv(c, t) && t.queue != []
    ensures Known(t)
    ensures var u, bp := Answered(c, t, t.seqno, size, error), t.queue[0]; var b := t.bufs[bp];
      if error != 0 || b.swap then HeadOver(c, t, u, error, error != 0, t.active)
      else if t.active + size >= b.count then HeadOver(c, t, u, 0, false, t.active + size)
      else
        && u.bufs == t.bufs[bp := b.(error := 0)] && u.queue == t.queue && u.finished == t.finished
        && u.active == t.active + size && u.errcnt == 0 && u.seqno == (if t.seqno == 9999 then 1 else t.seqno + 1)
        && u.timers == multiset{u.seqno} && u.log == t.log + [Ask(c, u, u.seqno, bp, t.active + size)]
  {
    hide Inv, Capped, Repeats, NoDup;
    Bookkeeping(c, t);
    ReplyInv(c, t, t.seqno, size, error);
    Bookkeeping(c, Answered(c, t, t.seqno, size, error));
  }

  lemma {:induction false} Bookkeeping(c: Config, t: Tab)
    requires Inv(c, t)
    ensures Known(t) && 0 <= t.seqno <= 9999 && (t.queue == [] ==> t.timers == multiset{})
    ensures t.queue != [] ==>
      && !t.answered && !t.bufs[t.queue[0]].failed && t.timers == multiset{t.seqno}
      && t.log != [] && t.log[|t.log| - 1] == PacketOf(c, t) && Repeats(t.log) == t.errcnt + 1 && t.errcnt <= 6
  {
    Heads(c, t);
  }

  /** A timeout of the packet outstanding: the same packet is sent again, but one sent seven times fails its
      request with error 6. */
  lemma {:induction false} TimeoutOutcome(c: Config, t: Tab)
    requires Inv(c, t) && t.queue != []
    ensures Known(t) && t.log != []
    ensures var u := Fired(c, t, t.seqno);
      if Repeats(t.log) == 7 then HeadOver(c, t, u, 6, true, t.active)
      else u == t.(errcnt := t.errcnt + 1, log := t.log + [t.log[|t.log| - 1]])
  {
    hide Inv, Capped, Repeats, NoDup;
    Bookkeeping(c, t);
    TimerInv(c, t, t.seqno);
    Bookkeeping(c, Fired(c, t, t.seqno));
  }

  /** A request is queued with its marks cleared, and sends its first packet at once if it is alone; one for a
      foreign device changes nothing. */
  lemma {:induction false} SubmitOutcome(c: Config, t: Tab, bp: int)
    requires Inv(c, t) && 0 <= bp < |t.bufs| && bp !in t.queue
    ensures var u, b := Submitted(c, t, bp), t.bufs[bp];
      if !b.swap && b.dev != c.rootdev && b.dev != c.swapdev then u == t
      else
        && u.bufs == t.bufs[bp := b.(error := 0, failed := false)] && u.finished == t.finished
        && u.queue == t.queue + [bp] && u.accepted == t.accepted + [bp]
        && (t.queue != [] ==> u.log == t.log && u.timers == t.timers && u.active == t.active && u.seqno == t.seqno)
        && (t.queue == [] ==>
              u.active == 0 && u.errcnt == 0 && u.seqno == (if t.seqno == 9999 then 1 else t.seqno + 1)
              && u.timers == multiset{u.seqno} && u.log == t.log + [Ask(c, u, u.seqno, bp, 0)])
  {
    hide Capped, Repeats, NoDup;
    if t.queue == [] { assert t.timers == multiset{}; }
  }

  class Driver {
    const config: Config
    var bufs: seq<Buf>
    var link: seq<int>        // b_actf of each buffer
    var actf: int             // rmttab
    var actl: int
    var busy: bool
    var answered: bool        // B_DONE
    var active: int
    var errcnt: int
    var seqno: int
    ghost var queue: seq<int>
    ghost var timers: multiset<int>
    ghost var accepted: seq<int>
    ghost var finished: seq<int>
    ghost var log: seq<Packet>

    ghost function T(): Tab
      reads this
    {
      Tab(bufs, queue, answered, active, errcnt, seqno, timers, accepted, finished, log)
    }

    /** The pointers stand for the queue; between calls the invariant of the runs holds as well. */
    ghost predicate Coupled()
      reads this
    {
      Rep(link, actf, actl, queue) && |link| == |bufs| && (busy <==> queue != [])
    }

    ghost predicate Valid()
      reads this
    {
      Coupled() && Inv(config, T())
    }

    constructor (c: Config, buffers: seq<Buf>)
      ensures Valid() && Start(T()) && bufs == buffers && config == c
    {
      config := c;
      bufs := buffers;
      link := seq(|buffers|, _ => NULL);
      actf, actl, busy, answered := NULL, NULL, false, false;
      active, errcnt, seqno := 0, 0, 0;
      queue, timers, accepted, finished, log := [], multiset{}, [], [], [];
    }

    /** rmtstrategy; a request for another device is refused at once. */
    method Strategy(bp: int) returns (refused: bool)
      requires Valid() && 0 <= bp < |bufs| && bp !in queue
      modifies this
      ensures Valid() && T() == Submitted(config, old(T()), bp)
      ensures refused <==> !Legal(config, old(bufs)[bp])
    {
      ghost var t := T();
      SubmitInv(config, t, bp);
      hide Inv, Rep;
      if !bufs[bp].swap && bufs[bp].dev != config.rootdev && bufs[bp].dev != config.swapdev { return true; }
      hide Submitted, Started;
      Append(bp);
      SubmitParts(config, t, bp);
      if !busy {
        busy := true;
        Launch(bp, true);
      }
      refused := false;
    }

    /** The buffer goes to the end of the list. */
    method Append(bp: int)
      requires Coupled() && 0 <= bp < |bufs| && bp !in queue
      modifies this`bufs, this`link, this`actf, this`actl, this`queue, this`accepted
      ensures |link| == |bufs| && Rep(link, actf, actl, queue) && T() == Appended(old(T()), bp)
    {
      hide Rep;
      RepHead(link, actf, actl, queue);
      RepSubmit(link, actf, actl, queue, bp);
      bufs := bufs[bp := bufs[bp].(error := 0, failed := false)];
      queue, accepted := queue + [bp], accepted + [bp];
      link := link[bp := NULL];
      if actf == NULL { actf := bp; } else { link := link[actl := bp]; }
      actl := bp;
    }

    /** rmtstart, without the contents of the packet. */
    method Send(bp: int)
      requires Coupled() && queue != [] && bp == queue[0] && 0 <= bp < |bufs|
      modifies this`answered, this`timers, this`log
      ensures Coupled() && T() == Started(config, old(T()))
    {
      answered := false;
      timers := timers + multiset{seqno};
      var sz := config.chunk;
      if sz > bufs[bp].count { sz := bufs[bp].count; }
      if bufs[bp].swap { sz := 0; }
      log := log + [Packet(seqno, bp, active, sz, bufs[bp].count)];
    }

    /** A packet with a sequence number of its own: from the start of the request, or from where it is. */
    method Launch(bp: int, anew: bool)
      requires Coupled() && queue != [] && bp == queue[0] && 0 <= bp < |bufs|
      modifies this`answered, this`timers, this`log, this`active, this`errcnt, this`seqno
      ensures Coupled()
      ensures var at := if anew then 0 else old(active);
        T() == Started(config, old(T()).(active := at, errcnt := 0, seqno := Next(old(seqno))))
    {
      if anew { active := 0; }
      errcnt := 0;
      seqno := seqno + 1;
      if seqno > 9999 { seqno := 1; }
      Send(bp);
    }

    /** The head leaves the list, with its residue. */
    method Remove(bp: int)
      requires Coupled() && queue != [] && bp == actf && 0 <= bp < |bufs|
      modifies this`bufs, this`actf, this`queue, this`finished
      ensures old(queue[0]) == bp && |link| == |bufs| && T() == Removed(old(T()))
      ensures Rep(link, actf, if queue == [] then NULL else actl, queue)
      ensures (actf == NULL <==> queue == []) && (queue != [] ==> actf == queue[0] != bp)
    {
      hide Rep;
      RepHead(link, actf, actl, queue);
      bufs := bufs[bp := bufs[bp].(resid := bufs[bp].count - active)];
      RepFinish(link, actf, actl, queue);
      queue, finished := queue[1..], finished + [bp];
      actf := link[bp];
    }

    /** From label done on, for a request that is over. */
    method Finish()
      requires Coupled() && queue != []
      modifies this
      ensures Known(old(T())) && Coupled() && T() == Finished(config, old(T()))
    {
      ghost var t := T();
      RepHead(link, actf, actl, queue);
      hide Rep;
      hide Started, Finished;
      var bp := actf;
      FinishParts(config, t);
      Remove(bp);
      if actf == NULL {
        actl := NULL;
        busy := false;
        seqno := seqno + 1;
        if seqno > 9999 { seqno := 1; }
      }
      if actf != NULL {
        Launch(actf, actf != bp);
      }
    }

    method GiveUp(bp: int)
      requires Coupled() && Known(T()) && queue != [] && bp == queue[0]
      modifies this`bufs
      ensures Coupled() && T() == GivenUp(old(T()))
    {
      bufs := bufs[bp := bufs[bp].(failed := true, error := ENXIO)];
    }

    /** rmtintr called by a timer. */
    method TimedOut(s: int)
      requires Valid()
      modifies this
      ensures Known(old(T())) && Valid() && T() == Fired(config, old(T()), s)
    {
      ghost var t := T();
      TimerInv(config, t, s);
      RepHead(link, actf, actl, queue);
      FiredParts(config, t, s);
      hide Inv, Rep, Expired, Fired, Known;
      timers := timers - multiset{s};
      var bp := actf;
      if bp == NULL { return; }
      if !answered && s == seqno { Expire(bp); }
    }

    /** No answer in time: the packet is sent again, or the request fails after the seventh. */
    method Expire(bp: int)
      requires Coupled() && Known(T()) && queue != [] && bp == queue[0]
      modifies this
      ensures Known(old(T())) && Coupled()
      ensures T() == Expired(config, old(T()))
    {
      hide Rep, Started, Finished;
      errcnt := errcnt + 1;
      if errcnt > 6 {
        GiveUp(bp);
        Finish();
        return;
      }
      Send(bp);
    }

    method Absorb(bp: int, error: int)
      requires Coupled() && 0 <= bp < |bufs|
      modifies this`answered, this`timers, this`bufs
      ensures Coupled() && T() == Absorbed(old(T()), bp, error)
    {
      answered := true;
      timers := timers[seqno := 0];
      bufs := bufs[bp := bufs[bp].(error := error)];
      if error != 0 { bufs := bufs[bp := bufs[bp].(failed := true)]; }
    }

    /** rmtintr called for a reply, behind the receiver's test. */
    method Received(s: int, size: nat, error: int)
      requires Valid()
      modifies this
      ensures Known(old(T())) && Valid() && T() == Answered(config, old(T()), s, size, error)
    {
      ghost var t := T();
      ReplyInv(config, t, s, size, error);
      RepHead(link, actf, actl, queue);
      AnsweredParts(config, t, s, size, error);
      hide Inv, Rep, Answered, Accepted, Known;
      if answered || s != seqno { return; }
      var bp := actf;
      if bp == NULL { return; }
      Accept(bp, size, error);
    }

    /** A reply to the packet outstanding. */
    method Accept(bp: int, size: nat, error: int)
      requires Coupled() && Known(T()) && queue != [] && bp == queue[0]
      modifies this
      ensures Known(old(T())) && Coupled() && T() == Accepted(config, old(T()), size, error)
    {
      hide Rep, Started, Finished;
      Absorb(bp, error);
      if bufs[bp].failed || bufs[bp].swap {
        Finish();
        return;
      }
      active := active + size;
      if active >= bufs[bp].count {
        Finish();
        return;
      }
      Launch(bp, false);
    }
  }
}
