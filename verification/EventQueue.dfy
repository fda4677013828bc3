/** kevent.c and eventmngr.c: the operations on an event queue. */
module EventQueue {
  import opened Chain
  import opened Pool
  import opened EventSpec
  import opened EventLoss

  /** What RemoveEvents started from. */
  datatype Flushing = Flushing(q: seq<int>, es: seq<Event>, free: seq<int>)

  class Queue {
    var link: seq<int>
    var event: seq<Event>
    var mask: seq<set<int>>
    var free: int
    var waiting: bool
    var select: bool
    ghost var m: Model

    ghost function K(): State
      reads this
    {
      State(link, event, mask, free, m)
    }

    ghost predicate Shaped()
      reads this
    {
      EventLoss.Shaped(K())
    }

    /** In order, or, after an event was lost or a post refused, reading empty. */
    ghost predicate Ready()
      reads this
    {
      Valid() || Blind(K())
    }

    ghost predicate Valid()
      reads this
    {
      InOrder(K())
    }

    ghost function Events(): (es: seq<Event>)
      requires Shaped()
      reads this
      ensures |es| == |m.q|
    {
      EventsOf(event, mask, m.q)
    }

    /** event_init. */
    constructor (n: nat)
      requires n > 0
      ensures Valid() && m.q == [] && |m.free| == n == |m.place| && !waiting
    {
      var l: seq<int> := seq(n + 2, i => if i == n then n + 1 else if i == n + 1 then n else NULL);
      var i := 0;
      while i < n
        invariant 0 <= i <= n && |l| == n + 2 && l[n] == n + 1 && l[n + 1] == n
        invariant forall j :: 0 <= j < i ==> l[j] == j + 1
      {
        l := l[i := i + 1];
        i := i + 1;
      }
      l := l[n - 1 := NULL];
      link := l;
      free := 0;
      event := seq(n + 2, _ => Event(0, 0, []));
      mask := seq(n + 2, _ => {});
      waiting := false;
      select := false;
      ghost var all := seq(n, i => i);
      m := Model([], all, seq(n, _ => Where.Free));
      new;
      forall j | 0 <= j < n ensures LinkOk(link, all, NULL, j) {}
      assert LinkOk(link, [n], n + 1, 0);
      forall x ensures Here(m, x) { assert 0 <= x < n ==> all[x] == x && all[x] in all; }
      assert Linked(link, [n] + m.q, n + 1);
    }

    /** Release_event. */
    method Release(x: int)
      requires Shaped() && 0 <= x < |m.place| && m.place[x] == Hand
      modifies this`link, this`free, this`m
      ensures Shaped() && m == old(m).(free := [x] + old(m.free), place := old(m.place)[x := Where.Free])
      ensures link == old(link)[x := old(free)]
    {
      Push(link, free, m, x);
      link := link[x := free];
      free := x;
      m := m.(free := [x] + m.free, place := m.place[x := Where.Free]);
    }

    /** Request_event. It leaves the queue in order except when it takes the only event there is without a
        look at the tail, or finds neither a free record nor an event. */
    method Request(preferSpare: bool) returns (x: int)
      requires Ready()
      modifies this`link, this`free, this`m
      ensures Granted(old(K()), old(Events()), preferSpare, x, K())
    {
      hide Shape, TailOk, Blind, Picked, Requested, Roomy, CanRequest, DryTaken;
      x := Take(preferSpare);
    }

    method Take(preferSpare: bool) returns (x: int)
      requires Ready()
      modifies this`link, this`free, this`m
      ensures |link| == old(|link|) && 0 <= x < |link|
      ensures old(CanRequest(m, Events())) ==> Shaped() && 0 <= x < |m.place| && m.place[x] == Hand
      ensures old(CanRequest(m, Events())) ==> x == Picked(old(m), old(Events()), preferSpare)
      ensures old(CanRequest(m, Events())) ==> m == Requested(old(m), old(Events()), preferSpare)
      ensures old(Valid() && CanRequest(m, Events())) ==>
        (TailOk(link, m) <==> Roomy(old(m), old(Events()), preferSpare))
      ensures old(Valid() && CanRequest(m, Events())) && !TailOk(link, m) ==>
        link[FirstOf(link)] == LastOf(link) && link[LastOf(link)] == x
      ensures old(m.free) != [] ==> link == old(link) && old(free) == x && free == old(link)[x]
      ensures !old(CanRequest(m, Events())) ==>
        m == old(m) && free == old(free) && DryTaken(old(K()), preferSpare, x, link)
    {
      FreeNull(link, free, m);
      EmptyLinks();
      hide Shape, TailOk, Blind, DryTaken;
      if free == NULL { x := TakeQueued(preferSpare); } else { x := TakeFree(); }
    }

    /** With no record free. */
    method TakeQueued(preferSpare: bool) returns (x: int)
      requires Ready() && m.free == []
      modifies this`link, this`m
      ensures |link| == old(|link|) && 0 <= x < |link|
      ensures old(m.q) != [] ==> Shaped() && 0 <= x < |m.place| && old(Valid())
      ensures old(m.q) != [] ==> var i := Victim(old(Events()), preferSpare);
        x == old(m.q)[i] && x < |old(m.place)| && m == Taken(old(m), i)
      ensures old(m.q) != [] ==>
        (TailOk(link, m) <==> |old(m.q)| >= 2 || (preferSpare && old(Events())[0].what == SPARE))
      ensures old(m.q) != [] && !TailOk(link, m) ==> link[FirstOf(link)] == LastOf(link) && link[LastOf(link)] == x
      ensures old(m.q) == [] ==> m == old(m) && DryTaken(old(K()), preferSpare, x, link)
    {
      hide Rep, AllPosted, Partition;
      EmptyLinks();
      ghost var es := Events();
      if |es| == 1 { NoSpareHead(es, preferSpare); }
      if preferSpare {
        x := FindSpare();
        if x != NULL { return; }
      }
      x := StealOldest();
    }

    /** The three pointers of a queue that reads empty. */
    lemma EmptyLinks()
      requires Ready()
      ensures Shaped() && 0 <= link[FirstOf(link)] < |link|
      ensures m.q == [] ==> link[FirstOf(link)] == LastOf(link)
      ensures m.q == [] && m.free == [] ==> 0 <= Tail(K()) < LastOf(link) && link[Tail(K())] == LastOf(link)
      ensures m.q == [] && Valid() ==> Tail(K()) == FirstOf(link) && event[Tail(K())].what == 0
      ensures !Valid() ==> m.q == []
      ensures Blind(K()) ==> !Valid()
      ensures CanRequest(m, Events()) <==> m.free != [] || m.q != []
    {
      HeadLink(link, free, m);
      Apart(K());
      if !Valid() { BlindBounds(K()); }
      if m.q != [] { InQueue(link, free, m, 0); }
    }

    method TakeFree() returns (x: int)
      requires Shaped() && m.free != []
      modifies this`free, this`m
      ensures Shaped() && x == old(m.free)[0] == old(free) && 0 <= x < |old(m.place)| && old(m.place)[x] == Where.Free
      ensures m == old(m).(free := old(m.free)[1..], place := old(m.place)[x := Hand]) && free == link[x]
      ensures old(Valid()) ==> Valid()
    {
      Pop(link, free, m);
      assert Here(m, m.free[0]);
      x := free;
      free := link[free];
      m := m.(free := m.free[1..], place := m.place[x := Hand]);
    }

    method StealOldest() returns (x: int)
      requires Ready()
      modifies this`link, this`m
      ensures |link| == |old(link)| && 0 <= x < |link| && 0 <= old(link)[FirstOf(old(link))] < |old(link)|
      ensures x == old(link)[FirstOf(old(link))] && link == Steals(old(link))
      ensures old(m.q) != [] ==> Shaped() && x == old(m.q)[0] && 0 <= x < |old(m.place)| && m == Taken(old(m), 0)
      ensures old(m.q) != [] ==> (TailOk(link, m) <==> |old(m.q)| >= 2)
      ensures |old(m.q)| == 1 ==> link[FirstOf(link)] == LastOf(link) && link[LastOf(link)] == x
      ensures old(m.q) == [] ==> m == old(m)
    {
      EmptyLinks();
      ghost var q := m.q;
      if q != [] {
        StealKeepsTailIff(link, free, m);
        InQueue(link, free, m, 0);
        PostedWithout(event, mask, m.q, 0);
      }
      x := link[FirstOf(link)];
      link := link[FirstOf(link) := link[x]];
      if q != [] { m := Taken(m, 0); }
    }

    /** The records the loop of Request_event looks at: the queue, or else the end sentinel and its tail. */
    ghost function Visited(): seq<int>
      requires |link| >= 2
      reads this
    {
      if m.q != [] then m.q else [LastOf(link), Tail(K())]
    }

    /** The loop of kevent.c's Request_event: unlink the oldest spare event, if there is one. On an empty
        queue it looks at the sentinel, and from there at the record the tail points to. */
    method FindSpare() returns (x: int)
      requires Ready() && m.free == []
      modifies this`link, this`m
      ensures Ready() || old(m.q) == []
      ensures old(Valid()) && old(m.q) != [] ==> Valid()
      ensures var i := FirstHit(old(Events()), {SPARE});
        old(m.q) != [] && i < |old(m.q)| ==> x == old(m.q)[i] && 0 <= x < |old(m.place)| && m == Taken(old(m), i)
      ensures FirstHit(old(Events()), {SPARE}) == |old(m.q)| && old(m.q) != [] ==> x == NULL
      ensures old(m.q) == [] && SpareTail(old(K()), true) ==> x == Tail(old(K())) && m == old(m)
      ensures old(m.q) == [] && SpareTail(old(K()), true) ==> link == old(link)[LastOf(old(link)) := LastOf(old(link))]
      ensures old(m.q) == [] && !SpareTail(old(K()), true) ==> x == NULL
      ensures |link| == |old(link)| && (x == NULL ==> m == old(m) && link == old(link))
    {
      EmptyLinks();
      hide Rep, AllPosted, Partition;
      HeadLink(link, free, m);
      var ep := link[FirstOf(link)];
      var ep2 := FirstOf(link);
      ghost var i, es, path := 0, Events(), Visited();
      FirstHitIsFirst(es, {SPARE});
      while true
        invariant 0 <= i < |path| && ep == path[i] && Ready() && link == old(link) && m == old(m)
        invariant m.q != [] ==> ep2 == Before(m, i) && i <= FirstHit(es, {SPARE})
        invariant m.q == [] && i == 1 ==> ep2 == LastOf(link)
        decreases |path| - i
      {
        if m.q != [] { InQueue(link, free, m, i); assert es[i] == event[ep]; }
        if event[ep].what == SPARE {
          CutOut(ep2, ep, i);
          return ep;
        }
        ep2 := ep;
        ep := link[ep];
        i := i + 1;
        if m.q != [] && i < |m.q| { InQueue(link, free, m, i); }
        if ep == LastOf(link) { break; }
      }
      x := NULL;
    }

    /** The record behind ep2 is unlinked; the tail moves back when it was the last. */
    method CutOut(ep2: int, ep: int, ghost i: int)
      requires Ready() && m.free == [] && 0 <= i
      requires m.q != [] ==> i < |m.q| && ep == m.q[i] && ep2 == Before(m, i)
      requires m.q == [] ==> ep2 == LastOf(link) && ep == Tail(K())
      modifies this`link, this`m
      ensures |link| == |old(link)|
      ensures old(m.q) != [] ==> Valid() && 0 <= ep < |old(m.place)| && m == Taken(old(m), i)
      ensures old(m.q) == [] ==> m == old(m) && link == old(link)[LastOf(old(link)) := LastOf(old(link))]
    {
      EmptyLinks();
      hide Rep, AllPosted, Partition;
      ghost var q := m.q;
      if q != [] {
        Unlink(link, free, m, i);
        PostedWithout(event, mask, m.q, i);
      }
      link := link[ep2 := link[ep]];
      if link[ep] == LastOf(link) { link := link[LastOf(link) := ep2]; }
      if q != [] { m := Taken(m, i); }
    }

    /** PostEvent: the event goes to the end of the queue, or nothing is posted when the copy from the
        caller fails. Either way an event may have been dropped to make room. After an event was lost
        or a post refused, and with a dry pool and an empty queue, it does what EventLoss describes. */
    method Post(e: Event, copied: bool, preferSpare: bool)
      requires Ready() && 0 < e.what < 32
      modifies this
      ensures PostedTo(old(K()), old(Events()), e, copied, preferSpare, K())
      ensures copied ==> !waiting && !select
      ensures !copied ==> waiting == old(waiting) && select == old(select)
    {
      EmptyLinks();
      hide Shape, TailOk, Blind, Granted, PostedTo, AfterPost, InOrder, PostedLink, CanRequest;
      ghost var k, es := K(), Events();
      assert InOrder(k) || Blind(k);
      var ep := Request(preferSpare);
      ghost var t := K();
      if copied { Accept(ep, e, k, es, preferSpare, t); } else { Refuse(ep, e, k, es, preferSpare, t); }
    }

    method Refuse(ep: int, ghost e: Event, ghost k: State, ghost es: seq<Event>, ghost preferSpare: bool,
        ghost t: State)
      requires (InOrder(k) || Blind(k)) && 0 < e.what < 32 && es == EventsOf(k.event, k.mask, k.m.q)
      requires Granted(k, es, preferSpare, ep, t) && t == K()
      modifies this`link, this`free, this`m
      ensures PostedTo(k, es, e, false, preferSpare, K())
    {
      hide Blind, Granted, PostedTo, AfterPost, InOrder;
      InRange(k, es, preferSpare, ep, t);
      RefusalDone(k, es, e, preferSpare, ep, t);
      m := AfterPost(k, es, e, false, preferSpare, ep, t);
      PutBack(ep);
    }

    method Accept(ep: int, e: Event, ghost k: State, ghost es: seq<Event>, ghost preferSpare: bool, ghost t: State)
      requires (InOrder(k) || Blind(k)) && 0 < e.what < 32 && es == EventsOf(k.event, k.mask, k.m.q)
      requires Granted(k, es, preferSpare, ep, t) && t == K()
      modifies this`link, this`event, this`mask, this`m, this`waiting, this`select
      ensures PostedTo(k, es, e, true, preferSpare, K()) && !waiting && !select
    {
      hide Blind, Granted, PostedTo, AfterPost, InOrder, PostedLink;
      InRange(k, es, preferSpare, ep, t);
      CopyDone(k, es, e, preferSpare, ep, t);
      m := AfterPost(k, es, e, true, preferSpare, ep, t);
      Fill(ep, e);
      if waiting { waiting := false; }
      if select { select := false; }
    }

    lemma InRange(k: State, es: seq<Event>, preferSpare: bool, x: int, t: State)
      requires Granted(k, es, preferSpare, x, t)
      ensures 0 <= x < |t.link|
    {
    }

    /** Release_event, of whatever the request took. */
    method PutBack(ep: int)
      requires 0 <= ep < |link|
      modifies this`link, this`free
      ensures link == old(link)[ep := old(free)] && free == ep
    {
      link := link[ep := free];
      free := ep;
    }

    /** The event is written into the record, and the record appended behind the tail. */
    method Fill(ep: int, e: Event)
      requires |event| == |mask| == |link| >= 2 && 0 <= ep < |link| && 0 <= link[LastOf(link)] < |link|
      modifies this`link, this`event, this`mask
      ensures link == PostedLink(old(link), ep) && event == old(event)[ep := e] && mask == old(mask)[ep := {e.what}]
    {
      event := event[ep := e];
      mask := mask[ep := {e.what}];
      var tail := link[LastOf(link)];
      link := link[tail := ep];
      link := link[ep := LastOf(link)];
      link := link[LastOf(link) := ep];
    }

    /** ReceiveEvent, one round: the oldest event the mask selects leaves the queue, into the caller's
        hand. Otherwise the end sentinel is returned and the caller is noted as waiting. */
    method Receive(wanted: set<int>) returns (x: int)
      requires Ready()
      modifies this
      ensures Ready() && (Valid() <==> old(Valid())) && event == old(event)
      ensures old(Blind(K())) ==> K() == Step(old(K()), Searching(wanted), false)
      ensures var i := FirstHit(old(Events()), wanted);
        if wanted != {} && i < |old(m.q)|
        then x == old(m.q)[i] && 0 <= x < |old(m.place)| && m == Taken(old(m), i) && waiting == old(waiting)
        else x == LastOf(link) && m == old(m) && waiting == (old(waiting) || wanted != {})
    {
      EmptyLinks();
      if wanted == {} { return LastOf(link); }
      ghost var k := K();
      if Blind(k) { Searched(k, wanted); }
      hide Rep, AllPosted, Partition, FirstHit, Blind, Step;
      var ep, nextp, i := Find(wanted);
      if event[nextp].what != 0 {
        CutNext(ep, nextp, i);
        return nextp;
      }
      waiting := true;
      x := LastOf(link);
    }

    /** A search that finds nothing leaves its mask in the end sentinel. */
    static lemma Searched(k: State, wanted: set<int>)
      requires Blind(k) && wanted != {}
      ensures k.m.q == [] && |k.mask| == |k.link|
      ensures var r := k.(mask := k.mask[LastOf(k.link) := wanted]);
        r == Step(k, Searching(wanted), false) && Blind(r) && !InOrder(r)
    {
      BlindBounds(k);
      StepKeepsIff(k, Searching(wanted), false);
      Apart(Step(k, Searching(wanted), false));
    }

    /** Look_for_Event, one round: the same event, left in the queue. */
    method LookFor(wanted: set<int>) returns (x: int)
      requires Shaped()
      modifies this`mask, this`waiting
      ensures Shaped()
      ensures var i := FirstHit(Events(), wanted);
        if wanted != {} && i < |m.q| then x == m.q[i] && waiting == old(waiting)
        else x == LastOf(link) && waiting == (old(waiting) || wanted != {})
    {
      if wanted == {} { return LastOf(link); }
      var ep, nextp, i := Find(wanted);
      if event[nextp].what != 0 { return nextp; }
      waiting := true;
      x := LastOf(link);
    }

    /** The search both share; the end sentinel gets the mask, so it ends. */
    method Find(wanted: set<int>) returns (ep: int, nextp: int, ghost i: nat)
      requires Shaped() && wanted != {}
      modifies this`mask
      ensures Shaped() && |mask| == |old(mask)| && mask == old(mask)[LastOf(link) := wanted]
      ensures i == FirstHit(Events(), wanted) == old(FirstHit(Events(), wanted)) && i <= |m.q|
      ensures ep == Before(m, i) && nextp == if i < |m.q| then m.q[i] else LastOf(link)
      ensures 0 <= nextp < |event| && (event[nextp].what != 0 <==> i < |m.q|)
    {
      SentinelMask(event, mask, m, wanted);
      HeadLink(link, free, m);
      ghost var es := Events();
      FirstHitIsFirst(es, wanted);
      ep := FirstOf(link);
      nextp := link[ep];
      mask := mask[LastOf(link) := wanted];
      i := 0;
      hide Rep, AllPosted, Partition, FirstHit, TailOk, Posted;
      assert Shaped() && Events() == es;
      ghost var mask1 := mask;
      while mask[nextp] * wanted == {}
        invariant 0 <= i <= |m.q| && i <= FirstHit(es, wanted)
        invariant ep == Before(m, i) && nextp == if i < |m.q| then m.q[i] else LastOf(link)
        invariant 0 <= nextp < |mask| && mask == mask1
        decreases |m.q| - i
      {
        assert i < |m.q| by { assert wanted * wanted == wanted; }
        PostedAt(event, mask, m.q, i);
        InQueue(link, free, m, i);
        HitIff(event, mask, nextp, wanted);
        ep := nextp;
        nextp := link[ep];
        i := i + 1;
        if i < |m.q| { InQueue(link, free, m, i); }
      }
      if i < |m.q| {
        PostedAt(event, mask, m.q, i);
        HitIff(event, mask, nextp, wanted);
      }
    }

    /** The unlinking ReceiveEvent and RemoveEvents do, which compares with the tail instead. */
    method CutNext(ep: int, nextp: int, ghost i: int)
      requires Valid() && 0 <= i < |m.q| && nextp == m.q[i] && ep == Before(m, i)
      modifies this`link, this`m
      ensures Valid() && |link| == |old(link)| && 0 <= nextp < |old(m.place)| && m == Taken(old(m), i)
    {
      hide Rep, AllPosted, Partition;
      Unlink(link, free, m, i);
      PostedWithout(event, mask, m.q, i);
      var tail := link[LastOf(link)];
      link := link[ep := link[nextp]];
      if nextp == tail { link := link[LastOf(link) := ep]; }
      m := Taken(m, i);
    }

    /** The event behind ep goes to the free list. */
    method CutToFree(ep: int, nextp: int, ghost k: int)
      requires Valid() && 0 <= k < |m.q| && nextp == m.q[k] && ep == Before(m, k)
      modifies this`link, this`free, this`m
      ensures Valid() && m.q == Without(old(m.q), k) && m.free == [nextp] + old(m.free)
      ensures 0 <= ep < |link| && link[ep] == if k < |m.q| then m.q[k] else LastOf(link)
      ensures SameHands(old(m.place), m.place)
    {
      hide Rep, AllPosted, Partition;
      InQueue(link, free, m, k);
      CutNext(ep, nextp, k);
      Push(link, free, m, nextp);
      link := link[nextp := free];
      free := nextp;
      m := m.(free := [nextp] + m.free, place := m.place[nextp := Where.Free]);
      if k > 0 { InQueue(link, free, m, k - 1); } else { HeadLink(link, free, m); }
    }

    /** One round of RemoveEvents, at the record behind before. */
    method Look(before: int, wanted: set<int>, limit: nat, ghost k: int) returns (stop: bool, ep: int)
      requires Valid() && 0 <= k < |m.q| && before == Before(m, k)
      modifies this`link, this`free, this`m
      ensures Valid() && event == old(event) && SameHands(old(m.place), m.place) && 0 <= old(m.q)[k] < |event|
      ensures var e := event[old(m.q)[k]];
        && stop == (e.when > limit)
        && m.q == (if !stop && Hit(wanted, e) then Without(old(m.q), k) else old(m.q))
        && m.free == (if !stop && Hit(wanted, e) then [old(m.q)[k]] + old(m.free) else old(m.free))
        && (!stop ==> Cursor(ep, if Hit(wanted, e) then k else k + 1))
    {
      hide Rep, AllPosted, Partition;
      InQueue(link, free, m, k);
      if k > 0 { InQueue(link, free, m, k - 1); } else { HeadLink(link, free, m); }
      PostedAt(event, mask, m.q, k);
      var nextp := link[before];
      stop, ep := false, before;
      if event[nextp].when > limit { return true, ep; }
      HitIff(event, mask, nextp, wanted);
      if mask[nextp] * wanted != {} {
        CutToFree(ep, nextp, k);
      } else {
        ep := nextp;
      }
    }

    /** ep is the record before record k of the queue. */
    ghost predicate Cursor(ep: int, k: int)
      reads this
    {
      && 0 <= k <= |m.q| && ep == Before(m, k) && 0 <= ep < |link|
      && link[ep] == if k < |m.q| then m.q[k] else LastOf(link)
    }

    /** That round, as a step of the whole: i events looked at before it, k of them kept. */
    method Round(before: int, wanted: set<int>, limit: nat, ghost g: Flushing, ghost i: int, ghost k: int)
      returns (stop: bool, ep: int, ghost k': int)
      requires Valid() && Cursor(before, k) && k < |m.q| && Under(g, wanted, limit, i, k)
      modifies this`link, this`free, this`m
      ensures Valid() && SameHands(old(m.place), m.place)
      ensures !stop ==> Cursor(ep, k') && Under(g, wanted, limit, i + 1, k') && |m.q| - k' < |old(m.q)| - k
      ensures stop ==> Flush(g.q, g.es, wanted, limit, g.free, m.q, m.free)
    {
      hide Shape, TailOk, SameHands, Progress, Flush, EventsOf;
      ghost var q1 := m.q;
      ProgressNext(g.q, g.es, wanted, limit, g.free, m.q, m.free, i, k);
      assert g.es[i] == event[q1[k]];
      stop, ep := Look(before, wanted, limit, k);
      k' := if Hit(wanted, g.es[i]) then k else k + 1;
    }

    /** i events of the flushing g are looked at, and k of them are still in the queue. */
    ghost predicate Under(g: Flushing, wanted: set<int>, limit: nat, i: int, k: int)
      reads this
    {
      && |g.q| == |g.es| && (forall j :: 0 <= j < |g.q| ==> 0 <= g.q[j] < |event| && event[g.q[j]] == g.es[j])
      && Progress(g.q, g.es, wanted, limit, g.free, m.q, m.free, i, k)
    }

    /** RemoveEvents, i rounds on: in order if it was at first, and otherwise untouched and empty. */
    ghost predicate Midway(g: Flushing, k0: State, good: bool, wanted: set<int>, limit: nat, i: int, k: int, ep: int)
      reads this
    {
      && (if good then Valid() else K() == k0 && !InOrder(k0) && Blind(k0) && m.q == [])
      && Under(g, wanted, limit, i, k) && Cursor(ep, k) && SameHands(k0.m.place, m.place)
    }

    /** RemoveEvents is over. */
    ghost predicate Over(g: Flushing, k0: State, good: bool, wanted: set<int>, limit: nat)
      reads this
    {
      && (if good then Valid() else K() == k0 && !InOrder(k0) && Blind(k0))
      && SameHands(k0.m.place, m.place) && |g.q| == |g.es| && Flush(g.q, g.es, wanted, limit, g.free, m.q, m.free)
    }

    /** RemoveEvents. */
    method Remove(wanted: set<int>, limit: nat)
      requires Ready()
      modifies this`link, this`free, this`m
      ensures Ready() && (Valid() <==> old(Valid())) && SameHands(old(m.place), m.place)
      ensures old(Blind(K())) ==> K() == old(K())
      ensures Flush(old(m.q), old(Events()), wanted, limit, old(m.free), m.q, m.free)
    {
      EmptyLinks();
      ghost var g, good, k0 := Flushing(m.q, Events(), m.free), Valid(), K();
      ghost var i, k := 0, 0;
      var ep := FirstOf(link);
      Starts(g, wanted, limit);
      hide Midway, Over, Blind, InOrder, Shape, EventsOf, Flush;
      var stop := false;
      while !stop && link[ep] != LastOf(link)
        invariant !stop ==> 0 <= ep < |link|
        invariant if stop then Over(g, k0, good, wanted, limit) else Midway(g, k0, good, wanted, limit, i, k, ep)
        decreases if stop then 0 else 1, |m.q| - k
      {
        stop, ep, k := NextRound(ep, wanted, limit, g, k0, good, i, k);
        i := i + 1;
      }
      if !stop { AllDone(g, k0, good, wanted, limit, i, k, ep); }
      Finally(g, k0, good, wanted, limit);
    }

    lemma Starts(g: Flushing, wanted: set<int>, limit: nat)
      requires Ready() && Shaped() && g == Flushing(m.q, Events(), m.free)
      ensures Midway(g, K(), Valid(), wanted, limit, 0, 0, FirstOf(link)) && 0 <= FirstOf(link) < |link|
    {
      EmptyLinks();
      HeadLink(link, free, m);
      ProgressStart(g.q, g.es, wanted, limit, g.free);
    }

    method NextRound(before: int, wanted: set<int>, limit: nat, ghost g: Flushing, ghost k0: State, ghost good: bool,
        ghost i: int, ghost k: int)
      returns (stop: bool, ep: int, ghost k': int)
      requires Midway(g, k0, good, wanted, limit, i, k, before) && 0 <= before < |link| && link[before] != LastOf(link)
      modifies this`link, this`free, this`m
      ensures !stop ==> 0 <= ep < |link| && Midway(g, k0, good, wanted, limit, i + 1, k', ep)
      ensures !stop ==> |m.q| - k' < |old(m.q)| - k && k' <= |m.q|
      ensures stop ==> Over(g, k0, good, wanted, limit)
    {
      hide Shape, TailOk, SameHands, Progress, Flush, EventsOf, Blind, InOrder;
      ghost var place1 := m.place;
      stop, ep, k' := Round(before, wanted, limit, g, i, k);
      SameHandsTrans(k0.m.place, place1, m.place);
    }

    lemma AllDone(g: Flushing, k0: State, good: bool, wanted: set<int>, limit: nat, i: int, k: int, ep: int)
      requires Midway(g, k0, good, wanted, limit, i, k, ep) && link[ep] == LastOf(link)
      ensures Over(g, k0, good, wanted, limit)
    {
      if k < |m.q| { InQueue(link, free, m, k); }
      ProgressDone(g.q, g.es, wanted, limit, g.free, m.q, m.free, i);
    }

    lemma Finally(g: Flushing, k0: State, good: bool, wanted: set<int>, limit: nat)
      requires Over(g, k0, good, wanted, limit)
      ensures Ready() && (Valid() <==> good) && SameHands(k0.m.place, m.place) && (!good ==> K() == k0)
      ensures |g.q| == |g.es| && Flush(g.q, g.es, wanted, limit, g.free, m.q, m.free)
    {
    }
  }

  // ----- the loss happens -----

  /** Queued events are all e. */
  ghost predicate AllAre(q: Queue, e: Event)
    reads q
  {
    q.Valid() && forall i :: 0 <= i < |q.m.q| ==> q.Events()[i] == e
  }

  /** n posts into a new queue of n records, and all but one received: the pool is dry, and one event queued. */
  method OneLeft(n: nat, e: Event, preferSpare: bool) returns (q: Queue, held: int)
    requires n > 0 && 0 < e.what < 32
    ensures fresh(q) && AllAre(q, e) && q.m.free == [] && |q.m.q| == 1 && |q.m.place| == n
    ensures n > 1 ==> 0 <= held < n && q.m.place[held] == Hand
  {
    q := new Queue(n);
    held := NULL;
    var i := 0;
    while i < n
      invariant fresh(q) && 0 <= i <= n && AllAre(q, e) && |q.m.free| == n - i && |q.m.q| == i && |q.m.place| == n
    {
      PostOne(q, e, preferSpare);
      i := i + 1;
    }
    while i > 1
      invariant fresh(q) && 1 <= i <= n && AllAre(q, e) && q.m.free == [] && |q.m.q| == i && |q.m.place| == n
      invariant i < n ==> 0 <= held < n && q.m.place[held] == Hand
    {
      held := ReceiveOne(q, e);
      i := i - 1;
    }
  }

  method PostOne(q: Queue, e: Event, preferSpare: bool)
    requires AllAre(q, e) && q.m.free != [] && 0 < e.what < 32
    modifies q
    ensures AllAre(q, e) && |q.m.free| == old(|q.m.free|) - 1 && |q.m.q| == old(|q.m.q|) + 1
    ensures |q.m.place| == old(|q.m.place|)
  {
    ghost var k, es := q.K(), q.Events();
    Apart(k);
    PostFits(k, es, e, preferSpare);
    q.Post(e, true, preferSpare);
    PostedFits(k, es, e, preferSpare, q.K());
  }

  lemma {:induction false} PostFits(k: State, es: seq<Event>, e: Event, preferSpare: bool)
    requires InOrder(k) && k.m.free != [] && es == EventsOf(k.event, k.mask, k.m.q)
    ensures CanRequest(k.m, es) && Roomy(k.m, es, preferSpare)
  {
    Apart(k);
  }

  lemma {:induction false} PostedFits(k: State, es: seq<Event>, e: Event, preferSpare: bool, r: State)
    requires InOrder(k) && k.m.free != [] && es == EventsOf(k.event, k.mask, k.m.q)
    requires PostedTo(k, es, e, true, preferSpare, r) && forall i :: 0 <= i < |es| ==> es[i] == e
    ensures InOrder(r) && |r.m.free| == |k.m.free| - 1 && |r.m.q| == |k.m.q| + 1 && |r.m.place| == |k.m.place|
    ensures forall i :: 0 <= i < |r.m.q| ==> EventsOf(r.event, r.mask, r.m.q)[i] == e
  {
    PostFits(k, es, e, preferSpare);
    var es' := EventsOf(r.event, r.mask, r.m.q);
    forall i | 0 <= i < |r.m.q| ensures es'[i] == e {
      if i < |k.m.q| { assert es[i] == k.event[k.m.q[i]]; }
    }
  }

  method ReceiveOne(q: Queue, e: Event) returns (x: int)
    requires AllAre(q, e) && |q.m.q| > 1
    modifies q
    ensures AllAre(q, e) && q.m.free == old(q.m.free) && |q.m.q| == old(|q.m.q|) - 1 && |q.m.place| == old(|q.m.place|)
    ensures 0 <= x < |q.m.place| && q.m.place[x] == Hand
  {
    ghost var es, was := q.Events(), q.m;
    assert Hit({e.what}, es[0]);
    x := q.Receive({e.what});
    forall i | 0 <= i < |q.m.q| ensures q.Events()[i] == e { assert q.m.q[i] == was.q[i + 1]; assert es[i + 1] == e; }
  }

  /** So an event can be lost, whatever the pool's size: the next post, unless spare events are preferred and
      the queued one is spare. */
  method LoseOne(n: nat, e: Event, preferSpare: bool) returns (q: Queue)
    requires n > 0 && 0 < e.what < 32 && !(preferSpare && e.what == SPARE)
    ensures fresh(q) && Lost(q.K())
  {
    var held: int;
    q, held := OneLeft(n, e, preferSpare);
    ghost var k, es := q.K(), q.Events();
    Apart(k);
    assert es[0] == e;
    q.Post(e, true, preferSpare);
  }

  /** When that post is refused, the tail is on the free list. */
  method RefuseOne(n: nat, e: Event, preferSpare: bool) returns (q: Queue, held: int)
    requires n > 0 && 0 < e.what < 32 && !(preferSpare && e.what == SPARE)
    ensures fresh(q) && Slack(q.K()) && q.free == Tail(q.K()) && |q.m.place| == n
    ensures n > 1 ==> 0 <= held < n && q.m.place[held] == Hand
  {
    q, held := OneLeft(n, e, preferSpare);
    ghost var k, es := q.K(), q.Events();
    Apart(k);
    assert es[0] == e;
    InQueue(k.link, k.free, k.m, 0);
    q.Post(e, false, preferSpare);
    BlindBounds(q.K());
  }

  /** A record received before is then released, and the next post closes the free list. */
  method CloseRing(n: nat, e: Event, preferSpare: bool) returns (q: Queue)
    requires n > 1 && 0 < e.what < 32 && !(preferSpare && e.what == SPARE)
    ensures fresh(q) && !FreeListEnds(q.K()) && exists x :: Ring(q.K(), x)
  {
    var held: int;
    q, held := RefuseOne(n, e, preferSpare);
    BlindBounds(q.K());
    q.Release(held);
    ghost var k := q.K();
    assert Slack(k) && k.free == held;
    Apart(k);
    q.Post(e, true, preferSpare);
    RingCloses(k, e, preferSpare);
  }
}
