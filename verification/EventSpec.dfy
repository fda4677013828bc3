/** kevent.c and eventmngr.c: what is selected from the event queue, and how the records of the pool are linked
    between the two sentinels. Records 0 .. n - 1 are the pool; n is qp->first and n + 1 is qp->last. */
module EventSpec {
  import opened Chain
  import opened Pool

  const NULL := -1
  const SPARE := 12   // the code of the events kevent.c drops first

  type Code = c: int | 0 < c < 32 witness 1

  datatype Event = Event(what: int, when: nat, rest: seq<int>)

  function FirstOf(link: seq<int>): int { |link| - 2 }
  function LastOf(link: seq<int>): int { |link| - 1 }

  // ----- what is selected -----

  predicate Hit(mask: set<int>, e: Event) { e.what in mask }

  /** The index of the oldest event the mask selects, or the length of the queue. */
  function FirstHit(es: seq<Event>, mask: set<int>): (i: nat)
    ensures i <= |es|
  {
    if es == [] || Hit(mask, es[0]) then 0 else 1 + FirstHit(es[1..], mask)
  }

  lemma {:induction false} FirstHitIsFirst(es: seq<Event>, mask: set<int>)
    ensures forall j :: 0 <= j < FirstHit(es, mask) ==> !Hit(mask, es[j])
    ensures FirstHit(es, mask) < |es| ==> Hit(mask, es[FirstHit(es, mask)])
  {
    if es != [] && !Hit(mask, es[0]) {
      FirstHitIsFirst(es[1..], mask);
      assert forall j :: 0 < j < FirstHit(es, mask) ==> es[j] == es[1..][j - 1];
    }
  }

  /** The event a dry pool gives up. The newer policy prefers the oldest spare one. */
  function Victim(es: seq<Event>, preferSpare: bool): (i: nat)
    requires es != []
    ensures i < |es|
  {
    if preferSpare && FirstHit(es, {SPARE}) < |es| then FirstHit(es, {SPARE}) else 0
  }

  /** That is the oldest event with code 12 for the newer policy, if there is one, and otherwise the oldest. */
  lemma {:induction false} VictimIs(es: seq<Event>, preferSpare: bool, i: nat)
    requires i < |es|
    ensures Victim(es, preferSpare) == i <==>
      if preferSpare && exists j :: 0 <= j < |es| && es[j].what == 12
      then es[i].what == 12 && forall j :: 0 <= j < i ==> es[j].what != 12
      else i == 0
  {
    FirstHitIsFirst(es, {SPARE});
    assert forall j :: 0 <= j < |es| ==> (Hit({SPARE}, es[j]) <==> es[j].what == 12);
  }

  /** Whether record i of the queue is flushed: RemoveEvents stops at the first event later than the limit. */
  predicate Flushed(es: seq<Event>, mask: set<int>, limit: nat, i: int)
    requires 0 <= i < |es|
  {
    Hit(mask, es[i]) && forall j :: 0 <= j <= i ==> es[j].when <= limit
  }

  /** The records left, and the records freed, by RemoveEvents. */
  function Kept(q: seq<int>, es: seq<Event>, mask: set<int>, limit: nat): (r: seq<int>)
    requires |q| == |es|
  {
    if q == [] || es[0].when > limit then q
    else (if Hit(mask, es[0]) then [] else [q[0]]) + Kept(q[1..], es[1..], mask, limit)
  }

  function Freed(q: seq<int>, es: seq<Event>, mask: set<int>, limit: nat): (r: seq<int>)
    requires |q| == |es|
  {
    if q == [] || es[0].when > limit then []
    else (if Hit(mask, es[0]) then [q[0]] else []) + Freed(q[1..], es[1..], mask, limit)
  }

  /** The records at the indices where a predicate holds, in order. */
  function Chosen(q: seq<int>, p: int -> bool): seq<int> {
    if q == [] then [] else (if p(0) then [q[0]] else []) + Chosen(q[1..], i => p(i + 1))
  }

  lemma {:induction false} ChosenAll(q: seq<int>, p: int -> bool, all: bool)
    requires forall i :: 0 <= i < |q| ==> p(i) == all
    ensures Chosen(q, p) == if all then q else []
  {
    if q != [] { ChosenAll(q[1..], i => p(i + 1), all); }
  }

  lemma {:induction false} ChosenSame(q: seq<int>, p: int -> bool, r: int -> bool)
    requires forall i :: 0 <= i < |q| ==> p(i) == r(i)
    ensures Chosen(q, p) == Chosen(q, r)
  {
    if q != [] { ChosenSame(q[1..], i => p(i + 1), i => r(i + 1)); }
  }

  /** RemoveEvents frees exactly the selected events before the first one later than the limit, and
      keeps the others in order. */
  lemma {:induction false} FlushExact(q: seq<int>, es: seq<Event>, mask: set<int>, limit: nat)
    requires |q| == |es|
    ensures Kept(q, es, mask, limit) == Chosen(q, i => 0 <= i < |es| && !Flushed(es, mask, limit, i))
    ensures Freed(q, es, mask, limit) == Chosen(q, i => 0 <= i < |es| && Flushed(es, mask, limit, i))
  {
    var keep := i => 0 <= i < |es| && !Flushed(es, mask, limit, i);
    var free := i => 0 <= i < |es| && Flushed(es, mask, limit, i);
    if q == [] {
    } else if es[0].when > limit {
      assert forall i :: 0 <= i < |es| ==> !Flushed(es, mask, limit, i);
      ChosenAll(q, keep, true);
      ChosenAll(q, free, false);
    } else {
      var rest := es[1..];
      FlushExact(q[1..], rest, mask, limit);
      forall i | 0 <= i < |rest| ensures Flushed(rest, mask, limit, i) == Flushed(es, mask, limit, i + 1) {
        assert forall j :: 0 <= j < |rest| ==> rest[j] == es[j + 1];
        if Flushed(rest, mask, limit, i) {
          forall j | 0 <= j <= i + 1 ensures es[j].when <= limit { if j > 0 { assert rest[j - 1].when <= limit; } }
        }
        if Flushed(es, mask, limit, i + 1) {
          forall j | 0 <= j <= i ensures rest[j].when <= limit { assert es[j + 1].when <= limit; }
        }
      }
      ChosenSame(q[1..], i => 0 <= i < |rest| && !Flushed(rest, mask, limit, i), i => keep(i + 1));
      ChosenSame(q[1..], i => 0 <= i < |rest| && Flushed(rest, mask, limit, i), i => free(i + 1));
    }
  }

  /** In a queue posted in time order the limit means what it says. */
  lemma {:induction false} FlushInTimeOrder(es: seq<Event>, mask: set<int>, limit: nat, i: int)
    requires 0 <= i < |es| && forall j, k :: 0 <= j < k < |es| ==> es[j].when <= es[k].when
    ensures Flushed(es, mask, limit, i) <==> Hit(mask, es[i]) && es[i].when <= limit
  {
    forall j | 0 <= j <= i ensures es[j].when <= es[i].when { if j < i {} }
  }

  /** The free list after the records are put on it one by one. */
  function Stacked(freed: seq<int>, free: seq<int>): seq<int> {
    if freed == [] then free else Stacked(freed[1..], [freed[0]] + free)
  }

  lemma {:induction false} FlushStep(q: seq<int>, es: seq<Event>, mask: set<int>, limit: nat, i: nat, free: seq<int>)
    requires i < |q| == |es|
    ensures es[i].when > limit ==> Kept(q[i..], es[i..], mask, limit) == q[i..]
    ensures es[i].when > limit ==> Stacked(Freed(q[i..], es[i..], mask, limit), free) == free
    ensures es[i].when <= limit ==> var keep := if Hit(mask, es[i]) then [] else [q[i]];
      Kept(q[i..], es[i..], mask, limit) == keep + Kept(q[i + 1..], es[i + 1..], mask, limit)
    ensures es[i].when <= limit && !Hit(mask, es[i]) ==>
      Stacked(Freed(q[i..], es[i..], mask, limit), free) == Stacked(Freed(q[i + 1..], es[i + 1..], mask, limit), free)
    ensures es[i].when <= limit && Hit(mask, es[i]) ==>
      Stacked(Freed(q[i..], es[i..], mask, limit), free) ==
        Stacked(Freed(q[i + 1..], es[i + 1..], mask, limit), [q[i]] + free)
  {
    assert q[i..][1..] == q[i + 1..] && es[i..][1..] == es[i + 1..];
    var f := Freed(q[i + 1..], es[i + 1..], mask, limit);
    assert ([q[i]] + f)[1..] == f && [] + f == f;
  }

  /** How far RemoveEvents has come: i events looked at, k of them kept. */
  predicate Progress(q0: seq<int>, es: seq<Event>, mask: set<int>, limit: nat, free0: seq<int>, q: seq<int>,
      free: seq<int>, i: int, k: int)
    requires |q0| == |es|
  {
    && 0 <= k <= |q| && 0 <= i <= |q0| && q[k..] == q0[i..]
    && Kept(q0, es, mask, limit) == q[..k] + Kept(q0[i..], es[i..], mask, limit)
    && Stacked(Freed(q0, es, mask, limit), free0) == Stacked(Freed(q0[i..], es[i..], mask, limit), free)
  }

  /** The queue and the free list after RemoveEvents. */
  predicate Flush(q0: seq<int>, es: seq<Event>, mask: set<int>, limit: nat, free0: seq<int>, q: seq<int>,
      free: seq<int>)
    requires |q0| == |es|
  {
    q == Kept(q0, es, mask, limit) && free == Stacked(Freed(q0, es, mask, limit), free0)
  }

  lemma {:induction false} ProgressStart(q: seq<int>, es: seq<Event>, mask: set<int>, limit: nat, free: seq<int>)
    requires |q| == |es|
    ensures Progress(q, es, mask, limit, free, q, free, 0, 0)
  {
    assert q[0..] == q && es[0..] == es && q[..0] == [];
  }

  lemma {:induction false} ProgressNext(q0: seq<int>, es: seq<Event>, mask: set<int>, limit: nat, free0: seq<int>,
      q: seq<int>, free: seq<int>, i: int, k: int)
    requires |q0| == |es| && Progress(q0, es, mask, limit, free0, q, free, i, k) && k < |q|
    ensures 0 <= i < |q0| && q[k] == q0[i] && |q| - k == |q0| - i
    ensures es[i].when <= limit && !Hit(mask, es[i]) ==> Progress(q0, es, mask, limit, free0, q, free, i + 1, k + 1)
    ensures es[i].when <= limit && Hit(mask, es[i]) ==>
      Progress(q0, es, mask, limit, free0, Without(q, k), [q[k]] + free, i + 1, k)
    ensures es[i].when > limit ==> Flush(q0, es, mask, limit, free0, q, free)
  {
    hide Kept, Freed, Stacked;
    assert |q[k..]| == |q0[i..]| && q[k..][0] == q0[i..][0];
    FlushStep(q0, es, mask, limit, i, free);
    assert q[k..][1..] == q[k + 1..] && q0[i..][1..] == q0[i + 1..];
    assert q[..k + 1] == q[..k] + [q[k]] && q == q[..k] + q[k..];
    assert Without(q, k)[k..] == q[k + 1..] && Without(q, k)[..k] == q[..k];
  }

  lemma {:induction false} ProgressDone(q0: seq<int>, es: seq<Event>, mask: set<int>, limit: nat, free0: seq<int>,
      q: seq<int>, free: seq<int>, i: int)
    requires |q0| == |es| && Progress(q0, es, mask, limit, free0, q, free, i, |q|)
    ensures Flush(q0, es, mask, limit, free0, q, free)
  {
    assert q[|q|..] == [] && q0[i..] == [];
  }

  // ----- the records -----

  ghost predicate Rep(link: seq<int>, free: int, m: Model) {
    && |link| == |m.place| + 2 && Partition(m)
    && Linked(link, [FirstOf(link)] + m.q, LastOf(link))
    && Linked(link, m.free, NULL) && free == Head(m.free, NULL)
  }

  /** The record before record i of the queue; for the first, the sentinel. */
  function Before(m: Model, i: int): int
    requires 0 <= i <= |m.q|
  {
    if i == 0 then |m.place| else m.q[i - 1]
  }

  predicate SameHands(place: seq<Where>, place': seq<Where>) {
    |place'| == |place| && forall y :: 0 <= y < |place| ==> (place'[y] == Hand <==> place[y] == Hand)
  }

  lemma {:induction false} SameHandsTrans(a: seq<Where>, b: seq<Where>, c: seq<Where>)
    requires SameHands(a, b) && SameHands(b, c)
    ensures SameHands(a, c)
  {
  }

  predicate TailOk(link: seq<int>, m: Model)
    requires |link| >= 2
  {
    link[LastOf(link)] == Before(m, |m.q|)
  }

  lemma {:induction false} InQueue(link: seq<int>, free: int, m: Model, i: int)
    requires Rep(link, free, m) && 0 <= i < |m.q|
    ensures 0 <= m.q[i] < |m.place| && m.place[m.q[i]] == Queued
    ensures link[m.q[i]] == if i + 1 < |m.q| then m.q[i + 1] else LastOf(link)
  {
    At(link, [FirstOf(link)] + m.q, LastOf(link), i + 1);
    assert Here(m, m.q[i]);
    assert m.q[i] in m.q;
  }

  lemma {:induction false} HeadLink(link: seq<int>, free: int, m: Model)
    requires Rep(link, free, m)
    ensures link[FirstOf(link)] == if m.q == [] then LastOf(link) else m.q[0]
  {
    At(link, [FirstOf(link)] + m.q, LastOf(link), 0);
  }

  /** Only the tail pointer differs. */
  lemma {:induction false} TailFree(link: seq<int>, free: int, m: Model, t: int)
    requires Rep(link, free, m)
    ensures Rep(link[LastOf(link) := t], free, m)
  {
    var link' := link[LastOf(link) := t];
    Frame(link, link', [FirstOf(link)] + m.q, LastOf(link));
    Frame(link, link', m.free, NULL);
  }

  /** Record i of the queue is unlinked. */
  lemma {:induction false} Take(link: seq<int>, free: int, m: Model, i: int)
    requires Rep(link, free, m) && 0 <= i < |m.q|
    ensures 0 <= m.q[i] < |m.place|
    ensures var before := Before(m, i); 0 <= before < |link| - 1 && Rep(link[before := link[m.q[i]]], free, Taken(m, i))
  {
    var all, x := [FirstOf(link)] + m.q, m.q[i];
    InQueue(link, free, m, i);
    if i > 0 { InQueue(link, free, m, i - 1); }
    var link', m' := link[all[i] := link[x]], Taken(m, i);
    Remove(link, all, LastOf(link), i + 1);
    assert all[i + 1] == x;
    assert Without(all, i + 1) == [FirstOf(link)] + m'.q;
    assert all[i] !in m.free by { assert Here(m, all[i]); assert i > 0 ==> all[i] in m.q; }
    Frame(link, link', m.free, NULL);
    NoDupRest(FirstOf(link), m.q);
    TakePlaces(m, i);
  }

  /** Release_event: a record in hand goes on the free list. */
  lemma {:induction false} Push(link: seq<int>, free: int, m: Model, x: int)
    requires Rep(link, free, m) && 0 <= x < |m.place| && m.place[x] == Hand
    ensures Rep(link[x := free], x, m.(free := [x] + m.free, place := m.place[x := Free]))
  {
    var m' := m.(free := [x] + m.free, place := m.place[x := Free]);
    assert Here(m, x);
    Cons(link, m.free, NULL, x);
    Frame(link, link[x := free], [FirstOf(link)] + m.q, LastOf(link));
    PushPlaces(m, x);
  }

  /** Request_event while the free list is not empty. */
  lemma {:induction false} Pop(link: seq<int>, free: int, m: Model)
    requires Rep(link, free, m) && m.free != []
    ensures 0 <= free < |m.place| && free == m.free[0]
    ensures Rep(link, link[free], m.(free := m.free[1..], place := m.place[free := Hand]))
  {
    var m' := m.(free := m.free[1..], place := m.place[free := Hand]);
    Rest(link, m.free, NULL);
    PopPlaces(m);
  }

  /** A record in hand goes to the end of the queue. */
  lemma {:induction false} Enqueue(link: seq<int>, free: int, m: Model, x: int)
    requires Rep(link, free, m) && TailOk(link, m) && 0 <= x < |m.place| && m.place[x] == Hand
    ensures var t := link[LastOf(link)]; 0 <= t < |link| && t != LastOf(link) && t != x
    ensures var m' := m.(q := m.q + [x], place := m.place[x := Queued]);
      var link' := link[link[LastOf(link)] := x][x := LastOf(link)][LastOf(link) := x];
      Rep(link', free, m') && TailOk(link', m')
  {
    var all, l := [FirstOf(link)] + m.q, LastOf(link);
    var m' := m.(q := m.q + [x], place := m.place[x := Queued]);
    assert Here(m, x);
    if m.q != [] { InQueue(link, free, m, |m.q| - 1); }
    Snoc(link, all, l, x);
    assert all[|m.q|] == link[l] && all + [x] == [FirstOf(link)] + m'.q;
    var link1 := link[x := l][link[l] := x];
    assert link1 == link[link[l] := x][x := l];
    Frame(link, link1, m.free, NULL) by { assert Here(m, link[l]); assert m.q != [] ==> link[l] in m.q; }
    QueuePlaces(m, x, m'.q);
    TailFree(link1, free, m', x);
  }

  /** The record behind `before` leaves the queue; both ways the code tests for the last one agree. */
  function Unlinked(link: seq<int>, before: int, x: int): seq<int>
    requires 0 <= before < |link| - 1 && 0 <= x < |link|
  {
    var cut := link[before := link[x]];
    if link[LastOf(link)] == x then cut[LastOf(link) := before] else cut
  }

  lemma {:induction false} Unlink(link: seq<int>, free: int, m: Model, i: int)
    requires Rep(link, free, m) && TailOk(link, m) && 0 <= i < |m.q|
    ensures var before := Before(m, i);
      0 <= before < |link| - 1 && 0 <= m.q[i] < |m.place| && before != m.q[i]
    ensures link[m.q[i]] == LastOf(link) <==> link[LastOf(link)] == m.q[i]
    ensures var link' := Unlinked(link, Before(m, i), m.q[i]);
      Rep(link', free, Taken(m, i)) && TailOk(link', Taken(m, i))
  {
    var all, n := [FirstOf(link)] + m.q, |m.q|;
    InQueue(link, free, m, i);
    InQueue(link, free, m, n - 1);
    if i > 0 { InQueue(link, free, m, i - 1); }
    assert i != n - 1 ==> all[i + 1] != all[n];
    Take(link, free, m, i);
    TailFree(link[all[i] := link[m.q[i]]], free, Taken(m, i), all[i]);
    assert i < n - 1 ==> Taken(m, i).q[n - 2] == m.q[n - 1];
    assert i == n - 1 && i > 0 ==> Taken(m, i).q[n - 2] == m.q[n - 2];
  }

  // ----- stealing -----

  function Steals(link: seq<int>): seq<int>
    requires |link| >= 2 && 0 <= link[FirstOf(link)] < |link|
  {
    link[FirstOf(link) := link[link[FirstOf(link)]]]
  }

  /** Taking the oldest event without a look at the tail pointer is right exactly when another event
      is queued. */
  lemma {:induction false} StealKeepsTailIff(link: seq<int>, free: int, m: Model)
    requires Rep(link, free, m) && TailOk(link, m) && m.q != []
    ensures 0 <= m.q[0] < |m.place| && link[FirstOf(link)] == m.q[0]
    ensures Rep(Steals(link), free, Taken(m, 0))
    ensures TailOk(Steals(link), Taken(m, 0)) <==> |m.q| >= 2
  {
    HeadLink(link, free, m);
    Take(link, free, m, 0);
    InQueue(link, free, m, 0);
    InQueue(link, free, m, |m.q| - 1);
    assert |m.q| >= 2 ==> Taken(m, 0).q[|m.q| - 2] == m.q[|m.q| - 1];
  }

  /** The queue reads empty, yet its tail pointer is a record of the pool. */
  predicate Dead(link: seq<int>) {
    |link| >= 2 && link[FirstOf(link)] == LastOf(link) && 0 <= link[LastOf(link)] < |link| - 2
  }

  lemma {:induction false} DeadIsEmpty(link: seq<int>, free: int, m: Model)
    requires Rep(link, free, m) && Dead(link)
    ensures m.q == [] && !TailOk(link, m)
  {
    HeadLink(link, free, m);
    if m.q != [] { InQueue(link, free, m, 0); }
  }

  /** A queued record holds an event, and its mask is the bit of that event's code. */
  predicate Posted(event: seq<Event>, mask: seq<set<int>>, x: int) {
    0 <= x < |event| && x < |mask| && 0 < event[x].what < 32 && mask[x] == {event[x].what}
  }

  predicate AllPosted(event: seq<Event>, mask: seq<set<int>>, q: seq<int>) {
    forall x :: x in q ==> Posted(event, mask, x)
  }

  function EventsOf(event: seq<Event>, mask: seq<set<int>>, q: seq<int>): (es: seq<Event>)
    requires AllPosted(event, mask, q)
    ensures |es| == |q| && forall i :: 0 <= i < |es| ==> 0 <= q[i] < |event| && es[i] == event[q[i]]
  {
    assert forall i :: 0 <= i < |q| ==> Posted(event, mask, q[i]) by {
      forall i | 0 <= i < |q| ensures Posted(event, mask, q[i]) { PostedAt(event, mask, q, i); }
    }
    seq(|q|, i requires 0 <= i < |q| => event[q[i]])
  }

  lemma {:induction false} PostedAt(event: seq<Event>, mask: seq<set<int>>, q: seq<int>, i: int)
    requires AllPosted(event, mask, q) && 0 <= i < |q|
    ensures Posted(event, mask, q[i])
  {
    assert q[i] in q;
  }

  lemma {:induction false} PostedWithout(event: seq<Event>, mask: seq<set<int>>, q: seq<int>, i: int)
    requires AllPosted(event, mask, q) && 0 <= i < |q|
    ensures AllPosted(event, mask, Without(q, i))
  {
    var r := Without(q, i);
    forall x | x in r ensures x in q {
      var j :| 0 <= j < |r| && r[j] == x;
      assert x == q[if j < i then j else j + 1];
    }
  }

  lemma {:induction false} PostedMore(event: seq<Event>, mask: seq<set<int>>, q: seq<int>, x: int, e: Event)
    requires AllPosted(event, mask, q) && 0 <= x < |event| == |mask| && x !in q && 0 < e.what < 32
    ensures AllPosted(event[x := e], mask[x := {e.what}], q) && AllPosted(event[x := e], mask[x := {e.what}], q + [x])
  {
    var event', mask' := event[x := e], mask[x := {e.what}];
    forall y | y in q ensures Posted(event', mask', y) { assert Posted(event, mask, y); }
  }

  /** A record posted behind itself: it is in no list any more. */
  lemma {:induction false} LostInTheTail(link: seq<int>, free: int, m: Model, x: int)
    requires Rep(link, free, m) && 0 <= x < |m.place| && m.place[x] == Hand
    requires link[FirstOf(link)] == LastOf(link) && link[LastOf(link)] == x
    ensures var link' := link[x := x][x := LastOf(link)][LastOf(link) := x]; Rep(link', free, m) && Dead(link')
  {
    var link' := link[x := x][x := LastOf(link)][LastOf(link) := x];
    assert Here(m, x);
    Frame(link, link', [FirstOf(link)] + m.q, LastOf(link));
    Frame(link, link', m.free, NULL);
  }

  lemma {:induction false} FreeNull(link: seq<int>, free: int, m: Model)
    requires Rep(link, free, m)
    ensures free == NULL <==> m.free == []
  {
    if m.free != [] { Pop(link, free, m); }
  }

  // ----- requesting and posting, as one step -----

  ghost predicate Shape(link: seq<int>, free: int, event: seq<Event>, mask: seq<set<int>>, m: Model) {
    && |event| == |mask| == |link| == |m.place| + 2
    && Rep(link, free, m) && event[FirstOf(link)].what == event[LastOf(link)].what == 0
    && AllPosted(event, mask, m.q)
  }

  predicate CanRequest(m: Model, es: seq<Event>) {
    InPool(m, m.q) && InPool(m, m.free) && |es| == |m.q| && (m.free != [] || m.q != [])
  }

  /** The record a request gets. */
  function Picked(m: Model, es: seq<Event>, preferSpare: bool): int
    requires CanRequest(m, es)
  {
    if m.free != [] then m.free[0] else m.q[Victim(es, preferSpare)]
  }

  /** Everything after it. */
  function Requested(m: Model, es: seq<Event>, preferSpare: bool): Model
    requires CanRequest(m, es)
  {
    if m.free != [] then m.(free := m.free[1..], place := m.place[m.free[0] := Hand])
    else Taken(m, Victim(es, preferSpare))
  }

  /** A request need not move the tail: a record is free, or two events are queued, or the only event is
      spare and the policy looks for it. */
  predicate Roomy(m: Model, es: seq<Event>, preferSpare: bool)
    requires CanRequest(m, es)
  {
    m.free != [] || |m.q| >= 2 || (preferSpare && es[0].what == SPARE)
  }

  lemma {:induction false} NoSpareHead(es: seq<Event>, preferSpare: bool)
    requires |es| == 1
    ensures preferSpare && FirstHit(es, {SPARE}) < |es| <==> preferSpare && es[0].what == SPARE
  {
    FirstHitIsFirst(es, {SPARE});
  }

  function PostedLink(link: seq<int>, x: int): seq<int>
    requires |link| >= 2 && 0 <= link[LastOf(link)] < |link| && 0 <= x < |link|
  {
    link[link[LastOf(link)] := x][x := LastOf(link)][LastOf(link) := x]
  }

  lemma {:induction false} PostInOrder(link: seq<int>, free: int, event: seq<Event>, mask: seq<set<int>>, m: Model,
      x: int, e: Event)
    requires Shape(link, free, event, mask, m) && TailOk(link, m) && 0 <= x < |m.place| && m.place[x] == Hand
    requires 0 < e.what < 32
    ensures 0 <= link[LastOf(link)] < |link| && link[LastOf(link)] != LastOf(link) && link[LastOf(link)] != x
    ensures var m' := m.(q := m.q + [x], place := m.place[x := Queued]);
      Shape(PostedLink(link, x), free, event[x := e], mask[x := {e.what}], m') && TailOk(PostedLink(link, x), m')
  {
    hide AllPosted;
    NotQueued(m, x);
    PostedMore(event, mask, m.q, x, e);
    Enqueue(link, free, m, x);
  }

  lemma {:induction false} PostLost(link: seq<int>, free: int, event: seq<Event>, mask: seq<set<int>>, m: Model, x: int,
      e: Event)
    requires Shape(link, free, event, mask, m) && 0 <= x < |m.place| && m.place[x] == Hand && 0 < e.what < 32
    requires link[FirstOf(link)] == LastOf(link) && link[LastOf(link)] == x
    ensures Shape(PostedLink(link, x), free, event[x := e], mask[x := {e.what}], m) && Dead(PostedLink(link, x))
    ensures PostedLink(link, x)[x] == LastOf(link) && PostedLink(link, x)[LastOf(link)] == x
    ensures Posted(event[x := e], mask[x := {e.what}], x)
  {
    NotQueued(m, x);
    PostedMore(event, mask, m.q, x, e);
    LostInTheTail(link, free, m, x);
  }

  lemma {:induction false} HitIff(event: seq<Event>, mask: seq<set<int>>, x: int, wanted: set<int>)
    requires Posted(event, mask, x)
    ensures mask[x] * wanted != {} <==> Hit(wanted, event[x])
  {
    assert Hit(wanted, event[x]) ==> event[x].what in mask[x] * wanted;
  }

  lemma {:induction false} SentinelMask(event: seq<Event>, mask: seq<set<int>>, m: Model, wanted: set<int>)
    requires |event| == |mask| == |m.place| + 2 && InPool(m, m.q) && AllPosted(event, mask, m.q)
    ensures AllPosted(event, mask[|mask| - 1 := wanted], m.q)
  {
    var mask' := mask[|mask| - 1 := wanted];
    forall x | x in m.q ensures Posted(event, mask', x) {
      var i :| 0 <= i < |m.q| && m.q[i] == x;
      assert Posted(event, mask, x);
    }
  }
}
