/** kmpp.c: the server's message port, and the pool its messages come from. A message is an index;
    the port ends in ENDLINK, the free list in NULL. */
module MessagePort {
  import opened Chain
  import opened Pool

  const NULL := -1
  const ENDLINK := -2

  datatype Flag = REPLIED | TIME_OUT | NORELEASE | IN_QUEUE | LONG_ERROR

  ghost predicate Rep(link: seq<int>, first: int, last: int, free: int, m: Model) {
    && |link| == |m.place| && Partition(m)
    && Linked(link, m.q, ENDLINK) && first == Head(m.q, ENDLINK) && (m.q != [] ==> last == m.q[|m.q| - 1])
    && Linked(link, m.free, NULL) && free == Head(m.free, NULL)
  }

  predicate Marked(flag: seq<set<Flag>>, m: Model, x: int) {
    0 <= x < |flag| && x < |m.place| ==> (IN_QUEUE in flag[x] <==> m.place[x] == Queued)
  }

  /** IN_QUEUE is set in exactly the messages on the port. */
  ghost predicate FlagsTell(flag: seq<set<Flag>>, m: Model) { |flag| == |m.place| && forall x :: Marked(flag, m, x) }

  ghost predicate Shape(link: seq<int>, flag: seq<set<Flag>>, first: int, last: int, free: int, m: Model) {
    Rep(link, first, last, free, m) && FlagsTell(flag, m)
  }

  lemma {:induction false} Ends(link: seq<int>, first: int, last: int, free: int, m: Model)
    requires Rep(link, first, last, free, m)
    ensures first == ENDLINK <==> m.q == []
    ensures free == NULL <==> m.free == []
    ensures m.q != [] ==> first == m.q[0] && last == m.q[|m.q| - 1] && 0 <= first < |link| && 0 <= last < |link|
    ensures m.q != [] ==> m.place[first] == Queued && m.place[last] == Queued
    ensures m.free != [] ==> 0 <= free < |link| && free == m.free[0] && m.place[free] == Free
  {
    if m.q != [] { assert Here(m, m.q[0]) && Here(m, m.q[|m.q| - 1]); }
    if m.free != [] { assert Here(m, m.free[0]); }
  }

  function Received(m: Model): Model
    requires m.q != [] && 0 <= m.q[0] < |m.place|
  {
    m.(q := m.q[1..], place := m.place[m.q[0] := Hand])
  }

  function Got(m: Model): Model
    requires m.free != [] && 0 <= m.free[0] < |m.place|
  {
    m.(free := m.free[1..], place := m.place[m.free[0] := Hand])
  }

  function Released(m: Model, x: int): Model
    requires 0 <= x < |m.place|
  {
    m.(free := [x] + m.free, place := m.place[x := Free])
  }

  function Posted(m: Model, x: int): Model
    requires 0 <= x < |m.place|
  {
    m.(q := m.q + [x], place := m.place[x := Queued])
  }

  function Pushed(m: Model, x: int): Model
    requires 0 <= x < |m.place|
  {
    m.(q := [x] + m.q, place := m.place[x := Queued])
  }

  lemma {:induction false} Flags(flag: seq<set<Flag>>, flag': seq<set<Flag>>, m: Model, m': Model, x: int)
    requires FlagsTell(flag, m) && |flag'| == |flag| && |m'.place| == |m.place| && 0 <= x < |flag|
    requires forall y :: 0 <= y < |flag| && y != x ==> flag'[y] == flag[y] && m'.place[y] == m.place[y]
    requires IN_QUEUE in flag'[x] <==> m'.place[x] == Queued
    ensures FlagsTell(flag', m')
  {
    forall y ensures Marked(flag', m', y) { assert Marked(flag, m, y); }
  }

  lemma {:induction false} ReceiveRep(link: seq<int>, first: int, last: int, free: int, m: Model)
    requires Rep(link, first, last, free, m) && m.q != []
    ensures 0 <= first < |m.place| && first == m.q[0]
    ensures Rep(link[first := NULL], link[first], last, free, Received(m))
  {
    Ends(link, first, last, free, m);
    var x, link' := m.q[0], link[first := NULL];
    Rest(link, m.q, ENDLINK);
    Frame(link, link', m.q[1..], ENDLINK);
    assert Here(m, x);
    Frame(link, link', m.free, NULL);
    TakePlaces(m, 0);
    assert Without(m.q, 0) == m.q[1..];
  }

  lemma {:induction false} GetRep(link: seq<int>, first: int, last: int, free: int, m: Model)
    requires Rep(link, first, last, free, m) && m.free != []
    ensures 0 <= free < |m.place| && free == m.free[0]
    ensures Rep(link, first, last, link[free], Got(m))
  {
    Rest(link, m.free, NULL);
    PopPlaces(m);
  }

  lemma {:induction false} ReleaseRep(link: seq<int>, first: int, last: int, free: int, m: Model, x: int)
    requires Rep(link, first, last, free, m) && 0 <= x < |m.place| && m.place[x] == Hand
    ensures Rep(link[x := free], first, last, x, Released(m, x))
  {
    NotQueued(m, x);
    Cons(link, m.free, NULL, x);
    Frame(link, link[x := free], m.q, ENDLINK);
    PushPlaces(m, x);
  }

  lemma {:induction false} PostRep(link: seq<int>, first: int, last: int, free: int, m: Model, x: int)
    requires Rep(link, first, last, free, m) && 0 <= x < |m.place| && m.place[x] == Hand
    ensures m.q == [] ==> Rep(link[x := ENDLINK], x, x, free, Posted(m, x))
    ensures m.q != [] ==>
      0 <= last < |link| && last != x && Rep(link[x := ENDLINK][last := x], first, x, free, Posted(m, x))
  {
    NotQueued(m, x);
    QueuePlaces(m, x, m.q + [x]);
    if m.q == [] {
      Cons(link, m.q, ENDLINK, x);
      assert [x] + m.q == m.q + [x];
      Frame(link, link[x := ENDLINK], m.free, NULL);
    } else {
      Ends(link, first, last, free, m);
      assert Here(m, last);
      Snoc(link, m.q, ENDLINK, x);
      Frame(link, link[x := ENDLINK][last := x], m.free, NULL);
    }
  }

  lemma {:induction false} PushRep(link: seq<int>, first: int, last: int, free: int, m: Model, x: int)
    requires Rep(link, first, last, free, m) && 0 <= x < |m.place| && m.place[x] == Hand
    ensures Rep(link[x := first], x, if m.q == [] then x else last, free, Pushed(m, x))
  {
    NotQueued(m, x);
    QueuePlaces(m, x, [x] + m.q);
    Cons(link, m.q, ENDLINK, x);
    Frame(link, link[x := first], m.free, NULL);
  }
}
