/** What becomes of an event queue whose tail pointer has missed the queue: posted events are lost, until a
    request finds no free record and takes the end sentinel instead. */
module EventLoss {
  import opened Chain
  import opened Pool
  import opened EventSpec

  /** The memory of a queue, and what it stands for. */
  datatype State = State(link: seq<int>, event: seq<Event>, mask: seq<set<int>>, free: int, m: Model)

  ghost predicate Shaped(k: State) { Shape(k.link, k.free, k.event, k.mask, k.m) }

  function Tail(k: State): int
    requires |k.link| >= 2
  {
    k.link[LastOf(k.link)]
  }

  /** The tail pointer is a record of its own, with an event nobody sees. */
  ghost predicate Lost(k: State) {
    && Shaped(k) && Dead(k.link)
    && k.link[Tail(k)] == LastOf(k.link) && k.m.place[Tail(k)] == Hand && Posted(k.event, k.mask, Tail(k))
  }

  /** The tail pointer is a free record, as a refused post leaves it that took the only event. */
  ghost predicate Slack(k: State) { Shaped(k) && Dead(k.link) && k.m.place[Tail(k)] == Free }

  /** The end sentinel points to itself, as a refused post leaves it that took the lost record. */
  ghost predicate Turned(k: State) {
    && Shaped(k) && |k.link| >= 2 && k.link[FirstOf(k.link)] == LastOf(k.link) == Tail(k) && k.m.free != []
  }

  /** The queue reads empty, and its tail is not at the front. */
  ghost predicate Blind(k: State) { Lost(k) || Slack(k) || Turned(k) }

  /** The newer policy finds the code it looks for in the lost record. */
  predicate SpareTail(k: State, preferSpare: bool)
    requires |k.link| >= 2
  {
    preferSpare && 0 <= Tail(k) < |k.event| && k.event[Tail(k)].what == SPARE
  }

  datatype Op =
    | Posting(e: Event)
    | Refused                     // a post whose copy from the caller fails
    | Releasing(x: int)
    | Searching(wanted: set<int>)

  ghost predicate Enabled(k: State, op: Op)
    requires Blind(k)
  {
    match op
    case Posting(e) => 0 < e.what < 32
    case Releasing(x) => 0 <= x < |k.m.place| && k.m.place[x] == Hand && x != Tail(k)
    case _ => true
  }

  function Filled(k: State, link: seq<int>, x: int, e: Event): State
    requires |link| >= 2 && 0 <= link[LastOf(link)] < |link| && 0 <= x < |link| && |k.event| == |k.mask| == |link|
  {
    k.(link := PostedLink(link, x), event := k.event[x := e], mask := k.mask[x := {e.what}])
  }

  /** A post that finds the pool dry and the queue empty. The request takes the lost record, if it is looked
      for and found, and otherwise the end sentinel, before which the lost record then stands. */
  function DryPost(k: State, e: Event, preferSpare: bool): State
    requires Dead(k.link) && |k.event| == |k.mask| == |k.link| == |k.m.place| + 2
  {
    var last := LastOf(k.link);
    if SpareTail(k, preferSpare) then Filled(k, k.link[last := last], Tail(k), e)
    else Filled(k.(m := k.m.(q := [Tail(k)], place := k.m.place[Tail(k) := Queued])), Steals(k.link), last, e)
  }

  function DryRefusal(k: State, preferSpare: bool): State
    requires Dead(k.link) && |k.link| == |k.m.place| + 2
  {
    var last := LastOf(k.link);
    if SpareTail(k, preferSpare)
    then k.(link := k.link[last := last][Tail(k) := k.free], free := Tail(k),
            m := k.m.(free := [Tail(k)] + k.m.free, place := k.m.place[Tail(k) := Free]))
    else k.(link := Steals(k.link)[last := k.free], free := last)
  }

  ghost function Step(k: State, op: Op, preferSpare: bool): State
    requires Blind(k) && Enabled(k, op)
  {
    BlindBounds(k);
    match op
    case Posting(e) => if k.m.free != [] then Filled(Popped(k), k.link, k.free, e) else DryPost(k, e, preferSpare)
    case Refused => if k.m.free != [] then k else DryRefusal(k, preferSpare)
    case Releasing(x) =>
      k.(link := k.link[x := k.free], free := x, m := k.m.(free := [x] + k.m.free, place := k.m.place[x := Free]))
    case Searching(wanted) => if wanted == {} then k else k.(mask := k.mask[LastOf(k.link) := wanted])
  }

  /** The first free record is in hand. */
  function Popped(k: State): State
    requires 0 <= k.free < |k.link| && k.free < |k.m.place| && k.m.free != []
  {
    k.(free := k.link[k.free], m := k.m.(free := k.m.free[1..], place := k.m.place[k.free := Hand]))
  }

  lemma {:induction false} BlindBounds(k: State)
    requires Blind(k)
    ensures k.m.q == [] && |k.event| == |k.mask| == |k.link| == |k.m.place| + 2
    ensures k.link[FirstOf(k.link)] == LastOf(k.link) && 0 <= Tail(k) < |k.link| && Tail(k) != FirstOf(k.link)
    ensures k.free == NULL <==> k.m.free == []
    ensures !Lost(k) ==> k.m.free != []
    ensures Tail(k) in k.m.free <==> Slack(k)
    ensures k.m.free == [] ==> Dead(k.link)
    ensures k.m.free != [] ==> k.free == k.m.free[0] && 0 <= k.free < |k.m.place| && k.m.place[k.free] == Free
  {
    HeadLink(k.link, k.free, k.m);
    if k.m.q != [] { InQueue(k.link, k.free, k.m, 0); }
    FreeNull(k.link, k.free, k.m);
    assert Here(k.m, Tail(k));
    if Tail(k) in k.m.free { Inside(k.m, k.m.free, Tail(k)); }
    if k.m.free != [] {
      Pop(k.link, k.free, k.m);
      assert Here(k.m, k.m.free[0]);
    }
  }

  /** What keeps posted events unseen. A post has to find a free record, and if the tail is on the free list
      just that one; or it finds the code it looks for in the lost record. So does a refused post. */
  predicate Keeps(k: State, op: Op, preferSpare: bool)
    requires |k.link| >= 2
  {
    match op
    case Posting(_) => if k.m.free == [] then SpareTail(k, preferSpare) else k.free == Tail(k) || Tail(k) !in k.m.free
    case Refused => k.m.free != [] || SpareTail(k, preferSpare)
    case _ => true
  }

  /** Lost events stay lost, and the next ones are lost with them, exactly as long as that is so. */
  lemma {:induction false} StepKeepsIff(k: State, op: Op, preferSpare: bool)
    requires Blind(k) && Enabled(k, op)
    ensures Blind(Step(k, op, preferSpare)) <==> Keeps(k, op, preferSpare)
  {
    BlindBounds(k);
    match op
    case Posting(e) => PostStays(k, e, preferSpare);
    case Refused => if k.m.free == [] { RefusalStays(k, preferSpare); }
    case Releasing(x) => ReleaseStays(k, x, preferSpare);
    case Searching(wanted) => SentinelMask(k.event, k.mask, k.m, wanted);
  }

  lemma {:induction false} PostStays(k: State, e: Event, preferSpare: bool)
    requires Blind(k) && 0 < e.what < 32
    ensures Keeps(k, Posting(e), preferSpare) ==> Lost(Step(k, Posting(e), preferSpare))
    ensures !Keeps(k, Posting(e), preferSpare) ==> !Blind(Step(k, Posting(e), preferSpare))
  {
    BlindBounds(k);
    if k.m.free == [] {
      if SpareTail(k, preferSpare) {
        SpareKeeps(k, e, preferSpare);
      } else {
        assert !Dead(Step(k, Posting(e), preferSpare).link);
      }
    } else if Keeps(k, Posting(e), preferSpare) {
      PostKeeps(k, e, preferSpare);
    } else {
      RingCloses(k, e, preferSpare);
    }
  }

  /** A post that finds a free record loses its event, and no more, if the tail is that record or not free. */
  lemma {:induction false} PostKeeps(k: State, e: Event, preferSpare: bool)
    requires Blind(k) && 0 < e.what < 32 && k.m.free != [] && (k.free == Tail(k) || Tail(k) !in k.m.free)
    ensures Lost(Step(k, Posting(e), preferSpare))
  {
    BlindBounds(k);
    Pop(k.link, k.free, k.m);
    Rest(k.link, k.m.free, NULL);
    var x, t, m' := k.free, Tail(k), Popped(k).m;
    var link' := PostedLink(k.link, x);
    NotQueued(m', x);
    Frame(k.link, link', [FirstOf(k.link)] + m'.q, LastOf(k.link));
    Frame(k.link, link', m'.free, NULL);
    PostedMore(k.event, k.mask, k.m.q, x, e);
  }

  lemma {:induction false} SpareKeeps(k: State, e: Event, preferSpare: bool)
    requires Lost(k) && 0 < e.what < 32 && k.m.free == [] && SpareTail(k, preferSpare)
    ensures Lost(Step(k, Posting(e), preferSpare))
  {
    BlindBounds(k);
    var t, last := Tail(k), LastOf(k.link);
    var link' := PostedLink(k.link[last := last], t);
    NotQueued(k.m, t);
    Frame(k.link, link', [FirstOf(k.link)] + k.m.q, last);
    Frame(k.link, link', k.m.free, NULL);
    PostedMore(k.event, k.mask, k.m.q, t, e);
  }

  /** A refused post that finds the pool dry takes the lost record and turns the end sentinel on itself, or
      takes the sentinel. */
  lemma {:induction false} RefusalStays(k: State, preferSpare: bool)
    requires Lost(k) && k.m.free == []
    ensures var r := Step(k, Refused, preferSpare);
      if SpareTail(k, preferSpare) then Turned(r) else !Blind(r)
  {
    BlindBounds(k);
    if SpareTail(k, preferSpare) {
      var last := LastOf(k.link);
      TailFree(k.link, k.free, k.m, last);
      Push(k.link[last := last], k.free, k.m, Tail(k));
    } else {
      assert Step(k, Refused, preferSpare).link[FirstOf(k.link)] == Tail(k);
    }
  }

  lemma {:induction false} ReleaseStays(k: State, x: int, preferSpare: bool)
    requires Blind(k) && Enabled(k, Releasing(x))
    ensures Blind(Step(k, Releasing(x), preferSpare))
  {
    BlindBounds(k);
    Push(k.link, k.free, k.m, x);
  }

  ghost predicate Reaches(k: State, ops: seq<Op>, preferSpare: bool, e: State)
    decreases |ops|
  {
    if ops == [] then e == k
    else
      && Blind(k) && Enabled(k, ops[0]) && Keeps(k, ops[0], preferSpare)
      && Reaches(Step(k, ops[0], preferSpare), ops[1..], preferSpare, e)
  }

  /** In every run of that kind nothing that was posted is ever seen. */
  lemma {:induction false} EveryRun(k: State, ops: seq<Op>, preferSpare: bool, e: State)
    requires Blind(k) && Reaches(k, ops, preferSpare, e)
    ensures Blind(e) && e.m.q == []
    decreases |ops|
  {
    BlindBounds(k);
    if ops != [] {
      StepKeepsIff(k, ops[0], preferSpare);
      EveryRun(Step(k, ops[0], preferSpare), ops[1..], preferSpare, e);
    }
  }

  // ----- when the free list stops ending -----

  /** n pointers on from record at. */
  function Follow(link: seq<int>, at: int, n: nat): int
    decreases n
  {
    if n == 0 || !(0 <= at < |link|) then at else Follow(link, link[at], n - 1)
  }

  /** Requests one after the other find the pool dry at last. */
  ghost predicate FreeListEnds(k: State) { exists n: nat :: Follow(k.link, k.free, n) == NULL }

  lemma {:induction false} FollowChain(link: seq<int>, q: seq<int>, end: int, i: nat)
    requires Linked(link, q, end) && i <= |q|
    ensures Follow(link, Head(q, end), i) == if i < |q| then q[i] else end
    decreases i
  {
    if i > 0 {
      Rest(link, q, end);
      FollowChain(link, q[1..], end, i - 1);
    }
  }

  lemma {:induction false} OrderedEnds(k: State)
    requires Shaped(k)
    ensures FreeListEnds(k)
  {
    FollowChain(k.link, k.m.free, NULL, |k.m.free|);
  }

  /** The free list leads to the record x just posted, and from there round and round between x and the end
      sentinel. */
  ghost predicate Ring(k: State, x: int) {
    && |k.link| >= 2 && 0 <= x < LastOf(k.link) && k.link[x] == LastOf(k.link) && k.link[LastOf(k.link)] == x
    && exists n: nat :: Follow(k.link, k.free, n) == x
  }

  /** A post while a record lies on the free list above the tail writes the tail's pointer there. */
  lemma {:induction false} RingCloses(k: State, e: Event, preferSpare: bool)
    requires Slack(k) && 0 < e.what < 32 && k.free != Tail(k)
    ensures var r := Step(k, Posting(e), preferSpare);
      && Ring(r, k.free) && !FreeListEnds(r) && !Blind(r)
      && r.link[FirstOf(r.link)] == LastOf(r.link) && r.event[k.free] == e
  {
    BlindBounds(k);
    var r, x, t, free := Step(k, Posting(e), preferSpare), k.free, Tail(k), k.m.free;
    var j :| 0 <= j < |free| && free[j] == t;
    assert j > 0;
    var upTo := free[1..j + 1];
    forall i | 0 <= i < |upTo| ensures LinkOk(r.link, upTo, x, i) { At(k.link, free, NULL, i + 1); }
    At(k.link, free, NULL, 0);
    FollowChain(r.link, upTo, x, |upTo|);
    assert Follow(r.link, r.free, j) == x;
    RingHasNoEnd(r, x, j);
    if Blind(r) { OrderedEnds(r); }
  }

  lemma {:induction false} RingHasNoEnd(k: State, x: int, j: nat)
    requires Ring(k, x) && Follow(k.link, k.free, j) == x
    ensures !FreeListEnds(k)
  {
    if FreeListEnds(k) {
      var n: nat :| Follow(k.link, k.free, n) == NULL;
      if n <= j {
        FollowOn(k.link, k.free, n, j);
      } else {
        FollowOn(k.link, k.free, j, n);
        RoundAndRound(k.link, x, n - j);
      }
    }
  }

  lemma {:induction false} FollowOn(link: seq<int>, at: int, i: nat, n: nat)
    requires i <= n
    ensures Follow(link, at, n) == Follow(link, Follow(link, at, i), n - i)
    decreases i
  {
    if i > 0 && 0 <= at < |link| { FollowOn(link, link[at], i - 1, n - 1); }
  }

  lemma {:induction false} RoundAndRound(link: seq<int>, x: int, n: nat)
    requires |link| >= 2 && 0 <= x < LastOf(link) && link[x] == LastOf(link) && link[LastOf(link)] == x
    ensures Follow(link, x, n) in {x, LastOf(link)} && Follow(link, LastOf(link), n) in {x, LastOf(link)}
    decreases n
  {
    if n > 0 { RoundAndRound(link, x, n - 1); }
  }

  /** So with the tail on the free list the next post loses its event and no more exactly when the tail is
      the first free record; otherwise the free list has no end from then on. */
  lemma {:induction false} SlackPostIff(k: State, e: Event, preferSpare: bool)
    requires Slack(k) && 0 < e.what < 32
    ensures Lost(Step(k, Posting(e), preferSpare)) <==> k.free == Tail(k)
    ensures FreeListEnds(Step(k, Posting(e), preferSpare)) <==> k.free == Tail(k)
  {
    if k.free == Tail(k) {
      BlindBounds(k);
      PostKeeps(k, e, preferSpare);
      OrderedEnds(Step(k, Posting(e), preferSpare));
    } else {
      RingCloses(k, e, preferSpare);
    }
  }

  // ----- when the pool is dry -----

  /** The post that ends this: the event lost last is queued again, alone, and the new event is written over
      the end sentinel, which then points to itself. */
  lemma {:induction false} DryPostSurfaces(k: State, e: Event, preferSpare: bool)
    requires Lost(k) && 0 < e.what < 32 && k.m.free == [] && !SpareTail(k, preferSpare)
    ensures var r := Step(k, Posting(e), preferSpare);
      && r.m.q == [Tail(k)] && Rep(r.link, r.free, r.m) && AllPosted(r.event, r.mask, r.m.q)
      && r.event[Tail(k)] == k.event[Tail(k)] && r.event[LastOf(r.link)] == e
      && r.link[LastOf(r.link)] == LastOf(r.link)
  {
    BlindBounds(k);
    var r, t, last, first := Step(k, Posting(e), preferSpare), Tail(k), LastOf(k.link), FirstOf(k.link);
    assert r.link[first] == t && r.link[t] == last && r.link[last] == last;
    NotQueued(k.m, t);
    QueuePlaces(k.m, t, [t]);
    assert LinkOk(r.link, [first] + [t], last, 0) && LinkOk(r.link, [first] + [t], last, 1);
    Frame(k.link, r.link, k.m.free, NULL);
  }

  /** The search of ReceiveEvent for a mask, from a record on, over at most n records. */
  function Seek(link: seq<int>, mask: seq<set<int>>, wanted: set<int>, at: int, n: nat): int
    requires |mask| == |link|
    decreases n
  {
    if n == 0 || !(0 <= at < |link|) || mask[at] * wanted != {} then at else Seek(link, mask, wanted, link[at], n - 1)
  }

  /** From then on a search that selects nothing ends at a sentinel that passes for an event: the event
      written over it is delivered whatever the mask. */
  lemma {:induction false} SentinelAnswers(k: State, e: Event, preferSpare: bool, wanted: set<int>)
    requires Lost(k) && 0 < e.what < 32 && k.m.free == [] && !SpareTail(k, preferSpare) && wanted != {}
    ensures var r := Step(k, Posting(e), preferSpare); var last := LastOf(r.link);
      && |r.mask| == |r.link| && r.event[last].what != 0
      && Seek(r.link, r.mask[last := wanted], wanted, r.link[FirstOf(r.link)], 2) ==
           if k.event[Tail(k)].what in wanted then Tail(k) else last
  {
    DryPostSurfaces(k, e, preferSpare);
    BlindBounds(k);
    var r, t := Step(k, Posting(e), preferSpare), Tail(k);
    var last := LastOf(r.link);
    var mask' := r.mask[last := wanted];
    assert mask'[last] * wanted == wanted;
    HitIff(k.event, k.mask, t, wanted);
    assert Seek(r.link, mask', wanted, last, 1) == last;
    assert r.link[FirstOf(r.link)] == t && r.link[t] == last && mask'[t] == k.mask[t];
  }

  /** A refused post takes the sentinel instead, and frees it: the event lost last is queued again, and the
      next post finds its tail pointer null. */
  lemma {:induction false} DryRefusalSurfaces(k: State, preferSpare: bool)
    requires Lost(k) && k.m.free == [] && !SpareTail(k, preferSpare)
    ensures var r := Step(k, Refused, preferSpare); var last := LastOf(r.link);
      && r.link[FirstOf(r.link)] == Tail(k) && r.link[Tail(k)] == last && r.event == k.event && r.mask == k.mask
      && r.free == last && r.link[last] == NULL
  {
    BlindBounds(k);
  }

  // ----- an empty queue that is in order -----

  /** Empty, with its tail at the front sentinel. */
  ghost predicate Bare(k: State) {
    && |k.link| >= 2 && k.link[FirstOf(k.link)] == LastOf(k.link) && k.link[LastOf(k.link)] == FirstOf(k.link)
    && |k.event| == |k.mask| == |k.link|
  }

  /** A post that finds the pool dry and the queue empty, though its tail is right: every record is in some
      caller's hand. The event is written over the end sentinel. */
  ghost function BarePost(k: State, e: Event): State
    requires Bare(k)
  {
    Filled(k, Steals(k.link), LastOf(k.link), e)
  }

  /** The queue still reads empty, but its sentinel points to itself and passes for an event. */
  lemma {:induction false} BarePostHides(k: State, e: Event)
    requires Shaped(k) && TailOk(k.link, k.m) && k.m.q == [] && 0 < e.what < 32
    requires Bare(k)
    ensures var r := BarePost(k, e); var last := LastOf(r.link);
      && Rep(r.link, r.free, r.m) && r.m.q == []
      && r.link[FirstOf(r.link)] == last == r.link[last] && r.event[last] == e && !Shaped(r)
  {
    var r := BarePost(k, e);
    var first, last := FirstOf(k.link), LastOf(k.link);
    assert LinkOk(r.link, [first] + k.m.q, last, 0);
    Frame(k.link, r.link, k.m.free, NULL);
  }

  /** A refused post there leaves the front sentinel pointing to itself, the end sentinel free, and the tail
      pointer null. */
  ghost function BareRefusal(k: State): State
    requires |k.link| >= 2 && k.link[FirstOf(k.link)] == LastOf(k.link)
  {
    k.(link := Steals(k.link)[LastOf(k.link) := k.free], free := LastOf(k.link))
  }

  /** From then on no search ends that selects anything: it never leaves the front sentinel, whose mask is
      empty. */
  lemma {:induction false} BareRefusalNeverEnds(k: State, wanted: set<int>, n: nat)
    requires Bare(k) && k.free == NULL && k.mask[FirstOf(k.link)] == {}
    ensures var r := BareRefusal(k); var first, last := FirstOf(r.link), LastOf(r.link);
      && r.link[first] == first && r.free == last && r.link[last] == NULL
      && Seek(r.link, r.mask[last := wanted], wanted, first, n) == first && r.mask[first] * wanted == {}
    decreases n
  {
    if n > 0 { BareRefusalNeverEnds(k, wanted, n - 1); }
  }

  // ----- a request and what follows it, in any of these states -----

  ghost predicate InOrder(k: State) { Shaped(k) && TailOk(k.link, k.m) }

  /** What a request takes that finds nothing, and the pointers after it. */
  ghost predicate DryTaken(k: State, preferSpare: bool, x: int, link': seq<int>) {
    |k.link| >= 2 && 0 <= k.link[FirstOf(k.link)] < |k.link| &&
    var last := LastOf(k.link);
    if SpareTail(k, preferSpare) then x == Tail(k) && link' == k.link[last := last]
    else x == last && link' == Steals(k.link)
  }

  /** The request took x and left r. es are the events queued before. */
  ghost predicate Granted(k: State, es: seq<Event>, preferSpare: bool, x: int, r: State) {
    && |r.link| == |k.link| && r.event == k.event && r.mask == k.mask && 0 <= x < |k.link|
    && if CanRequest(k.m, es) then
         && Shaped(r) && 0 <= x < |r.m.place| && r.m.place[x] == Hand
         && x == Picked(k.m, es, preferSpare) && r.m == Requested(k.m, es, preferSpare)
         && (InOrder(k) ==> (TailOk(r.link, r.m) <==> Roomy(k.m, es, preferSpare)))
         && (InOrder(k) && !TailOk(r.link, r.m) ==>
               r.link[FirstOf(r.link)] == LastOf(r.link) && r.link[LastOf(r.link)] == x)
         && (k.m.free != [] ==> r.link == k.link && k.free == x && r.free == k.link[x])
       else
         r.m == k.m && r.free == k.free && DryTaken(k, preferSpare, x, r.link)
  }

  /** The post of e from k ended in r. */
  ghost predicate PostedTo(k: State, es: seq<Event>, e: Event, copied: bool, preferSpare: bool, r: State) {
    && (Blind(k) ==> 0 < e.what < 32 && r == Step(k, if copied then Posting(e) else Refused, preferSpare))
    && (InOrder(k) && !CanRequest(k.m, es) ==> Bare(k))
    && (InOrder(k) && !CanRequest(k.m, es) && copied ==> r == BarePost(k, e))
    && (InOrder(k) && !CanRequest(k.m, es) && !copied ==> r == BareRefusal(k))
    && (InOrder(k) && CanRequest(k.m, es) ==> PostedInOrder(k, es, e, copied, preferSpare, r))
  }

  /** From a queue in order, with a record or an event to take: the queue stays in order exactly when the
      request had room, and a copied event is then at its end; otherwise the event is lost, or, when the copy
      failed, the tail is on the free list. */
  ghost predicate PostedInOrder(k: State, es: seq<Event>, e: Event, copied: bool, preferSpare: bool, r: State)
    requires CanRequest(k.m, es)
  {
    var x, m := Picked(k.m, es, preferSpare), Requested(k.m, es, preferSpare);
    && 0 <= x < |m.place| && x < |k.event| && Shaped(r) && |r.link| == |k.link|
    && (InOrder(r) <==> Roomy(k.m, es, preferSpare))
    && (!copied ==> r.event == k.event && r.m == m.(free := [x] + m.free, place := m.place[x := Free]))
    && (!copied && !InOrder(r) ==> Slack(r) && Tail(r) == x && r.m.free == [x])
    && (copied ==> r.event == k.event[x := e])
    && (copied && InOrder(r) ==> r.m == m.(q := m.q + [x], place := m.place[x := Queued]))
    && (copied && !InOrder(r) ==> r.m == m && Lost(r) && Tail(r) == x)
  }

  /** The model after a post: t is the state after the request. */
  ghost function AfterPost(k: State, es: seq<Event>, e: Event, copied: bool, preferSpare: bool, x: int, t: State): Model
    requires Granted(k, es, preferSpare, x, t) && (InOrder(k) || Blind(k))
  {
    if CanRequest(k.m, es) then
      if Blind(k) then if copied then t.m else k.m
      else if !copied then t.m.(free := [x] + t.m.free, place := t.m.place[x := Free])
      else if TailOk(t.link, t.m) then t.m.(q := t.m.q + [x], place := t.m.place[x := Queued])
      else t.m
    else if Blind(k) && k.m.free == [] then
      BlindBounds(k);
      if copied then DryPost(k, e, preferSpare).m else DryRefusal(k, preferSpare).m
    else t.m
  }

  lemma {:induction false} Apart(k: State)
    requires Shaped(k)
    ensures InOrder(k) ==> !Blind(k)
    ensures InOrder(k) && k.m.q == [] ==> Bare(k)
    ensures CanRequest(k.m, EventsOf(k.event, k.mask, k.m.q)) <==> k.m.free != [] || k.m.q != []
  {
    if Blind(k) { BlindBounds(k); }
    HeadLink(k.link, k.free, k.m);
  }

  lemma {:induction false} CopyDone(k: State, es: seq<Event>, e: Event, preferSpare: bool, x: int, t: State)
    requires (InOrder(k) || Blind(k)) && 0 < e.what < 32 && es == EventsOf(k.event, k.mask, k.m.q)
    requires Granted(k, es, preferSpare, x, t)
    ensures |t.event| == |t.mask| == |t.link| >= 2 && 0 <= t.link[LastOf(t.link)] < |t.link|
    ensures var m := AfterPost(k, es, e, true, preferSpare, x, t);
      PostedTo(k, es, e, true, preferSpare, Filled(t.(m := m), t.link, x, e))
  {
    Apart(k);
    if Blind(k) {
      BlindCopyDone(k, es, e, preferSpare, x, t);
    } else if CanRequest(k.m, es) {
      OrderedCopyDone(k, es, e, preferSpare, x, t);
    }
    hide Blind, InOrder, PostedInOrder, Step, CanRequest;
  }

  lemma {:induction false} OrderedCopyDone(k: State, es: seq<Event>, e: Event, preferSpare: bool, x: int, t: State)
    requires InOrder(k) && 0 < e.what < 32 && CanRequest(k.m, es) && Granted(k, es, preferSpare, x, t)
    ensures |t.event| == |t.mask| == |t.link| >= 2 && 0 <= t.link[LastOf(t.link)] < |t.link|
    ensures var m := if TailOk(t.link, t.m) then t.m.(q := t.m.q + [x], place := t.m.place[x := Queued]) else t.m;
      PostedInOrder(k, es, e, true, preferSpare, Filled(t.(m := m), t.link, x, e))
  {
    hide Picked, Requested, Roomy, CanRequest, PostedLink;
    if TailOk(t.link, t.m) {
      PostInOrder(t.link, t.free, t.event, t.mask, t.m, x, e);
    } else {
      PostLost(t.link, t.free, t.event, t.mask, t.m, x, e);
      DeadIsEmpty(PostedLink(t.link, x), t.free, t.m);
    }
    hide Rep, AllPosted;
  }

  lemma {:induction false} BlindCopyDone(k: State, es: seq<Event>, e: Event, preferSpare: bool, x: int, t: State)
    requires Blind(k) && 0 < e.what < 32 && es == EventsOf(k.event, k.mask, k.m.q)
    requires Granted(k, es, preferSpare, x, t)
    ensures |t.event| == |t.mask| == |t.link| >= 2 && 0 <= t.link[LastOf(t.link)] < |t.link|
    ensures Filled(t.(m := AfterPost(k, es, e, true, preferSpare, x, t)), t.link, x, e) ==
      Step(k, Posting(e), preferSpare)
  {
    Apart(k);
    BlindBounds(k);
    hide Blind, Slack, Turned, Lost, Shaped, InOrder;
  }

  lemma {:induction false} RefusalDone(k: State, es: seq<Event>, e: Event, preferSpare: bool, x: int, t: State)
    requires (InOrder(k) || Blind(k)) && 0 < e.what < 32 && es == EventsOf(k.event, k.mask, k.m.q)
    requires Granted(k, es, preferSpare, x, t)
    ensures PostedTo(k, es, e, false, preferSpare,
                     t.(link := t.link[x := t.free], free := x, m := AfterPost(k, es, e, false, preferSpare, x, t)))
  {
    Apart(k);
    if Blind(k) {
      BlindRefusalDone(k, es, e, preferSpare, x, t);
    } else if CanRequest(k.m, es) {
      OrderedRefusalDone(k, es, e, preferSpare, x, t);
    }
    hide Blind, InOrder, PostedInOrder, Step, CanRequest;
  }

  lemma {:induction false} OrderedRefusalDone(k: State, es: seq<Event>, e: Event, preferSpare: bool, x: int, t: State)
    requires InOrder(k) && CanRequest(k.m, es) && Granted(k, es, preferSpare, x, t)
    ensures PostedInOrder(k, es, e, false, preferSpare,
      t.(link := t.link[x := t.free], free := x, m := t.m.(free := [x] + t.m.free, place := t.m.place[x := Free])))
  {
    hide Picked, Roomy, Posted;
    Push(t.link, t.free, t.m, x);
    hide Rep, AllPosted;
  }

  lemma {:induction false} BlindRefusalDone(k: State, es: seq<Event>, e: Event, preferSpare: bool, x: int, t: State)
    requires Blind(k) && es == EventsOf(k.event, k.mask, k.m.q) && Granted(k, es, preferSpare, x, t)
    ensures t.(link := t.link[x := t.free], free := x, m := AfterPost(k, es, e, false, preferSpare, x, t)) ==
      Step(k, Refused, preferSpare)
  {
    Apart(k);
    BlindBounds(k);
    hide Blind, Slack, Turned, Lost, Shaped, InOrder;
    if k.m.free != [] { assert t.link[x := t.free] == k.link; }
  }
}
