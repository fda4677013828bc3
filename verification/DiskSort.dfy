/** dsort.c: where a new disk request goes in the queue of a drive. */
module DiskSort {
  import opened Chain

  const NULL := -1
  const PATIENCE := 30

  datatype Buf = Buf(fs: int, blkno: int, resid: int, start: int)

  /** The offsets of the file systems on the drive, if the caller gives them. */
  datatype Sizes = NoSizes | Offsets(of: map<int, int>)

  predicate Covers(z: Sizes, b: Buf) { z.Offsets? ==> b.fs in z.of }

  /** realblk */
  function Block(z: Sizes, b: Buf): int
    requires Covers(z, b)
  {
    if z.NoSizes? then b.resid else z.of[b.fs] + b.blkno
  }

  /** The block on the drive: where the file system starts and the block within it, or b_resid without sizes. */
  lemma {:induction false} BlockTells(z: Sizes, b: Buf)
    requires Covers(z, b)
    ensures z.NoSizes? ==> Block(z, b) == b.resid
    ensures z.Offsets? ==> Block(z, b) - b.blkno == z.of[b.fs]
  {
  }

  // ----- where newsort puts a block -----

  /** The first index after i that starts a new ascending run. */
  function RunEnd(bs: seq<int>, i: nat): (e: nat)
    requires i < |bs|
    ensures i < e <= |bs|
    decreases |bs| - i
  {
    if i + 1 == |bs| || bs[i] > bs[i + 1] then i + 1 else RunEnd(bs, i + 1)
  }

  /** The first index from i on that holds a greater block. */
  function Past(bs: seq<int>, i: nat, x: int): (p: nat)
    requires i <= |bs|
    ensures i <= p <= |bs|
    decreases |bs| - i
  {
    if i < |bs| && bs[i] <= x then Past(bs, i + 1, x) else i
  }

  function NewIndex(bs: seq<int>, x: int): (p: nat)
    requires bs != []
    ensures 1 <= p <= |bs|
  {
    Past(bs, if |bs| > 1 && bs[1] > x then RunEnd(bs, 1) else 1, x)
  }

  predicate Up(bs: seq<int>, i: int) { 0 <= i && i + 1 < |bs| ==> bs[i] <= bs[i + 1] }

  /** Behind the head the blocks go up, with one drop at most, at k. */
  ghost predicate DropsAt(bs: seq<int>, k: int) { forall i :: 1 <= i && i != k ==> Up(bs, i) }

  ghost predicate TwoRuns(bs: seq<int>) { exists k :: DropsAt(bs, k) }

  lemma {:induction false} PastAll(bs: seq<int>, i: nat, x: int)
    requires i <= |bs|
    ensures forall j :: i <= j < Past(bs, i, x) ==> bs[j] <= x
    ensures Past(bs, i, x) < |bs| ==> bs[Past(bs, i, x)] > x
    decreases |bs| - i
  {
    if i < |bs| && bs[i] <= x { PastAll(bs, i + 1, x); }
  }

  lemma {:induction false} RunGoesUp(bs: seq<int>, i: nat)
    requires i < |bs|
    ensures forall j :: i <= j < RunEnd(bs, i) - 1 ==> Up(bs, j)
    ensures RunEnd(bs, i) < |bs| ==> bs[RunEnd(bs, i) - 1] > bs[RunEnd(bs, i)]
    decreases |bs| - i
  {
    if !(i + 1 == |bs| || bs[i] > bs[i + 1]) { RunGoesUp(bs, i + 1); }
  }

  /** The elevator: a new request never makes a third run. */
  lemma {:induction false} TwoRunsKept(bs: seq<int>, x: int)
    requires bs != [] && TwoRuns(bs)
    ensures TwoRuns(Inserted(bs, NewIndex(bs, x), x))
  {
    var k :| DropsAt(bs, k);
    var p := NewIndex(bs, x);
    var r := Inserted(bs, p, x);
    assert forall i :: 0 <= i < |r| ==> r[i] == if i < p then bs[i] else if i == p then x else bs[i - 1];
    var dropFirst := |bs| > 1 && bs[1] > x;
    var from := if dropFirst then RunEnd(bs, 1) else 1;
    PastAll(bs, from, x);
    if dropFirst {
      RunGoesUp(bs, 1);
      assert from < |bs| ==> !Up(bs, from - 1) && k == from - 1;
    }
    var k' := if dropFirst then from - 1 else if k < p then k else k + 1;
    forall i | 1 <= i && i != k' ensures Up(r, i) {
      if i + 1 < |r| {
        if i < p - 1 {
          assert Up(bs, i);
        } else if i > p {
          assert Up(bs, i - 1);
        }
      }
    }
    assert DropsAt(r, k');
  }

  /** Taking the head off leaves two runs. */
  lemma {:induction false} TwoRunsServed(bs: seq<int>)
    requires bs != [] && TwoRuns(bs)
    ensures TwoRuns(bs[1..])
  {
    var k :| DropsAt(bs, k);
    forall i | 1 <= i && i != k - 1 ensures Up(bs[1..], i) { assert Up(bs, i + 1); }
    assert DropsAt(bs[1..], k - 1);
  }

  /** Within its run the new request comes behind all it has to pass: those of the same block included. */
  lemma {:induction false} PlacedInOrder(bs: seq<int>, x: int)
    requires bs != []
    ensures var p := NewIndex(bs, x);
      && (p < |bs| ==> x < bs[p])
      && (p > 1 && bs[1] <= x ==> bs[p - 1] <= x)
      && (p > 1 && bs[p - 1] > x ==> p == |bs| || bs[p - 1] > bs[p])
  {
    var from := if |bs| > 1 && bs[1] > x then RunEnd(bs, 1) else 1;
    PastAll(bs, from, x);
    if |bs| > 1 { RunGoesUp(bs, 1); }
  }

  /** A new run starts at e: the blocks from 1 to e - 1 go up, and the next one is lower. */
  predicate FirstRunEnds(bs: seq<int>, e: int) {
    && 1 < e <= |bs| && (forall i :: 1 <= i && i + 1 < e ==> bs[i] <= bs[i + 1])
    && (e < |bs| ==> bs[e - 1] > bs[e])
  }

  /** From index i on p is the first place with a greater block, or the end. */
  predicate StopsAt(bs: seq<int>, x: int, i: int, p: int) {
    0 <= i <= p <= |bs| && (forall j :: i <= j < p ==> bs[j] <= x) && (p < |bs| ==> bs[p] > x)
  }

  /** So the place is determined: a block below the one that is served next waits for the second run, any other
      joins the first. */
  lemma {:induction false} NewIndexIff(bs: seq<int>, x: int, p: nat)
    requires bs != []
    ensures p == NewIndex(bs, x) <==>
      if |bs| > 1 && x < bs[1] then exists e :: FirstRunEnds(bs, e) && StopsAt(bs, x, e, p)
      else StopsAt(bs, x, 1, p)
  {
    if |bs| > 1 && x < bs[1] {
      var e := RunEnd(bs, 1);
      RunGoesUp(bs, 1);
      PastAll(bs, e, x);
      forall i | 1 <= i && i + 1 < e ensures bs[i] <= bs[i + 1] { assert Up(bs, i); }
      assert FirstRunEnds(bs, e);
      assert StopsAt(bs, x, e, NewIndex(bs, x));
    } else {
      PastAll(bs, 1, x);
    }
  }

  // ----- over every run -----

  datatype Request = Request(id: int, block: int)
  datatype Op = Add(r: Request) | Serve
  datatype Drive = Drive(queue: seq<Request>, added: seq<Request>, served: seq<Request>)

  function BlocksOf(q: seq<Request>): (bs: seq<int>)
    ensures |bs| == |q| && forall i :: 0 <= i < |q| ==> bs[i] == q[i].block
  {
    seq(|q|, i requires 0 <= i < |q| => q[i].block)
  }

  function Do(d: Drive, o: Op): Drive {
    match o
    case Add(r) =>
      if d.queue == [] then Drive([r], d.added + [r], d.served)
      else
        var p := NewIndex(BlocksOf(d.queue), r.block);
        Drive(d.queue[..p] + [r] + d.queue[p..], d.added + [r], d.served)
    case Serve => if d.queue == [] then d else Drive(d.queue[1..], d.added, d.served + [d.queue[0]])
  }

  ghost predicate Inv(d: Drive) {
    TwoRuns(BlocksOf(d.queue)) && multiset(d.added) == multiset(d.served) + multiset(d.queue)
  }

  lemma {:induction false} DoInv(d: Drive, o: Op)
    requires Inv(d)
    ensures Inv(Do(d, o))
    ensures o.Add? && d.queue != [] ==> Do(d, o).queue[0] == d.queue[0]
  {
    var q, e := d.queue, Do(d, o);
    match o
    case Add(r) =>
      if q == [] {
        assert DropsAt(BlocksOf(e.queue), 0);
      } else {
        var p := NewIndex(BlocksOf(q), r.block);
        TwoRunsKept(BlocksOf(q), r.block);
        assert BlocksOf(e.queue) == Inserted(BlocksOf(q), p, r.block);
        assert q == q[..p] + q[p..];
      }
    case Serve =>
      if q != [] {
        TwoRunsServed(BlocksOf(q));
        assert BlocksOf(e.queue) == BlocksOf(q)[1..];
        assert q == [q[0]] + q[1..];
      }
  }

  function Run(d: Drive, os: seq<Op>): Drive
    decreases |os|
  {
    if os == [] then d else Run(Do(d, os[0]), os[1..])
  }

  /** From an empty queue on, whatever is added and served: two runs behind the head, and every request
      served once or still queued once. */
  lemma {:induction false} EveryRun(d: Drive, os: seq<Op>)
    requires Inv(d) || d == Drive([], [], [])
    ensures Inv(Run(d, os))
    decreases |os|
  {
    if d == Drive([], [], []) { assert DropsAt(BlocksOf(d.queue), 0); }
    if os != [] {
      DoInv(d, os[0]);
      EveryRun(Do(d, os[0]), os[1..]);
    }
  }

  // ----- the code -----

  /** The comparison of the older disksort, on the word b_resid and the waiting time. */
  predicate GapFits(bs: seq<Buf>, x: Buf, i: nat)
    requires 0 < i < |bs|
  {
    ((x.resid >= bs[i - 1].resid) == (x.resid < bs[i].resid)) && x.start - bs[i].start < PATIENCE
  }

  /** The gap before request i fits when the block lies between its two neighbours, from the lower one on and
      below the higher, and request i has waited less than 30 ticks longer. */
  lemma {:induction false} GapMeans(bs: seq<Buf>, x: Buf, i: nat)
    requires 0 < i < |bs|
    ensures var a, b := bs[i - 1].resid, bs[i].resid;
      GapFits(bs, x, i) <==>
        (if a <= b then a <= x.resid < b else b <= x.resid < a) && x.start < bs[i].start + 30
  {
  }

  function OldIndex(bs: seq<Buf>, x: Buf, i: nat): (p: nat)
    requires 0 < i <= |bs|
    ensures i <= p <= |bs|
    decreases |bs| - i
  {
    if i == |bs| || GapFits(bs, x, i) then i else OldIndex(bs, x, i + 1)
  }

  lemma {:induction false} OldIndexIsFirst(bs: seq<Buf>, x: Buf, i: nat)
    requires 0 < i <= |bs|
    ensures forall j :: i <= j < OldIndex(bs, x, i) ==> !GapFits(bs, x, j)
    ensures OldIndex(bs, x, i) < |bs| ==> GapFits(bs, x, OldIndex(bs, x, i))
    decreases |bs| - i
  {
    if !(i == |bs| || GapFits(bs, x, i)) { OldIndexIsFirst(bs, x, i + 1); }
  }

  function BlocksIn(z: Sizes, buf: seq<Buf>, q: seq<int>): (bs: seq<int>)
    requires forall i :: 0 <= i < |q| ==> 0 <= q[i] < |buf| && Covers(z, buf[q[i]])
    ensures |bs| == |q| && forall i :: 0 <= i < |q| ==> bs[i] == Block(z, buf[q[i]])
  {
    seq(|q|, i requires 0 <= i < |q| => Block(z, buf[q[i]]))
  }

  function BufsOf(buf: seq<Buf>, q: seq<int>): (bs: seq<Buf>)
    requires forall i :: 0 <= i < |q| ==> 0 <= q[i] < |buf|
    ensures |bs| == |q| && forall i :: 0 <= i < |q| ==> bs[i] == buf[q[i]]
  {
    seq(|q|, i requires 0 <= i < |q| => buf[q[i]])
  }

  ghost predicate Rep(forw: seq<int>, head: int, tail: int, q: seq<int>) {
    && Linked(forw, q, NULL) && head == Head(q, NULL)
    && (q != [] ==> tail == q[|q| - 1])
  }

  lemma {:induction false} AddFirst(forw: seq<int>, head: int, tail: int, q: seq<int>, x: int)
    requires Rep(forw, head, tail, q) && q == [] && 0 <= x < |forw|
    ensures Rep(forw[x := NULL], x, x, [x])
  {
    Cons(forw, q, NULL, x);
    assert [x] + q == [x];
  }

  lemma {:induction false} AddBehind(forw: seq<int>, head: int, tail: int, q: seq<int>, i: int, x: int)
    requires Rep(forw, head, tail, q) && 0 < i <= |q| && 0 <= x < |forw| && x !in q
    ensures 0 <= q[i - 1] < |forw| && forw[q[i - 1]] == After(q, NULL, i - 1) && (q[i - 1] == tail <==> i == |q|)
    ensures Rep(forw[x := forw[q[i - 1]]][q[i - 1] := x], head, if i == |q| then x else tail, Inserted(q, i, x))
  {
    At(forw, q, NULL, i - 1);
    Insert(forw, q, NULL, i, x);
    assert i < |q| ==> Inserted(q, i, x)[|q|] == q[|q| - 1];
  }

  lemma {:induction false} Along(forw: seq<int>, head: int, tail: int, q: seq<int>, i: int)
    requires Rep(forw, head, tail, q) && 0 <= i < |q|
    ensures 0 <= q[i] < |forw| && forw[q[i]] == After(q, NULL, i) && q[i] != NULL
  {
    At(forw, q, NULL, i);
  }

  class Queue {
    var buf: seq<Buf>
    var forw: seq<int>        // av_forw of each buffer
    var head: int             // av_forw and av_back of the queue
    var tail: int
    ghost var q: seq<int>

    ghost predicate Valid()
      reads this
    {
      |buf| == |forw| && Rep(forw, head, tail, q) && forall i :: 0 <= i < |q| ==> 0 <= q[i] < |buf|
    }

    ghost predicate AllCovered(z: Sizes)
      reads this
    {
      forall i :: 0 <= i < |buf| ==> Covers(z, buf[i])
    }

    ghost function Blocks(z: Sizes): (bs: seq<int>)
      requires Valid() && AllCovered(z)
      reads this
      ensures |bs| == |q| && forall i :: 0 <= i < |q| ==> bs[i] == Block(z, buf[q[i]])
    {
      BlocksIn(z, buf, q)
    }

    constructor (n: nat)
      ensures Valid() && q == [] && |buf| == n
    {
      buf := seq(n, _ => Buf(0, 0, 0, 0));
      forw := seq(n, _ => NULL);
      head, tail, q := NULL, NULL, [];
    }

    /** newsort */
    method NewSort(x: int, z: Sizes)
      requires Valid() && AllCovered(z) && 0 <= x < |buf| && x !in q
      modifies this`forw, this`head, this`tail, this`q
      ensures Valid()
      ensures q == if old(q) == [] then [x] else Inserted(old(q), NewIndex(old(Blocks(z)), Block(z, buf[x])), x)
    {
      EmptyIff();
      if head == NULL {
        First(x);
        return;
      }
      var bp3, i := Place(x, z);
      InsertAt(bp3, x, i);
    }

    /** The search of newsort. */
    method Place(x: int, z: Sizes) returns (bp3: int, ghost i: nat)
      requires Valid() && AllCovered(z) && 0 <= x < |buf| && q != []
      ensures i == NewIndex(Blocks(z), Block(z, buf[x])) && bp3 == q[NewIndex(Blocks(z), Block(z, buf[x])) - 1]
    {
      ghost var bs := Blocks(z);
      bp3 := head;
      Along(forw, head, tail, q, 0);
      var next := forw[bp3];
      var blk2 := Block(z, buf[x]);
      i := 1;
      if next != NULL {
        var blkn := Block(z, buf[next]);
        if blkn > blk2 {
          bp3, next, i := SkipRun(next, z);
        }
      }
      bp3, i := PassSmaller(bp3, next, blk2, z, i);
    }

    /** Its while loop. */
    method PassSmaller(bp: int, after: int, blk2: int, z: Sizes, ghost from: nat) returns (bp3: int, ghost i: nat)
      requires Valid() && AllCovered(z) && Between(bp, after, from)
      ensures i == Past(Blocks(z), from, blk2) && bp3 == q[Past(Blocks(z), from, blk2) - 1]
    {
      ghost var bs := Blocks(z);
      var next := after;
      bp3, i := bp, from;
      while next != NULL && Block(z, buf[next]) <= blk2
        invariant 1 <= i <= |q| && Between(bp3, next, i)
        invariant Past(bs, from, blk2) == Past(bs, i, blk2)
        decreases |q| - i
      {
        Along(forw, head, tail, q, i);
        bp3 := next;
        next := forw[next];
        i := i + 1;
      }
    }

    /** bp3 is record i - 1 of the queue, and next the one behind it. */
    ghost predicate Between(bp3: int, next: int, i: int)
      reads this
    {
      1 <= i <= |q| && bp3 == q[i - 1] && next == if i < |q| then q[i] else NULL
    }

    lemma EmptyIff()
      requires Valid()
      ensures head == NULL <==> q == []
    {
    }

    /** The do loop of newsort: to the end of the first ascending run. */
    method SkipRun(start: int, z: Sizes) returns (bp3: int, next: int, ghost i: nat)
      requires Valid() && AllCovered(z) && |q| > 1 && start == q[1]
      ensures i == RunEnd(Blocks(z), 1) && Between(bp3, next, RunEnd(Blocks(z), 1))
    {
      ghost var bs := Blocks(z);
      next := start;
      var blkn := Block(z, buf[next]);
      i := 1;
      ghost var going := true;
      while true
        invariant 1 <= i < |q| && next == q[i] && blkn == bs[i] && RunEnd(bs, 1) == RunEnd(bs, i)
        decreases |q| - i
      {
        Along(forw, head, tail, q, i);
        bp3 := next;
        var blk3 := blkn;
        next := forw[next];
        i := i + 1;
        if next == NULL { return; }
        blkn := Block(z, buf[next]);
        if blk3 > blkn { return; }
      }
    }

    method First(x: int)
      requires Valid() && q == [] && 0 <= x < |buf|
      modifies this`forw, this`head, this`tail, this`q
      ensures Valid() && q == [x]
    {
      AddFirst(forw, head, tail, q, x);
      head := x;
      tail := x;
      forw := forw[x := NULL];
      q := [x];
    }

    method InsertAt(bp3: int, x: int, ghost i: int)
      requires Valid() && 1 <= i <= |q| && bp3 == q[i - 1] && 0 <= x < |buf| && x !in q
      modifies this`forw, this`tail, this`q
      ensures Valid() && q == Inserted(old(q), i, x) && head == old(head)
    {
      AddBehind(forw, head, tail, q, i, x);
      forw := forw[x := forw[bp3]];
      forw := forw[bp3 := x];
      if bp3 == tail { tail := x; }
      q := Inserted(q, i, x);
    }

    /** disksort, at time now. */
    method DiskSort(x: int, now: int)
      requires Valid() && 0 <= x < |buf| && x !in q
      modifies this
      ensures Valid() && |buf| == old(|buf|) && buf == old(buf)[x := old(buf)[x].(start := now)]
      ensures q == if old(q) == [] then [x] else Inserted(old(q), OldIndex(BufsOf(buf, old(q)), buf[x], 1), x)
    {
      buf := buf[x := buf[x].(start := now)];
      EmptyIff();
      if head == NULL {
        First(x);
        return;
      }
      var next, i := Gap(x);
      InsertAt(next, x, i);
    }

    /** The search of disksort. */
    method Gap(x: int) returns (next: int, ghost i: nat)
      requires Valid() && 0 <= x < |buf| && q != []
      ensures i == OldIndex(BufsOf(buf, q), buf[x], 1) && next == q[OldIndex(BufsOf(buf, q), buf[x], 1) - 1]
    {
      ghost var bs := BufsOf(buf, q);
      next := head;
      Along(forw, head, tail, q, 0);
      var bp3 := forw[next];
      i := 1;
      while bp3 != NULL
        invariant 1 <= i <= |q| && Between(next, bp3, i)
        invariant OldIndex(bs, buf[x], 1) == OldIndex(bs, buf[x], i)
        decreases |q| - i
      {
        var between := (buf[x].resid >= buf[next].resid) == (buf[x].resid < buf[bp3].resid);
        if between && buf[x].start - buf[bp3].start < PATIENCE { return; }
        Along(forw, head, tail, q, i);
        next := bp3;
        bp3 := forw[bp3];
        i := i + 1;
      }
    }

    /** The drive takes the head. */
    method Take() returns (x: int)
      requires Valid() && q != []
      modifies this`head, this`tail, this`q
      ensures Valid() && x == old(q)[0] && q == old(q)[1..]
    {
      Along(forw, head, tail, q, 0);
      Rest(forw, q, NULL);
      x := head;
      head := forw[x];
      q := q[1..];
    }
  }
}
