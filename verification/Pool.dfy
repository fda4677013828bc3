/** A pool of records, each at one place: in a queue, on the free list, or in a caller's hand. */
module Pool {
  import opened Chain

  datatype Where = Queued | Free | Hand

  /** The queue and the free list as sequences of records, and where each record of the pool is. */
  datatype Model = Model(q: seq<int>, free: seq<int>, place: seq<Where>)

  predicate Here(m: Model, x: int) {
    0 <= x < |m.place| ==> (x in m.q <==> m.place[x] == Queued) && (x in m.free <==> m.place[x] == Free)
  }

  predicate InPool(m: Model, q: seq<int>) { forall i :: 0 <= i < |q| ==> 0 <= q[i] < |m.place| }

  ghost predicate Partition(m: Model) { InPool(m, m.q) && InPool(m, m.free) && forall x :: Here(m, x) }

  function Taken(m: Model, i: int): Model
    requires 0 <= i < |m.q| && 0 <= m.q[i] < |m.place|
  {
    Model(Without(m.q, i), m.free, m.place[m.q[i] := Hand])
  }

  lemma {:induction false} TakenMembers(q: seq<int>, i: int, y: int)
    requires 0 <= i < |q|
    ensures NoDup(q) ==> (y in Without(q, i) <==> y in q && y != q[i])
  {
    var r := Without(q, i);
    if y in q {
      var j :| 0 <= j < |q| && q[j] == y;
      if j != i { assert r[if j < i then j else j - 1] == y; }
    }
    if y in r {
      var j :| 0 <= j < |r| && r[j] == y;
      assert q[if j < i then j else j + 1] == y;
    }
  }

  lemma {:induction false} Inside(m: Model, q: seq<int>, x: int)
    requires InPool(m, q) && x in q
    ensures 0 <= x < |m.place|
  {
    var i :| 0 <= i < |q| && q[i] == x;
  }

  lemma {:induction false} NotQueued(m: Model, x: int)
    requires Partition(m) && 0 <= x < |m.place| && m.place[x] == Hand
    ensures x !in m.q && x !in m.free
  {
    assert Here(m, x);
  }

  lemma {:induction false} PushPlaces(m: Model, x: int)
    requires Partition(m) && 0 <= x < |m.place| && m.place[x] == Hand
    ensures Partition(m.(free := [x] + m.free, place := m.place[x := Free]))
  {
    var m' := m.(free := [x] + m.free, place := m.place[x := Free]);
    NotQueued(m, x);
    forall y ensures Here(m', y) { assert Here(m, y); }
    assert forall i :: 0 < i < |m'.free| ==> m'.free[i] == m.free[i - 1];
  }

  lemma {:induction false} PopPlaces(m: Model)
    requires Partition(m) && NoDup(m.free) && m.free != []
    ensures 0 <= m.free[0] < |m.place| && m.place[m.free[0]] == Free
    ensures Partition(m.(free := m.free[1..], place := m.place[m.free[0] := Hand]))
  {
    var x := m.free[0];
    var m' := m.(free := m.free[1..], place := m.place[x := Hand]);
    assert Here(m, x);
    assert forall i :: 0 <= i < |m'.free| ==> m'.free[i] == m.free[i + 1];
    forall y ensures Here(m', y) {
      assert Here(m, y);
      assert y in m.free <==> y == x || y in m'.free;
    }
  }

  /** A record in hand joins the queue anywhere. */
  lemma {:induction false} QueuePlaces(m: Model, x: int, q: seq<int>)
    requires Partition(m) && 0 <= x < |m.place| && m.place[x] == Hand && (q == m.q + [x] || q == [x] + m.q)
    ensures Partition(m.(q := q, place := m.place[x := Queued]))
  {
    var m' := m.(q := q, place := m.place[x := Queued]);
    NotQueued(m, x);
    forall y ensures Here(m', y) { assert Here(m, y); }
    forall i | 0 <= i < |q| ensures 0 <= q[i] < |m.place| {
      if q == m.q + [x] { assert i < |m.q| ==> q[i] == m.q[i]; } else { assert i > 0 ==> q[i] == m.q[i - 1]; }
    }
  }

  lemma {:induction false} TakePlaces(m: Model, i: int)
    requires Partition(m) && NoDup(m.q) && 0 <= i < |m.q|
    ensures 0 <= m.q[i] < |m.place| && m.place[m.q[i]] == Queued && Partition(Taken(m, i))
  {
    var m' := Taken(m, i);
    assert Here(m, m.q[i]);
    assert forall j :: 0 <= j < |m'.q| ==> m'.q[j] == m.q[if j < i then j else j + 1];
    forall y ensures Here(m', y) {
      assert Here(m, y);
      TakenMembers(m.q, i, y);
    }
  }
}
