/** Chains of records linked through one pointer field, as the queues and free lists below are built.
    A record is an index, and link[i] is the pointer in record i. */
module Chain {
  function Head(q: seq<int>, end: int): int { if q == [] then end else q[0] }

  function After(q: seq<int>, end: int, i: int): int
    requires 0 <= i < |q|
  {
    if i + 1 < |q| then q[i + 1] else end
  }

  predicate LinkOk(link: seq<int>, q: seq<int>, end: int, i: int)
    requires 0 <= i < |q|
  {
    0 <= q[i] < |link| && link[q[i]] == After(q, end, i)
  }

  predicate NoDup(q: seq<int>) { forall i, j :: 0 <= i < j < |q| ==> q[i] != q[j] }

  /** The records q, in this order, follow each other, and the last one points to end. */
  predicate Linked(link: seq<int>, q: seq<int>, end: int) {
    NoDup(q) && forall i :: 0 <= i < |q| ==> LinkOk(link, q, end, i)
  }

  function Without(q: seq<int>, i: int): seq<int>
    requires 0 <= i < |q|
  {
    q[..i] + q[i + 1..]
  }

  function Inserted(q: seq<int>, i: int, x: int): seq<int>
    requires 0 <= i <= |q|
  {
    q[..i] + [x] + q[i..]
  }

  lemma {:induction false} At(link: seq<int>, q: seq<int>, end: int, i: int)
    requires Linked(link, q, end) && 0 <= i < |q|
    ensures 0 <= q[i] < |link| && link[q[i]] == After(q, end, i)
  {
    assert LinkOk(link, q, end, i);
  }

  lemma {:induction false} NoDupRest(x: int, q: seq<int>)
    requires NoDup([x] + q)
    ensures NoDup(q)
  {
    forall i, j | 0 <= i < j < |q| ensures q[i] != q[j] { assert ([x] + q)[i + 1] != ([x] + q)[j + 1]; }
  }

  /** Pointers outside the chain do not matter. */
  lemma {:induction false} Frame(link: seq<int>, link': seq<int>, q: seq<int>, end: int)
    requires Linked(link, q, end) && |link'| >= |link|
    requires forall x :: 0 <= x < |link| && x in q ==> link'[x] == link[x]
    ensures Linked(link', q, end)
  {
    forall i | 0 <= i < |q| ensures LinkOk(link', q, end, i) {
      assert LinkOk(link, q, end, i);
      assert q[i] in q;
    }
  }

  lemma {:induction false} Rest(link: seq<int>, q: seq<int>, end: int)
    requires Linked(link, q, end) && q != []
    ensures Linked(link, q[1..], end) && q[0] !in q[1..]
    ensures 0 <= q[0] < |link| && link[q[0]] == Head(q[1..], end)
  {
    assert LinkOk(link, q, end, 0);
    var r := q[1..];
    forall i | 0 <= i < |r| ensures LinkOk(link, r, end, i) && r[i] != q[0] {
      assert LinkOk(link, q, end, i + 1);
    }
  }

  lemma {:induction false} Cons(link: seq<int>, q: seq<int>, end: int, x: int)
    requires Linked(link, q, end) && 0 <= x < |link| && x !in q
    ensures Linked(link[x := Head(q, end)], [x] + q, end)
  {
    var r, link' := [x] + q, link[x := Head(q, end)];
    forall i | 0 <= i < |r| ensures LinkOk(link', r, end, i) {
      if i > 0 { assert LinkOk(link, q, end, i - 1); assert q[i - 1] in q; }
    }
    assert forall i :: 0 < i < |r| ==> r[i] == q[i - 1];
  }

  lemma {:induction false} Insert(link: seq<int>, q: seq<int>, end: int, i: int, x: int)
    requires Linked(link, q, end) && 0 < i <= |q| && 0 <= x < |link| && x !in q
    ensures 0 <= q[i - 1] < |link|
    ensures Linked(link[x := link[q[i - 1]]][q[i - 1] := x], Inserted(q, i, x), end)
  {
    At(link, q, end, i - 1);
    var r, link' := Inserted(q, i, x), link[x := link[q[i - 1]]][q[i - 1] := x];
    assert forall j :: 0 <= j < |r| ==> r[j] == if j < i then q[j] else if j == i then x else q[j - 1];
    forall j | 0 <= j < |r| ensures LinkOk(link', r, end, j) {
      if j < i { assert LinkOk(link, q, end, j); assert q[j] in q; }
      if j > i { assert LinkOk(link, q, end, j - 1); assert q[j - 1] in q; }
    }
  }

  lemma {:induction false} Snoc(link: seq<int>, q: seq<int>, end: int, x: int)
    requires Linked(link, q, end) && 0 <= x < |link| && x !in q && q != []
    ensures 0 <= q[|q| - 1] < |link|
    ensures Linked(link[x := end][q[|q| - 1] := x], q + [x], end)
  {
    At(link, q, end, |q| - 1);
    Insert(link, q, end, |q|, x);
    assert Inserted(q, |q|, x) == q + [x];
  }

  lemma {:induction false} Remove(link: seq<int>, q: seq<int>, end: int, i: int)
    requires Linked(link, q, end) && 0 < i < |q|
    ensures 0 <= q[i] < |link| && 0 <= q[i - 1] < |link|
    ensures Linked(link[q[i - 1] := link[q[i]]], Without(q, i), end)
    ensures q[i] !in Without(q, i)
  {
    At(link, q, end, i - 1);
    At(link, q, end, i);
    var r, link' := Without(q, i), link[q[i - 1] := link[q[i]]];
    assert forall j :: 0 <= j < |r| ==> r[j] == if j < i then q[j] else q[j + 1];
    forall j | 0 <= j < |r| ensures LinkOk(link', r, end, j) {
      if j < i { assert LinkOk(link, q, end, j); } else { assert LinkOk(link, q, end, j + 1); }
    }
  }
}
