/** The backtracking order of `advance`, as a function on cut vectors, and the proof that it
    finds a match exactly when there is one, namely the greediest. */
module RegexpSearch {
  import opened Buffers
  import opened Wrappers
  import opened RegexpCode

  /** The ends an instruction is tried with: top, top - step, ... down to low. */
  datatype Span = Span(top: int, low: int, step: int)

  const NOTHING := Span(-1, 0, 1)

  function Exactly(e: int): Span { Span(e, e, 1) }

  /** The star loop: from the longest end down, stopping before locs. */
  function StarSpan(s: Subject, low: int, top: int): Span {
    if low <= s.locs <= top then Span(top, s.locs + 1, 1) else Span(top, low, 1)
  }

  function PowerEnd(text: seq<byte>, w: seq<byte>, i: nat): (e: nat)
    requires i <= |text|
    ensures i <= e <= |text|
    decreases |text| - i
  {
    if w != [] && Slice(text, i, i + |w|) == w then PowerEnd(text, w, i + |w|) else i
  }

  function Candidates(items: seq<Item>, s: Subject, p: seq<int>): (c: Span)
    requires 1 <= |p| <= |items| && 0 <= p[|p| - 1] <= |s.text|
    ensures c.step > 0 && c.top <= |s.text|
    ensures c.low >= 0
  {
    var k, i := |p| - 1, p[|p| - 1];
    match items[k]
    case One(t) => if i < |s.text| && Has(t, s.text[i]) then Exactly(i + 1) else NOTHING
    case Many(t) => StarSpan(s, i, RunEnd(t, s.text, i))
    case Count(t, lo, hi) =>
      if i + lo <= RunEnd(t, s.text, i)
      then StarSpan(s, i + lo, Min(RunEnd(t, s.text, i), i + CountMax(s, lo, hi)))
      else NOTHING
    case Open(_) => Exactly(i)
    case Close(_) => Exactly(i)
    case Back(g) =>
      var w := Captured(items, s.text, p, g);
      if i + |w| <= |s.text| && Slice(s.text, i, i + |w|) == w then Exactly(i + |w|) else NOTHING
    case BackMany(g) =>
      var w := Captured(items, s.text, p, g);
      Span(PowerEnd(s.text, w, i), i, if w == [] then 1 else |w|)
    case End => if i == |s.text| then Exactly(i) else NOTHING
  }

  /** advance: extend the cut points p to a whole match. */
  function Search(items: seq<Item>, s: Subject, p: seq<int>): Option<seq<int>>
    requires 1 <= |p| <= |items| + 1 && 0 <= p[|p| - 1] <= |s.text|
    decreases |items| + 1 - |p|, 1, 0
  {
    if |p| == |items| + 1 then Some(p) else
      var c := Candidates(items, s, p);
      Try(items, s, p, c.top, c)
  }

  /** The star loop: try the end e, then the shorter ones. */
  function Try(items: seq<Item>, s: Subject, p: seq<int>, e: int, c: Span): Option<seq<int>>
    requires 1 <= |p| <= |items| && 0 <= p[|p| - 1] <= |s.text|
    requires c.step > 0 && c.low >= 0 && e <= |s.text|
    decreases |items| + 1 - |p|, 0, if e < c.low then 0 else e - c.low + 1
  {
    if e < c.low then None else
      var r := Search(items, s, p + [e]);
      if r.Some? then r else Try(items, s, p, e - c.step, c)
  }

  // ----- does the search end? -----

  /** What becomes of a search: a match, none, or a loop that never ends. */
  datatype Verdict = Yes | No | Never

  /** A starred back-reference counts copies of an empty capture: there is always one more. */
  predicate Stuck(items: seq<Item>, s: Subject, p: seq<int>)
    requires 1 <= |p| <= |items|
  {
    items[|p| - 1].BackMany? && Captured(items, s.text, p, items[|p| - 1].g) == []
  }

  /** The same search, in the same order, but for a stuck instruction, which it does not survive. */
  function Decide(items: seq<Item>, s: Subject, p: seq<int>): Verdict
    requires 1 <= |p| <= |items| + 1 && 0 <= p[|p| - 1] <= |s.text|
    decreases |items| + 1 - |p|, 1, 0
  {
    if |p| == |items| + 1 then Yes
    else if Stuck(items, s, p) then Never
    else
      var c := Candidates(items, s, p);
      DecideFrom(items, s, p, c.top, c)
  }

  function DecideFrom(items: seq<Item>, s: Subject, p: seq<int>, e: int, c: Span): Verdict
    requires 1 <= |p| <= |items| && 0 <= p[|p| - 1] <= |s.text|
    requires c.step > 0 && c.low >= 0 && e <= |s.text|
    decreases |items| + 1 - |p|, 0, if e < c.low then 0 else e - c.low + 1
  {
    if e < c.low then No else
      var r := Decide(items, s, p + [e]);
      if r != No then r else DecideFrom(items, s, p, e - c.step, c)
  }

  /** A search that ends gives the answer of the search that cannot get stuck. */
  lemma {:induction false} DecideAgrees(items: seq<Item>, s: Subject, p: seq<int>)
    requires 1 <= |p| <= |items| + 1 && 0 <= p[|p| - 1] <= |s.text|
    ensures Decide(items, s, p) == Yes ==> Search(items, s, p).Some?
    ensures Decide(items, s, p) == No ==> Search(items, s, p).None?
    decreases |items| + 1 - |p|, 1, 0
  {
    if |p| <= |items| {
      var c := Candidates(items, s, p);
      DecideFromAgrees(items, s, p, c.top, c);
    }
  }

  lemma {:induction false} DecideFromAgrees(items: seq<Item>, s: Subject, p: seq<int>, e: int, c: Span)
    requires 1 <= |p| <= |items| && 0 <= p[|p| - 1] <= |s.text|
    requires c.step > 0 && c.low >= 0 && e <= |s.text|
    ensures DecideFrom(items, s, p, e, c) == Yes ==> Try(items, s, p, e, c).Some?
    ensures DecideFrom(items, s, p, e, c) == No ==> Try(items, s, p, e, c).None?
    decreases |items| + 1 - |p|, 0, if e < c.low then 0 else e - c.low + 1
  {
    if e >= c.low {
      DecideAgrees(items, s, p + [e]);
      if Decide(items, s, p + [e]) == No { DecideFromAgrees(items, s, p, e - c.step, c); }
    }
  }

  // ----- the candidates are exactly the allowed segments -----

  /** e is top, top - step, top - 2 * step, ... */
  predicate OnGrid(top: int, e: int, step: int)
    requires step > 0
    decreases if e < top then top - e else 0
  {
    e == top || (e < top && OnGrid(top, e + step, step))
  }

  predicate InSpan(c: Span, e: int)
    requires c.step > 0
  {
    c.low <= e && OnGrid(c.top, e, c.step)
  }

  lemma {:induction false} GridBelow(top: int, e: int, step: int)
    requires step > 0 && OnGrid(top, e, step)
    ensures e <= top && OnGrid(top, e - step, step)
  {
  }

  lemma {:induction false} GridGap(top: int, d: int, e: int, step: int)
    requires step > 0 && OnGrid(top, e, step) && OnGrid(top, d, step) && d < e
    ensures d + step <= e
    decreases top - d
  {
    if e < top {
      GridGap(top, d + step, e + step, step);
    }
  }

  lemma {:induction false} UnitGrid(top: int, e: int)
    ensures OnGrid(top, e, 1) <==> e <= top
    decreases top - e
  {
    if e < top { UnitGrid(top, e + 1); }
  }

  lemma {:induction false} PowerReaches(text: seq<byte>, w: seq<byte>, i: nat, e: int, n: nat)
    requires w != [] && i <= e <= |text| && Slice(text, i, e) == Power(w, n)
    ensures OnGrid(PowerEnd(text, w, i), e, |w|)
    decreases n
  {
    if n == 0 {
      PowerEndOnGrid(text, w, i);
    } else {
      assert Slice(text, i, e)[..|w|] == w && Slice(text, i, e)[|w|..] == Power(w, n - 1);
      assert Slice(text, i, i + |w|) == Slice(text, i, e)[..|w|];
      assert Slice(text, i + |w|, e) == Slice(text, i, e)[|w|..];
      PowerReaches(text, w, i + |w|, e, n - 1);
    }
  }

  lemma {:induction false} PowerEndOnGrid(text: seq<byte>, w: seq<byte>, i: nat)
    requires w != [] && i <= |text|
    ensures OnGrid(PowerEnd(text, w, i), i, |w|)
    decreases |text| - i
  {
    if Slice(text, i, i + |w|) == w {
      PowerEndOnGrid(text, w, i + |w|);
    }
  }

  lemma {:induction false} PowerCount(text: seq<byte>, w: seq<byte>, i: nat, e: int) returns (n: nat)
    requires w != [] && i <= |text| && i <= e && OnGrid(PowerEnd(text, w, i), e, |w|)
    ensures e <= |text| && Slice(text, i, e) == Power(w, n)
    decreases |text| - i
  {
    if e == i {
      n := 0;
    } else {
      PowerEndOnGrid(text, w, i);
      GridGap(PowerEnd(text, w, i), i, e, |w|);
      var m := PowerCount(text, w, i + |w|, e);
      assert Slice(text, i, e) == Slice(text, i, i + |w|) + Slice(text, i + |w|, e);
      n := m + 1;
    }
  }

  lemma {:induction false} PowerEmpty(n: nat)
    ensures Power([], n) == []
  {
    if n > 0 { PowerEmpty(n - 1); }
  }

  lemma BackManyExact(text: seq<byte>, w: seq<byte>, i: nat, e: int)
    requires i <= |text|
    ensures (i <= e <= |text| && IsPower(Slice(text, i, e), w))
        <==> InSpan(Span(PowerEnd(text, w, i), i, if w == [] then 1 else |w|), e)
  {
    if i <= e <= |text| && IsPower(Slice(text, i, e), w) {
      var n: nat :| Slice(text, i, e) == Power(w, n);
      if w == [] { PowerEmpty(n); } else { PowerReaches(text, w, i, e, n); }
    }
    if w == [] { UnitGrid(i, e); }
    if InSpan(Span(PowerEnd(text, w, i), i, if w == [] then 1 else |w|), e) {
      if w == [] {
        assert Slice(text, i, e) == Power(w, 0);
      } else {
        var n := PowerCount(text, w, i, e);
      }
    }
  }

  /** The candidate ends of an instruction are its declared segments, no more and no fewer. */
  lemma CandidatesExact(items: seq<Item>, s: Subject, p: seq<int>, e: int)
    requires 1 <= |p| <= |items| && 0 <= p[|p| - 1] <= |s.text|
    ensures Segment(items, s, p, |p| - 1, e) <==> InSpan(Candidates(items, s, p), e)
  {
    hide OnGrid, RunEnd, Captured, PowerEnd, Power, IsPower, Slice;
    var k, i := |p| - 1, p[|p| - 1];
    if !items[k].BackMany? { UnitGrid(Candidates(items, s, p).top, e); }
    match items[k]
    case Many(t) => RunEndExact(t, s.text, i, e);
    case Count(t, lo, hi) => RunEndExact(t, s.text, i, e);
    case Back(g) => BackExact(s.text, Captured(items, s.text, p, g), i, e);
    case BackMany(g) => BackManyExact(s.text, Captured(items, s.text, p, g), i, e);
    case _ =>
  }

  lemma BackExact(text: seq<byte>, w: seq<byte>, i: nat, e: int)
    requires i <= |text|
    ensures (i <= e <= |text| && Slice(text, i, e) == w)
        <==> (e == i + |w| && i + |w| <= |text| && Slice(text, i, i + |w|) == w)
  {
  }

  // ----- soundness, completeness, preference -----

  lemma SegmentStable(items: seq<Item>, s: Subject, p: seq<int>, q: seq<int>, k: nat, e: int)
    requires GoodProgram(items) && k < |items| && k < |p| && p <= q
    ensures Segment(items, s, p, k, e) == Segment(items, s, q, k, e)
  {
    assert GoodItem(items, k);
    match items[k]
    case Back(g) => CapturedStable(items, s, p, q, k, g);
    case BackMany(g) => CapturedStable(items, s, p, q, k, g);
    case _ =>
  }

  lemma CapturedStable(items: seq<Item>, s: Subject, p: seq<int>, q: seq<int>, k: nat, g: byte)
    requires GoodProgram(items) && k < |items| && k < |p| && p <= q
    requires IndexOf(items, Close(g)) < k
    ensures IndexOf(items, Open(g)) < IndexOf(items, Close(g))
    ensures Captured(items, s.text, p, g) == Captured(items, s.text, q, g)
  {
    assert GoodItem(items, IndexOf(items, Close(g)));
  }

  lemma PartialExtends(items: seq<Item>, s: Subject, p: seq<int>, e: int)
    requires GoodProgram(items) && Partial(items, s, p) && |p| <= |items|
    requires Segment(items, s, p, |p| - 1, e)
    ensures Partial(items, s, p + [e])
  {
    var q := p + [e];
    forall k | 0 <= k < |q| - 1 ensures Cut(items, s, q, k) {
      SegmentStable(items, s, p, q, k, q[k + 1]);
      if k < |p| - 1 { assert Cut(items, s, p, k); }
    }
  }

  lemma {:induction false} SearchSound(items: seq<Item>, s: Subject, p: seq<int>)
    requires GoodProgram(items) && Partial(items, s, p) && 0 <= p[|p| - 1] <= |s.text|
    ensures var r := Search(items, s, p); r.Some? ==> IsMatch(items, s, r.value) && p <= r.value
    decreases |items| + 1 - |p|, 1, 0
  {
    if |p| <= |items| {
      var c := Candidates(items, s, p);
      TrySound(items, s, p, c.top, c);
    }
  }

  lemma {:induction false} TrySound(items: seq<Item>, s: Subject, p: seq<int>, e: int, c: Span)
    requires GoodProgram(items) && Partial(items, s, p) && |p| <= |items| && 0 <= p[|p| - 1] <= |s.text|
    requires c == Candidates(items, s, p) && OnGrid(c.top, e, c.step)
    ensures var r := Try(items, s, p, e, c); r.Some? ==> IsMatch(items, s, r.value) && p <= r.value
    decreases |items| + 1 - |p|, 0, if e < c.low then 0 else e - c.low + 1
  {
    if e >= c.low {
      CandidatesExact(items, s, p, e);
      PartialExtends(items, s, p, e);
      SearchSound(items, s, p + [e]);
      GridBelow(c.top, e, c.step);
      TrySound(items, s, p, e - c.step, c);
    }
  }

  lemma {:induction false} SearchComplete(items: seq<Item>, s: Subject, p: seq<int>, q: seq<int>)
    requires GoodProgram(items) && Partial(items, s, p) && 0 <= p[|p| - 1] <= |s.text|
    requires IsMatch(items, s, q) && p <= q
    ensures var r := Search(items, s, p); r.Some? && Prefers(r.value, q)
    decreases |items| + 1 - |p|, 1, 0
  {
    if |p| <= |items| {
      var c := Candidates(items, s, p);
      NextInSpan(items, s, p, q);
      TryComplete(items, s, p, c.top, c, q);
    }
  }

  lemma NextInSpan(items: seq<Item>, s: Subject, p: seq<int>, q: seq<int>)
    requires GoodProgram(items) && Partial(items, s, p) && |p| <= |items| && 0 <= p[|p| - 1] <= |s.text|
    requires IsMatch(items, s, q) && p <= q
    ensures InSpan(Candidates(items, s, p), q[|p|])
  {
    assert Cut(items, s, q, |p| - 1);
    SegmentStable(items, s, p, q, |p| - 1, q[|p|]);
    CandidatesExact(items, s, p, q[|p|]);
  }

  lemma {:induction false} TryComplete(items: seq<Item>, s: Subject, p: seq<int>, e: int, c: Span, q: seq<int>)
    requires GoodProgram(items) && Partial(items, s, p) && |p| <= |items| && 0 <= p[|p| - 1] <= |s.text|
    requires c == Candidates(items, s, p) && OnGrid(c.top, e, c.step)
    requires IsMatch(items, s, q) && p <= q && q[|p|] <= e
    ensures var r := Try(items, s, p, e, c); r.Some? && Prefers(r.value, q)
    decreases |items| + 1 - |p|, 0, if e < c.low then 0 else e - c.low + 1
  {
    NextInSpan(items, s, p, q);
    CandidatesExact(items, s, p, e);
    PartialExtends(items, s, p, e);
    SearchSound(items, s, p + [e]);
    var r := Search(items, s, p + [e]);
    if q[|p|] == e {
      assert p + [e] <= q;
      SearchComplete(items, s, p + [e], q);
    } else if r.Some? {
      assert r.value[..|p|] == p == q[..|p|];
    } else {
      GridGap(c.top, q[|p|], e, c.step);
      GridBelow(c.top, e, c.step);
      TryComplete(items, s, p, e - c.step, c, q);
    }
  }

  /** Backtracking decides matching at a start position, and its answer is the greediest match. */
  lemma SearchDecides(items: seq<Item>, s: Subject, i: int)
    requires GoodProgram(items) && 0 <= i <= |s.text|
    ensures MatchesAt(items, s, i) <==> Search(items, s, [i]).Some?
    ensures var r := Search(items, s, [i]); r.Some? ==>
      && IsMatch(items, s, r.value) && r.value[0] == i
      && forall q :: IsMatch(items, s, q) && q[0] == i ==> Prefers(r.value, q)
  {
    SearchSound(items, s, [i]);
    forall q | IsMatch(items, s, q) && q[0] == i
      ensures var r := Search(items, s, [i]); r.Some? && Prefers(r.value, q)
    {
      SearchComplete(items, s, [i], q);
    }
  }

  /** At most one match is preferred to every other: the result is determined. */
  lemma PreferredIsUnique(r: seq<int>, q: seq<int>)
    requires Prefers(r, q) && Prefers(q, r)
    ensures r == q
  {
    if r != q {
      var d :| 0 <= d < |r| && d < |q| && r[..d] == q[..d] && r[d] > q[d];
      var f :| 0 <= f < |q| && f < |r| && q[..f] == r[..f] && q[f] > r[f];
      assert forall x :: 0 <= x < d ==> r[x] == r[..d][x] && q[x] == q[..d][x];
      assert forall x :: 0 <= x < f ==> r[x] == r[..f][x] && q[x] == q[..f][x];
    }
  }

  // ----- where the search never ends -----

  /** The text allows the cuts q, which extend p and end at a stuck instruction, and no match is ahead of them. */
  ghost predicate Trap(items: seq<Item>, s: Subject, p: seq<int>, q: seq<int>) {
    && p <= q && Partial(items, s, q) && |q| <= |items| && Stuck(items, s, q)
    && forall r :: IsMatch(items, s, r) && p <= r ==> !Ahead(r, q)
  }

  /** There is a trap from start i. */
  ghost predicate Spins(items: seq<Item>, s: Subject, i: int) { exists q :: Trap(items, s, [i], q) }

  /** That is exactly where the search never ends. */
  lemma {:induction false} SpinsIff(items: seq<Item>, s: Subject, i: int)
    requires GoodProgram(items) && 0 <= i <= |s.text|
    ensures Spins(items, s, i) <==> Decide(items, s, [i]) == Never
  {
    if Decide(items, s, [i]) == Never { var q := SpinIsTrapped(items, s, [i]); }
    if Spins(items, s, i) {
      var q :| Trap(items, s, [i], q);
      TrapSpins(items, s, [i], q);
    }
  }

  lemma {:induction false} SpinIsTrapped(items: seq<Item>, s: Subject, p: seq<int>) returns (q: seq<int>)
    requires GoodProgram(items) && Partial(items, s, p) && 0 <= p[|p| - 1] <= |s.text|
    requires Decide(items, s, p) == Never
    ensures Trap(items, s, p, q)
    decreases |items| + 1 - |p|, 1, 0
  {
    if Stuck(items, s, p) {
      q := p;
    } else {
      var c := Candidates(items, s, p);
      forall r | IsMatch(items, s, r) && p <= r ensures r[|p|] <= c.top { NextInSpan(items, s, p, r); }
      q := SpinFromIsTrapped(items, s, p, c.top, c);
    }
  }

  /** The ends above e have been tried, and no match takes them. */
  lemma {:induction false} SpinFromIsTrapped(items: seq<Item>, s: Subject, p: seq<int>, e: int, c: Span)
    returns (q: seq<int>)
    requires GoodProgram(items) && Partial(items, s, p) && |p| <= |items| && 0 <= p[|p| - 1] <= |s.text|
    requires c == Candidates(items, s, p) && OnGrid(c.top, e, c.step)
    requires e <= |s.text| && DecideFrom(items, s, p, e, c) == Never
    requires forall r :: IsMatch(items, s, r) && p <= r ==> r[|p|] <= e
    ensures Trap(items, s, p, q)
    decreases |items| + 1 - |p|, 0, if e < c.low then 0 else e - c.low + 1
  {
    CandidatesExact(items, s, p, e);
    PartialExtends(items, s, p, e);
    if Decide(items, s, p + [e]) == Never {
      q := SpinIsTrapped(items, s, p + [e]);
      forall r | IsMatch(items, s, r) && p <= r ensures !Ahead(r, q) { NotAhead(p, e, r, q); }
    } else {
      GridBelow(c.top, e, c.step);
      forall r | IsMatch(items, s, r) && p <= r ensures r[|p|] <= e - c.step { TriedInVain(items, s, p, e, c, r); }
      q := SpinFromIsTrapped(items, s, p, e - c.step, c);
    }
  }

  lemma {:induction false} TriedInVain(items: seq<Item>, s: Subject, p: seq<int>, e: int, c: Span, r: seq<int>)
    requires GoodProgram(items) && Partial(items, s, p) && |p| <= |items| && 0 <= p[|p| - 1] <= |s.text|
    requires c == Candidates(items, s, p) && OnGrid(c.top, e, c.step) && 0 <= e <= |s.text|
    requires Partial(items, s, p + [e]) && Decide(items, s, p + [e]) == No
    requires IsMatch(items, s, r) && p <= r && r[|p|] <= e
    ensures r[|p|] <= e - c.step
  {
    NextInSpan(items, s, p, r);
    if r[|p|] == e {
      assert p + [e] <= r;
      SearchComplete(items, s, p + [e], r);
      DecideAgrees(items, s, p + [e]);
    } else {
      GridGap(c.top, r[|p|], e, c.step);
    }
  }

  /** Cuts that go on with e are only behind others that go on with e. */
  lemma {:induction false} NotAhead(p: seq<int>, e: int, r: seq<int>, q: seq<int>)
    requires p <= r && p + [e] <= q && |p| < |r| && r[|p|] <= e
    requires p + [e] <= r ==> !Ahead(r, q)
    ensures !Ahead(r, q)
  {
    if r[|p|] == e {
      assert p + [e] <= r;
    } else {
      forall d | 0 <= d < |r| && d < |q| && r[..d] == q[..d] ensures r[d] <= q[d] {
        assert d > |p| ==> r[..d][|p|] == q[..d][|p|];
        assert d < |p| ==> r[d] == p[d] == q[d];
      }
    }
  }

  lemma {:induction false} TrapSpins(items: seq<Item>, s: Subject, p: seq<int>, q: seq<int>)
    requires GoodProgram(items) && Partial(items, s, p) && 0 <= p[|p| - 1] <= |s.text| && Trap(items, s, p, q)
    ensures Decide(items, s, p) == Never
    decreases |items| + 1 - |p|, 1, 0
  {
    if !Stuck(items, s, p) {
      var c, e := Candidates(items, s, p), q[|p|];
      assert Cut(items, s, q, |p| - 1);
      SegmentStable(items, s, p, q, |p| - 1, e);
      CandidatesExact(items, s, p, e);
      GridBelow(c.top, e, c.step);
      TrapSpinsFrom(items, s, p, c.top, c, q);
    }
  }

  lemma {:induction false} TrapSpinsFrom(items: seq<Item>, s: Subject, p: seq<int>, e: int, c: Span, q: seq<int>)
    requires GoodProgram(items) && Partial(items, s, p) && |p| <= |items| && 0 <= p[|p| - 1] <= |s.text|
    requires c == Candidates(items, s, p) && OnGrid(c.top, e, c.step) && Trap(items, s, p, q) && |p| < |q|
    requires InSpan(c, q[|p|]) && q[|p|] <= e <= |s.text|
    ensures DecideFrom(items, s, p, e, c) == Never
    decreases |items| + 1 - |p|, 0, if e < c.low then 0 else e - c.low + 1
  {
    CandidatesExact(items, s, p, e);
    PartialExtends(items, s, p, e);
    if q[|p|] == e {
      assert p + [e] <= q;
      TrapSpins(items, s, p + [e], q);
    } else {
      NoMatchThere(items, s, p, e, q);
      GridGap(c.top, q[|p|], e, c.step);
      GridBelow(c.top, e, c.step);
      if Decide(items, s, p + [e]) == No { TrapSpinsFrom(items, s, p, e - c.step, c, q); }
    }
  }

  lemma {:induction false} NoMatchThere(items: seq<Item>, s: Subject, p: seq<int>, e: int, q: seq<int>)
    requires GoodProgram(items) && |p| <= |items| && Partial(items, s, p + [e]) && 0 <= e <= |s.text|
    requires Trap(items, s, p, q) && |p| < |q| && q[|p|] < e
    ensures Decide(items, s, p + [e]) != Yes
  {
    DecideAgrees(items, s, p + [e]);
    SearchSound(items, s, p + [e]);
    GoesAhead(p, e, Search(items, s, p + [e]), q);
  }

  /** Cuts that go on with e are ahead of those that go on with less. */
  lemma {:induction false} GoesAhead(p: seq<int>, e: int, r: Option<seq<int>>, q: seq<int>)
    requires p <= q && |p| < |q| && q[|p|] < e
    ensures r.Some? && p + [e] <= r.value ==> p <= r.value && Ahead(r.value, q)
  {
    if r.Some? && p + [e] <= r.value {
      assert r.value[..|p|] == p == q[..|p|] && r.value[|p|] == e;
    }
  }

  /** Where no cuts from the start lead to a stuck instruction, the search ends. */
  lemma {:induction false} NoEmptyLoopEnds(items: seq<Item>, s: Subject, i: int)
    requires GoodProgram(items) && 0 <= i <= |s.text| && NoEmptyLoop(items, s, i)
    ensures !Spins(items, s, i)
  {
    forall q | Partial(items, s, q) && |q| <= |items| && q[0] == i ensures !Stuck(items, s, q) {
      if items[|q| - 1].BackMany? { assert items[|q| - 1] == BackMany(items[|q| - 1].g); }
    }
  }

  lemma {:induction false} IndexIs(items: seq<Item>, it: Item, k: nat)
    requires k < |items| && items[k] == it && forall j :: 0 <= j < k ==> items[j] != it
    ensures IndexOf(items, it) == k
  {
  }

  /** The program of \(t*\)\1*: it never ends exactly from the starts where t accepts nothing. */
  lemma {:induction false} StarOfStarSpinsIff(t: Test, s: Subject, i: int)
    requires 0 <= i <= |s.text| && s.locs < 0
    ensures Decide([Open(0), Many(t), Close(0), BackMany(0)], s, [i]) == Never <==> RunEnd(t, s.text, i) == i
  {
    var items := [Open(0), Many(t), Close(0), BackMany(0)];
    var e := RunEnd(t, s.text, i);
    var p2, p3, p4 := [i, i], [i, i, e], [i, i, e, e];
    assert [i] + [i] == p2 && p2 + [e] == p3 && p3 + [e] == p4;
    StarOfStarEnd(items, s, i, e);
    assert Candidates(items, s, p3) == Exactly(e) && Decide(items, s, p3) == Decide(items, s, p4);
    assert Candidates(items, s, p2) == Span(e, i, 1) && Decide(items, s, p2) == Decide(items, s, p3);
    assert Candidates(items, s, [i]) == Exactly(i) && Decide(items, s, [i]) == Decide(items, s, p2);
  }

  lemma {:induction false} StarOfStarEnd(items: seq<Item>, s: Subject, i: int, e: int)
    requires |items| == 4 && items[0] == Open(0) && items[1].Many? && items[2] == Close(0) && items[3] == BackMany(0)
    requires 0 <= i <= e <= |s.text|
    ensures Decide(items, s, [i, i, e, e]) == if e == i then Never else Yes
  {
    var p4 := [i, i, e, e];
    var w := Captured(items, s.text, p4, 0);
    IndexIs(items, Open(0), 0);
    IndexIs(items, Close(0), 2);
    assert w == Slice(s.text, i, e) && |Slice(s.text, i, e)| == e - i;
    if e > i {
      var top := PowerEnd(s.text, w, e);
      assert Candidates(items, s, p4) == Span(top, e, |w|);
      assert Decide(items, s, p4 + [top]) == Yes;
    }
  }

  /** An empty capture that is only possible does no harm: from the start of aab the program of
      \(a*\)\1*b finds its match, though cuts with an empty group are allowed. */
  lemma {:induction false} PossibleIsNotReached(s: Subject)
    requires s.text == [97, 97, 98] && s.locs < 0
    ensures var items := [Open(0), Many(Chr(97)), Close(0), BackMany(0), One(Chr(98))];
      Decide(items, s, [0]) == Yes && !NoEmptyLoop(items, s, 0)
  {
    var items := [Open(0), Many(Chr(97)), Close(0), BackMany(0), One(Chr(98))];
    var t, text := Chr(97), s.text;
    assert RunEnd(t, text, 2) == 2 && RunEnd(t, text, 1) == 2 && RunEnd(t, text, 0) == 2;
    IndexIs(items, Open(0), 0);
    IndexIs(items, Close(0), 2);
    var p2, p3, p4, p5, p6 := [0, 0], [0, 0, 2], [0, 0, 2, 2], [0, 0, 2, 2, 2], [0, 0, 2, 2, 2, 3];
    assert [0] + [0] == p2 && p2 + [2] == p3 && p3 + [2] == p4 && p4 + [2] == p5 && p5 + [3] == p6;
    var w := Captured(items, text, p4, 0);
    assert w == [97, 97] && PowerEnd(text, w, 2) == 2;
    assert Candidates(items, s, p5) == Exactly(3) && Decide(items, s, p6) == Yes;
    assert Decide(items, s, p5) == Yes;
    assert Candidates(items, s, p4) == Span(2, 2, 2) && Decide(items, s, p4) == Yes;
    assert Candidates(items, s, p3) == Exactly(2) && Decide(items, s, p3) == Yes;
    assert Candidates(items, s, p2) == Span(2, 0, 1) && Decide(items, s, p2) == Yes;
    assert Candidates(items, s, [0]) == Exactly(0);
    EmptyIsPossible(items, s);
  }

  lemma {:induction false} EmptyIsPossible(items: seq<Item>, s: Subject)
    requires s.text == [97, 97, 98] && s.locs < 0
    requires items == [Open(0), Many(Chr(97)), Close(0), BackMany(0), One(Chr(98))]
    ensures !NoEmptyLoop(items, s, 0)
  {
    var p := [0, 0, 0, 0];
    assert forall k :: 0 <= k < 3 ==> Cut(items, s, p, k);
    IndexIs(items, Open(0), 0);
    IndexIs(items, Close(0), 2);
    assert Captured(items, s.text, p, 0) == [];
    assert Partial(items, s, p) && items[|p| - 1] == BackMany(0);
  }
}
