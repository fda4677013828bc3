/** The matcher of regexp.h: `advance` and `step`, with the globals they share. */
module RegexpMatch {
  import opened Buffers
  import opened Wrappers
  import opened RegexpCode
  import opened RegexpSearch

  // ----- operand bytes -----

  function Width(op: byte): int {
    if op == CCHR then 1 else if op == CDOT then 0 else if op == CXCL then 32 else 16
  }

  predicate IsTest(op: byte) { op in {CCHR, CDOT, CCL, NCCL, CXCL} }

  /** One character against the operand at ep, as each opcode tests it. */
  predicate Accepts(op: byte, prog: seq<byte>, ep: int, c: byte)
    requires 0 <= ep && ep + Width(op) <= |prog|
  {
    if op == CCHR then prog[ep] == c
    else if op == CDOT then c != 0
    else if op == CXCL then Bit(prog[ep + c / 8], c % 8)
    else if op == NCCL then !(c < 128 && Bit(prog[ep + c / 8], c % 8))
    else c < 128 && Bit(prog[ep + c / 8], c % 8)
  }

  /** The operand of the test t stands at ep. */
  predicate Operand(t: Test, prog: seq<byte>, ep: int) {
    && GoodTest(t)
    && 0 <= ep && ep + Width(TestOp(t)) <= |prog|
    && prog[ep..ep + Width(TestOp(t))] == TestArgs(t)
  }

  lemma AcceptsIsHas(t: Test, prog: seq<byte>, ep: int, c: byte)
    requires Operand(t, prog, ep)
    ensures Accepts(TestOp(t), prog, ep, c) == Has(t, c)
  {
    var args := prog[ep..ep + Width(TestOp(t))];
    match t
    case Chr(_) => assert args[0] == prog[ep];
    case Dot =>
    case Ccl(bits) => if c < 128 { assert bits[c / 8] == prog[ep + c / 8]; }
    case Nccl(bits) => if c < 128 { assert bits[c / 8] == prog[ep + c / 8]; }
    case Cxcl(bits) => assert bits[c / 8] == prog[ep + c / 8];
  }

  lemma WidthOfArgs(t: Test)
    requires GoodTest(t)
    ensures |TestArgs(t)| == Width(TestOp(t))
  {
  }

  lemma OperandHere(prog: seq<byte>, ep: int, rest: seq<Item>, t: Test)
    requires At(prog, ep, rest) && rest != []
    requires rest[0] == One(t) || rest[0] == Many(t) || exists lo, hi :: rest[0] == Count(t, lo, hi)
    requires GoodTest(t)
    ensures Operand(t, prog, ep + 1)
  {
    AtStep(prog, ep, rest);
    var code := prog[ep..ep + |Code(rest[0])|];
    var w := Width(TestOp(t));
    var args := Assemble(rest[0]).args;
    WidthOfArgs(t);
    assert args[..w] == TestArgs(t);
    assert code == Code(rest[0]);
    assert code[1..1 + w] == args[..w] by { assert code[1..] == args; }
    assert prog[ep + 1..ep + 1 + w] == code[1..1 + w];
  }

  // ----- strncmp on the subject -----

  /** ecmp: strncmp of two places in the NUL-terminated text. */
  predicate Ecmp(text: seq<byte>, a: int, b: int, n: int)
    requires 0 <= a <= |text| && 0 <= b <= |text| && 0 <= n
    decreases n
  {
    n == 0 || (Deref(text, a) == Deref(text, b) && (a == |text| || b == |text| || Ecmp(text, a + 1, b + 1, n - 1)))
  }

  predicate NoNul(text: seq<byte>) { forall i :: 0 <= i < |text| ==> text[i] != 0 }

  lemma {:induction false} EcmpExact(text: seq<byte>, a: int, b: int, n: int)
    requires NoNul(text) && 0 <= n && 0 <= a && a + n <= |text| && 0 <= b <= |text|
    ensures Ecmp(text, a, b, n) <==> b + n <= |text| && text[b..b + n] == text[a..a + n]
    decreases n
  {
    if n > 0 && b < |text| {
      EcmpExact(text, a + 1, b + 1, n - 1);
      if b + n <= |text| {
        assert text[b..b + n] == [text[b]] + text[b + 1..b + 1 + (n - 1)];
        assert text[a..a + n] == [text[a]] + text[a + 1..a + 1 + (n - 1)];
        assert text[b..b + n][1..] == text[b + 1..b + 1 + (n - 1)];
        assert text[a..a + n][1..] == text[a + 1..a + 1 + (n - 1)];
        assert text[b..b + n][0] == text[b] && text[a..a + n][0] == text[a];
      }
    }
  }

  lemma EcmpCopy(text: seq<byte>, w: seq<byte>, a: int, b: int)
    requires NoNul(text) && 0 <= a && a + |w| <= |text| && 0 <= b <= |text|
    requires Slice(text, a, a + |w|) == w
    ensures Ecmp(text, a, b, |w|) <==> b + |w| <= |text| && Slice(text, b, b + |w|) == w
  {
    EcmpExact(text, a, b, |w|);
  }

  lemma CopyStep(text: seq<byte>, w: seq<byte>, a: int, i: int)
    requires NoNul(text) && 0 <= a && a + |w| <= |text| && 0 <= i <= |text| && w != []
    requires Slice(text, a, a + |w|) == w
    ensures if Ecmp(text, a, i, |w|) then i + |w| <= |text| && PowerEnd(text, w, i) == PowerEnd(text, w, i + |w|)
            else PowerEnd(text, w, i) == i
  {
    EcmpCopy(text, w, a, i);
  }

  // ----- captures -----

  /** The capture arrays hold the cut points of every group marker passed so far. */
  predicate Captures(items: seq<Item>, p: seq<int>, bras: seq<int>, brae: seq<int>) {
    && |bras| == |brae| == NBRA
    && forall k :: 0 <= k < |p| - 1 && k < |items| ==>
      && (items[k].Open? && items[k].g < NBRA ==> bras[items[k].g] == p[k])
      && (items[k].Close? && items[k].g < NBRA ==> brae[items[k].g] == p[k])
  }

  lemma {:induction false} CutsAscend(items: seq<Item>, s: Subject, p: seq<int>, a: int, b: int)
    requires Partial(items, s, p) && 0 <= a <= b < |p|
    ensures 0 <= p[a] <= p[b] <= |s.text|
    decreases b - a
  {
    if a < b {
      CutsAscend(items, s, p, a, b - 1);
      assert Cut(items, s, p, b - 1);
    } else if a > 0 {
      assert Cut(items, s, p, a - 1);
    }
  }

  lemma CaptureHere(items: seq<Item>, s: Subject, p: seq<int>, bras: seq<int>, brae: seq<int>, g: byte)
    requires GoodProgram(items) && Partial(items, s, p) && Captures(items, p, bras, brae)
    requires g < NBRA && IndexOf(items, Close(g)) < |p| - 1
    ensures 0 <= bras[g] <= brae[g] <= |s.text|
    ensures Slice(s.text, bras[g], brae[g]) == Captured(items, s.text, p, g)
    ensures |Captured(items, s.text, p, g)| == brae[g] - bras[g]
  {
    var a, b := IndexOf(items, Open(g)), IndexOf(items, Close(g));
    assert GoodItem(items, b);
    CutsAscend(items, s, p, a, b);
  }

  // ----- one instruction at a time -----

  /** Instructions with a single way to go on. */
  predicate IsPlain(it: Item) { !it.Many? && !it.Count? && !it.BackMany? }

  predicate IsPlainOp(op: byte) { IsTest(op) || op in {CBRA, CKET, CBACK, CDOL} }

  lemma OpKind(it: Item)
    ensures IsPlain(it) <==> IsPlainOp(Code(it)[0])
    ensures Code(it)[0] != CCEOF
  {
  }

  /** The opcode at ep tells what is left of the program. */
  lemma Fetch(prog: seq<byte>, ep: int, items: seq<Item>, n: nat)
    requires 1 <= n <= |items| + 1 && At(prog, ep, items[n - 1..])
    ensures ep < |prog|
    ensures n == |items| + 1 <==> prog[ep] == CCEOF
    ensures n <= |items| ==> prog[ep] == Code(items[n - 1])[0] && (IsPlain(items[n - 1]) <==> IsPlainOp(prog[ep]))
  {
    var rest := items[n - 1..];
    assert prog[ep..][0] == prog[ep];
    if n <= |items| {
      assert rest[0] == items[n - 1];
      OpKind(rest[0]);
      assert Encode(rest)[0] == Code(rest[0])[0];
    }
  }

  lemma NextAt(prog: seq<byte>, ep: int, items: seq<Item>, n: nat)
    requires 1 <= n <= |items| && At(prog, ep, items[n - 1..])
    ensures ep + |Code(items[n - 1])| <= |prog| && At(prog, ep + |Code(items[n - 1])|, items[n..])
    ensures prog[ep..ep + |Code(items[n - 1])|] == Code(items[n - 1])
  {
    AtStep(prog, ep, items[n - 1..]);
    assert items[n - 1..][1..] == items[n..];
  }

  lemma SpanStep(items: seq<Item>, s: Subject, p: seq<int>, e: int)
    requires GoodProgram(items) && Partial(items, s, p) && |p| <= |items| && 0 <= p[|p| - 1] <= |s.text|
    requires InSpan(Candidates(items, s, p), e)
    ensures 0 <= e <= |s.text| && Partial(items, s, p + [e])
  {
    CandidatesExact(items, s, p, e);
    PartialExtends(items, s, p, e);
  }

  lemma OnlyOne(items: seq<Item>, s: Subject, p: seq<int>, e: int)
    requires 1 <= |p| <= |items| && 0 <= p[|p| - 1] <= |s.text| && 0 <= e <= |s.text|
    requires Candidates(items, s, p) == Exactly(e)
    ensures Search(items, s, p) == Search(items, s, p + [e])
  {
    hide Candidates;
    var c := Candidates(items, s, p);
    assert Try(items, s, p, e - c.step, c) == None;
  }

  /** At the end of the program the cuts are the match. */
  lemma WholeMatch(items: seq<Item>, s: Subject, p: seq<int>)
    requires |p| == |items| + 1 && 0 <= p[|p| - 1] <= |s.text|
    ensures Search(items, s, p) == Some(p) && Decide(items, s, p) == Yes
  {
  }

  lemma NothingFound(items: seq<Item>, s: Subject, p: seq<int>)
    requires 1 <= |p| <= |items| && 0 <= p[|p| - 1] <= |s.text|
    requires Candidates(items, s, p) == NOTHING && !items[|p| - 1].BackMany?
    ensures Search(items, s, p) == None && Decide(items, s, p) == No
  {
    hide Candidates;
  }

  lemma OnlyDecide(items: seq<Item>, s: Subject, p: seq<int>, e: int)
    requires 1 <= |p| <= |items| && 0 <= p[|p| - 1] <= |s.text| && 0 <= e <= |s.text|
    requires Candidates(items, s, p) == Exactly(e) && !items[|p| - 1].BackMany?
    ensures Decide(items, s, p) == Decide(items, s, p + [e])
  {
    hide Candidates;
    var c := Candidates(items, s, p);
    assert DecideFrom(items, s, p, e - c.step, c) == No;
  }

  /** What every entry into the matcher needs: a supported program whose instruction number
      |p| - 1 stands at ep, and cut points p that lead to lp. */
  ghost predicate Entry(s: Subject, lp: int, prog: seq<byte>, ep: int, items: seq<Item>, p: seq<int>) {
    && NoNul(s.text) && GoodProgram(items)
    && Partial(items, s, p) && lp == p[|p| - 1] && 0 <= lp <= |s.text|
    && At(prog, ep, items[|p| - 1..])
  }

  /** Taking an allowed end is an entry at the next instruction. */
  lemma EntryNext(s: Subject, lp: int, prog: seq<byte>, ep: int, items: seq<Item>, p: seq<int>, e: int)
    requires Entry(s, lp, prog, ep, items, p) && |p| <= |items|
    requires InSpan(Candidates(items, s, p), e)
    ensures 0 <= e <= |s.text|
    ensures Entry(s, e, prog, ep + |Code(items[|p| - 1])|, items, p + [e])
  {
    SpanStep(items, s, p, e);
    NextAt(prog, ep, items, |p|);
  }

  /** A plain test goes on past one character, or not at all. */
  lemma TestHere(s: Subject, lp: int, prog: seq<byte>, ep: int, items: seq<Item>, p: seq<int>)
    requires Entry(s, lp, prog, ep, items, p) && |p| <= |items| && items[|p| - 1].One?
    ensures ep + 1 <= |prog| && IsTest(prog[ep]) && ep + 1 + Width(prog[ep]) == ep + |Code(items[|p| - 1])| <= |prog|
    ensures var ok := Accepts(prog[ep], prog, ep + 1, Deref(s.text, lp));
            Candidates(items, s, p) == if ok then Exactly(lp + 1) else NOTHING
  {
    var t := items[|p| - 1].t;
    assert GoodItem(items, |p| - 1);
    Fetch(prog, ep, items, |p|);
    NextAt(prog, ep, items, |p|);
    OperandHere(prog, ep, items[|p| - 1..], t);
    AcceptsIsHas(t, prog, ep + 1, Deref(s.text, lp));
  }

  /** The operand of a starred or counted test, and where its two limits stand. */
  lemma RepeatHere(s: Subject, lp: int, prog: seq<byte>, ep: int, items: seq<Item>, p: seq<int>)
    requires Entry(s, lp, prog, ep, items, p) && |p| <= |items|
    requires items[|p| - 1].Many? || items[|p| - 1].Count?
    ensures var it := items[|p| - 1];
            ep < |prog| && prog[ep] == TestOp(it.t) + (if it.Many? then STAR else RNGE) && Operand(it.t, prog, ep + 1)
    ensures var it := items[|p| - 1]; var args := ep + 1 + Width(TestOp(it.t));
      && ep + |Code(it)| == (if it.Many? then args else args + 2) <= |prog|
      && (it.Count? ==> prog[args] == it.lo && prog[args + 1] == it.hi && it.lo <= it.hi)
  {
    var it := items[|p| - 1];
    assert GoodItem(items, |p| - 1);
    Fetch(prog, ep, items, |p|);
    NextAt(prog, ep, items, |p|);
    OperandHere(prog, ep, items[|p| - 1..], it.t);
    assert |TestArgs(it.t)| == Width(TestOp(it.t));
    if it.Count? {
      var code, w := prog[ep..ep + |Code(it)|], Width(TestOp(it.t));
      assert code[1 + w] == it.lo && code[2 + w] == it.hi;
      assert prog[ep + 1 + w] == code[1 + w] && prog[ep + 2 + w] == code[2 + w];
    }
  }

  /** The ends that a repeated test may have. */
  lemma RepeatSpan(items: seq<Item>, s: Subject, p: seq<int>)
    requires 1 <= |p| <= |items| && 0 <= p[|p| - 1] <= |s.text| && (items[|p| - 1].Many? || items[|p| - 1].Count?)
    ensures var it, i := items[|p| - 1], p[|p| - 1]; var end := RunEnd(it.t, s.text, i);
      Candidates(items, s, p) ==
        if it.Many? then StarSpan(s, i, end)
        else if i + it.lo <= end then StarSpan(s, i + it.lo, Min(end, i + CountMax(s, it.lo, it.hi)))
        else NOTHING
  {
  }

  /** The group number of a marker or back-reference. */
  lemma GroupHere(s: Subject, lp: int, prog: seq<byte>, ep: int, items: seq<Item>, p: seq<int>)
    requires Entry(s, lp, prog, ep, items, p) && |p| <= |items|
    requires var it := items[|p| - 1]; it.Open? || it.Close? || it.Back? || it.BackMany?
    ensures ep + 1 < |prog| && prog[ep] == Code(items[|p| - 1])[0] && prog[ep + 1] == items[|p| - 1].g < NBRA
  {
    assert GoodItem(items, |p| - 1);
    Fetch(prog, ep, items, |p|);
    NextAt(prog, ep, items, |p|);
    assert prog[ep..ep + |Code(items[|p| - 1])|][1] == items[|p| - 1].g;
  }

  lemma MarkHere(items: seq<Item>, p: seq<int>, bras: seq<int>, brae: seq<int>)
    requires GoodProgram(items) && 1 <= |p| <= |items| && Captures(items, p, bras, brae)
    ensures var it, lp := items[|p| - 1], p[|p| - 1];
      && (it.Open? ==> it.g < NBRA && Captures(items, p + [lp], bras[it.g := lp], brae))
      && (it.Close? ==> it.g < NBRA && Captures(items, p + [lp], bras, brae[it.g := lp]))
  {
    assert GoodItem(items, |p| - 1);
  }

  lemma {:induction false} TryStep(items: seq<Item>, s: Subject, p: seq<int>, e: int, c: Span)
    requires 1 <= |p| <= |items| && 0 <= p[|p| - 1] <= |s.text|
    requires c.step > 0 && 0 <= c.low <= e <= |s.text|
    ensures Search(items, s, p + [e]).Some? ==> Try(items, s, p, e, c) == Search(items, s, p + [e])
    ensures Search(items, s, p + [e]).None? ==> Try(items, s, p, e, c) == Try(items, s, p, e - c.step, c)
    ensures var r := Decide(items, s, p + [e]);
      DecideFrom(items, s, p, e, c) == if r == No then DecideFrom(items, s, p, e - c.step, c) else r
  {
  }

  lemma NoMarkHere(items: seq<Item>, p: seq<int>, e: int, bras: seq<int>, brae: seq<int>)
    requires 1 <= |p| <= |items| && !items[|p| - 1].Open? && !items[|p| - 1].Close?
    ensures Captures(items, p + [e], bras, brae) <==> Captures(items, p, bras, brae)
  {
    CapturesPrefixes(items, p, e, bras, brae);
  }

  lemma CapturesPrefixes(items: seq<Item>, p: seq<int>, e: int, bras: seq<int>, brae: seq<int>)
    requires |p| >= 1
    ensures Captures(items, p + [e], bras, brae) ==> Captures(items, p, bras, brae)
  {
    if Captures(items, p + [e], bras, brae) { CapturesPrefix(items, p, p + [e], bras, brae); }
  }

  lemma BackHere(s: Subject, lp: int, prog: seq<byte>, ep: int, items: seq<Item>, p: seq<int>,
                 bras: seq<int>, brae: seq<int>)
    requires Entry(s, lp, prog, ep, items, p) && Captures(items, p, bras, brae) && |p| <= |items|
    requires items[|p| - 1].Back? || items[|p| - 1].BackMany?
    ensures var g := items[|p| - 1].g; g < NBRA && 0 <= bras[g] <= brae[g] <= |s.text|
    ensures var g := items[|p| - 1].g; Slice(s.text, bras[g], brae[g]) == Captured(items, s.text, p, g)
    ensures var g := items[|p| - 1].g; |Captured(items, s.text, p, g)| == brae[g] - bras[g]
    ensures var g := items[|p| - 1].g; var ct := brae[g] - bras[g]; items[|p| - 1].Back? ==>
      Candidates(items, s, p) == if Ecmp(s.text, bras[g], lp, ct) then Exactly(lp + ct) else NOTHING
  {
    var g := items[|p| - 1].g;
    assert GoodItem(items, |p| - 1);
    CaptureHere(items, s, p, bras, brae, g);
    EcmpCopy(s.text, Captured(items, s.text, p, g), bras[g], lp);
  }

  lemma CapturesPrefix(items: seq<Item>, p: seq<int>, q: seq<int>, bras: seq<int>, brae: seq<int>)
    requires Captures(items, q, bras, brae) && p <= q
    ensures Captures(items, p, bras, brae)
  {
  }

  // ----- the matcher -----

  class Matcher {
    const braslist: array<int>
    const braelist: array<int>
    const uchar: bool   // plain char is unsigned on this machine
    var circf: bool
    var locs: int       // negative stands for a null pointer
    var loc1: int
    var loc2: int
    var low: int
    var size: int

    constructor (uchar: bool)
      ensures Valid() && fresh(braslist) && fresh(braelist) && this.uchar == uchar
    {
      this.uchar := uchar;
      braslist, braelist := new int[NBRA], new int[NBRA];
    }

    ghost predicate Valid() {
      braslist.Length == braelist.Length == NBRA && braslist != braelist
    }

    ghost function Subj(text: seq<byte>): Subject
      reads this`locs
    {
      Subject(text, locs, uchar)
    }

    ghost predicate Held(items: seq<Item>, p: seq<int>)
      reads braslist, braelist
    {
      Captures(items, p, braslist[..], braelist[..])
    }

    ghost predicate Ready(text: seq<byte>, lp: int, prog: seq<byte>, ep: int, items: seq<Item>, p: seq<int>)
      reads this`locs, braslist, braelist
    {
      Valid() && Entry(Subj(text), lp, prog, ep, items, p) && Held(items, p)
    }

    /** r is what becomes of the search from p; when it ends, the captures up to p stand, and loc2 and the
        captures are those of the match it found. */
    ghost predicate Result(text: seq<byte>, items: seq<Item>, p: seq<int>, r: Verdict)
      requires 1 <= |p| <= |items| + 1 && 0 <= p[|p| - 1] <= |text|
      reads this`locs, this`loc2, braslist, braelist
    {
      var f := Search(items, Subj(text), p);
      && r == Decide(items, Subj(text), p)
      && (r != Never ==> Held(items, p) && (r == Yes <==> f.Some?))
      && (r == Yes ==> |f.value| > 0 && loc2 == f.value[|f.value| - 1] && Held(items, f.value))
    }

    method GetRnge(prog: seq<byte>, str: int)
      requires 0 <= str && str + 1 < |prog|
      modifies this`low, this`size
      ensures low == prog[str]
      ensures prog[str + 1] == 255 && uchar ==> size == 20000
      ensures prog[str + 1] != 255 || !uchar ==> low + size == prog[str + 1]
    {
      low := prog[str];
      size := if prog[str + 1] == 255 && uchar then 20000 else prog[str + 1] - low;
    }

    /** The loop of a starred test: past the characters that pass it, and one more. */
    method Run(text: seq<byte>, lp: int, prog: seq<byte>, op: byte, ep: int, ghost t: Test) returns (end: int)
      requires Operand(t, prog, ep) && op == TestOp(t) && 0 <= lp <= |text|
      ensures end == RunEnd(t, text, lp) + 1
    {
      end := lp;
      while true
        invariant lp <= end <= |text| && RunEnd(t, text, end) == RunEnd(t, text, lp)
        decreases |text| - end
      {
        var c := Deref(text, end);
        AcceptsIsHas(t, prog, ep, c);
        end := end + 1;
        if !Accepts(op, prog, ep, c) { break; }
      }
    }

    /** The two counting loops of a range: `low` mandatory characters, then up to `size` more. */
    method CountedRun(text: seq<byte>, lp: int, prog: seq<byte>, op: byte, ep: int, ghost t: Test)
      returns (ok: bool, curlp: int, end: int)
      requires Operand(t, prog, ep) && op == TestOp(t) && 0 <= lp <= |text|
      requires low >= 0 && size >= 0
      modifies this`low, this`size
      ensures ok <==> lp + old(low) <= RunEnd(t, text, lp)
      ensures ok ==> curlp == lp + old(low) && end == Min(RunEnd(t, text, lp), curlp + old(size)) + 1
    {
      end, curlp := lp, lp;
      while low != 0
        invariant 0 <= low <= old(low) && end == lp + (old(low) - low) <= |text|
        invariant RunEnd(t, text, end) == RunEnd(t, text, lp) && size == old(size)
        decreases low
      {
        low := low - 1;
        var c := Deref(text, end);
        AcceptsIsHas(t, prog, ep, c);
        end := end + 1;
        if !Accepts(op, prog, ep, c) { return false, curlp, end; }
      }
      low := low - 1;
      curlp := end;
      while true
        invariant 0 <= size <= old(size) && end == curlp + (old(size) - size) <= |text|
        invariant RunEnd(t, text, end) == RunEnd(t, text, lp)
        decreases size
      {
        var n := size;
        size := size - 1;
        if n == 0 { break; }
        var c := Deref(text, end);
        AcceptsIsHas(t, prog, ep, c);
        end := end + 1;
        if !Accepts(op, prog, ep, c) { break; }
      }
      if size < 0 { end := end + 1; }
      return true, curlp, end;
    }

    /** Try the rest of the program from one allowed end of a repeated instruction. */
    method TryEnd(text: seq<byte>, lp: int, prog: seq<byte>, ep: int, ghost items: seq<Item>, ghost p: seq<int>)
      returns (r: Verdict)
      requires 1 <= |p| <= |items| && !IsPlain(items[|p| - 1])
      requires Ready(text, p[|p| - 1], prog, ep - |Code(items[|p| - 1])|, items, p)
      requires InSpan(Candidates(items, Subj(text), p), lp)
      modifies this`low, this`size, this`loc2, braslist, braelist
      ensures 0 <= lp <= |text| && Result(text, items, p + [lp], r) && (r != Never ==> Held(items, p))
      decreases |items| + 1 - |p|, 0, 0
    {
      NoMarkHere(items, p, lp, braslist[..], braelist[..]);
      EntryNext(Subj(text), p[|p| - 1], prog, ep - |Code(items[|p| - 1])|, items, p, lp);
      r := Advance(text, lp, prog, ep, items, p + [lp]);
      if r == Never { return; }
      NoMarkHere(items, p, lp, braslist[..], braelist[..]);
    }

    /** The label `star`: hand the rest of the program shorter and shorter runs. */
    method Star(text: seq<byte>, lp0: int, curlp: int, prog: seq<byte>, ep: int, ghost items: seq<Item>,
        ghost p: seq<int>)
      returns (r: Verdict)
      requires 1 <= |p| <= |items| && !IsPlain(items[|p| - 1])
      requires Ready(text, p[|p| - 1], prog, ep - |Code(items[|p| - 1])|, items, p)
      requires curlp < lp0 <= |text| + 1
      requires Candidates(items, Subj(text), p) == StarSpan(Subj(text), curlp, lp0 - 1) && !items[|p| - 1].BackMany?
      modifies this`low, this`size, this`loc2, braslist, braelist
      ensures Result(text, items, p, r)
      decreases |items| + 1 - |p|, 1, 0
    {
      hide Partial, GoodProgram, Captures, At, OnGrid, Candidates;
      var lp := lp0;
      ghost var s := Subj(text);
      ghost var c := Candidates(items, s, p);
      ghost var goal, out := Search(items, s, p), Decide(items, s, p);
      while true
        invariant curlp < lp <= lp0
        invariant curlp <= s.locs < lp0 ==> s.locs < lp
        invariant Held(items, p)
        invariant goal == Try(items, s, p, lp - 1, c) && out == DecideFrom(items, s, p, lp - 1, c)
        decreases lp
      {
        lp := lp - 1;
        if lp == locs { break; }
        UnitGrid(c.top, lp);
        TryStep(items, s, p, lp, c);
        r := TryEnd(text, lp, prog, ep, items, p);
        if r != No { return; }
        if !(lp > curlp) { break; }
      }
      return No;
    }

    /** The cases of `advance` that go on without a choice. */
    method Single(text: seq<byte>, lp: int, prog: seq<byte>, ep: int, ghost items: seq<Item>, ghost p: seq<int>)
      returns (ok: bool, lp': int, ep': int)
      requires 1 <= |p| <= |items| && Ready(text, lp, prog, ep, items, p) && IsPlain(items[|p| - 1])
      modifies braslist, braelist
      ensures ok ==> 0 <= lp' <= |text| && Candidates(items, Subj(text), p) == Exactly(lp')
                     && ep' == ep + |Code(items[|p| - 1])| && Held(items, p + [lp'])
      ensures !ok ==> Candidates(items, Subj(text), p) == NOTHING && Held(items, p)
    {
      ghost var s, bras, brae := Subj(text), braslist[..], braelist[..];
      Fetch(prog, ep, items, |p|);
      var op := prog[ep];
      lp', ep' := lp, ep + 1;
      MarkHere(items, p, bras, brae);
      if IsTest(op) {
        NoMarkHere(items, p, lp + 1, bras, brae);
        TestHere(s, lp, prog, ep, items, p);
        if !Accepts(op, prog, ep', Deref(text, lp)) { return false, lp, ep; }
        return true, lp + 1, ep' + Width(op);
      }
      if op == CDOL {
        NoMarkHere(items, p, lp, bras, brae);
        return lp == |text|, lp, ep';
      }
      GroupHere(s, lp, prog, ep, items, p);
      var g := prog[ep'];
      ep' := ep' + 1;
      if op == CBRA {
        braslist[g] := lp;
        assert braslist[..] == bras[g := lp] && braelist[..] == brae;
        return true, lp, ep';
      } else if op == CKET {
        braelist[g] := lp;
        assert braelist[..] == brae[g := lp] && braslist[..] == bras;
        return true, lp, ep';
      } else {
        BackHere(s, lp, prog, ep, items, p, bras, brae);
        var bbeg := braslist[g];
        var ct := braelist[g] - bbeg;
        NoMarkHere(items, p, lp + ct, bras, brae);
        if Ecmp(text, bbeg, lp, ct) { return true, lp + ct, ep'; }
        return false, lp, ep;
      }
    }

    /** The loop of a starred back-reference: past copy after copy of the capture. */
    method CopyRun(text: seq<byte>, bbeg: int, ct: int, lp: int, ghost w: seq<byte>) returns (end: int)
      requires NoNul(text) && 0 <= lp <= |text| && 0 <= bbeg && 0 < ct == |w| && bbeg + ct <= |text|
      requires Slice(text, bbeg, bbeg + ct) == w
      ensures end == PowerEnd(text, w, lp)
    {
      hide PowerEnd, Ecmp;
      end := lp;
      ghost var goal := PowerEnd(text, w, lp);
      while true
        invariant lp <= end <= |text| && PowerEnd(text, w, end) == goal
        decreases |text| - end
      {
        CopyStep(text, w, bbeg, end);
        if !Ecmp(text, bbeg, end, ct) { break; }
        end := end + ct;
      }
    }

    /** CBACK | STAR: as many copies of the capture as possible, then one fewer at a time. */
    method BackStar(text: seq<byte>, curlp: int, prog: seq<byte>, ep: int, ghost items: seq<Item>, ghost p: seq<int>)
      returns (r: Verdict)
      requires 1 <= |p| <= |items| && Ready(text, curlp, prog, ep, items, p) && items[|p| - 1].BackMany?
      modifies this`low, this`size, this`loc2, braslist, braelist
      ensures Result(text, items, p, r)
      decreases |items| + 1 - |p|, 1, 1
    {
      ghost var s := Subj(text);
      GroupHere(s, curlp, prog, ep, items, p);
      BackHere(s, curlp, prog, ep, items, p, braslist[..], braelist[..]);
      var g := prog[ep + 1];
      var bbeg := braslist[g];
      var ct := braelist[g] - bbeg;
      if ct == 0 {
        CopyLoopEndsIff(text, bbeg, ct, curlp);
        return Never;     // the comparison of no characters always holds, and moves nothing
      }
      var lp := CopyRun(text, bbeg, ct, curlp, Captured(items, text, p, g));
      assert Candidates(items, s, p) == Span(lp, curlp, ct);
      r := FewerCopies(text, lp, ct, curlp, prog, ep + 2, items, p);
    }

    /** Its second loop: the rest of the program is tried behind ever fewer copies. */
    method FewerCopies(text: seq<byte>, lp0: int, ct: int, curlp: int, prog: seq<byte>, ep: int,
                       ghost items: seq<Item>, ghost p: seq<int>)
      returns (r: Verdict)
      requires 1 <= |p| <= |items| && Ready(text, curlp, prog, ep - 2, items, p) && items[|p| - 1].BackMany?
      requires ct > 0 && Candidates(items, Subj(text), p) == Span(lp0, curlp, ct) && !Stuck(items, Subj(text), p)
      modifies this`low, this`size, this`loc2, braslist, braelist
      ensures Result(text, items, p, r)
      decreases |items| + 1 - |p|, 1, 0
    {
      hide Partial, GoodProgram, Captures, Candidates, Held;
      var lp := lp0;
      ghost var s, c := Subj(text), Span(lp0, curlp, ct);
      ghost var goal, out := Search(items, s, p), Decide(items, s, p);
      while lp >= curlp
        invariant OnGrid(lp0, lp, ct) && lp <= lp0
        invariant Held(items, p)
        invariant goal == Try(items, s, p, lp, c) && out == DecideFrom(items, s, p, lp, c)
        decreases lp
      {
        TryStep(items, s, p, lp, c);
        r := TryEnd(text, lp, prog, ep, items, p);
        if r != No { return; }
        GridBelow(lp0, lp, ct);
        lp := lp - ct;
      }
      return No;
    }

    /** The starred and counted cases of `advance`. */
    method Repeated(text: seq<byte>, lp: int, prog: seq<byte>, ep: int, ghost items: seq<Item>, ghost p: seq<int>)
      returns (r: Verdict)
      requires 1 <= |p| <= |items| && Ready(text, lp, prog, ep, items, p) && !IsPlain(items[|p| - 1])
      modifies this`low, this`size, this`loc2, braslist, braelist
      ensures Result(text, items, p, r)
      decreases |items| + 1 - |p|, 2, 0
    {
      hide Search, Try, Decide, DecideFrom, Candidates, Cut, Captures, Held, GoodProgram, GoodTest, Operand, Encode;
      Fetch(prog, ep, items, |p|);
      var op := prog[ep];
      if op == CBACK + STAR {
        r := BackStar(text, lp, prog, ep, items, p);
        return;
      }
      RepeatHere(Subj(text), lp, prog, ep, items, p);
      RepeatSpan(items, Subj(text), p);
      if IsTest(op - STAR) {
        var end := Run(text, lp, prog, op - STAR, ep + 1, items[|p| - 1].t);
        r := Star(text, end, lp, prog, ep + 1 + Width(op - STAR), items, p);
      } else {
        var operands := ep + 1 + Width(op - RNGE);
        GetRnge(prog, operands);
        var ok, curlp, end := CountedRun(text, lp, prog, op - RNGE, ep + 1, items[|p| - 1].t);
        if !ok {
          NothingFound(items, Subj(text), p);
          return No;
        }
        r := Star(text, end, curlp, prog, operands + 2, items, p);
      }
    }

    /** advance: decide the program from ep against the text from lp. */
    method Advance(text: seq<byte>, lp0: int, prog: seq<byte>, ep0: int, ghost items: seq<Item>, ghost p0: seq<int>)
      returns (r: Verdict)
      requires Ready(text, lp0, prog, ep0, items, p0)
      modifies this`low, this`size, this`loc2, braslist, braelist
      ensures Result(text, items, p0, r)
      decreases |items| + 1 - |p0|, 3, 0
    {
      hide Search, Try, Decide, DecideFrom, Candidates, Cut, GoodProgram, Captures;
      var lp, ep := lp0, ep0;
      ghost var p, s := p0, Subj(text);
      while true
        invariant p0 <= p && p[0] == p0[0] && Ready(text, lp, prog, ep, items, p)
        invariant Search(items, s, p) == Search(items, s, p0) && Decide(items, s, p) == Decide(items, s, p0)
        decreases |items| + 1 - |p|
      {
        Fetch(prog, ep, items, |p|);
        if prog[ep] == CCEOF {
          WholeMatch(items, s, p);
          CapturesPrefix(items, p0, p, braslist[..], braelist[..]);
          loc2 := lp;
          return Yes;
        }
        if !IsPlainOp(prog[ep]) {
          r := Repeated(text, lp, prog, ep, items, p);
          if r != Never { CapturesPrefix(items, p0, p, braslist[..], braelist[..]); }
          return;
        }
        var ok, lp', ep' := Single(text, lp, prog, ep, items, p);
        if !ok {
          NothingFound(items, s, p);
          CapturesPrefix(items, p0, p, braslist[..], braelist[..]);
          return No;
        }
        OnlyOne(items, s, p, lp');
        OnlyDecide(items, s, p, lp');
        EntryNext(s, lp, prog, ep, items, p, lp');
        lp, ep, p := lp', ep', p + [lp'];
      }
    }

    /** The matcher's answer from `start`: a match, and the greediest of all matches there. */
    ghost predicate Best(text: seq<byte>, items: seq<Item>, start: int)
      reads this`locs, this`loc2, braslist, braelist
    {
      exists q :: BestCuts(text, items, start, q)
    }

    ghost predicate BestCuts(text: seq<byte>, items: seq<Item>, start: int, q: seq<int>)
      reads this`locs, this`loc2, braslist, braelist
    {
      && IsMatch(items, Subj(text), q) && q[0] == start && loc2 == q[|q| - 1] && Held(items, q)
      && forall q' :: IsMatch(items, Subj(text), q') && q'[0] == start ==> Prefers(q, q')
    }

    /** The matcher started at the beginning of a program, in terms of what the program means: it never ends
        exactly when its search comes to a stuck instruction, and otherwise it decides. */
    method AdvanceFrom(text: seq<byte>, lp: int, prog: seq<byte>, ep: int, ghost items: seq<Item>) returns (r: Verdict)
      requires Valid() && NoNul(text) && GoodProgram(items) && 0 <= lp <= |text| && At(prog, ep, items)
      modifies this`low, this`size, this`loc2, braslist, braelist
      ensures r == Never <==> Spins(items, Subj(text), lp)
      ensures r != Never ==> (r == Yes <==> MatchesAt(items, Subj(text), lp))
      ensures r == Yes ==> Best(text, items, lp)
    {
      ghost var s := Subj(text);
      SearchDecides(items, s, lp);
      SpinsIff(items, s, lp);
      assert items[|[lp]| - 1..] == items;
      r := Advance(text, lp, prog, ep, items, [lp]);
      if r == Yes { assert BestCuts(text, items, lp, Search(items, s, [lp]).value); }
    }

    /** step: the leftmost start from which the program matches, unless a start at or before it never ends. */
    method Step(text: seq<byte>, p1: int, prog: seq<byte>, p2: int, ghost items: seq<Item>) returns (r: Verdict)
      requires Valid() && NoNul(text) && GoodProgram(items) && 0 <= p1 <= |text| && At(prog, p2, items)
      modifies this`loc1, this`low, this`size, this`loc2, braslist, braelist
      ensures circf ==> loc1 == p1 && (r == Never <==> Spins(items, Subj(text), p1))
      ensures circf && r != Never ==> (r == Yes <==> MatchesAt(items, Subj(text), p1))
      ensures !circf && r == Yes ==>
        p1 <= loc1 <= |text| && MatchesAt(items, Subj(text), loc1) && !Spins(items, Subj(text), loc1) &&
        Passed(text, items, p1, loc1)
      ensures !circf && r == No ==> Passed(text, items, p1, |text| + 1)
      ensures !circf && r == Never ==>
        exists i :: p1 <= i <= |text| && Spins(items, Subj(text), i) && Passed(text, items, p1, i)
      ensures r == Yes ==> Best(text, items, loc1)
    {
      hide Spins, MatchesAt, GoodProgram, Best;
      if circf {
        loc1 := p1;
        r := AdvanceFrom(text, p1, prog, p2, items);
        return;
      }
      assert prog[p2..][0] == prog[p2];
      ghost var s := Subj(text);
      var at := p1;
      if prog[p2] == CCHR {
        FirstChar(items, prog, p2);
        var c := prog[p2 + 1];
        while true
          invariant p1 <= at <= |text| && Passed(text, items, p1, at)
          decreases |text| - at
        {
          if Deref(text, at) == c {
            r := AdvanceFrom(text, at, prog, p2, items);
            if r == Yes { loc1 := at; }
            if r != No { return; }
          } else {
            NoMatchWithout(items, s, at);
          }
          var more := Deref(text, at) != 0;
          if !more { break; }
          at := at + 1;
        }
        return No;
      }
      while true
        invariant p1 <= at <= |text| && Passed(text, items, p1, at)
        decreases |text| - at
      {
        r := AdvanceFrom(text, at, prog, p2, items);
        if r == Yes { loc1 := at; }
        if r != No { return; }
        var more := Deref(text, at) != 0;
        if !more { break; }
        at := at + 1;
      }
      return No;
    }

    /** From p1 up to but not including e, every start ends without a match. */
    ghost predicate Passed(text: seq<byte>, items: seq<Item>, p1: int, e: int)
      requires 0 <= p1 && e <= |text| + 1
      reads this`locs
    {
      forall i :: p1 <= i < e ==> !MatchesAt(items, Subj(text), i) && !Spins(items, Subj(text), i)
    }
  }

  /** After n rounds of the loop that passes copy after copy, it still goes on. */
  predicate StillCopying(text: seq<byte>, bbeg: int, ct: int, lp: int, n: nat)
    requires 0 <= bbeg && 0 <= ct && bbeg + ct <= |text| && 0 <= lp <= |text| && NoNul(text)
    decreases n
  {
    n == 0 ||
    (Ecmp(text, bbeg, lp, ct) && (EcmpExact(text, bbeg, lp, ct); StillCopying(text, bbeg, ct, lp + ct, n - 1)))
  }

  /** That loop ends exactly when the capture is not empty. */
  lemma {:induction false} CopyLoopEndsIff(text: seq<byte>, bbeg: int, ct: int, lp: int)
    requires 0 <= bbeg && 0 <= ct && bbeg + ct <= |text| && 0 <= lp <= |text| && NoNul(text)
    ensures (exists n: nat :: !StillCopying(text, bbeg, ct, lp, n)) <==> ct > 0
  {
    if ct > 0 {
      CopiesRunOut(text, bbeg, ct, lp, |text| - lp + 1);
    } else {
      forall n: nat ensures StillCopying(text, bbeg, ct, lp, n) { NoneCopied(text, bbeg, lp, n); }
    }
  }

  lemma {:induction false} CopiesRunOut(text: seq<byte>, bbeg: int, ct: int, lp: int, n: nat)
    requires 0 <= bbeg && 0 < ct && bbeg + ct <= |text| && 0 <= lp <= |text| && NoNul(text) && n > |text| - lp
    ensures !StillCopying(text, bbeg, ct, lp, n)
    decreases n
  {
    EcmpExact(text, bbeg, lp, ct);
    if Ecmp(text, bbeg, lp, ct) { CopiesRunOut(text, bbeg, ct, lp + ct, n - 1); }
  }

  lemma {:induction false} NoneCopied(text: seq<byte>, bbeg: int, lp: int, n: nat)
    requires 0 <= bbeg <= |text| && 0 <= lp <= |text| && NoNul(text)
    ensures StillCopying(text, bbeg, 0, lp, n)
    decreases n
  {
    EcmpExact(text, bbeg, lp, 0);
    if n > 0 { NoneCopied(text, bbeg, lp, n - 1); }
  }

  /** A program whose first byte is CCHR starts with that literal. */
  lemma {:induction false} FirstChar(items: seq<Item>, prog: seq<byte>, ep: int)
    requires GoodProgram(items) && At(prog, ep, items) && prog[ep..][0] == CCHR
    ensures ep + 1 < |prog| && items != [] && items[0] == One(Chr(prog[ep + 1]))
  {
    assert items[1 - 1..] == items;
    Fetch(prog, ep, items, 1);
    NextAt(prog, ep, items, 1);
    assert prog[ep..ep + 2][1] == prog[ep + 1];
  }

  lemma {:induction false} NoMatchWithout(items: seq<Item>, s: Subject, i: int)
    requires items != [] && items[0].One? && 0 <= i <= |s.text|
    requires i == |s.text| || !Has(items[0].t, s.text[i])
    ensures !MatchesAt(items, s, i) && !Spins(items, s, i)
  {
    forall q ensures !Trap(items, s, [i], q) {
      if |q| > 1 && q[0] == i { assert !Cut(items, s, q, 0); }
    }
    forall q | |q| == |items| + 1 && q[0] == i ensures !IsMatch(items, s, q) {
      assert !Cut(items, s, q, 0);
    }
  }
}
