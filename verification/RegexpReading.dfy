/** The scanner of `compile` reads a text as its pieces say, whatever the text: so the outcome is known exactly,
    program or error. */
module RegexpReading {
  import opened Buffers
  import opened RegexpCode
  import opened RegexpSyntax
  import opened RegexpText
  import Arithmetic

  function StateOf(ps: seq<Piece>): State { State(CodeOf(ps), Stack(ps), Opened(ps), Closed(ps)) }

  // ----- numbers -----

  lemma {:induction false} WordWraps(w: int, x: int, digit: int)
    requires x % 0x1_0000_0000 == w % 0x1_0000_0000
    ensures (10 * x + digit) % 0x1_0000_0000 == (10 * w + digit) % 0x1_0000_0000
  {
    var m := 0x1_0000_0000;
    var q := (10 * x + digit) - (10 * w + digit);
    Arithmetic.ModEqual(x, w, m);
    Congruent(10 * w + digit, x - w, m);
  }

  lemma {:induction false} Congruent(y: int, e: int, m: int)
    requires m > 0 && e % m == 0
    ensures (y + 10 * e) % m == y % m
  {
    var k := e / m;
    assert e == k * m;
    assert 10 * e == (10 * k) * m;
    Arithmetic.ModShift(y, 10 * k, m);
  }

  lemma {:induction false} WordSnoc(ds: seq<byte>, c: byte)
    ensures Word(ds + [c]) == Wrap32(10 * Word(ds) + c - 48)
  {
    assert (ds + [c])[..|ds|] == ds;
    var x, w := Decimal(ds), Word(ds);
    WordWraps(w, x, c - 48);
  }

  lemma {:induction false} NumFrom(pat: seq<byte>, sp: nat, ds: seq<byte>, k: nat)
    requires Digits(ds) && k < |ds| && Reads(pat, sp, ds)
    ensures ScanNum(pat, sp, 0) == ScanNum(pat, sp + k, Word(ds[..k]))
    decreases k
  {
    if k > 0 {
      NumFrom(pat, sp, ds, k - 1);
      ReadsAt(pat, sp, ds, k - 1);
      ReadsAt(pat, sp, ds, k);
      WordSnoc(ds[..k - 1], ds[k - 1]);
      assert ds[..k] == ds[..k - 1] + [ds[k - 1]];
      hide Word, Wrap32;
    }
  }

  /** Digits, and what follows them. */
  lemma {:induction false} NumberReads(pat: seq<byte>, sp: nat, ds: seq<byte>)
    requires Digits(ds) && Reads(pat, sp, ds) && (sp + |ds| < |pat| ==> !IsDigit(pat[sp + |ds|]))
    ensures ScanNum(pat, sp, 0) ==
      if sp + |ds| >= |pat| then NumOverrun
      else if ds != [] && pat[sp + |ds|] in {92, 44} then Num(Word(ds), pat[sp + |ds|], sp + |ds| + 1)
      else NumError
  {
    if ds != [] {
      var k := |ds| - 1;
      NumFrom(pat, sp, ds, k);
      ReadsAt(pat, sp, ds, k);
      WordSnoc(ds[..k], ds[k]);
      assert ds == ds[..k] + [ds[k]];
      hide Word, Wrap32;
    }
  }

  lemma {:induction false} DigitsFound(pat: seq<byte>, sp: nat) returns (ds: seq<byte>)
    requires sp <= |pat|
    ensures Digits(ds) && Reads(pat, sp, ds) && (sp + |ds| < |pat| ==> !IsDigit(pat[sp + |ds|]))
    decreases |pat| - sp
  {
    ds := [];
    if sp < |pat| && IsDigit(pat[sp]) {
      var rest := DigitsFound(pat, sp + 1);
      ds := [pat[sp]] + rest;
      assert pat[sp..sp + |ds|] == [pat[sp]] + pat[sp + 1..sp + 1 + |rest|];
    }
  }

  // ----- limits -----

  lemma {:induction false} StoredIsLow(ds: seq<byte>)
    ensures LowByte(Word(ds)) == Stored(ds)
  {
    Arithmetic.ModMod(Decimal(ds), 256, 0x100_0000);
  }

  lemma {:induction false} NumberIs(pat: seq<byte>, at: nat, ds: seq<byte>)
    requires Number(pat, at, ds)
    ensures ScanNum(pat, at, 0) == Num(Word(ds), pat[at + |ds|], at + |ds| + 1)
    ensures LowByte(Word(ds)) == Stored(ds)
  {
    NumberReads(pat, at, ds);
    StoredIsLow(ds);
  }

  lemma {:induction false} NoNumberIs(pat: seq<byte>, at: nat)
    requires NoNumber(pat, at)
    ensures ScanNum(pat, at, 0) == NumError
  {
    var ds :| Broken(pat, at, ds);
    NumberReads(pat, at, ds);
  }

  /** What ScanNum finds is spelled there. */
  lemma {:induction false} NumberFound(pat: seq<byte>, at: nat) returns (ds: seq<byte>)
    requires at <= |pat| && !ScanNum(pat, at, 0).NumOverrun?
    ensures ScanNum(pat, at, 0).Num? ==> Number(pat, at, ds)
    ensures ScanNum(pat, at, 0).NumError? ==> NoNumber(pat, at)
  {
    ds := DigitsFound(pat, at);
    NumberReads(pat, at, ds);
    if ScanNum(pat, at, 0).NumError? { assert Broken(pat, at, ds); }
  }

  lemma {:induction false} RangeReads(pat: seq<byte>, at: nat, lo: seq<byte>, two: bool, hi: seq<byte>)
    requires BracesFit(lo, two, hi) && Reads(pat, at, LimitsText(lo, two, hi))
    ensures ScanRange(pat, at) ==
      Limits(LowLimit(lo), HighLimit(lo, two, hi), at + |lo| + (if two then 1 + |hi| else 0) + 2)
  {
    hide Reads, ScanNum, Word, Stored;
    var tail := (if two then [44] + hi else []) + [92, 125];
    assert LimitsText(lo, two, hi) == lo + tail;
    ReadsSplit(pat, at, lo, tail);
    ReadsAt(pat, at + |lo|, tail, 0);
    NumberIs(pat, at, lo);
    if two && hi != [] {
      HighReads(pat, at, lo, hi);
    } else {
      ReadsAt(pat, at + |lo|, tail, 1);
      if two { ReadsAt(pat, at + |lo|, tail, 2); }
    }
  }

  lemma {:induction false} HighReads(pat: seq<byte>, at: nat, lo: seq<byte>, hi: seq<byte>)
    requires BracesFit(lo, true, hi) && hi != [] && Number(pat, at, lo)
    requires Reads(pat, at + |lo|, [44] + hi + [92, 125])
    ensures ScanRange(pat, at) == Limits(LowLimit(lo), HighLimit(lo, true, hi), at + |lo| + 1 + |hi| + 2)
  {
    hide Reads, ScanNum, Word, Stored;
    var b := at + |lo| + 1;
    assert [44] + hi + [92, 125] == [44] + (hi + [92, 125]);
    ReadsSplit(pat, at + |lo|, [44], hi + [92, 125]);
    ReadsSplit(pat, b, hi, [92, 125]);
    ReadsAt(pat, at + |lo|, [44], 0);
    ReadsAt(pat, b, hi, 0);
    ReadsAt(pat, b + |hi|, [92, 125], 0);
    ReadsAt(pat, b + |hi|, [92, 125], 1);
    NumberIs(pat, at, lo);
    NumberIs(pat, b, hi);
    assert IsDigit(hi[0]);
  }

  lemma {:induction false} RangeFails(pat: seq<byte>, at: nat, e: int)
    requires LimitsFail(pat, at, e)
    ensures ScanRange(pat, at) == RangeError(e)
  {
    if e == 16 && NoNumber(pat, at) {
      NoNumberIs(pat, at);
    } else if lo :| FirstFails(pat, at, lo, e) {
      FirstFailsIs(pat, at, lo, e);
    } else {
      var lo, hi :| SecondFails(pat, at, lo, hi, e);
      SecondFailsIs(pat, at, lo, hi, e);
    }
  }

  lemma {:induction false} FirstFailsIs(pat: seq<byte>, at: nat, lo: seq<byte>, e: int)
    requires FirstFails(pat, at, lo, e)
    ensures ScanRange(pat, at) == RangeError(e)
  {
    NumberIs(pat, at, lo);
    if e == 16 { NoNumberIs(pat, at + |lo| + 1); }
    hide Word, Stored, Number, NoNumber, ScanNum;
  }

  lemma {:induction false} SecondFailsIs(pat: seq<byte>, at: nat, lo: seq<byte>, hi: seq<byte>, e: int)
    requires SecondFails(pat, at, lo, hi, e)
    ensures ScanRange(pat, at) == RangeError(e)
  {
    var b := at + |lo| + 1;
    NumberIs(pat, at, lo);
    NumberIs(pat, b, hi);
    ReadsAt(pat, b, hi, 0);
    assert IsDigit(hi[0]);
    hide Word, Stored, Number, ScanNum, Reads;
  }

  lemma {:induction false} RangeFound(pat: seq<byte>, at: nat) returns (lo: seq<byte>, two: bool, hi: seq<byte>)
    requires at <= |pat| && !ScanRange(pat, at).RangeOverrun?
    ensures ScanRange(pat, at).RangeError? ==> LimitsFail(pat, at, ScanRange(pat, at).error)
    ensures ScanRange(pat, at).Limits? ==>
      BracesFit(lo, two, hi) && Reads(pat, at, LimitsText(lo, two, hi))
  {
    two, hi := false, [];
    lo := NumberFound(pat, at);
    if ScanNum(pat, at, 0).Num? {
      NumberIs(pat, at, lo);
      var stop := at + |lo|;
      if Word(lo) > 255 {
        assert FirstFails(pat, at, lo, 11);
      } else if pat[stop] == 92 {
        if IsNot(pat, stop + 1, 125) { assert FirstFails(pat, at, lo, 45); }
        else { Spelled(pat, at, lo, [], [92, 125]); }
      } else if Is(pat, stop + 1, 92) {
        two := true;
        if IsNot(pat, stop + 2, 125) { assert FirstFails(pat, at, lo, 45); }
        else { Spelled(pat, at, lo, [44], [92, 125]); }
      } else {
        two := true;
        hi := SecondFound(pat, at, lo);
      }
    }
  }

  lemma {:induction false} Spelled(pat: seq<byte>, at: nat, u: seq<byte>, v: seq<byte>, w: seq<byte>)
    requires Reads(pat, at, u) && Reads(pat, at + |u|, v) && Reads(pat, at + |u| + |v|, w)
    ensures Reads(pat, at, u + v + w)
  {
    assert pat[at..at + |u + v + w|] == pat[at..at + |u|] + pat[at + |u|..at + |u| + |v|] +
      pat[at + |u| + |v|..at + |u| + |v| + |w|];
  }

  lemma {:induction false} BothSpelled(pat: seq<byte>, at: nat, lo: seq<byte>, hi: seq<byte>)
    requires Reads(pat, at, lo) && Is(pat, at + |lo|, 44) && Reads(pat, at + |lo| + 1, hi)
    requires Is(pat, at + |lo| + 1 + |hi|, 92) && Is(pat, at + |lo| + 2 + |hi|, 125)
    ensures Reads(pat, at, LimitsText(lo, true, hi))
  {
    var b := at + |lo|;
    assert Reads(pat, b, [44]) && Reads(pat, b + 1 + |hi|, [92, 125]);
    hide Reads;
    Join(pat, b, [44], hi);
    Spelled(pat, at, lo, [44] + hi, [92, 125]);
  }

  lemma {:induction false} SecondFound(pat: seq<byte>, at: nat, lo: seq<byte>) returns (hi: seq<byte>)
    requires First(pat, at, lo) && pat[at + |lo|] == 44 && IsNot(pat, at + |lo| + 1, 92)
    requires !ScanRange(pat, at).RangeOverrun?
    ensures ScanRange(pat, at).RangeError? ==> LimitsFail(pat, at, ScanRange(pat, at).error)
    ensures ScanRange(pat, at).Limits? ==>
      BracesFit(lo, true, hi) && Reads(pat, at, LimitsText(lo, true, hi))
  {
    hide ScanNum, Word, Stored, Reads;
    NumberIs(pat, at, lo);
    var b := at + |lo| + 1;
    hi := NumberFound(pat, b);
    if ScanNum(pat, b, 0).NumError? {
      assert FirstFails(pat, at, lo, 16);
    } else {
      NumberIs(pat, b, hi);
      var stop := b + |hi|;
      if Word(hi) > 255 {
        assert SecondFails(pat, at, lo, hi, 11);
      } else if pat[stop] == 44 {
        assert SecondFails(pat, at, lo, hi, 44);
      } else if IsNot(pat, stop + 1, 125) {
        assert SecondFails(pat, at, lo, hi, 45);
      } else if Stored(hi) < Stored(lo) {
        assert SecondFails(pat, at, lo, hi, 46);
      } else {
        BothSpelled(pat, at, lo, hi);
      }
    }
  }

  // ----- brackets -----

  /** What the scanner makes of the rest of a bracket expression, behind some of its parts. */
  function Rest(pat: seq<byte>, at: nat, parts: seq<Part>): ClassResult
    requires at > 0
  {
    if parts == [] then ScanClass(pat, at, 0, {}, false)
    else NextInClass(pat, at, LastChar(parts), BracketSet(parts, false), BeyondAscii(parts))
  }

  lemma {:induction false} SetSnoc(parts: seq<Part>, p: Part)
    requires p.UpTo? ==> parts != []
    ensures BracketSet(parts + [p], false) ==
      BracketSet(parts, false) + (if p.UpTo? then Interval(LastChar(parts), p.c) else {}) + {p.c as int}
    ensures BeyondAscii(parts + [p]) <==> BeyondAscii(parts) || p.c >= 128
  {
    var all, n := parts + [p], |parts|;
    forall x: int ensures InBracket(all, false, x) <==> InBracket(parts, false, x) || PartHas(all, n, x) {
      if InBracket(parts, false, x) {
        var i :| 0 <= i < n && PartHas(parts, i, x);
        assert PartHas(all, i, x);
      }
      if InBracket(all, false, x) {
        var i :| 0 <= i < n + 1 && PartHas(all, i, x);
        assert i < n ==> PartHas(parts, i, x);
      }
    }
    BeyondSnoc(parts, p);
  }

  lemma {:induction false} BeyondSnoc(parts: seq<Part>, p: Part)
    ensures BeyondAscii(parts + [p]) <==> BeyondAscii(parts) || p.c >= 128
  {
    var all, n := parts + [p], |parts|;
    assert forall i :: 0 <= i < n ==> (Beyond(all, i) <==> Beyond(parts, i));
    assert Beyond(all, n) <==> p.c >= 128;
    if BeyondAscii(parts) {
      var i :| 0 <= i < n && Beyond(parts, i);
      assert Beyond(all, i);
    }
    if BeyondAscii(all) {
      var i :| 0 <= i < n + 1 && Beyond(all, i);
      assert i < n ==> Beyond(parts, i);
      assert i == n ==> p.c >= 128;
    }
  }

  lemma {:induction false} NoParts()
    ensures BracketSet([], false) == {} && !BeyondAscii([])
  {
    assert forall x :: !InBracket([], false, x);
  }

  /** One part more. */
  lemma {:induction false} PartStep(pat: seq<byte>, at: nat, parts: seq<Part>, p: Part)
    requires at > 0 && PartFits(parts, p) && Reads(pat, at, PartText(p))
    ensures Rest(pat, at, parts) == Rest(pat, at + |PartText(p)|, parts + [p])
  {
    SetSnoc(parts, p);
    NoParts();
    ReadsAt(pat, at, PartText(p), 0);
    if p.UpTo? { ReadsAt(pat, at, PartText(p), 1); }
    if parts != [] { GoOn(pat, at, parts); }
    hide BracketSet, BeyondAscii, Reads;
    assert (parts + [p])[|parts|] == p;
    assert BracketSet(parts, false) + {} == BracketSet(parts, false);
  }

  lemma {:induction false} PartsRead(pat: seq<byte>, sp: nat, parts: seq<Part>)
    requires sp > 0 && PartsFit(parts) && Reads(pat, sp, PartsText(parts))
    ensures Rest(pat, sp, []) == Rest(pat, sp + |PartsText(parts)|, parts)
  {
    hide Rest, Reads, BracketSet, BeyondAscii;
    if parts != [] {
      var init, p := parts[..|parts| - 1], parts[|parts| - 1];
      ReadsSplit(pat, sp, PartsText(init), PartText(p));
      PartsRead(pat, sp, init);
      PartStep(pat, sp + |PartsText(init)|, init, p);
      assert parts == init + [p];
    }
  }

  lemma {:induction false} FirstPart(parts: seq<Part>)
    requires PartsFit(parts) && parts != []
    ensures PartsText(parts) != [] && PartsText(parts)[0] == parts[0].c && parts[0].Alone?
  {
    if |parts| > 1 {
      FirstPart(parts[..|parts| - 1]);
    } else {
      assert PartsText(parts[..0]) == [];
    }
  }

  lemma {:induction false} DashSet(parts: seq<Part>)
    ensures BracketSet(parts, true) == BracketSet(parts, false) + {45}
  {
    assert forall x :: InBracket(parts, true, x) <==> InBracket(parts, false, x) || x == 45;
  }

  /** Its three ends. */
  lemma {:induction false} RestEnds(pat: seq<byte>, at: nat, parts: seq<Part>)
    requires 0 < at < |pat|
    ensures pat[at] in {0, 10} ==> Rest(pat, at, parts) == ClassError(49)
    ensures parts != [] && pat[at] == 93 ==>
      Rest(pat, at, parts) == Class(BracketSet(parts, false), BeyondAscii(parts), at + 1)
    ensures parts != [] && pat[at] == 45 && LastChar(parts) != 0 && at + 1 < |pat| && pat[at + 1] == 93 ==>
      Rest(pat, at, parts) == Class(BracketSet(parts, true), BeyondAscii(parts), at + 2)
  {
    DashSet(parts);
    hide BracketSet, BeyondAscii;
    if parts != [] && pat[at] != 93 { GoOn(pat, at, parts); }
  }

  lemma {:induction false} GoOn(pat: seq<byte>, at: nat, parts: seq<Part>)
    requires 0 < at < |pat| && pat[at] != 93 && parts != []
    ensures Rest(pat, at, parts) == ScanClass(pat, at, LastChar(parts), BracketSet(parts, false), BeyondAscii(parts))
  {
  }

  lemma {:induction false} BracketStarts(pat: seq<byte>, sp: nat, neg: bool, parts: seq<Part>)
    requires PartsFit(parts) && (!neg && parts != [] ==> parts[0].c != 94)
    requires Reads(pat, sp, BracketHead(neg) + PartsText(parts))
    requires parts == [] ==> sp + |BracketHead(neg)| < |pat| && pat[sp + |BracketHead(neg)|] in {0, 10}
    ensures sp + 1 < |pat| && pat[sp] == 91 && (pat[sp + 1] == 94 <==> neg)
    ensures Reads(pat, sp + |BracketHead(neg)|, PartsText(parts))
  {
    var head, mid := BracketHead(neg), PartsText(parts);
    ReadsSplit(pat, sp, head, mid);
    ReadsAt(pat, sp, head, 0);
    if neg { ReadsAt(pat, sp, head, 1); }
    if parts != [] {
      FirstPart(parts);
      ReadsAt(pat, sp + |head|, mid, 0);
    }
    hide Reads, PartsText, PartsFit;
  }

  /** A bracket expression that fits is read to its end. */
  lemma {:induction false} BracketReads(pat: seq<byte>, sp: nat, neg: bool, parts: seq<Part>, dash: bool)
    requires BracketFits(neg, parts, dash) && Reads(pat, sp, Text(Bracket(neg, parts, dash)))
    ensures sp + 1 < |pat| && pat[sp] == 91 && (pat[sp + 1] == 94 <==> neg)
    ensures ScanClass(pat, sp + |BracketHead(neg)|, 0, {}, false) ==
      Class(BracketSet(parts, dash), BeyondAscii(parts), sp + |Text(Bracket(neg, parts, dash))|)
  {
    hide BracketSet, BeyondAscii, Reads, PartsText, PartsFit, Rest, ScanClass;
    var head, mid, tail := BracketHead(neg), PartsText(parts), if dash then [45, 93] else [93];
    var at := sp + |head|;
    assert head + (mid + tail) == (head + mid) + tail;
    ReadsSplit(pat, sp, head + mid, tail);
    BracketStarts(pat, sp, neg, parts);
    PartsRead(pat, at, parts);
    ReadsAt(pat, at + |mid|, tail, 0);
    if dash { ReadsAt(pat, at + |mid|, tail, 1); }
    RestEnds(pat, at + |mid|, parts);
    RestStarts(pat, at);
  }

  lemma {:induction false} RestStarts(pat: seq<byte>, at: nat)
    requires at > 0
    ensures Rest(pat, at, []) == ScanClass(pat, at, 0, {}, false)
  {
  }

  lemma {:induction false} BracketBreaks(pat: seq<byte>, sp: nat, neg: bool, parts: seq<Part>)
    requires Breaks(pat, sp, neg, parts)
    ensures sp + 1 < |pat| && pat[sp] == 91 && (pat[sp + 1] == 94 <==> neg)
    ensures ScanClass(pat, sp + |BracketHead(neg)|, 0, {}, false) == ClassError(49)
  {
    var at := sp + |BracketHead(neg)|;
    BracketStarts(pat, sp, neg, parts);
    PartsRead(pat, at, parts);
    RestEnds(pat, at + |PartsText(parts)|, parts);
    assert Rest(pat, at, []) == ScanClass(pat, at, 0, {}, false);
    hide BracketSet, BeyondAscii, Reads, PartsFit, Rest, ScanClass;
  }

  /** The parts `all` and their end are what the scanner found from sp on. */
  predicate Found(pat: seq<byte>, sp: nat, all: seq<Part>, dash: bool, r: ClassResult) {
    && PartsFit(all)
    && if r.Class? then
         all != [] && (dash ==> LastChar(all) != 0) && Reads(pat, sp, Inside(all, dash))
       else
         && r == ClassError(49) && Reads(pat, sp, PartsText(all))
         && sp + |PartsText(all)| < |pat| && pat[sp + |PartsText(all)|] in {0, 10}
  }

  /** Whatever it finds is made of parts. */
  lemma {:induction false} PartsFound(pat: seq<byte>, sp: nat, parts: seq<Part>) returns (all: seq<Part>, dash: bool)
    requires sp > 0 && PartsFit(parts) && Reads(pat, sp, PartsText(parts))
    requires !Rest(pat, sp + |PartsText(parts)|, parts).ClassOverrun?
    ensures Found(pat, sp, all, dash, Rest(pat, sp + |PartsText(parts)|, parts))
    decreases |pat| - sp - |PartsText(parts)|
  {
    hide Rest, Found, BracketSet, BeyondAscii, PartsText, Reads;
    var at := sp + |PartsText(parts)|;
    RestGoesOn(pat, at, parts);
    var range := pat[at] == 45 && parts != [] && LastChar(parts) != 0;
    if (parts != [] && pat[at] == 93) || pat[at] in {0, 10} || (range && pat[at + 1] == 93) {
      all, dash := parts, range;
      EndFound(pat, sp, parts);
    } else {
      var p := if range then UpTo(pat[at + 1]) else Alone(pat[at]);
      SpelledPart(pat, at, range);
      PartStep(pat, at, parts, p);
      MoreParts(pat, sp, parts, p);
      all, dash := PartsFound(pat, sp, parts + [p]);
    }
  }

  lemma {:induction false} SpelledPart(pat: seq<byte>, at: nat, range: bool)
    requires at < |pat| && (range ==> at + 1 < |pat| && pat[at] == 45)
    ensures Reads(pat, at, PartText(if range then UpTo(pat[at + 1]) else Alone(pat[at])))
  {
  }

  lemma {:induction false} MoreParts(pat: seq<byte>, sp: nat, parts: seq<Part>, p: Part)
    requires PartsFit(parts) && PartFits(parts, p)
    requires Reads(pat, sp, PartsText(parts)) && Reads(pat, sp + |PartsText(parts)|, PartText(p))
    ensures PartsFit(parts + [p]) && PartsText(parts + [p]) == PartsText(parts) + PartText(p)
    ensures Reads(pat, sp, PartsText(parts + [p]))
  {
    assert (parts + [p])[..|parts|] == parts;
    Join(pat, sp, PartsText(parts), PartText(p));
    hide Reads;
  }

  lemma {:induction false} EndFound(pat: seq<byte>, sp: nat, parts: seq<Part>)
    requires sp > 0 && PartsFit(parts) && Reads(pat, sp, PartsText(parts)) && sp + |PartsText(parts)| < |pat|
    requires var at := sp + |PartsText(parts)|; var range := pat[at] == 45 && parts != [] && LastChar(parts) != 0;
      || (parts != [] && pat[at] == 93) || pat[at] in {0, 10} || (range && at + 1 < |pat| && pat[at + 1] == 93)
    ensures var at := sp + |PartsText(parts)|; var range := pat[at] == 45 && parts != [] && LastChar(parts) != 0;
      Found(pat, sp, parts, range, Rest(pat, at, parts))
  {
    var at := sp + |PartsText(parts)|;
    RestEnds(pat, at, parts);
    if parts != [] && pat[at] == 93 {
      Join(pat, sp, PartsText(parts), [93]);
    } else if pat[at] !in {0, 10} {
      assert Reads(pat, at, [45, 93]);
      Join(pat, sp, PartsText(parts), [45, 93]);
    }
    hide Rest;
  }

  /** It does not stop in the middle. */
  lemma {:induction false} RestGoesOn(pat: seq<byte>, at: nat, parts: seq<Part>)
    requires at > 0 && !Rest(pat, at, parts).ClassOverrun?
    ensures at < |pat|
    ensures parts != [] && pat[at] == 45 && LastChar(parts) != 0 ==> at + 1 < |pat|
  {
    if at < |pat| && parts != [] && pat[at] != 93 { GoOn(pat, at, parts); }
  }

  lemma {:induction false} Join(pat: seq<byte>, at: nat, u: seq<byte>, v: seq<byte>)
    requires Reads(pat, at, u) && Reads(pat, at + |u|, v)
    ensures Reads(pat, at, u + v)
  {
    assert pat[at..at + |u + v|] == pat[at..at + |u|] + pat[at + |u|..at + |u| + |v|];
  }

  // ----- pieces -----

  predicate Kind(op: byte) { op in {CBRA, CCHR, CDOT, CCL, CXCL, CDOL, CKET, CBACK, NCCL} }

  /** What the pieces of a text tell about each other. */
  predicate Sound(ps: seq<Piece>) {
    && Opened(ps) <= 9 && |Stack(ps)| + Closed(ps) == Opened(ps) && (Units(ps) == [] <==> ps == [])
    && (ps != [] ==> SoundUnit(Units(ps)[|Units(ps)| - 1], Bare(ps)))
  }

  predicate SoundUnit(u: Unit, bare: bool) {
    && Kind(u.kind) && (bare <==> Opcode(u) in {CBRA, CKET})
    && (u.star ==> u.limits != [] || u.kind !in {CBRA, CKET})
  }

  function Coded(u: Unit): Instr { Instr(Opcode(u), u.args + u.limits) }

  lemma {:induction false} UnitsSnoc(ps: seq<Piece>, p: Piece)
    ensures !p.StarMark? && !p.Braces? ==> Units(ps + [p]) == Units(ps) + [Starts(ps, p)]
    ensures (p.StarMark? || p.Braces?) && Units(ps) != [] ==>
      var us := Units(ps); var n := |us| - 1;
      Units(ps + [p]) == us[n := Amended(us[n], p)]
    ensures Opened(ps + [p]) == Opened(ps) + if p.OpenMark? then 1 else 0
    ensures Closed(ps + [p]) == Closed(ps) + if p.CloseMark? then 1 else 0
    ensures Opened(ps) <= 9 ==>
      Stack(ps + [p]) ==
      if p.OpenMark? then Stack(ps) + [Opened(ps)]
      else if p.CloseMark? && Stack(ps) != [] then Stack(ps)[..|Stack(ps)| - 1]
      else Stack(ps)
  {
    assert (ps + [p])[..|ps|] == ps && (ps + [p])[|ps|] == p;
  }

  /** A piece that starts an instruction. */
  lemma {:induction false} CodeGrows(ps: seq<Piece>, p: Piece)
    requires !p.StarMark? && !p.Braces?
    ensures var u := Starts(ps, p);
      CodeOf(ps + [p]) == CodeOf(ps) + [Instr(u.kind, u.args)] && u.limits == [] && !u.star
  {
    UnitsSnoc(ps, p);
    var u := Starts(ps, p);
    assert u.args + u.limits == u.args;
    hide Units;
    assert CodeOf(ps + [p]) == CodeOf(ps) + [Coded(u)];
  }

  /** A star, or limits. */
  lemma {:induction false} CodeAmended(ps: seq<Piece>, p: Piece)
    requires (p.StarMark? || p.Braces?) && Sound(ps) && ps != []
    ensures CodeOf(ps) != []
    ensures var st := StateOf(ps).(code := CodeOf(ps));
      CodeOf(ps + [p]) == (if p.StarMark? then Amend(st, OrStar(LastOp(st)), [])
        else Amend(st, OrRnge(LastOp(st)), [LowLimit(p.lo), HighLimit(p.lo, p.two, p.hi)])).code
  {
    UnitsSnoc(ps, p);
    var us := Units(ps);
    var u := us[|us| - 1];
    OpcodeAmended(u);
    CodedAmended(u, p);
    hide Units, LowLimit, HighLimit, OrStar, OrRnge, Opcode, Sound, SoundUnit, Kind, Coded;
    LastCoded(ps, ps + [p]);
  }

  lemma {:induction false} CodedAmended(u: Unit, p: Piece)
    requires Kind(u.kind) && (p.StarMark? || p.Braces?)
    ensures Coded(Amended(u, p)) ==
      if p.StarMark? then Instr(OrStar(Opcode(u)), Coded(u).args + [])
      else Instr(OrRnge(Opcode(u)), Coded(u).args + [LowLimit(p.lo), HighLimit(p.lo, p.two, p.hi)])
  {
    OpcodeAmended(u);
    hide LowLimit, HighLimit, OrStar, OrRnge, Opcode;
    if p.Braces? {
      var more := [LowLimit(p.lo), HighLimit(p.lo, p.two, p.hi)];
      assert (u.args + u.limits) + more == u.args + (u.limits + more);
    }
  }

  /** Only the last instruction differs. */
  lemma {:induction false} LastCoded(ps: seq<Piece>, qs: seq<Piece>)
    requires |Units(qs)| == |Units(ps)| > 0 && Units(qs)[..|Units(ps)| - 1] == Units(ps)[..|Units(ps)| - 1]
    ensures var n := |Units(ps)| - 1;
      && CodeOf(ps)[n] == Coded(Units(ps)[n])
      && CodeOf(qs) == CodeOf(ps)[..n] + [Coded(Units(qs)[n])]
  {
    var n := |Units(ps)| - 1;
    forall i | 0 <= i < n ensures CodeOf(qs)[i] == CodeOf(ps)[i] {
      assert Units(qs)[..n][i] == Units(ps)[..n][i];
    }
  }

  lemma {:induction false} OpcodeAmended(u: Unit)
    requires Kind(u.kind)
    ensures Opcode(u.(star := true)) == OrStar(Opcode(u))
    ensures forall ls: seq<byte> :: ls != [] ==> Opcode(u.(limits := ls)) == OrRnge(Opcode(u))
  {
  }

  lemma {:induction false} StartsSound(ps: seq<Piece>, p: Piece)
    requires !p.StarMark? && !p.Braces?
    ensures SoundUnit(Starts(ps, p), p.OpenMark? || p.CloseMark?)
  {
    hide Bitmap, BracketSet, BeyondAscii;
  }

  lemma {:induction false} AmendedSound(u: Unit, p: Piece)
    requires SoundUnit(u, false) || (p.Braces? && SoundUnit(u, true))
    requires p.StarMark? || p.Braces?
    ensures SoundUnit(Amended(u, p), false)
  {
    hide LowLimit, HighLimit;
  }

  lemma {:induction false} SoundStep(pat: seq<byte>, d: Delim, sp: int, ps: seq<Piece>, p: Piece)
    requires Sound(ps) && Here(pat, d, sp, ps, p)
    ensures Sound(ps + [p])
  {
    hide Units, SoundUnit, Amended, Starts, BracketFits, BracesFit, Reads, Text;
    UnitsSnoc(ps, p);
    if p.StarMark? || p.Braces? {
      AmendedSound(Units(ps)[|Units(ps)| - 1], p);
    } else {
      StartsSound(ps, p);
    }
  }

  /** The state behind one piece more, for the scanner. */
  lemma {:induction false} StateGrows(ps: seq<Piece>, p: Piece)
    requires Sound(ps) && !p.StarMark? && !p.Braces? && (p.OpenMark? ==> Opened(ps) < 9)
    ensures var st, u := StateOf(ps), Starts(ps, p);
      StateOf(ps + [p]) == Emit(st, u.kind, u.args).(
        opens := if p.OpenMark? then st.opens + [st.nbra]
                 else if p.CloseMark? && st.opens != [] then st.opens[..|st.opens| - 1] else st.opens,
        nbra := st.nbra + (if p.OpenMark? then 1 else 0), closed := st.closed + if p.CloseMark? then 1 else 0)
  {
    UnitsSnoc(ps, p);
    CodeGrows(ps, p);
  }

  /** A character, a dot, or a dollar. */
  lemma {:induction false} PlainStep(pat: seq<byte>, d: Delim, sp: nat, ps: seq<Piece>, p: Piece)
    requires Sound(ps) && Here(pat, d, sp, ps, p) && (p.Self? || p.Period? || p.DollarMark?)
    ensures Scan(pat, d, sp, StateOf(ps)) == Scan(pat, d, sp + 1, StateOf(ps + [p]))
  {
    hide StateOf, Reads, Sound, Units;
    ReadsAt(pat, sp, Text(p), 0);
    StateGrows(ps, p);
    LastOpIs(ps);
  }

  lemma {:induction false} LastOpIs(ps: seq<Piece>)
    requires Sound(ps)
    ensures StateOf(ps).code == [] <==> ps == []
    ensures ps != [] ==> (LastOp(StateOf(ps)) in {CBRA, CKET} <==> Bare(ps))
  {
  }

  lemma {:induction false} StarStep(pat: seq<byte>, d: Delim, sp: nat, ps: seq<Piece>)
    requires Sound(ps) && Here(pat, d, sp, ps, StarMark)
    ensures Scan(pat, d, sp, StateOf(ps)) == Scan(pat, d, sp + 1, StateOf(ps + [StarMark]))
  {
    ReadsAt(pat, sp, Text(StarMark), 0);
    UnitsSnoc(ps, StarMark);
    CodeAmended(ps, StarMark);
    LastOpIs(ps);
    hide CodeOf, Units, Reads, Sound, OrStar;
  }

  lemma {:induction false} BracketStep(pat: seq<byte>, d: Delim, sp: nat, ps: seq<Piece>, p: Piece)
    requires Sound(ps) && Here(pat, d, sp, ps, p) && p.Bracket?
    ensures Scan(pat, d, sp, StateOf(ps)) == Scan(pat, d, sp + |Text(p)|, StateOf(ps + [p]))
  {
    hide StateOf, Reads, Sound, ScanClass, BracketSet, BeyondAscii, ClassInstr, Text, BracketHead, Starts, BracketFits;
    BracketReads(pat, sp, p.neg, p.parts, p.dash);
    StateGrows(ps, p);
    BracketInstr(ps, p);
    BracketLook(pat, sp, p);
  }

  lemma {:induction false} BracketLook(pat: seq<byte>, sp: nat, p: Piece)
    requires p.Bracket?
    ensures |BracketHead(p.neg)| == if p.neg then 2 else 1
  {
  }

  lemma {:induction false} BracketInstr(ps: seq<Piece>, p: Piece)
    requires p.Bracket?
    ensures ClassInstr(BracketSet(p.parts, p.dash), BeyondAscii(p.parts), p.neg) ==
      Instr(Starts(ps, p).kind, Starts(ps, p).args)
  {
    var S := BracketSet(p.parts, p.dash);
    assert (set x | 1 <= x < 256 && x !in S) == Interval(1, 256) - S;
    hide BracketSet, BeyondAscii, Bitmap;
  }

  /** A backslash. */
  lemma {:induction false} EscapeStep(pat: seq<byte>, d: Delim, sp: nat, ps: seq<Piece>, p: Piece)
    requires Sound(ps) && Here(pat, d, sp, ps, p)
    requires p.Quote? || p.NewLine? || p.OpenMark? || p.CloseMark? || p.RefMark?
    ensures Scan(pat, d, sp, StateOf(ps)) == Scan(pat, d, sp + 2, StateOf(ps + [p]))
  {
    ReadsAt(pat, sp, Text(p), 0);
    ReadsAt(pat, sp, Text(p), 1);
    EscapeIs(ps, p, pat[sp + 1], pat, d, sp);
    LastOpIs(ps);
    ScanBackslash(pat, d, sp, StateOf(ps));
    hide StateOf, Reads, Scan, Escape, Sound;
  }

  lemma {:induction false} EscapeIs(ps: seq<Piece>, p: Piece, c: byte, pat: seq<byte>, d: Delim, sp: int)
    requires Sound(ps) && Here(pat, d, sp, ps, p) && Text(p) == [92, c]
    requires p.Quote? || p.NewLine? || p.OpenMark? || p.CloseMark? || p.RefMark?
    ensures c != 123 || ps == []
    ensures Escape(StateOf(ps), c) == Right(StateOf(ps + [p]))
  {
    StateGrows(ps, p);
    hide CodeOf, Reads, Units;
  }

  lemma {:induction false} BracesStep(pat: seq<byte>, d: Delim, sp: nat, ps: seq<Piece>, p: Piece)
    requires Sound(ps) && Here(pat, d, sp, ps, p) && p.Braces?
    ensures Scan(pat, d, sp, StateOf(ps)) == Scan(pat, d, sp + |Text(p)|, StateOf(ps + [p]))
  {
    hide StateOf, Reads, Sound, Scan, ScanRange, OrRnge, LowLimit, HighLimit, BracesFit, Amend, Text, Units;
    BracesRead(pat, sp, p);
    BracesAmend(ps, p);
    LastOpIs(ps);
    ScanBackslash(pat, d, sp, StateOf(ps));
  }

  lemma {:induction false} BracesRead(pat: seq<byte>, sp: nat, p: Piece)
    requires p.Braces? && BracesFit(p.lo, p.two, p.hi) && Reads(pat, sp, Text(p))
    ensures sp + 1 < |pat| && pat[sp] == 92 && pat[sp + 1] == 123
    ensures ScanRange(pat, sp + 2) == Limits(LowLimit(p.lo), HighLimit(p.lo, p.two, p.hi), sp + |Text(p)|)
  {
    hide ScanRange, LowLimit, HighLimit, BracesFit, Reads;
    ReadsSplit(pat, sp, [92, 123], LimitsText(p.lo, p.two, p.hi));
    ReadsAt(pat, sp, [92, 123], 0);
    ReadsAt(pat, sp, [92, 123], 1);
    RangeReads(pat, sp + 2, p.lo, p.two, p.hi);
  }

  lemma {:induction false} BracesAmend(ps: seq<Piece>, p: Piece)
    requires Sound(ps) && ps != [] && p.Braces?
    ensures StateOf(ps).code != []
    ensures StateOf(ps + [p]) ==
      Amend(StateOf(ps), OrRnge(LastOp(StateOf(ps))), [LowLimit(p.lo), HighLimit(p.lo, p.two, p.hi)])
  {
    UnitsSnoc(ps, p);
    CodeAmended(ps, p);
    hide CodeOf, Units, OrRnge, LowLimit, HighLimit;
  }

  /** The scanner reads one piece. */
  lemma {:induction false} PieceStep(pat: seq<byte>, d: Delim, sp: nat, ps: seq<Piece>, p: Piece)
    requires Sound(ps) && Here(pat, d, sp, ps, p)
    ensures Scan(pat, d, sp, StateOf(ps)) == Scan(pat, d, sp + |Text(p)|, StateOf(ps + [p])) && Sound(ps + [p])
  {
    hide Scan, StateOf, Sound;
    SoundStep(pat, d, sp, ps, p);
    match p
    case Bracket(_, _, _) => BracketStep(pat, d, sp, ps, p);
    case Braces(_, _, _) => BracesStep(pat, d, sp, ps, p);
    case StarMark => StarStep(pat, d, sp, ps);
    case Self(_) => PlainStep(pat, d, sp, ps, p);
    case Period => PlainStep(pat, d, sp, ps, p);
    case DollarMark => PlainStep(pat, d, sp, ps, p);
    case _ => EscapeStep(pat, d, sp, ps, p);
  }

  lemma {:induction false} SplitLast(pat: seq<byte>, d: Delim, start: nat, sp: int, ps: seq<Piece>)
    requires Split(pat, d, start, sp, ps) && ps != []
    ensures var n := |ps| - 1; var at := sp - |Text(ps[n])|;
      Split(pat, d, start, at, ps[..n]) && Here(pat, d, at, ps[..n], ps[n]) && at >= 0
  {
    hide Text;
  }

  lemma {:induction false} NothingYet(pat: seq<byte>, d: Delim, start: nat, sp: int)
    ensures Sound([]) && StateOf([]) == START && (Split(pat, d, start, sp, []) ==> sp == start)
  {
  }

  lemma {:induction false} SplitScan(pat: seq<byte>, d: Delim, start: nat, sp: int, ps: seq<Piece>)
    requires Split(pat, d, start, sp, ps)
    ensures sp >= start && Sound(ps) && Scan(pat, d, start, START) == Scan(pat, d, sp, StateOf(ps))
    decreases |ps|
  {
    hide Scan, StateOf, Sound, Text, Here, Split;
    if ps == [] {
      NothingYet(pat, d, start, sp);
    } else {
      SplitLast(pat, d, start, sp, ps);
      var n := |ps| - 1;
      SplitScan(pat, d, start, sp - |Text(ps[n])|, ps[..n]);
      PieceStep(pat, d, sp - |Text(ps[n])|, ps[..n], ps[n]);
      assert ps == ps[..n] + [ps[n]];
    }
  }

  // ----- ends and errors -----

  lemma {:induction false} EndScan(pat: seq<byte>, d: Delim, sp: nat, ps: seq<Piece>)
    requires Sound(ps) && Ends(pat, d, sp)
    ensures Scan(pat, d, sp, StateOf(ps)) == if Closed(ps) < Opened(ps) then Error(42) else Program(pat, d, sp, ps)
  {
    hide CodeOf;
  }

  lemma {:induction false} FailScan(pat: seq<byte>, d: Delim, sp: nat, ps: seq<Piece>, e: int)
    requires Sound(ps) && Fails(pat, d, sp, ps, e)
    ensures Scan(pat, d, sp, StateOf(ps)) == Error(e)
  {
    LastOpIs(ps);
    if e == 42 && Ends(pat, d, sp) && Closed(ps) < Opened(ps) {
      EndScan(pat, d, sp, ps);
    } else if e == 49 && InPattern(pat, d, sp) && BracketFails(pat, sp) {
      BracketFailScan(pat, d, sp, ps);
    } else if InPattern(pat, d, sp) && BackslashFails(pat, sp, ps, e) {
      BackslashFailScan(pat, d, sp, ps, e);
    }
  }

  lemma {:induction false} BracketFailScan(pat: seq<byte>, d: Delim, sp: nat, ps: seq<Piece>)
    requires InPattern(pat, d, sp) && BracketFails(pat, sp)
    ensures Scan(pat, d, sp, StateOf(ps)) == Error(49)
  {
    var neg, parts :| Breaks(pat, sp, neg, parts);
    BracketBreaks(pat, sp, neg, parts);
    hide StateOf, ScanClass, Breaks;
  }

  lemma {:induction false} BackslashFailScan(pat: seq<byte>, d: Delim, sp: nat, ps: seq<Piece>, e: int)
    requires Sound(ps) && InPattern(pat, d, sp) && BackslashFails(pat, sp, ps, e)
    ensures Scan(pat, d, sp, StateOf(ps)) == Error(e)
  {
    LastOpIs(ps);
    ScanBackslash(pat, d, sp, StateOf(ps));
    if pat[sp + 1] == 123 { RangeFails(pat, sp + 2, e); }
    hide CodeOf, Scan, ScanRange, LimitsFail;
  }

  // ----- and nothing else happens -----

  datatype Step = Goes(p: Piece) | Stops

  ghost predicate StepIs(pat: seq<byte>, d: Delim, sp: nat, ps: seq<Piece>, s: Step) {
    match s
    case Goes(p) => Here(pat, d, sp, ps, p)
    case Stops => Ends(pat, d, sp) || exists e :: Fails(pat, d, sp, ps, e)
  }

  /** Where the scanner does not run off the end there is a piece, an end or an error. */
  lemma {:induction false} StepFound(pat: seq<byte>, d: Delim, sp: nat, ps: seq<Piece>) returns (s: Step)
    requires Sound(ps) && Scan(pat, d, sp, StateOf(ps)) != Overrun
    ensures StepIs(pat, d, sp, ps, s)
  {
    var c := pat[sp];
    LastOpIs(ps);
    if c == d.eof {
      s := Stops;
    } else if c == 10 {
      s := Stops;
      if d.sed { assert Fails(pat, d, sp, ps, 36); }
    } else if c == 91 {
      s := BracketFound(pat, d, sp, ps);
    } else if c == 92 {
      s := BackslashFound(pat, d, sp, ps);
    } else {
      var p := if c == 46 then Period else if c == 42 && !Bare(ps) then StarMark
               else if c == 36 && Follows(pat, d, sp + 1) then DollarMark else Self(c);
      assert pat[sp..sp + 1] == [c];
      assert Reads(pat, sp, [c]) && Text(p) == [c];
      s := Goes(p);
    }
  }

  lemma {:induction false} BracketFound(pat: seq<byte>, d: Delim, sp: nat, ps: seq<Piece>) returns (s: Step)
    requires InPattern(pat, d, sp) && pat[sp] == 91 && Scan(pat, d, sp, StateOf(ps)) != Overrun
    ensures StepIs(pat, d, sp, ps, s)
  {
    hide StateOf;
    var neg := pat[sp + 1] == 94;
    var at := sp + |BracketHead(neg)|;
    HeadReads(pat, sp);
    assert PartsText([]) == [] && Rest(pat, at, []) == ScanClass(pat, at, 0, {}, false);
    assert !ScanClass(pat, at, 0, {}, false).ClassOverrun?;
    hide Scan, Rest, ScanClass, Reads;
    var all, dash := PartsFound(pat, at, []);
    s := BracketMade(pat, d, sp, ps, neg, all, dash, Rest(pat, at, []));
  }

  lemma {:induction false} HeadReads(pat: seq<byte>, sp: nat)
    requires sp + 1 < |pat| && pat[sp] == 91
    ensures Reads(pat, sp, BracketHead(pat[sp + 1] == 94))
  {
    if pat[sp + 1] == 94 {
      assert pat[sp..sp + 2] == [91, 94];
    } else {
      assert pat[sp..sp + 1] == [91];
    }
  }

  lemma {:induction false} BracketMade(pat: seq<byte>, d: Delim, sp: nat, ps: seq<Piece>, neg: bool, all: seq<Part>,
      dash: bool, r: ClassResult)
    returns (s: Step)
    requires InPattern(pat, d, sp) && Reads(pat, sp, BracketHead(neg)) && sp + 1 < |pat| && (pat[sp + 1] == 94 <==> neg)
    requires Found(pat, sp + |BracketHead(neg)|, all, dash, r)
    ensures StepIs(pat, d, sp, ps, s)
  {
    if r.Class? {
      BracketWhole(pat, sp, neg, all, dash, r);
      s := Goes(Bracket(neg, all, dash));
    } else {
      BracketBroken(pat, sp, neg, all, dash, r);
      assert Fails(pat, d, sp, ps, 49);
      s := Stops;
    }
    hide Reads, Found, Text, BracketFits, BracketFails, BracketHead;
  }

  lemma {:induction false} BracketWhole(pat: seq<byte>, sp: nat, neg: bool, all: seq<Part>, dash: bool, r: ClassResult)
    requires Reads(pat, sp, BracketHead(neg)) && sp + 1 < |pat| && (pat[sp + 1] == 94 <==> neg)
    requires Found(pat, sp + |BracketHead(neg)|, all, dash, r) && r.Class?
    ensures BracketFits(neg, all, dash) && Reads(pat, sp, Text(Bracket(neg, all, dash)))
  {
    hide Reads, PartsText, PartsFit;
    var head, at := BracketHead(neg), sp + |BracketHead(neg)|;
    Join(pat, sp, head, Inside(all, dash));
    ReadsSplit(pat, at, PartsText(all), if dash then [45, 93] else [93]);
    HeadChar(pat, at, all);
  }

  lemma {:induction false} BracketBroken(pat: seq<byte>, sp: nat, neg: bool, all: seq<Part>, dash: bool,
      r: ClassResult)
    requires Reads(pat, sp, BracketHead(neg)) && sp + 1 < |pat| && (pat[sp + 1] == 94 <==> neg)
    requires Found(pat, sp + |BracketHead(neg)|, all, dash, r) && !r.Class?
    ensures BracketFails(pat, sp)
  {
    var head, at := BracketHead(neg), sp + |BracketHead(neg)|;
    assert !neg ==> at == sp + 1;
    hide BracketHead, Reads, PartsText, PartsFit;
    if all != [] { HeadChar(pat, at, all); }
    Join(pat, sp, head, PartsText(all));
    assert Breaks(pat, sp, neg, all);
  }

  lemma {:induction false} HeadChar(pat: seq<byte>, at: nat, all: seq<Part>)
    requires PartsFit(all) && all != [] && Reads(pat, at, PartsText(all))
    ensures at < |pat| && all[0].c == pat[at]
  {
    FirstPart(all);
    ReadsAt(pat, at, PartsText(all), 0);
  }

  lemma {:induction false} BackslashFound(pat: seq<byte>, d: Delim, sp: nat, ps: seq<Piece>) returns (s: Step)
    requires Sound(ps) && InPattern(pat, d, sp) && pat[sp] == 92 && Scan(pat, d, sp, StateOf(ps)) != Overrun
    ensures StepIs(pat, d, sp, ps, s)
  {
    LastOpIs(ps);
    ScanBackslash(pat, d, sp, StateOf(ps));
    var c := pat[sp + 1];
    assert pat[sp..sp + 2] == [92, c];
    assert Reads(pat, sp, [92, c]);
    hide Scan, CodeOf;
    if c == 123 && ps != [] {
      assert !ScanRange(pat, sp + 2).RangeOverrun?;
      s := BracesFound(pat, d, sp, ps);
    } else if e :| BackslashFails(pat, sp, ps, e) {
      assert Fails(pat, d, sp, ps, e);
      s := Stops;
    } else {
      assert !BackslashFails(pat, sp, ps, 36) && !BackslashFails(pat, sp, ps, 42);
      assert !BackslashFails(pat, sp, ps, 43) && !BackslashFails(pat, sp, ps, 25);
      s := Goes(
        if c == 40 then OpenMark else if c == 41 then CloseMark else if c == 110 then NewLine
        else if 49 <= c <= 57 then RefMark(c - 48) else Quote(c));
    }
  }

  lemma {:induction false} BracesFound(pat: seq<byte>, d: Delim, sp: nat, ps: seq<Piece>) returns (s: Step)
    requires InPattern(pat, d, sp) && ps != [] && Reads(pat, sp, [92, 123])
    requires !ScanRange(pat, sp + 2).RangeOverrun?
    ensures StepIs(pat, d, sp, ps, s)
  {
    ReadsAt(pat, sp, [92, 123], 0);
    ReadsAt(pat, sp, [92, 123], 1);
    var lo, two, hi := RangeFound(pat, sp + 2);
    var r := ScanRange(pat, sp + 2);
    hide ScanRange;
    if r.Limits? {
      Join(pat, sp, [92, 123], LimitsText(lo, two, hi));
      s := Goes(Braces(lo, two, hi));
    } else {
      assert BackslashFails(pat, sp, ps, r.error);
      assert Fails(pat, d, sp, ps, r.error);
      s := Stops;
    }
  }

  /** A scan that does not run off the end splits the text into pieces, up to an end or an error. */
  lemma {:induction false} SplitFound(pat: seq<byte>, d: Delim, start: nat, sp: nat, ps: seq<Piece>)
    returns (at: nat, all: seq<Piece>)
    requires Split(pat, d, start, sp, ps) && Sound(ps) && Scan(pat, d, sp, StateOf(ps)) != Overrun
    ensures Split(pat, d, start, at, all) && (Ends(pat, d, at) || exists e :: Fails(pat, d, at, all, e))
    decreases |pat| - sp
  {
    hide Scan, StateOf, Sound, Split, Here, Text, Fails, Ends;
    var s := StepFound(pat, d, sp, ps);
    if s.Stops? {
      at, all := sp, ps;
    } else {
      PieceStep(pat, d, sp, ps, s.p);
      SplitMore(pat, d, start, sp, ps, s.p);
      at, all := SplitFound(pat, d, start, sp + |Text(s.p)|, ps + [s.p]);
    }
  }

  lemma {:induction false} SplitMore(pat: seq<byte>, d: Delim, start: nat, sp: nat, ps: seq<Piece>, p: Piece)
    requires Split(pat, d, start, sp, ps) && Here(pat, d, sp, ps, p)
    ensures Split(pat, d, start, sp + |Text(p)|, ps + [p]) && sp < |pat| && sp + |Text(p)| <= |pat|
  {
    assert (ps + [p])[..|ps|] == ps;
    hide Text;
  }

  // ----- the outcome -----

  lemma {:induction false} CompileIsScan(pat: seq<byte>, d: Delim, hasOld: bool)
    ensures pat == [] ==> Compile(pat, d, hasOld) == Overrun
    ensures Empty(pat, d) ==>
      Compile(pat, d, hasOld) == if hasOld || d.sed then KeepOld(pat[0] == 10) else Error(41)
    ensures pat != [] && !Empty(pat, d) ==> Compile(pat, d, hasOld) == Scan(pat, d, Start(pat), START)
    ensures Start(pat) >= 0
  {
    hide Scan;
  }

  lemma {:induction false} AcceptsCompiles(pat: seq<byte>, d: Delim, hasOld: bool, sp: int, ps: seq<Piece>)
    requires Accepts(pat, d, sp, ps)
    ensures 0 <= sp < |pat| && Compile(pat, d, hasOld) == Program(pat, d, sp, ps)
  {
    CompileIsScan(pat, d, hasOld);
    hide Scan, StateOf, Split, Program, Compile;
    SplitScan(pat, d, Start(pat), sp, ps);
    EndScan(pat, d, sp, ps);
  }

  lemma {:induction false} FailsCompile(pat: seq<byte>, d: Delim, hasOld: bool, sp: int, ps: seq<Piece>, e: int)
    requires FailsAt(pat, d, sp, ps, e)
    ensures Compile(pat, d, hasOld) == Error(e)
  {
    CompileIsScan(pat, d, hasOld);
    FailsInside(pat, d, sp, ps, e);
    hide Scan, StateOf, Split, Compile, Fails;
    SplitScan(pat, d, Start(pat), sp, ps);
    FailScan(pat, d, sp, ps, e);
  }

  lemma {:induction false} FailsInside(pat: seq<byte>, d: Delim, sp: int, ps: seq<Piece>, e: int)
    requires Fails(pat, d, sp, ps, e)
    ensures 0 <= sp < |pat|
  {
    hide BackslashFails, BracketFails;
  }

  /** A pattern that is not empty and is not run off splits into pieces that are accepted, or fail. */
  lemma {:induction false} CompileSplits(pat: seq<byte>, d: Delim, hasOld: bool) returns (sp: int, ps: seq<Piece>)
    requires !Empty(pat, d) && Compile(pat, d, hasOld) != Overrun
    ensures Accepts(pat, d, sp, ps) || exists e :: FailsAt(pat, d, sp, ps, e)
  {
    CompileIsScan(pat, d, hasOld);
    NothingYet(pat, d, Start(pat), Start(pat));
    assert Split(pat, d, Start(pat), Start(pat), []);
    hide Scan, StateOf, Split, Compile, Sound, Fails, Ends;
    sp, ps := SplitFound(pat, d, Start(pat), Start(pat), []);
    if e :| Fails(pat, d, sp, ps, e) {
      assert FailsAt(pat, d, sp, ps, e);
    } else {
      SplitScan(pat, d, Start(pat), sp, ps);
      Unclosed(pat, d, sp, ps);
    }
  }

  lemma {:induction false} Unclosed(pat: seq<byte>, d: Delim, sp: int, ps: seq<Piece>)
    requires Sound(ps) && Ends(pat, d, sp)
    ensures Opened(ps) == Closed(ps) || Fails(pat, d, sp, ps, 42)
  {
  }

  /** What `compile` does with any bytes at all. It keeps the old program for an empty pattern, if there is one or
      the pattern is for sed (and is error 41 otherwise). It stores the program of the pieces, exactly for the
      texts that split into pieces up to an end with each group closed. It fails with just the errors that stand
      behind some pieces. In all other cases the text is over before the pattern is. */
  lemma {:induction false} CompileIff(pat: seq<byte>, d: Delim, hasOld: bool, o: Outcome)
    ensures Compile(pat, d, hasOld) == o <==>
      match o
      case KeepOld(nodelim) => Empty(pat, d) && (hasOld || d.sed) && (nodelim <==> pat[0] == 10)
      case Compiled(_, _, _, _) => exists sp, ps :: Accepts(pat, d, sp, ps) && o == Program(pat, d, sp, ps)
      case Error(e) => (e == 41 && Empty(pat, d) && !hasOld && !d.sed) || exists sp, ps :: FailsAt(pat, d, sp, ps, e)
      case Overrun =>
        && !Empty(pat, d) && (forall sp, ps :: !Accepts(pat, d, sp, ps))
        && forall sp, ps, e :: !FailsAt(pat, d, sp, ps, e)
  {
    CompileIsScan(pat, d, hasOld);
    hide Compile, Scan, Empty, Program, Start;
    forall sp, ps | Accepts(pat, d, sp, ps)
      ensures 0 <= sp < |pat| && Compile(pat, d, hasOld) == Program(pat, d, sp, ps)
    {
      AcceptsCompiles(pat, d, hasOld, sp, ps);
    }
    forall sp, ps, e | FailsAt(pat, d, sp, ps, e) ensures Compile(pat, d, hasOld) == Error(e) {
      FailsCompile(pat, d, hasOld, sp, ps, e);
    }
    NotEmpty(pat, d);
    hide Accepts, FailsAt;
    if !Empty(pat, d) && Compile(pat, d, hasOld) != Overrun {
      var sp, ps := CompileSplits(pat, d, hasOld);
      if Accepts(pat, d, sp, ps) { AcceptsCompiles(pat, d, hasOld, sp, ps); }
    }
    ProgramIs(pat, d);
  }

  lemma {:induction false} NotEmpty(pat: seq<byte>, d: Delim)
    ensures forall sp, ps :: Accepts(pat, d, sp, ps) ==> !Empty(pat, d) && 0 <= sp < |pat|
    ensures forall sp, ps, e :: FailsAt(pat, d, sp, ps, e) ==> !Empty(pat, d)
    ensures Empty(pat, d) ==> pat != []
  {
  }

  lemma {:induction false} ProgramIs(pat: seq<byte>, d: Delim)
    ensures forall sp, ps :: 0 <= sp < |pat| ==> Program(pat, d, sp, ps).Compiled?
  {
  }

  // ----- what follows for every accepted text -----

  /** How many of the first k instructions are of these kinds, whatever follows them. */
  function Marks(code: seq<Instr>, k: nat, ops: set<byte>): nat
    requires k <= |code|
  {
    if k == 0 then 0 else Marks(code, k - 1, ops) + if code[k - 1].op in ops then 1 else 0
  }

  const OPENS: set<byte> := {2, 3}     // CBRA, and with limits behind it
  const CLOSES: set<byte> := {24, 27}  // CKET, and with limits behind it

  lemma {:induction false} MarksSame(code: seq<Instr>, more: seq<Instr>, k: nat, ops: set<byte>)
    requires k <= |code| && k <= |more| && forall i :: 0 <= i < k ==> (code[i].op in ops <==> more[i].op in ops)
    ensures Marks(code, k, ops) == Marks(more, k, ops)
  {
    if k > 0 { MarksSame(code, more, k - 1, ops); }
  }

  /** The marks in the code of some pieces are those of the pieces, and no group is closed before it is opened. */
  ghost predicate Marked(ps: seq<Piece>) {
    var code := CodeOf(ps);
    && Marks(code, |code|, OPENS) == Opened(ps) && Marks(code, |code|, CLOSES) == Closed(ps)
    && forall k :: 0 <= k <= |code| ==> Marks(code, k, CLOSES) <= Marks(code, k, OPENS)
  }

  lemma {:induction false} SplitMarked(pat: seq<byte>, d: Delim, start: nat, sp: int, ps: seq<Piece>)
    requires Split(pat, d, start, sp, ps)
    ensures Marked(ps)
    decreases |ps|
  {
    hide Marked, Split, Here, Sound, Text, CodeOf, Scan, StateOf;
    if ps == [] {
      assert Marked(ps) by { NoMarks(); }
    } else {
      var n := |ps| - 1;
      SplitLast(pat, d, start, sp, ps);
      SplitMarked(pat, d, start, sp - |Text(ps[n])|, ps[..n]);
      SplitScan(pat, d, start, sp - |Text(ps[n])|, ps[..n]);
      MarkedStep(pat, d, sp - |Text(ps[n])|, ps[..n], ps[n]);
      assert ps == ps[..n] + [ps[n]];
    }
  }

  lemma {:induction false} NoMarks()
    ensures Marked([])
  {
    assert CodeOf([]) == [];
  }

  lemma {:induction false} MarkedStep(pat: seq<byte>, d: Delim, sp: int, ps: seq<Piece>, p: Piece)
    requires Sound(ps) && Marked(ps) && Here(pat, d, sp, ps, p)
    ensures Marked(ps + [p])
  {
    hide Sound, Reads, Text, Units, CodeOf;
    var code, more := CodeOf(ps), CodeOf(ps + [p]);
    UnitsSnoc(ps, p);
    if p.StarMark? || p.Braces? {
      AmendedMark(ps, p);
      var n := |code| - 1;
      assert forall i :: 0 <= i < n ==> more[i] == more[..n][i] == code[..n][i] == code[i];
      SameMarks(code, more);
    } else {
      CodeGrows(ps, p);
      var i := Instr(Starts(ps, p).kind, Starts(ps, p).args);
      assert (i.op in OPENS <==> p.OpenMark?) && (i.op in CLOSES <==> p.CloseMark?);
      MoreMarks(code, i);
    }
  }

  lemma {:induction false} SameMarks(code: seq<Instr>, more: seq<Instr>)
    requires |code| == |more|
    requires forall i :: 0 <= i < |code| ==> (code[i].op in OPENS <==> more[i].op in OPENS)
    requires forall i :: 0 <= i < |code| ==> (code[i].op in CLOSES <==> more[i].op in CLOSES)
    ensures forall k :: 0 <= k <= |code| ==>
      Marks(more, k, OPENS) == Marks(code, k, OPENS) && Marks(more, k, CLOSES) == Marks(code, k, CLOSES)
  {
    forall k | 0 <= k <= |code|
      ensures Marks(more, k, OPENS) == Marks(code, k, OPENS) && Marks(more, k, CLOSES) == Marks(code, k, CLOSES)
    {
      MarksSame(code, more, k, OPENS);
      MarksSame(code, more, k, CLOSES);
    }
  }

  lemma {:induction false} MoreMarks(code: seq<Instr>, i: Instr)
    ensures forall k :: 0 <= k <= |code| ==>
      && Marks(code + [i], k, OPENS) == Marks(code, k, OPENS)
      && Marks(code + [i], k, CLOSES) == Marks(code, k, CLOSES)
    ensures Marks(code + [i], |code| + 1, OPENS) == Marks(code, |code|, OPENS) + if i.op in OPENS then 1 else 0
    ensures Marks(code + [i], |code| + 1, CLOSES) == Marks(code, |code|, CLOSES) + if i.op in CLOSES then 1 else 0
  {
    forall k | 0 <= k <= |code|
      ensures Marks(code + [i], k, OPENS) == Marks(code, k, OPENS)
      ensures Marks(code + [i], k, CLOSES) == Marks(code, k, CLOSES)
    {
      MarksSame(code, code + [i], k, OPENS);
      MarksSame(code, code + [i], k, CLOSES);
    }
  }

  lemma {:induction false} AmendedMark(ps: seq<Piece>, p: Piece)
    requires Sound(ps) && ps != [] && (p.Braces? || (p.StarMark? && !Bare(ps)))
    ensures |CodeOf(ps + [p])| == |CodeOf(ps)| > 0
    ensures var code, more, n := CodeOf(ps), CodeOf(ps + [p]), |CodeOf(ps)| - 1;
      && more[..n] == code[..n] && (more[n].op in OPENS <==> code[n].op in OPENS)
      && (more[n].op in CLOSES <==> code[n].op in CLOSES)
  {
    UnitsSnoc(ps, p);
    CodeAmended(ps, p);
    var u := Units(ps)[|Units(ps)| - 1];
    assert CodeOf(ps)[|CodeOf(ps)| - 1].op == Opcode(u);
    OpcodeMark(u);
  }

  lemma {:induction false} OpcodeMark(u: Unit)
    requires Kind(u.kind) && (u.star ==> u.limits != [] || u.kind !in {CBRA, CKET})
    ensures OrRnge(Opcode(u)) in OPENS <==> Opcode(u) in OPENS
    ensures OrRnge(Opcode(u)) in CLOSES <==> Opcode(u) in CLOSES
    ensures Opcode(u) !in {CBRA, CKET} ==>
      (OrStar(Opcode(u)) in OPENS <==> Opcode(u) in OPENS) && (OrStar(Opcode(u)) in CLOSES <==> Opcode(u) in CLOSES)
  {
  }

  /** Every program that is stored has its group marks balanced, whatever the text was. */
  lemma {:induction false} StoredIsBalanced(pat: seq<byte>, d: Delim, hasOld: bool, k: nat)
    requires Compile(pat, d, hasOld).Compiled? && k <= |Compile(pat, d, hasOld).code|
    ensures var code := Compile(pat, d, hasOld).code;
      && Marks(code, k, CLOSES) <= Marks(code, k, OPENS)
      && Marks(code, |code|, CLOSES) == Marks(code, |code|, OPENS) == Compile(pat, d, hasOld).nbra
  {
    CompileIff(pat, d, hasOld, Compile(pat, d, hasOld));
    var sp, ps :| Accepts(pat, d, sp, ps) && Compile(pat, d, hasOld) == Program(pat, d, sp, ps);
    SplitMarked(pat, d, Start(pat), sp, ps);
    hide Compile, Split;
  }

  /** The instruction of any bracket expression accepts just the characters described, or just the others. */
  lemma {:induction false} BracketMeans(neg: bool, parts: seq<Part>, dash: bool, c: byte)
    requires c != 0
    ensures var u := BracketUnit(neg, BracketSet(parts, dash), BeyondAscii(parts));
      var t := if u.kind == CXCL then Cxcl(u.args) else if u.kind == NCCL then Nccl(u.args) else Ccl(u.args);
      Has(t, c) <==> InBracket(parts, dash, c) != neg
  {
    var S, wide := BracketSet(parts, dash), BeyondAscii(parts);
    assert c in S <==> InBracket(parts, dash, c);
    var T := if !neg then S else if wide then (set x | 1 <= x < 256 && x !in S) else S + {0};
    if wide || c < 128 {
      BitmapExact(T, if wide then 32 else 16, c);
    } else {
      NarrowBracket(parts, dash, c);
    }
    hide BracketSet, BeyondAscii, InBracket, Bitmap, IsThere;
  }

  lemma {:induction false} NarrowBracket(parts: seq<Part>, dash: bool, x: int)
    requires !BeyondAscii(parts) && x >= 128
    ensures !InBracket(parts, dash, x)
  {
    if i :| 0 <= i < |parts| && PartHas(parts, i, x) { assert Beyond(parts, i); }
  }

  /** A group that is never closed is refused: \(a and the delimiter is error 42. */
  lemma {:induction false} OpenGroupRefused(d: Delim, hasOld: bool)
    requires d.eof !in {10, 40, 92, 97}
    ensures Compile([92, 40, 97, d.eof], d, hasOld) == Error(42)
  {
    var pat, two := [92, 40, 97, d.eof], [] + [OpenMark] + [Self(97)];
    assert !Empty(pat, d) && Start(pat) == 0 && Ends(pat, d, 3);
    hide Fails, Split, Compile, Empty, Start, Ends, Opened, Closed, Here, Text;
    OpenGroupText(d);
    TwoPieces(pat, d, OpenMark, Self(97));
    FailsOpen(pat, d, 3, two);
    FailsCompile(pat, d, hasOld, 3, two, 42);
  }

  lemma {:induction false} TwoPieces(pat: seq<byte>, d: Delim, p: Piece, q: Piece)
    requires Here(pat, d, 0, [], p) && Here(pat, d, |Text(p)|, [] + [p], q)
    ensures Split(pat, d, 0, |Text(p)| + |Text(q)|, [] + [p] + [q])
    ensures Opened([] + [p] + [q]) == (if p.OpenMark? then 1 else 0) + if q.OpenMark? then 1 else 0
    ensures Closed([] + [p] + [q]) == (if p.CloseMark? then 1 else 0) + if q.CloseMark? then 1 else 0
  {
    hide Here, Text;
    MarksSnoc([], p);
    MarksSnoc([] + [p], q);
    hide Opened, Closed, Split;
    SplitNone(pat, d, 0);
    SplitMore(pat, d, 0, 0, [], p);
    SplitMore(pat, d, 0, |Text(p)|, [] + [p], q);
  }

  lemma {:induction false} MarksSnoc(ps: seq<Piece>, p: Piece)
    ensures Opened(ps + [p]) == Opened(ps) + if p.OpenMark? then 1 else 0
    ensures Closed(ps + [p]) == Closed(ps) + if p.CloseMark? then 1 else 0
    ensures Opened([]) == Closed([]) == 0
  {
    assert (ps + [p])[..|ps|] == ps;
  }

  lemma {:induction false} OpenGroupText(d: Delim)
    requires d.eof !in {10, 40, 92, 97}
    ensures var pat := [92, 40, 97, d.eof];
      && Here(pat, d, 0, [], OpenMark) && Here(pat, d, 2, [] + [OpenMark], Self(97)) && Ends(pat, d, 3)
      && |Text(OpenMark)| == 2 && |Text(Self(97))| == 1
  {
    var pat := [92, 40, 97, d.eof];
    assert Reads(pat, 0, [92, 40]) && Reads(pat, 2, [97]);
    assert Opened([]) == 0;
    hide Reads, Opened, Closed;
  }

  lemma {:induction false} SplitNone(pat: seq<byte>, d: Delim, start: nat)
    ensures Split(pat, d, start, start, [])
  {
  }

  lemma {:induction false} FailsOpen(pat: seq<byte>, d: Delim, sp: int, ps: seq<Piece>)
    requires Ends(pat, d, sp) && Closed(ps) < Opened(ps)
    ensures Fails(pat, d, sp, ps, 42)
  {
  }
}
