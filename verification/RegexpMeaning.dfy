/** Patterns as syntax trees: how they are written, which program they stand for, and the proof
    that the compiler turns the one into the other. */
module RegexpMeaning {
  import opened Buffers
  import opened RegexpCode
  import opened RegexpSyntax
  import opened RegexpCompile

  // ----- abstract patterns -----

  datatype Elem = Ch(c: byte) | Rg(lo: byte, hi: byte)

  datatype Atom = Lit(c: byte) | Any | Set(neg: bool, elems: seq<Elem>) | Ref(g: byte)

  datatype Token =
    | Plain(a: Atom)
    | Starred(a: Atom)
    | Counted(a: Atom, lo: byte, hi: byte)  // hi 255 is the open end
    | GroupOpen
    | GroupClose

  datatype Pattern = Pattern(anchored: bool, tokens: seq<Token>, dollar: bool)

  // ----- what bracket expressions describe -----

  function ElemSet(e: Elem): set<int> {
    match e
    case Ch(c) => {c as int}
    case Rg(lo, hi) => Interval(lo, hi) + {hi as int}
  }

  function Members(elems: seq<Elem>): set<int> {
    if elems == [] then {} else Members(elems[..|elems| - 1]) + ElemSet(elems[|elems| - 1])
  }

  predicate WideElem(e: Elem) {
    match e
    case Ch(c) => c >= 128
    case Rg(lo, hi) => hi >= 128
  }

  predicate Wide(elems: seq<Elem>) { exists i :: 0 <= i < |elems| && WideElem(elems[i]) }

  /** The test a bracket expression compiles to. */
  function ClassTest(neg: bool, elems: seq<Elem>): Test {
    var i := ClassInstr(Members(elems), Wide(elems), neg);
    if Wide(elems) then Cxcl(i.args) else if neg then Nccl(i.args) else Ccl(i.args)
  }

  // ----- concrete syntax -----

  /** Delimiters that do not collide with the pattern language. */
  predicate GoodDelim(d: Delim) {
    && d.eof !in {NL, DOLLAR, LPAR, RPAR, STARCH, PERIOD, LBRK, BSLASH, CARET, LOWN, LBRC}
    && !(ZERO < d.eof <= NINE)
  }

  predicate Quoted(c: byte, d: Delim) { c in {PERIOD, STARCH, LBRK, BSLASH, DOLLAR, CARET, d.eof} }

  function ShowElem(e: Elem): seq<byte> {
    match e
    case Ch(c) => [c]
    case Rg(lo, hi) => [lo, MINUS, hi]
  }

  function ShowElems(elems: seq<Elem>): seq<byte> {
    if elems == [] then [] else ShowElem(elems[0]) + ShowElems(elems[1..])
  }

  function ShowAtom(a: Atom, d: Delim): seq<byte> {
    match a
    case Lit(c) => if c == NL then [BSLASH, LOWN] else if Quoted(c, d) then [BSLASH, c] else [c]
    case Any => [PERIOD]
    case Set(neg, elems) => [LBRK] + (if neg then [CARET] else []) + ShowElems(elems) + [RBRK]
    case Ref(g) => if g < 9 then [BSLASH, g + ZERO + 1] else []
  }

  /** A number below 256 in decimal. */
  function Digits(n: byte): seq<byte> {
    if n < 10 then [ZERO + n]
    else if n < 100 then [ZERO + n / 10, ZERO + n % 10]
    else [ZERO + n / 100, ZERO + n / 10 % 10, ZERO + n % 10]
  }

  function ShowLimits(lo: byte, hi: byte): seq<byte> {
    if lo == hi then Digits(lo) + [BSLASH]
    else if hi == 255 then Digits(lo) + [COMMA, BSLASH]
    else Digits(lo) + [COMMA] + Digits(hi) + [BSLASH]
  }

  function ShowToken(t: Token, d: Delim): seq<byte> {
    match t
    case Plain(a) => ShowAtom(a, d)
    case Starred(a) => ShowAtom(a, d) + [STARCH]
    case Counted(a, lo, hi) => ShowAtom(a, d) + [BSLASH, LBRC] + ShowLimits(lo, hi) + [RBRC]
    case GroupOpen => [BSLASH, LPAR]
    case GroupClose => [BSLASH, RPAR]
  }

  function ShowTokens(tokens: seq<Token>, d: Delim): seq<byte> {
    if tokens == [] then [] else ShowTokens(tokens[..|tokens| - 1], d) + ShowToken(tokens[|tokens| - 1], d)
  }

  function Show(p: Pattern, d: Delim): seq<byte> {
    (if p.anchored then [CARET] else []) + ShowTokens(p.tokens, d) + (if p.dollar then [DOLLAR] else []) + [d.eof]
  }

  // ----- well-formed patterns -----

  function FirstOf(e: Elem): byte { match e case Ch(c) => c case Rg(lo, _) => lo }

  /** A dash stands first or last, a closing bracket first, and limits are in order. */
  predicate GoodElem(elems: seq<Elem>, i: nat)
    requires i < |elems|
  {
    var c := FirstOf(elems[i]);
    && c != 0 && c != NL
    && (c == RBRK ==> i == 0)
    && (c == MINUS ==> i == 0 || (i == |elems| - 1 && elems[i].Ch?))
    && (elems[i].Rg? ==> elems[i].lo <= elems[i].hi && elems[i].hi != RBRK)
  }

  predicate GoodClass(neg: bool, elems: seq<Elem>) {
    && elems != []
    && (forall i :: 0 <= i < |elems| ==> GoodElem(elems, i))
    && (!neg ==> FirstOf(elems[0]) != CARET)
  }

  predicate GoodAtom(a: Atom) {
    match a
    case Lit(c) => c != 0
    case Any => true
    case Set(neg, elems) => GoodClass(neg, elems)
    case Ref(g) => g < 9
  }

  // ----- the program a pattern stands for -----

  /** Items so far, the stack of open groups, and the counts the compiler keeps. */
  datatype Build = Build(items: seq<Item>, opens: seq<byte>, nbra: nat, closed: nat)

  function AtomTest(a: Atom): Test
    requires !a.Ref?
  {
    match a
    case Lit(c) => Chr(c)
    case Any => Dot
    case Set(neg, elems) => ClassTest(neg, elems)
  }

  /** What the grammar asks of a token after the tokens before it. */
  predicate Allowed(b: Build, t: Token) {
    match t
    case Plain(a) => GoodAtom(a) && (a.Ref? ==> a.g < b.closed)
    case Starred(a) => GoodAtom(a) && (a.Ref? ==> a.g < b.closed)
    case Counted(a, lo, hi) => GoodAtom(a) && !a.Ref? && lo <= hi
    case GroupOpen => b.nbra < NBRA
    case GroupClose => b.opens != []
  }

  function ItemOf(b: Build, t: Token): Item
    requires Allowed(b, t) && b.nbra <= NBRA
  {
    match t
    case Plain(a) => if a.Ref? then Back(a.g) else One(AtomTest(a))
    case Starred(a) => if a.Ref? then BackMany(a.g) else Many(AtomTest(a))
    case Counted(a, lo, hi) => Count(AtomTest(a), lo, hi)
    case GroupOpen => Open(b.nbra)
    case GroupClose => Close(b.opens[|b.opens| - 1])
  }

  function Extend(b: Build, t: Token): (b': Build)
    requires Allowed(b, t) && b.nbra <= NBRA
    ensures b'.nbra <= NBRA
  {
    var items := b.items + [ItemOf(b, t)];
    match t
    case GroupOpen => Build(items, b.opens + [b.nbra], b.nbra + 1, b.closed)
    case GroupClose => Build(items, b.opens[..|b.opens| - 1], b.nbra, b.closed + 1)
    case _ => b.(items := items)
  }

  /** Every token is allowed where it stands. */
  predicate GoodTokens(tokens: seq<Token>)
    decreases |tokens|, 0
  {
    tokens == [] ||
    (GoodTokens(tokens[..|tokens| - 1]) && Allowed(BuildOf(tokens[..|tokens| - 1]), tokens[|tokens| - 1]))
  }

  function BuildOf(tokens: seq<Token>): (b: Build)
    requires GoodTokens(tokens)
    ensures b.nbra <= NBRA
    decreases |tokens|, 1
  {
    if tokens == [] then Build([], [], 0, 0)
    else Extend(BuildOf(tokens[..|tokens| - 1]), tokens[|tokens| - 1])
  }

  /** A pattern of the supported grammar: not empty, groups balanced. */
  predicate GoodPattern(p: Pattern) {
    GoodTokens(p.tokens) && BuildOf(p.tokens).opens == [] && (p.anchored || p.tokens != [] || p.dollar)
  }

  function ItemsOf(p: Pattern): seq<Item>
    requires GoodPattern(p)
  {
    BuildOf(p.tokens).items + (if p.dollar then [End] else [])
  }

  function AssembleAll(items: seq<Item>): (code: seq<Instr>)
    ensures |code| == |items| && forall i :: 0 <= i < |items| ==> code[i] == Assemble(items[i])
  {
    seq(|items|, i requires 0 <= i < |items| => Assemble(items[i]))
  }

  function StateOf(b: Build): State {
    State(AssembleAll(b.items), b.opens, b.nbra, b.closed)
  }

  // ----- bracket expressions -----

  function LastOf(e: Elem): byte { match e case Ch(c) => c case Rg(_, hi) => hi }

  lemma {:induction false} MembersStep(elems: seq<Elem>, i: nat)
    requires i < |elems|
    ensures Members(elems[..i + 1]) == Members(elems[..i]) + ElemSet(elems[i])
    ensures Wide(elems[..i + 1]) <==> Wide(elems[..i]) || WideElem(elems[i])
  {
    var e := elems[..i + 1];
    assert e[..i] == elems[..i] && e[i] == elems[i];
    if Wide(elems[..i]) {
      var k :| 0 <= k < i && WideElem(elems[..i][k]);
      assert e[k] == elems[..i][k];
    }
    if Wide(e) {
      var k :| 0 <= k < i + 1 && WideElem(e[k]);
      assert k < i ==> elems[..i][k] == e[k];
    }
  }

  /** One written element takes the bracket loop to the next one, or ends it. */
  lemma {:induction false} ElemReads(pat: seq<byte>, sp: nat, elems: seq<Elem>, i: nat, lc: byte)
    requires i < |elems| && GoodElem(elems, i) && (lc == 0 <==> i == 0)
    requires Reads(pat, sp, ShowElem(elems[i]) + (if i == |elems| - 1 then [RBRK] else []))
    ensures var S, w := Members(elems[..i + 1]), Wide(elems[..i + 1]);
      ScanClass(pat, sp, lc, Members(elems[..i]), Wide(elems[..i])) ==
        if elems[i] == Ch(MINUS) && i > 0 then Class(S, w, sp + 2)
        else NextInClass(pat, sp + |ShowElem(elems[i])|, LastOf(elems[i]), S, w)
  {
    hide Reads, Members, Wide;
    var e, S, w := elems[i], Members(elems[..i]), Wide(elems[..i]);
    var text := ShowElem(e) + (if i == |elems| - 1 then [RBRK] else []);
    ReadsAt(pat, sp, text, 0);
    MembersStep(elems, i);
    if e.Rg? {
      ReadsAt(pat, sp, text, 1);
      ReadsAt(pat, sp, text, 2);
      var S1, w1 := S + {e.lo as int}, w || e.lo >= 128;
      assert ScanClass(pat, sp, lc, S, w) == NextInClass(pat, sp + 1, e.lo, S1, w1);
      assert NextInClass(pat, sp + 1, e.lo, S1, w1) == ScanClass(pat, sp + 1, e.lo, S1, w1);
      assert S1 + Interval(e.lo, e.hi) + {e.hi as int} == S + ElemSet(e);
    } else if e.c == MINUS && i > 0 {
      ReadsAt(pat, sp, text, 1);
    }
  }

  lemma {:induction false} ElemsRead(pat: seq<byte>, sp: nat, elems: seq<Elem>, i: nat, lc: byte)
    requires 0 < i <= |elems| && lc != 0 && sp > 0
    requires forall k :: 0 <= k < |elems| ==> GoodElem(elems, k)
    requires Reads(pat, sp, ShowElems(elems[i..]) + [RBRK])
    ensures NextInClass(pat, sp, lc, Members(elems[..i]), Wide(elems[..i]))
         == Class(Members(elems), Wide(elems), sp + |ShowElems(elems[i..])| + 1)
    decreases |elems| - i
  {
    hide ScanClass, Members, WideElem;
    var text := ShowElems(elems[i..]) + [RBRK];
    if i == |elems| {
      ReadsAt(pat, sp, text, 0);
      assert elems[..i] == elems;
    } else {
      var e := elems[i];
      assert GoodElem(elems, i);
      assert elems[i..][1..] == elems[i + 1..];
      var rest := ShowElems(elems[i + 1..]) + [RBRK];
      assert text == ShowElem(e) + rest;
      ReadsSplit(pat, sp, ShowElem(e), rest);
      if i == |elems| - 1 {
        assert rest == [RBRK] && text == ShowElem(e) + [RBRK];
      } else {
        assert ShowElem(e) + [] == ShowElem(e);
      }
      ReadsAt(pat, sp, ShowElem(e), 0);
      ElemReads(pat, sp, elems, i, lc);
      if e == Ch(MINUS) {
        assert elems[..i + 1] == elems;
      } else {
        ElemsRead(pat, sp + |ShowElem(e)|, elems, i + 1, LastOf(e));
      }
    }
  }

  /** A written bracket expression scans back to its members. */
  lemma {:induction false} ClassReads(pat: seq<byte>, sp: nat, neg: bool, elems: seq<Elem>)
    requires GoodClass(neg, elems) && Reads(pat, sp, ShowElems(elems) + [RBRK])
    ensures ScanClass(pat, sp, 0, {}, false) == Class(Members(elems), Wide(elems), sp + |ShowElems(elems)| + 1)
  {
    hide ScanClass, NextInClass, Members, Wide, ShowElems, Reads;
    var e, rest := elems[0], ShowElems(elems[1..]) + [RBRK];
    assert GoodElem(elems, 0);
    ShowFirst(elems);
    ReadsSplit(pat, sp, ShowElem(e), rest);
    ElemReads(pat, sp, elems, 0, 0);
    ElemsRead(pat, sp + |ShowElem(e)|, elems, 1, LastOf(e));
  }

  lemma {:induction false} ShowFirst(elems: seq<Elem>)
    requires elems != []
    ensures var rest := ShowElems(elems[1..]) + [RBRK];
      && ShowElems(elems) + [RBRK] == ShowElem(elems[0]) + rest
      && |ShowElems(elems)| == |ShowElem(elems[0])| + |ShowElems(elems[1..])|
      && (|elems| == 1 ==> rest == [RBRK])
    ensures ShowElem(elems[0]) + [] == ShowElem(elems[0])
    ensures Members(elems[..0]) == {} && !Wide(elems[..0])
  {
  }

  // ----- range suffixes -----

  lemma {:induction false} NumStep(pat: seq<byte>, sp: nat, i: int)
    requires 0 <= i < 1000 && sp + 1 < |pat| && ZERO <= pat[sp] <= NINE
    ensures var i' := 10 * i + pat[sp] - ZERO;
      ScanNum(pat, sp, i) ==
        if pat[sp + 1] == BSLASH || pat[sp + 1] == COMMA then Num(i', pat[sp + 1], sp + 2) else ScanNum(pat, sp + 1, i')
  {
    assert Wrap32(10 * i + pat[sp] - ZERO) == 10 * i + pat[sp] - ZERO;
  }

  lemma {:induction false} DigitsRead(pat: seq<byte>, sp: nat, n: byte, stop: byte)
    requires Reads(pat, sp, Digits(n) + [stop]) && (stop == BSLASH || stop == COMMA)
    ensures ScanNum(pat, sp, 0) == Num(n, stop, sp + |Digits(n)| + 1)
  {
    hide ScanNum, Reads;
    var w := Digits(n) + [stop];
    ReadsAt(pat, sp, w, 0);
    ReadsAt(pat, sp, w, 1);
    NumStep(pat, sp, 0);
    if n >= 10 {
      ReadsAt(pat, sp, w, 2);
      NumStep(pat, sp + 1, pat[sp] - ZERO);
      if n >= 100 {
        ReadsAt(pat, sp, w, 3);
        NumStep(pat, sp + 2, n / 10);
      }
    }
  }

  lemma {:induction false} DigitsStart(n: byte)
    ensures |Digits(n)| > 0 && ZERO <= Digits(n)[0] <= NINE
  {
  }

  /** Written limits scan back. */
  lemma {:induction false} LimitsRead(pat: seq<byte>, sp: nat, lo: byte, hi: byte)
    requires lo <= hi && Reads(pat, sp, ShowLimits(lo, hi) + [RBRC])
    ensures ScanRange(pat, sp) == Limits(lo, hi, sp + |ShowLimits(lo, hi)| + 1)
  {
    if lo == hi {
      ReadsSplit(pat, sp, Digits(lo) + [BSLASH], [RBRC]);
      DigitsRead(pat, sp, lo, BSLASH);
      ReadsAt(pat, sp + |Digits(lo)| + 1, [RBRC], 0);
    } else {
      TwoLimitsRead(pat, sp, lo, hi);
    }
  }

  lemma {:induction false} TwoLimitsRead(pat: seq<byte>, sp: nat, lo: byte, hi: byte)
    requires lo < hi && Reads(pat, sp, ShowLimits(lo, hi) + [RBRC])
    ensures ScanRange(pat, sp) == Limits(lo, hi, sp + |ShowLimits(lo, hi)| + 1)
  {
    hide Digits, ScanNum, Reads, ShowLimits;
    TwoLimitsSplit(pat, sp, lo, hi);
    DigitsRead(pat, sp, lo, COMMA);
    var sp1 := sp + |Digits(lo)| + 1;
    if hi != 255 {
      DigitsStart(hi);
      ReadsAt(pat, sp1, Digits(hi) + [BSLASH], 0);
      DigitsRead(pat, sp1, hi, BSLASH);
    } else {
      ReadsAt(pat, sp1, [BSLASH], 0);
    }
  }

  lemma {:induction false} TwoLimitsSplit(pat: seq<byte>, sp: nat, lo: byte, hi: byte)
    requires lo < hi && Reads(pat, sp, ShowLimits(lo, hi) + [RBRC])
    ensures Reads(pat, sp, Digits(lo) + [COMMA])
    ensures var sp1 := sp + |Digits(lo)| + 1; var n := if hi == 255 then 1 else |Digits(hi)| + 1;
      && Reads(pat, sp1, if hi == 255 then [BSLASH] else Digits(hi) + [BSLASH])
      && sp1 + n < |pat| && pat[sp1 + n] == RBRC && sp + |ShowLimits(lo, hi)| == sp1 + n
  {
    hide Digits, Reads;
    var second := if hi == 255 then [BSLASH] else Digits(hi) + [BSLASH];
    assert ShowLimits(lo, hi) + [RBRC] == (Digits(lo) + [COMMA]) + (second + [RBRC]);
    ReadsSplit(pat, sp, Digits(lo) + [COMMA], second + [RBRC]);
    var sp1 := sp + |Digits(lo)| + 1;
    ReadsSplit(pat, sp1, second, [RBRC]);
    ReadsAt(pat, sp1 + |second|, [RBRC], 0);
  }

  // ----- tokens -----

  function AtomInstr(a: Atom): Instr {
    if a.Ref? then Instr(CBACK, [a.g]) else Assemble(One(AtomTest(a)))
  }

  /** A written atom is scanned as one instruction. */
  lemma {:induction false} AtomReads(pat: seq<byte>, d: Delim, sp: nat, st: State, a: Atom)
    requires GoodDelim(d) && GoodAtom(a) && (a.Ref? ==> a.g < st.closed)
    requires Reads(pat, sp, ShowAtom(a, d))
    ensures Scan(pat, d, sp, st) == Scan(pat, d, sp + |ShowAtom(a, d)|, Emit(st, AtomInstr(a).op, AtomInstr(a).args))
  {
    var w := ShowAtom(a, d);
    ReadsAt(pat, sp, w, 0);
    match a
    case Lit(c) =>
      if |w| == 2 { ReadsAt(pat, sp, w, 1); }
    case Any =>
    case Ref(g) => ReadsAt(pat, sp, w, 1);
    case Set(neg, elems) =>
      SetReads(pat, d, sp, st, neg, elems);
  }

  lemma {:induction false} SetReads(pat: seq<byte>, d: Delim, sp: nat, st: State, neg: bool, elems: seq<Elem>)
    requires GoodDelim(d) && GoodClass(neg, elems) && Reads(pat, sp, ShowAtom(Set(neg, elems), d))
    ensures var i := AtomInstr(Set(neg, elems));
      Scan(pat, d, sp, st) == Scan(pat, d, sp + |ShowAtom(Set(neg, elems), d)|, Emit(st, i.op, i.args))
  {
    hide Scan, ScanClass, ShowElems, Members, Wide, Bitmap;
    var w, body := ShowAtom(Set(neg, elems), d), ShowElems(elems) + [RBRK];
    var head := [LBRK] + (if neg then [CARET] else []);
    assert w == head + body;
    ReadsSplit(pat, sp, head, body);
    ReadsAt(pat, sp, head, 0);
    ClassReads(pat, sp + |head|, neg, elems);
    CaretReads(pat, sp, neg, elems);
    ClassStep(pat, d, sp, st, neg, Members(elems), Wide(elems), sp + |w|);
  }

  lemma {:induction false} CaretReads(pat: seq<byte>, sp: nat, neg: bool, elems: seq<Elem>)
    requires GoodClass(neg, elems)
    requires Reads(pat, sp, [LBRK] + (if neg then [CARET] else []))
    requires Reads(pat, sp + (if neg then 2 else 1), ShowElems(elems) + [RBRK])
    ensures sp + 1 < |pat| && neg == (pat[sp + 1] == CARET)
  {
    if neg {
      ReadsAt(pat, sp, [LBRK] + [CARET], 1);
    } else {
      assert (ShowElems(elems) + [RBRK])[0] == FirstOf(elems[0]);
      ReadsAt(pat, sp + 1, ShowElems(elems) + [RBRK], 0);
    }
  }

  lemma {:induction false} ClassStep(pat: seq<byte>, d: Delim, sp: nat, st: State, neg: bool, S: set<int>, wide: bool,
      at: nat)
    requires sp + 1 < |pat| && pat[sp] == LBRK != d.eof && neg == (pat[sp + 1] == CARET)
    requires ScanClass(pat, if neg then sp + 2 else sp + 1, 0, {}, false) == Class(S, wide, at)
    ensures var i := ClassInstr(S, wide, neg); Scan(pat, d, sp, st) == Scan(pat, d, at, Emit(st, i.op, i.args))
  {
  }

  lemma {:induction false} StarStep(pat: seq<byte>, d: Delim, sp: nat, st: State)
    requires sp < |pat| && pat[sp] == STARCH != d.eof && st.code != [] && LastOp(st) != CBRA && LastOp(st) != CKET
    ensures Scan(pat, d, sp, st) == Scan(pat, d, sp + 1, Amend(st, OrStar(LastOp(st)), []))
  {
  }

  lemma {:induction false} RangeStep(pat: seq<byte>, d: Delim, sp: nat, st: State, lo: byte, hi: byte, at: nat)
    requires sp + 1 < |pat| && pat[sp] == BSLASH != d.eof && pat[sp + 1] == LBRC && st.code != []
    requires ScanRange(pat, sp + 2) == Limits(lo, hi, at)
    ensures Scan(pat, d, sp, st) == Scan(pat, d, at, Amend(st, OrRnge(LastOp(st)), [lo, hi]))
  {
  }

  lemma {:induction false} AmendedState(b: Build, a: Atom, t: Token)
    requires b.nbra <= NBRA && Allowed(b, t) && (t == Starred(a) || (t.Counted? && t.a == a))
    ensures var st := Emit(StateOf(b), AtomInstr(a).op, AtomInstr(a).args);
      && LastOp(st) != CBRA && LastOp(st) != CKET
      && Amend(st, if t.Starred? then OrStar(LastOp(st)) else OrRnge(LastOp(st)),
               if t.Starred? then [] else [t.lo, t.hi])
         == StateOf(Extend(b, t))
  {
    var st := Emit(StateOf(b), AtomInstr(a).op, AtomInstr(a).args);
    AssembleSnoc(b.items, ItemOf(b, t));
    assert st.code[..|st.code| - 1] == StateOf(b).code;
    if t.Starred? {
      assert AtomInstr(a).args + [] == AtomInstr(a).args;
      assert Assemble(ItemOf(b, t)) == Instr(OrStar(AtomInstr(a).op), AtomInstr(a).args);
    } else {
      assert Assemble(ItemOf(b, t)) == Instr(OrRnge(AtomInstr(a).op), AtomInstr(a).args + [t.lo, t.hi]);
    }
  }

  lemma {:induction false} AssembleSnoc(items: seq<Item>, it: Item)
    ensures AssembleAll(items + [it]) == AssembleAll(items) + [Assemble(it)]
  {
  }

  /** A written token takes the scanner from the state of the tokens before it to the state after. */
  lemma {:induction false} TokenReads(pat: seq<byte>, d: Delim, sp: nat, b: Build, t: Token)
    requires GoodDelim(d) && b.nbra <= NBRA && Allowed(b, t) && Reads(pat, sp, ShowToken(t, d))
    ensures Scan(pat, d, sp, StateOf(b)) == Scan(pat, d, sp + |ShowToken(t, d)|, StateOf(Extend(b, t)))
  {
    hide Scan, ShowAtom, ShowLimits, GoodAtom;
    var st := StateOf(b);
    AssembleSnoc(b.items, ItemOf(b, t));
    match t
    case Plain(a) => AtomReads(pat, d, sp, st, a);
    case Starred(a) => StarReads(pat, d, sp, b, a);
    case Counted(a, lo, hi) => CountReads(pat, d, sp, b, a, lo, hi);
    case GroupOpen => GroupReads(pat, d, sp, b, t);
    case GroupClose => GroupReads(pat, d, sp, b, t);
  }

  lemma {:induction false} GroupReads(pat: seq<byte>, d: Delim, sp: nat, b: Build, t: Token)
    requires GoodDelim(d) && b.nbra <= NBRA && Allowed(b, t) && Reads(pat, sp, ShowToken(t, d))
    requires (t.GroupOpen? || t.GroupClose?)
    ensures Scan(pat, d, sp, StateOf(b)) == Scan(pat, d, sp + |ShowToken(t, d)|, StateOf(Extend(b, t)))
  {
    var w := ShowToken(t, d);
    AssembleSnoc(b.items, ItemOf(b, t));
    ReadsAt(pat, sp, w, 0);
    ReadsAt(pat, sp, w, 1);
  }

  lemma {:induction false} StarReads(pat: seq<byte>, d: Delim, sp: nat, b: Build, a: Atom)
    requires GoodDelim(d) && b.nbra <= NBRA && Allowed(b, Starred(a)) && Reads(pat, sp, ShowToken(Starred(a), d))
    ensures var t := Starred(a);
      Scan(pat, d, sp, StateOf(b)) == Scan(pat, d, sp + |ShowToken(t, d)|, StateOf(Extend(b, t)))
  {
    hide Scan, ShowAtom, Reads;
    var st, w := StateOf(b), ShowAtom(a, d);
    ReadsSplit(pat, sp, w, [STARCH]);
    AtomReads(pat, d, sp, st, a);
    ReadsAt(pat, sp + |w|, [STARCH], 0);
    AmendedState(b, a, Starred(a));
    StarStep(pat, d, sp + |w|, Emit(st, AtomInstr(a).op, AtomInstr(a).args));
  }

  lemma {:induction false} CountReads(pat: seq<byte>, d: Delim, sp: nat, b: Build, a: Atom, lo: byte, hi: byte)
    requires GoodDelim(d) && b.nbra <= NBRA && Allowed(b, Counted(a, lo, hi))
    requires Reads(pat, sp, ShowToken(Counted(a, lo, hi), d))
    ensures var t := Counted(a, lo, hi);
      Scan(pat, d, sp, StateOf(b)) == Scan(pat, d, sp + |ShowToken(t, d)|, StateOf(Extend(b, t)))
  {
    hide Scan, ScanRange, Digits, ShowLimits, ShowAtom, Amend, Extend, StateOf, AtomInstr;
    var st, w, t := StateOf(b), ShowAtom(a, d), Counted(a, lo, hi);
    var tail := [BSLASH, LBRC] + (ShowLimits(lo, hi) + [RBRC]);
    assert ShowToken(t, d) == w + tail;
    ReadsSplit(pat, sp, w, tail);
    AtomReads(pat, d, sp, st, a);
    var sp1 := sp + |w|;
    ReadsSplit(pat, sp1, [BSLASH, LBRC], ShowLimits(lo, hi) + [RBRC]);
    ReadsAt(pat, sp1, [BSLASH, LBRC], 0);
    ReadsAt(pat, sp1, [BSLASH, LBRC], 1);
    LimitsRead(pat, sp1 + 2, lo, hi);
    AmendedState(b, a, t);
    RangeStep(pat, d, sp1, Emit(st, AtomInstr(a).op, AtomInstr(a).args), lo, hi, sp1 + 2 + |ShowLimits(lo, hi)| + 1);
  }

  lemma {:induction false} LastReads(pat: seq<byte>, d: Delim, sp: nat, tokens: seq<Token>)
    requires GoodDelim(d) && GoodTokens(tokens) && tokens != [] && Reads(pat, sp, ShowTokens(tokens, d))
    ensures var init := tokens[..|tokens| - 1];
      && Reads(pat, sp, ShowTokens(init, d))
      && Scan(pat, d, sp + |ShowTokens(init, d)|, StateOf(BuildOf(init)))
         == Scan(pat, d, sp + |ShowTokens(tokens, d)|, StateOf(BuildOf(tokens)))
  {
    hide Scan, StateOf, ShowToken, ShowAtom, Extend, ItemOf, Reads;
    var init, t := tokens[..|tokens| - 1], tokens[|tokens| - 1];
    var w, b := ShowTokens(init, d), BuildOf(init);
    assert ShowTokens(tokens, d) == w + ShowToken(t, d) && BuildOf(tokens) == Extend(b, t);
    ReadsSplit(pat, sp, w, ShowToken(t, d));
    TokenReads(pat, d, sp + |w|, b, t);
  }

  lemma {:induction false} TokensRead(pat: seq<byte>, d: Delim, sp: nat, tokens: seq<Token>)
    requires GoodDelim(d) && GoodTokens(tokens) && Reads(pat, sp, ShowTokens(tokens, d))
    ensures Scan(pat, d, sp, START) == Scan(pat, d, sp + |ShowTokens(tokens, d)|, StateOf(BuildOf(tokens)))
    decreases |tokens|
  {
    hide Scan, ShowToken, Extend, Reads;
    if tokens == [] {
      assert StateOf(BuildOf(tokens)) == START;
    } else {
      LastReads(pat, d, sp, tokens);
      TokensRead(pat, d, sp, tokens[..|tokens| - 1]);
    }
  }

  /** Compilation preserves meaning: the written form of every pattern of the grammar compiles to
      the program the pattern stands for, groups numbered in order and all of them closed. */
  lemma {:induction false} CompileShown(p: Pattern, d: Delim, hasOld: bool)
    requires GoodPattern(p) && GoodDelim(d)
    ensures Compile(Show(p, d), d, hasOld)
         == Compiled(AssembleAll(ItemsOf(p)), BuildOf(p.tokens).nbra, false, |Show(p, d)|)
    ensures Anchored(Show(p, d)) == p.anchored
  {
    hide Scan, ShowToken, BuildOf;
    var pat, from := Show(p, d), if p.anchored then 1 else 0;
    var end := (if p.dollar then [DOLLAR] else []) + [d.eof];
    var head := if p.anchored then [CARET] else [];
    var body := ShowTokens(p.tokens, d) + end;
    assert pat == head + body && pat[0..|pat|] == pat;
    ReadsSplit(pat, 0, head, body);
    BodyReads(pat, d, from, p);
    FirstByte(p.tokens, d);
    assert pat[0] == if p.anchored then CARET else body[0];
  }

  lemma {:induction false} BodyReads(pat: seq<byte>, d: Delim, sp: nat, p: Pattern)
    requires GoodPattern(p) && GoodDelim(d)
    requires Reads(pat, sp, ShowTokens(p.tokens, d) + ((if p.dollar then [DOLLAR] else []) + [d.eof]))
    ensures Scan(pat, d, sp, START) == Compiled(AssembleAll(ItemsOf(p)), BuildOf(p.tokens).nbra, false,
      sp + |ShowTokens(p.tokens, d)| + (if p.dollar then 2 else 1))
  {
    hide Scan, StateOf, ShowTokens, BuildOf, AssembleAll;
    var shown := ShowTokens(p.tokens, d);
    ReadsSplit(pat, sp, shown, (if p.dollar then [DOLLAR] else []) + [d.eof]);
    TokensRead(pat, d, sp, p.tokens);
    EndReads(pat, d, sp + |shown|, p);
  }

  lemma {:induction false} EndReads(pat: seq<byte>, d: Delim, sp: nat, p: Pattern)
    requires GoodPattern(p) && GoodDelim(d) && Reads(pat, sp, (if p.dollar then [DOLLAR] else []) + [d.eof])
    ensures Scan(pat, d, sp, StateOf(BuildOf(p.tokens)))
         == Compiled(AssembleAll(ItemsOf(p)), BuildOf(p.tokens).nbra, false, sp + (if p.dollar then 2 else 1))
  {
    var b, end := BuildOf(p.tokens), (if p.dollar then [DOLLAR] else []) + [d.eof];
    ReadsAt(pat, sp, end, 0);
    if p.dollar {
      ReadsAt(pat, sp, end, 1);
      AssembleSnoc(b.items, End);
    } else {
      assert b.items + [] == b.items;
    }
  }

  /** No written token list starts with a delimiter, a newline or the anchor. */
  lemma {:induction false} FirstByte(tokens: seq<Token>, d: Delim)
    requires GoodDelim(d) && GoodTokens(tokens)
    ensures tokens != [] ==> |ShowTokens(tokens, d)| > 0 && ShowTokens(tokens, d)[0] !in {d.eof, NL, CARET}
    decreases |tokens|
  {
    if tokens != [] {
      var init, t := tokens[..|tokens| - 1], tokens[|tokens| - 1];
      FirstByte(init, d);
      assert |ShowToken(t, d)| > 0 && ShowToken(t, d)[0] !in {d.eof, NL, CARET};
    }
  }
}
