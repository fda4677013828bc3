/** What a pattern means on its own terms, without byte code: and that compiling it and running the
    matcher decides just that. */
module RegexpPattern {
  import opened Buffers
  import opened RegexpCode
  import opened RegexpSyntax
  import opened RegexpCompile
  import opened RegexpMeaning
  import opened RegexpCorrect
  import opened RegexpMatch
  import RegexpSearch

  // ----- meaning -----

  /** The characters an atom accepts. */
  predicate Fits(a: Atom, c: byte) {
    match a
    case Lit(x) => c == x
    case Any => c != 0
    case Set(neg, elems) => c != 0 && (c as int in Members(elems)) != neg
    case Ref(_) => false
  }

  predicate AllFit(a: Atom, text: seq<byte>, i: int, e: int) {
    0 <= i <= e <= |text| && forall x :: i <= x < e ==> Fits(a, text[x])
  }

  /** The end of the longest stretch from i that fits. */
  function Reach(a: Atom, text: seq<byte>, i: nat): (e: nat)
    requires i <= |text|
    ensures i <= e <= |text|
    decreases |text| - i
  {
    if i < |text| && Fits(a, text[i]) then Reach(a, text, i + 1) else i
  }

  /** Groups are numbered by their opening marks. */
  function Opened(tokens: seq<Token>, k: nat): nat
    requires k <= |tokens|
  {
    if k == 0 then 0 else Opened(tokens, k - 1) + if tokens[k - 1].GroupOpen? then 1 else 0
  }

  /** The groups around token k, outermost first: a closing mark closes the innermost. */
  function Around(tokens: seq<Token>, k: nat): seq<nat>
    requires k <= |tokens|
  {
    if k == 0 then [] else
      var o := Around(tokens, k - 1);
      if tokens[k - 1].GroupOpen? then o + [Opened(tokens, k - 1)]
      else if tokens[k - 1].GroupClose? && o != [] then o[..|o| - 1]
      else o
  }

  predicate Begins(tokens: seq<Token>, k: nat, g: nat)
    requires k < |tokens|
  {
    tokens[k].GroupOpen? && Opened(tokens, k) == g
  }

  predicate Ends(tokens: seq<Token>, k: nat, g: nat)
    requires k < |tokens|
  {
    tokens[k].GroupClose? && Around(tokens, k) != [] && Around(tokens, k)[|Around(tokens, k)| - 1] == g
  }

  /** w is what group g stands for, given where the tokens start. */
  ghost predicate GroupIs(tokens: seq<Token>, text: seq<byte>, q: seq<int>, g: nat, w: seq<byte>) {
    exists a: nat, b: nat ::
      && a < |tokens| && b < |tokens| && b < |q| && Begins(tokens, a, g) && Ends(tokens, b, g) && a < b
      && w == Slice(text, q[a], q[b])
  }

  /** Token k may stand for the text from q[k] to e. */
  ghost predicate Stands(tokens: seq<Token>, s: Subject, q: seq<int>, k: nat, e: int)
    requires k < |tokens| && k < |q|
  {
    var i := q[k];
    0 <= i <= e <= |s.text| &&
    match tokens[k]
    case Plain(a) =>
      if a.Ref? then GroupIs(tokens, s.text, q, a.g as nat, Slice(s.text, i, e)) else e == i + 1 && Fits(a, s.text[i])
    case Starred(a) =>
      if a.Ref? then exists w :: GroupIs(tokens, s.text, q, a.g as nat, w) && IsPower(Slice(s.text, i, e), w)
      else AllFit(a, s.text, i, e) && !(e <= s.locs <= Reach(a, s.text, i))
    case Counted(a, lo, hi) =>
      && i + lo <= e <= i + CountMax(s, lo, hi)
      && AllFit(a, s.text, i, e)
      && !(e <= s.locs <= Min(Reach(a, s.text, i), i + CountMax(s, lo, hi)))
    case GroupOpen => e == i
    case GroupClose => e == i
  }

  ghost predicate StandsAt(tokens: seq<Token>, s: Subject, q: seq<int>, k: nat)
    requires k < |tokens| && k + 1 < |q|
  {
    Stands(tokens, s, q, k, q[k + 1])
  }

  /** q cuts the text so that every token stands for its piece; a final dollar needs the end of the text. */
  ghost predicate Describes(p: Pattern, s: Subject, q: seq<int>) {
    && |q| == |p.tokens| + (if p.dollar then 2 else 1)
    && 0 <= q[0] <= |s.text|
    && (forall k :: 0 <= k < |p.tokens| ==> StandsAt(p.tokens, s, q, k))
    && (p.dollar ==> q[|p.tokens| + 1] == q[|p.tokens|] == |s.text|)
  }

  ghost predicate DescribesFrom(p: Pattern, s: Subject, i: int) {
    exists q :: Describes(p, s, q) && q[0] == i
  }

  /** Without a `locs` stop a counted atom stands for just the stretches that fit and whose length is within
      its limits. Where plain char is unsigned the upper limit 255 is read as 20000 more than the lower. */
  lemma {:induction false} CountedStandsIff(tokens: seq<Token>, s: Subject, q: seq<int>, k: nat, e: int)
    requires k < |tokens| && k < |q| && tokens[k].Counted? && s.locs < 0
    ensures var t, i := tokens[k], q[k]; var most := if s.uchar && t.hi == 255 then t.lo + 20000 else t.hi as int;
      Stands(tokens, s, q, k, e) <==>
        0 <= i <= e <= |s.text| && t.lo <= e - i <= most && forall x :: i <= x < e ==> Fits(t.a, s.text[x])
  {
    hide Fits;
  }

  /** And a starred one for all that fit. */
  lemma {:induction false} StarredStandsIff(tokens: seq<Token>, s: Subject, q: seq<int>, k: nat, e: int)
    requires k < |tokens| && k < |q| && tokens[k].Starred? && !tokens[k].a.Ref? && s.locs < 0
    ensures Stands(tokens, s, q, k, e) <==>
      0 <= q[k] <= e <= |s.text| && forall x :: q[k] <= x < e ==> Fits(tokens[k].a, s.text[x])
  {
    hide Fits;
  }

  // ----- the program says the same -----

  lemma {:induction false} FitsIsHas(a: Atom, c: byte)
    requires GoodAtom(a) && !a.Ref?
    ensures Has(AtomTest(a), c) == Fits(a, c)
  {
    if a.Set? { ClassMeaning(a.neg, a.elems, c); }
  }

  lemma {:induction false} ReachIsRunEnd(a: Atom, text: seq<byte>, i: nat)
    requires GoodAtom(a) && !a.Ref? && i <= |text|
    ensures Reach(a, text, i) == RunEnd(AtomTest(a), text, i)
    decreases |text| - i
  {
    if i < |text| {
      FitsIsHas(a, text[i]);
      if Fits(a, text[i]) { ReachIsRunEnd(a, text, i + 1); }
    }
  }

  lemma {:induction false} AllFitIsAllIn(a: Atom, text: seq<byte>, i: int, e: int)
    requires GoodAtom(a) && !a.Ref?
    ensures AllFit(a, text, i, e) == AllIn(AtomTest(a), text, i, e)
  {
    if 0 <= i <= e <= |text| {
      forall x | i <= x < e ensures Has(AtomTest(a), text[x]) == Fits(a, text[x]) { FitsIsHas(a, text[x]); }
    }
  }

  function Numbers(o: seq<byte>): seq<nat> { seq(|o|, i requires 0 <= i < |o| => o[i] as nat) }

  /** The compiler's count of groups and its stack are the numbering above. */
  lemma {:induction false} BuildTells(tokens: seq<Token>, k: nat)
    requires GoodTokens(tokens) && k <= |tokens|
    ensures GoodTokens(tokens[..k])
    ensures BuildOf(tokens[..k]).nbra == Opened(tokens, k) && Numbers(BuildOf(tokens[..k]).opens) == Around(tokens, k)
    decreases k
  {
    hide ItemOf, Extend;
    ItemsPrefix(tokens, k);
    if k > 0 {
      BuildTells(tokens, k - 1);
      assert tokens[..k][..k - 1] == tokens[..k - 1];
      var b, c := BuildOf(tokens[..k - 1]), BuildOf(tokens[..k]);
      assert c == Extend(b, tokens[k - 1]);
      NumbersStep(b, tokens[k - 1]);
    }
  }

  lemma {:induction false} NumbersStep(b: Build, t: Token)
    requires Allowed(b, t) && b.nbra <= NBRA
    ensures Extend(b, t).nbra == b.nbra + if t.GroupOpen? then 1 else 0
    ensures Numbers(Extend(b, t).opens) ==
      if t.GroupOpen? then Numbers(b.opens) + [b.nbra]
      else if t.GroupClose? then Numbers(b.opens)[..|b.opens| - 1]
      else Numbers(b.opens)
  {
    hide ItemOf;
  }

  lemma {:induction false} ItemAt(tokens: seq<Token>, k: nat)
    requires GoodTokens(tokens) && k < |tokens|
    ensures GoodTokens(tokens[..k]) && Allowed(BuildOf(tokens[..k]), tokens[k]) && |BuildOf(tokens).items| == |tokens|
    ensures BuildOf(tokens).items[k] == ItemOf(BuildOf(tokens[..k]), tokens[k])
  {
    ItemsPrefix(tokens, k);
    ItemsPrefix(tokens, k + 1);
    ItemsPrefix(tokens, |tokens|);
    assert tokens[..|tokens|] == tokens && tokens[..k + 1][..k] == tokens[..k];
  }

  /** Group marks in the program are those of the pattern. */
  lemma {:induction false} MarksTell(tokens: seq<Token>, k: nat, g: byte)
    requires GoodTokens(tokens) && k < |tokens| && |BuildOf(tokens).items| == |tokens|
    ensures BuildOf(tokens).items[k] == Open(g) <==> Begins(tokens, k, g as nat)
    ensures BuildOf(tokens).items[k] == Close(g) <==> Ends(tokens, k, g as nat)
  {
    ItemAt(tokens, k);
    BuildTells(tokens, k);
    var o := BuildOf(tokens[..k]).opens;
    assert |Numbers(o)| == |o| && (o != [] ==> Numbers(o)[|o| - 1] == o[|o| - 1] as nat);
  }

  lemma {:induction false} ProgramOf(p: Pattern)
    requires GoodPattern(p) && RefsClosed(p.tokens)
    ensures GoodProgram(ItemsOf(p)) && |ItemsOf(p)| == |p.tokens| + (if p.dollar then 1 else 0)
    ensures |BuildOf(p.tokens).items| == |p.tokens|
    ensures forall k :: 0 <= k < |p.tokens| ==> ItemsOf(p)[k] == BuildOf(p.tokens).items[k]
    ensures p.dollar ==> ItemsOf(p)[|p.tokens|] == End
  {
    SupportedIffRefsClosed(p);
    ItemsPrefix(p.tokens, |p.tokens|);
    assert p.tokens[..|p.tokens|] == p.tokens;
  }

  /** The text of a closed group is the capture the program finds. */
  lemma {:induction false} GroupIsCaptured(p: Pattern, text: seq<byte>, q: seq<int>, g: byte, k: nat, w: seq<byte>)
    requires GoodPattern(p) && RefsClosed(p.tokens)
    requires IndexOf(ItemsOf(p), Close(g)) < k < |p.tokens| && k < |q|
    ensures GroupIs(p.tokens, text, q, g as nat, w) <==> w == Captured(ItemsOf(p), text, q, g)
  {
    ProgramOf(p);
    var items, tokens := ItemsOf(p), p.tokens;
    var b := IndexOf(items, Close(g));
    assert GoodItem(items, b);
    var a := IndexOf(items, Open(g));
    MarksTell(tokens, a, g);
    MarksTell(tokens, b, g);
    var n: nat := g;
    forall a': nat, b': nat | a' < |tokens| && b' < |tokens| && Begins(tokens, a', n) && Ends(tokens, b', n)
      ensures a' == a && b' == b
    {
      MarksTell(tokens, a', g);
      MarksTell(tokens, b', g);
      assert GoodItem(items, a') && GoodItem(items, b');
    }
  }

  /** A token stands for a piece of text exactly when its instruction may span it. */
  lemma {:induction false} StandsIsSegment(p: Pattern, s: Subject, q: seq<int>, k: nat, e: int)
    requires GoodPattern(p) && RefsClosed(p.tokens) && k < |p.tokens| && k < |q| && |ItemsOf(p)| >= |p.tokens|
    ensures Stands(p.tokens, s, q, k, e) <==> Segment(ItemsOf(p), s, q, k, e)
  {
    hide GroupIs, Captured, IndexOf, BuildOf, GoodTokens, RefsClosed, AllFit, AllIn, IsPower;
    ProgramOf(p);
    ItemAt(p.tokens, k);
    assert GoodItem(ItemsOf(p), k);
    var i := q[k];
    if 0 <= i <= e <= |s.text| {
      match p.tokens[k]
      case Plain(a) =>
        if a.Ref? {
          GroupIsCaptured(p, s.text, q, a.g, k, Slice(s.text, i, e));
        } else if i < |s.text| {
          FitsIsHas(a, s.text[i]);
        }
      case Starred(a) =>
        if a.Ref? {
          var w, n: nat := Captured(ItemsOf(p), s.text, q, a.g), a.g;
          forall v ensures GroupIs(p.tokens, s.text, q, n, v) <==> v == w { GroupIsCaptured(p, s.text, q, a.g, k, v); }
        } else {
          AllFitIsAllIn(a, s.text, i, e);
          ReachIsRunEnd(a, s.text, i);
        }
      case Counted(a, lo, hi) =>
        AllFitIsAllIn(a, s.text, i, e);
        ReachIsRunEnd(a, s.text, i);
      case _ =>
    }
  }

  /** The program of a pattern matches with just the cuts that describe the text by the pattern. */
  lemma {:induction false} DescribesIsMatch(p: Pattern, s: Subject, q: seq<int>)
    requires GoodPattern(p) && RefsClosed(p.tokens)
    ensures Describes(p, s, q) <==> IsMatch(ItemsOf(p), s, q)
  {
    hide Stands, Segment, GoodPattern, RefsClosed;
    ProgramOf(p);
    var items, n := ItemsOf(p), |p.tokens|;
    if |q| == |items| + 1 {
      forall k | 0 <= k < n
        ensures StandsAt(p.tokens, s, q, k) <==> Cut(items, s, q, k)
      {
        StandsIsSegment(p, s, q, k, q[k + 1]);
      }
      if p.dollar { DollarCut(items, s, q, n); }
      if Describes(p, s, q) {
        forall k | 0 <= k < |q| - 1 ensures Cut(items, s, q, k) { if k < n { assert StandsAt(p.tokens, s, q, k); } }
      }
      if IsMatch(items, s, q) {
        forall k | 0 <= k < n ensures StandsAt(p.tokens, s, q, k) { assert Cut(items, s, q, k); }
        if p.dollar { assert Cut(items, s, q, n); }
      }
    }
  }

  lemma {:induction false} DollarCut(items: seq<Item>, s: Subject, q: seq<int>, n: nat)
    requires n < |items| && items[n] == End && |q| == n + 2
    ensures Cut(items, s, q, n) <==> q[n + 1] == q[n] == |s.text|
  {
  }

  lemma {:induction false} DescribesFromIff(p: Pattern, s: Subject, i: int)
    requires GoodPattern(p) && RefsClosed(p.tokens)
    ensures DescribesFrom(p, s, i) <==> MatchesAt(ItemsOf(p), s, i)
  {
    if DescribesFrom(p, s, i) {
      var q :| Describes(p, s, q) && q[0] == i;
      DescribesIsMatch(p, s, q);
    }
    if MatchesAt(ItemsOf(p), s, i) {
      var q :| IsMatch(ItemsOf(p), s, q) && q[0] == i;
      DescribesIsMatch(p, s, q);
    }
  }

  /** The cuts at which the search for the program never ends are those of the pattern. */
  lemma {:induction false} HaltsIsTrap(p: Pattern, s: Subject, i: int, q: seq<int>)
    requires GoodPattern(p) && RefsClosed(p.tokens)
    ensures Halts(p, s, i, q) <==> RegexpSearch.Trap(ItemsOf(p), s, [i], q)
  {
    hide Describes, IsMatch, Stands, Segment, GoodPattern, RefsClosed, GroupIs, Captured, Ahead, IndexOf;
    ProgramOf(p);
    var items, n := ItemsOf(p), |p.tokens|;
    forall r ensures (Describes(p, s, r) <==> IsMatch(items, s, r)) && (IsMatch(items, s, r) ==> r != []) {
      DescribesIsMatch(p, s, r);
      if r == [] { assert !Describes(p, s, r) by { NoneDescribes(p, s); } }
    }
    assert |q| == n + 1 && p.dollar ==> items[|q| - 1] == End;
    if 1 <= |q| <= n {
      BegunIsPartial(p, s, q);
      RepeatIsStuck(p, s, q);
      hide RepeatsNothing, Begun, Partial, RegexpSearch.Stuck;
      if Halts(p, s, i, q) {
        forall r | IsMatch(items, s, r) && [i] <= r ensures !Ahead(r, q) { assert Describes(p, s, r) && r[0] == i; }
      }
      if RegexpSearch.Trap(items, s, [i], q) {
        forall r | Describes(p, s, r) && r[0] == i ensures !Ahead(r, q) { assert IsMatch(items, s, r) && [i] <= r; }
      }
    }
  }

  lemma {:induction false} NoneDescribes(p: Pattern, s: Subject)
    ensures !Describes(p, s, [])
  {
  }

  lemma {:induction false} BegunIsPartial(p: Pattern, s: Subject, q: seq<int>)
    requires GoodPattern(p) && RefsClosed(p.tokens) && 1 <= |q| <= |p.tokens| <= |ItemsOf(p)|
    ensures Begun(p, s, q) <==> Partial(ItemsOf(p), s, q)
  {
    hide Stands, Segment, GoodPattern, RefsClosed;
    var items := ItemsOf(p);
    forall k | 0 <= k < |q| - 1 ensures StandsAt(p.tokens, s, q, k) <==> Cut(items, s, q, k) {
      StandsIsSegment(p, s, q, k, q[k + 1]);
    }
  }

  lemma {:induction false} RepeatIsStuck(p: Pattern, s: Subject, q: seq<int>)
    requires GoodPattern(p) && RefsClosed(p.tokens) && 1 <= |q| <= |p.tokens| <= |ItemsOf(p)|
    ensures RepeatsNothing(p, s, q) <==> RegexpSearch.Stuck(ItemsOf(p), s, q)
  {
    hide GroupIs, Captured, BuildOf, GoodTokens, RefsClosed;
    var k, t := |q| - 1, p.tokens[|q| - 1];
    ProgramOf(p);
    ItemAt(p.tokens, k);
    assert GoodItem(ItemsOf(p), k);
    if t.Starred? && t.a.Ref? { GroupIsCaptured(p, s.text, q, t.a.g, k, []); }
  }

  // ----- compile, then match -----

  /** The cuts of a description that is preferred to every other from the same start. */
  ghost predicate Greediest(p: Pattern, s: Subject, q: seq<int>) {
    Describes(p, s, q) && forall r :: Describes(p, s, r) && r[0] == q[0] ==> Prefers(q, r)
  }

  /** q cuts the text so that the first |q| - 1 tokens stand for their pieces. */
  ghost predicate Begun(p: Pattern, s: Subject, q: seq<int>) {
    1 <= |q| <= |p.tokens| && 0 <= q[0] <= |s.text| && forall k :: 0 <= k < |q| - 1 ==> StandsAt(p.tokens, s, q, k)
  }

  /** Next to be read is a starred back-reference to a group that stands for nothing. */
  ghost predicate RepeatsNothing(p: Pattern, s: Subject, q: seq<int>)
    requires 1 <= |q| <= |p.tokens|
  {
    var t := p.tokens[|q| - 1];
    t.Starred? && t.a.Ref? && GroupIs(p.tokens, s.text, q, t.a.g as nat, [])
  }

  /** Such cuts from start i, and no description of the text is ahead of them. */
  ghost predicate Halts(p: Pattern, s: Subject, i: int, q: seq<int>) {
    && Begun(p, s, q) && RepeatsNothing(p, s, q) && q[0] == i
    && forall r :: Describes(p, s, r) && r[0] == i ==> !Ahead(r, q)
  }

  /** Where the search for the pattern never ends. */
  ghost predicate NeverFrom(p: Pattern, s: Subject, i: int) { exists q :: Halts(p, s, i, q) }

  /** Starts from which the pattern, searched for, is not found. */
  ghost predicate NotFrom(p: Pattern, s: Subject, i: int) {
    !DescribesFrom(p, s, i) && !NeverFrom(p, s, i)
  }

  /** The pattern describes the text from start to end, greediest, and is not found from an earlier start. */
  ghost predicate FoundAt(p: Pattern, s: Subject, start: int, end: int) {
    && 0 <= start <= Limit(p, s) && NotBefore(p, s, start) && !NeverFrom(p, s, start)
    && exists q :: Greediest(p, s, q) && q[0] == start && q[|q| - 1] == end
  }

  /** The last start to be considered. */
  function Limit(p: Pattern, s: Subject): int { if p.anchored then 0 else |s.text| }

  ghost predicate NotBefore(p: Pattern, s: Subject, e: int) {
    forall i :: 0 <= i < e ==> NotFrom(p, s, i)
  }

  ghost predicate NeverEnds(p: Pattern, s: Subject) {
    exists i :: 0 <= i <= Limit(p, s) && NeverFrom(p, s, i) && NotBefore(p, s, i)
  }

  /** compile and then step: whether a written pattern describes some of the text, and where that starts and
      ends. */
  method Find(pat: seq<byte>, d: Delim, text: seq<byte>, uchar: bool, ghost p: Pattern)
    returns (r: RegexpSearch.Verdict, start: int, end: int)
    requires GoodPattern(p) && RefsClosed(p.tokens) && GoodDelim(d) && pat == Show(p, d) && NoNul(text)
    ensures r == RegexpSearch.Yes ==> FoundAt(p, Subject(text, -1, uchar), start, end)
    ensures r == RegexpSearch.No ==> NotBefore(p, Subject(text, -1, uchar), Limit(p, Subject(text, -1, uchar)) + 1)
    ensures r == RegexpSearch.Never ==> NeverEnds(p, Subject(text, -1, uchar))
  {
    hide Compile, Show, GoodPattern, RefsClosed, GoodProgram, At, Flat, MatchesAt, IsMatch, Describes, DescribesFrom;
    hide NeverFrom, RegexpSearch.Spins;
    ghost var s, items := Subject(text, -1, uchar), ItemsOf(p);
    var buf := new byte[33 * |pat| + 1](_ => 0);
    var compiler := new Compiler(pat, d, buf);
    CompileShown(p, d, false);
    CompiledIsSupported(p, d, false);
    var done := compiler.Run();
    var matcher := new Matcher(uchar);
    matcher.circf := compiler.circf;
    matcher.locs := -1;
    r := matcher.Step(text, 0, buf[..compiler.ep], 0, items);
    start, end := matcher.loc1, matcher.loc2;
    ghost var e := if r == RegexpSearch.Yes then start else Limit(p, s) + 1;
    if r == RegexpSearch.Yes {
      ghost var q :| matcher.BestCuts(text, items, start, q);
      BestIsGreediest(p, s, q);
      NotFromIff(p, s, start);
    } else if r == RegexpSearch.Never {
      if p.anchored {
        e := 0;
      } else {
        e :| 0 <= e <= |text| && RegexpSearch.Spins(items, s, e) && matcher.Passed(text, items, 0, e);
      }
      NotFromIff(p, s, e);
    }
    forall i | 0 <= i < e ensures Fruitless(items, s, i) {
      assert matcher.Subj(text) == s;
      if p.anchored {
        assert i == 0 && !MatchesAt(items, s, i);
      } else {
        assert matcher.Passed(text, items, 0, e);
        assert !MatchesAt(items, matcher.Subj(text), i);
      }
    }
    NothingBefore(p, s, e);
  }

  /** The program neither matches from i nor spins there. */
  ghost predicate Fruitless(items: seq<Item>, s: Subject, i: int)
    requires 0 <= i <= |s.text|
  {
    !MatchesAt(items, s, i) && !RegexpSearch.Spins(items, s, i)
  }

  lemma {:induction false} NothingBefore(p: Pattern, s: Subject, e: int)
    requires GoodPattern(p) && RefsClosed(p.tokens) && e <= |s.text| + 1
    requires forall i :: 0 <= i < e ==> Fruitless(ItemsOf(p), s, i)
    ensures NotBefore(p, s, e)
  {
    forall i | 0 <= i < e ensures NotFrom(p, s, i) {
      assert Fruitless(ItemsOf(p), s, i);
      NotFromIff(p, s, i);
    }
  }

  lemma {:induction false} NotFromIff(p: Pattern, s: Subject, i: int)
    requires GoodPattern(p) && RefsClosed(p.tokens) && 0 <= i <= |s.text|
    ensures NotFrom(p, s, i) <==> !MatchesAt(ItemsOf(p), s, i) && !RegexpSearch.Spins(ItemsOf(p), s, i)
    ensures NeverFrom(p, s, i) <==> RegexpSearch.Spins(ItemsOf(p), s, i)
  {
    DescribesFromIff(p, s, i);
    NeverFromIff(p, s, i);
  }

  /** The program spins exactly where the pattern says so. */
  lemma {:induction false} NeverFromIff(p: Pattern, s: Subject, i: int)
    requires GoodPattern(p) && RefsClosed(p.tokens) && 0 <= i <= |s.text|
    ensures NeverFrom(p, s, i) <==> RegexpSearch.Spins(ItemsOf(p), s, i)
  {
    ProgramOf(p);
    forall q ensures Halts(p, s, i, q) <==> RegexpSearch.Trap(ItemsOf(p), s, [i], q) { HaltsIsTrap(p, s, i, q); }
  }

  lemma {:induction false} BestIsGreediest(p: Pattern, s: Subject, q: seq<int>)
    requires GoodPattern(p) && RefsClosed(p.tokens) && IsMatch(ItemsOf(p), s, q)
    requires forall r :: IsMatch(ItemsOf(p), s, r) && r[0] == q[0] ==> Prefers(q, r)
    ensures |q| > 0 && Greediest(p, s, q)
  {
    DescribesIsMatch(p, s, q);
    forall r | Describes(p, s, r) && r[0] == q[0] ensures Prefers(q, r) { DescribesIsMatch(p, s, r); }
  }
}
