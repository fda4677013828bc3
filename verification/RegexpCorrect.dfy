/** From written pattern to matcher: a compiled pattern is a program the matcher supports, and its
    character classes accept what the bracket expressions describe. */
module RegexpCorrect {
  import opened Buffers
  import opened RegexpCode
  import opened RegexpSyntax
  import opened RegexpCompile
  import opened RegexpMeaning
  import opened RegexpMatch
  import RegexpSearch

  // ----- bytes -----

  lemma {:induction false} FlatCons(i: Instr, rest: seq<Instr>)
    ensures Flat([i] + rest) == [i.op] + i.args + Flat(rest)
    decreases |rest|
  {
    if rest == [] {
      FlatSnoc([], i);
      assert [] + [i] == [i] + rest;
    } else {
      var init, last := rest[..|rest| - 1], rest[|rest| - 1];
      FlatCons(i, init);
      FlatSnoc([i] + init, last);
      FlatSnoc(init, last);
      Assoc([i.op] + i.args, Flat(init), [last.op], last.args);
      assert rest == init + [last] && [i] + rest == ([i] + init) + [last];
    }
  }

  lemma {:induction false} Assoc(a: seq<byte>, b: seq<byte>, c: seq<byte>, d: seq<byte>)
    ensures a + b + c + d == a + (b + c + d)
  {
  }

  /** The stored bytes of a list of instructions are the program the matcher reads. */
  lemma {:induction false} FlatIsEncode(items: seq<Item>)
    ensures Flat(AssembleAll(items)) + [CCEOF] == Encode(items)
    decreases |items|
  {
    if items != [] {
      var code := AssembleAll(items);
      FlatCons(code[0], code[1..]);
      assert code == [code[0]] + code[1..] && code[1..] == AssembleAll(items[1..]);
      FlatIsEncode(items[1..]);
    } else {
      assert AssembleAll(items) == [];
    }
  }

  // ----- classes -----

  lemma {:induction false} MembersRange(elems: seq<Elem>, k: nat)
    requires k <= |elems| && forall i :: 0 <= i < |elems| ==> GoodElem(elems, i)
    ensures forall x :: x in Members(elems[..k]) ==> 0 < x < 256 && (!Wide(elems) ==> x < 128)
    decreases k
  {
    if k > 0 {
      hide Members, Wide;
      MembersRange(elems, k - 1);
      MembersStep(elems, k - 1);
      assert GoodElem(elems, k - 1);
      if !Wide(elems) { NarrowElem(elems, k - 1); }
      ElemRange(elems, k - 1);
    }
  }

  lemma {:induction false} NarrowElem(elems: seq<Elem>, i: nat)
    requires i < |elems| && !Wide(elems)
    ensures !WideElem(elems[i])
  {
  }

  lemma {:induction false} ElemRange(elems: seq<Elem>, i: nat)
    requires i < |elems| && GoodElem(elems, i)
    ensures forall x :: x in ElemSet(elems[i]) ==> 0 < x < 256 && (!WideElem(elems[i]) ==> x < 128)
  {
  }

  /** A bracket expression accepts exactly the characters it describes; NUL never. */
  lemma {:induction false} ClassMeaning(neg: bool, elems: seq<Elem>, c: byte)
    requires GoodClass(neg, elems)
    ensures Has(ClassTest(neg, elems), c) <==> c != 0 && (c in Members(elems)) != neg
  {
    var S := Members(elems);
    MembersRange(elems, |elems|);
    assert elems[..|elems|] == elems;
    if Wide(elems) {
      BitmapExact(if neg then Interval(1, 256) - S else S, 32, c);
    } else if c < 128 {
      BitmapExact(if neg then S + {0} else S, 16, c);
    }
  }

  lemma {:induction false} AtomIsGood(a: Atom)
    requires GoodAtom(a) && !a.Ref?
    ensures GoodTest(AtomTest(a))
  {
    if a.Set? { ClassMeaning(a.neg, a.elems, 0); }
  }

  // ----- groups -----

  lemma {:induction false} IndexOfSnoc(items: seq<Item>, it: Item, x: Item)
    ensures IndexOf(items + [it], x) ==
      if IndexOf(items, x) < |items| then IndexOf(items, x) else if it == x then |items| else |items| + 1
  {
    var all, k := items + [it], IndexOf(items + [it], x);
    assert forall j :: 0 <= j < |items| ==> all[j] == items[j];
    assert all[|items|] == it;
  }

  /** What holds of the items built from any allowed tokens: group numbers below nbra were opened
      once, those no longer on the stack were closed once. */
  ghost predicate Sane(b: Build) {
    && GoodProgram(b.items) && b.nbra <= NBRA
    && (forall g: byte :: Opened(b.items, g) <==> g < b.nbra)
    && (forall g: byte :: Closed(b.items, g) <==> g < b.nbra && g !in b.opens)
    && (forall i :: 0 <= i < |b.opens| ==> b.opens[i] < b.nbra)
    && (forall i, j :: 0 <= i < j < |b.opens| ==> b.opens[i] != b.opens[j])
  }

  predicate Opened(items: seq<Item>, g: byte) { IndexOf(items, Open(g)) < |items| }
  predicate Closed(items: seq<Item>, g: byte) { IndexOf(items, Close(g)) < |items| }

  /** A back-reference names a group that is closed, not merely one counted as closed. */
  predicate RefClosed(b: Build, t: Token) {
    (t.Plain? || t.Starred?) && t.a.Ref? ==> t.a.g < b.nbra && t.a.g !in b.opens
  }

  predicate RefsClosed(tokens: seq<Token>)
    requires GoodTokens(tokens)
    decreases |tokens|
  {
    tokens == [] ||
    (RefsClosed(tokens[..|tokens| - 1]) && RefClosed(BuildOf(tokens[..|tokens| - 1]), tokens[|tokens| - 1]))
  }

  lemma {:induction false} GoodItemSnoc(items: seq<Item>, it: Item, k: nat)
    requires GoodProgram(items) && k < |items|
    ensures GoodItem(items + [it], k)
  {
    assert GoodItem(items, k) && (items + [it])[k] == items[k];
    match items[k]
    case Open(g) => IndexOfSnoc(items, it, Open(g));
    case Close(g) => IndexOfSnoc(items, it, Close(g)); IndexOfSnoc(items, it, Open(g));
    case Back(g) => IndexOfSnoc(items, it, Close(g));
    case BackMany(g) => IndexOfSnoc(items, it, Close(g));
    case _ =>
  }

  lemma {:induction false} GoodLast(b: Build, t: Token)
    requires Sane(b) && Allowed(b, t) && RefClosed(b, t)
    ensures GoodItem(b.items + [ItemOf(b, t)], |b.items|)
  {
    var it := ItemOf(b, t);
    match t
    case Plain(a) =>
      if a.Ref? {
        assert Closed(b.items, a.g);
        IndexOfSnoc(b.items, it, Close(a.g));
      } else {
        AtomIsGood(a);
      }
    case Starred(a) =>
      if a.Ref? {
        assert Closed(b.items, a.g);
        IndexOfSnoc(b.items, it, Close(a.g));
      } else {
        AtomIsGood(a);
      }
    case Counted(a, _, _) => AtomIsGood(a);
    case GroupOpen =>
      assert !Opened(b.items, b.nbra);
      IndexOfSnoc(b.items, it, Open(b.nbra));
    case GroupClose =>
      var g := b.opens[|b.opens| - 1];
      assert Opened(b.items, g) && !Closed(b.items, g);
      IndexOfSnoc(b.items, it, Close(g));
      IndexOfSnoc(b.items, it, Open(g));
  }

  lemma {:induction false} SaneStep(b: Build, t: Token)
    requires Sane(b) && Allowed(b, t) && RefClosed(b, t)
    ensures Sane(Extend(b, t))
  {
    var it, b' := ItemOf(b, t), Extend(b, t);
    forall k | 0 <= k < |b'.items| ensures GoodItem(b'.items, k) {
      if k < |b.items| { GoodItemSnoc(b.items, it, k); } else { GoodLast(b, t); }
    }
    forall g: byte ensures Opened(b'.items, g) <==> g < b'.nbra {
      IndexOfSnoc(b.items, it, Open(g));
      assert Opened(b.items, g) <==> g < b.nbra;
    }
    forall g: byte ensures Closed(b'.items, g) <==> g < b'.nbra && g !in b'.opens {
      IndexOfSnoc(b.items, it, Close(g));
      assert Closed(b.items, g) <==> g < b.nbra && g !in b.opens;
      if t.GroupClose? {
        var n := |b.opens| - 1;
        assert b.opens == b.opens[..n] + [b.opens[n]];
      }
    }
  }

  lemma {:induction false} BuildIsSane(tokens: seq<Token>)
    requires GoodTokens(tokens) && RefsClosed(tokens)
    ensures Sane(BuildOf(tokens))
    decreases |tokens|
  {
    if tokens != [] {
      BuildIsSane(tokens[..|tokens| - 1]);
      SaneStep(BuildOf(tokens[..|tokens| - 1]), tokens[|tokens| - 1]);
    }
  }

  /** compile then advance: the bytes stored for a pattern of the grammar are a program the matcher
      supports, and it stands for the pattern's items. */
  lemma {:induction false} CompiledIsSupported(p: Pattern, d: Delim, hasOld: bool)
    requires GoodPattern(p) && GoodDelim(d) && RefsClosed(p.tokens)
    ensures var o := Compile(Show(p, d), d, hasOld);
      o.Compiled? && At(Flat(o.code) + [CCEOF], 0, ItemsOf(p))
    ensures GoodProgram(ItemsOf(p))
  {
    CompileShown(p, d, hasOld);
    FlatIsEncode(ItemsOf(p));
    var prog := Flat(AssembleAll(ItemsOf(p))) + [CCEOF];
    assert prog[0..] == prog;
    BuildIsSane(p.tokens);
    var items := BuildOf(p.tokens).items;
    if p.dollar {
      forall k | 0 <= k < |items| + 1 ensures GoodItem(items + [End], k) {
        if k < |items| { GoodItemSnoc(items, End, k); }
      }
    } else {
      assert items + [] == items;
    }
  }

  // ----- which compiled patterns the matcher supports -----

  /** A back-reference that comes before its group is closed stays one, whatever follows. */
  lemma {:induction false} OpenRefStays(items: seq<Item>, k: nat, before: seq<Item>)
    requires k < |items| && (items[k].Back? || items[k].BackMany?)
    requires before == items[..k] && !Closed(before, items[k].g)
    ensures !GoodProgram(items)
  {
    var it := Close(items[k].g);
    assert forall j :: 0 <= j < k ==> items[j] == before[j];
    assert IndexOf(items, it) >= k;
    assert !GoodItem(items, k);
  }

  lemma {:induction false} ItemsPrefix(tokens: seq<Token>, n: nat)
    requires GoodTokens(tokens) && n <= |tokens|
    ensures GoodTokens(tokens[..n]) && |BuildOf(tokens[..n]).items| == n
    ensures BuildOf(tokens[..n]).items <= BuildOf(tokens).items
    decreases |tokens|
  {
    if n == |tokens| {
      assert tokens[..n] == tokens;
      if n > 0 {
        ItemsPrefix(tokens[..n - 1], n - 1);
        assert tokens[..n - 1][..n - 1] == tokens[..n - 1];
      }
    } else {
      ItemsPrefix(tokens[..|tokens| - 1], n);
      assert tokens[..|tokens| - 1][..n] == tokens[..n];
    }
  }

  /** Groups counted as closed never outnumber those opened. */
  lemma {:induction false} ClosedCount(tokens: seq<Token>)
    requires GoodTokens(tokens)
    ensures BuildOf(tokens).closed + |BuildOf(tokens).opens| == BuildOf(tokens).nbra
    decreases |tokens|
  {
    if tokens != [] { ClosedCount(tokens[..|tokens| - 1]); }
  }

  lemma {:induction false} FirstOpenRef(tokens: seq<Token>) returns (n: nat)
    requires GoodTokens(tokens) && !RefsClosed(tokens)
    ensures n < |tokens| && GoodTokens(tokens[..n]) && RefsClosed(tokens[..n])
    ensures Allowed(BuildOf(tokens[..n]), tokens[n]) && !RefClosed(BuildOf(tokens[..n]), tokens[n])
    decreases |tokens|
  {
    var init := tokens[..|tokens| - 1];
    if RefsClosed(init) {
      n := |tokens| - 1;
    } else {
      n := FirstOpenRef(init);
      assert init[..n] == tokens[..n];
    }
  }

  /** compile only counts closed groups, so it accepts a back-reference to a group that is still
      open. The compiled program is one `advance` supports exactly when that does not happen. */
  lemma {:induction false} SupportedIffRefsClosed(p: Pattern)
    requires GoodPattern(p)
    ensures GoodProgram(ItemsOf(p)) <==> RefsClosed(p.tokens)
  {
    var d := Delim(0, false);
    if RefsClosed(p.tokens) {
      CompiledIsSupported(p, d, true);
    } else {
      hide Extend, Sane;
      var n := FirstOpenRef(p.tokens);
      var init, t := p.tokens[..n], p.tokens[n];
      BuildIsSane(init);
      ClosedCount(init);
      ItemsPrefix(p.tokens, n);
      ItemsPrefix(p.tokens, n + 1);
      assert p.tokens[..n + 1][..n] == init;
      var b, items := BuildOf(init), ItemsOf(p);
      assert BuildOf(p.tokens[..n + 1]).items == b.items + [ItemOf(b, t)];
      assert !Closed(b.items, t.a.g);
      OpenRefStays(items, n, b.items);
    }
  }

  /** The written pattern \(\(a\)\1\): accepted, and its \1 stands inside the open group 0. */
  lemma {:induction false} OpenRefExists()
    ensures var tokens := [GroupOpen, GroupOpen, Plain(Lit(97)), GroupClose, Plain(Ref(0)), GroupClose];
      var p := Pattern(false, tokens, false);
      GoodPattern(p) && !RefsClosed(p.tokens)
  {
    hide ItemOf, GoodTokens, BuildOf, RefsClosed;
    OpenRefBase();
    var t1 := TokenSnoc([], GroupOpen);
    var t2 := TokenSnoc(t1, GroupOpen);
    var t3 := TokenSnoc(t2, Plain(Lit(97)));
    var t4 := TokenSnoc(t3, GroupClose);
    var t5 := TokenSnoc(t4, Plain(Ref(0)));
    var t6 := TokenSnoc(t5, GroupClose);
    assert t6 == [GroupOpen, GroupOpen, Plain(Lit(97)), GroupClose, Plain(Ref(0)), GroupClose];
  }

  lemma {:induction false} OpenRefBase()
    ensures GoodTokens([]) && RefsClosed([]) && BuildOf([]) == Build([], [], 0, 0)
  {
  }

  lemma {:induction false} TokenSnoc(tokens: seq<Token>, t: Token) returns (more: seq<Token>)
    requires GoodTokens(tokens) && Allowed(BuildOf(tokens), t)
    ensures more == tokens + [t] && GoodTokens(more) && BuildOf(more) == Extend(BuildOf(tokens), t)
    ensures RefsClosed(more) <==> RefsClosed(tokens) && RefClosed(BuildOf(tokens), t)
  {
    hide ItemOf, Allowed;
    more := tokens + [t];
    assert more[..|more| - 1] == tokens;
  }

  // ----- starred back-references -----

  /** Group g contains an instruction that always takes at least one character. */
  predicate Consumes(items: seq<Item>, g: byte) {
    exists k :: IndexOf(items, Open(g)) < k < IndexOf(items, Close(g)) && k < |items| && Takes(items[k])
  }

  predicate Takes(it: Item) { it.One? || (it.Count? && it.lo > 0) }

  /** If every starred back-reference names such a group, no start position can make it spin. */
  lemma {:induction false} ConsumingGroupsNeverSpin(items: seq<Item>, s: Subject, start: int)
    requires GoodProgram(items)
    requires forall g: byte :: BackMany(g) in items ==> Consumes(items, g)
    ensures NoEmptyLoop(items, s, start)
    ensures 0 <= start <= |s.text| ==> !RegexpSearch.Spins(items, s, start)
  {
    ConsumingGroupsHold(items, s, start);
    if 0 <= start <= |s.text| { RegexpSearch.NoEmptyLoopEnds(items, s, start); }
  }

  lemma {:induction false} ConsumingGroupsHold(items: seq<Item>, s: Subject, start: int)
    requires GoodProgram(items)
    requires forall g: byte :: BackMany(g) in items ==> Consumes(items, g)
    ensures NoEmptyLoop(items, s, start)
  {
    forall p, g: byte | Partial(items, s, p) && p[0] == start && |p| <= |items| && items[|p| - 1] == BackMany(g)
      ensures Captured(items, s.text, p, g) != []
    {
      var a, b := IndexOf(items, Open(g)), IndexOf(items, Close(g));
      assert GoodItem(items, |p| - 1) && BackMany(g) in items;
      assert GoodItem(items, b);
      var k :| a < k < b && k < |items| && Takes(items[k]);
      CutsAscend(items, s, p, a, k);
      assert Cut(items, s, p, k);
      CutsAscend(items, s, p, k + 1, b);
    }
  }
}
