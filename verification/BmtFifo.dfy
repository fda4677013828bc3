/** The host/bitmap-processor FIFO of bmt_mpp.c: one producer, one consumer, a ring of slots and no
    shared counter. A slot is free exactly when its `sig` is 0. Both sides run concurrently; every
    step below is at most one read or write of a shared word, one interrupt raised or taken, or one
    notification raised or heard, and steps interleave in any order. */
module BmtFifo {
  import opened Arithmetic

  datatype Item = Item(sig: int, val: int)

  /** Where Int_signal_bmt / Signal_bmt stands. */
  datatype Producer =
    | PIdle
    | PCheck(x: Item)  // about to read the sig of the slot after prod
    | PFull(x: Item)   // that slot was taken
    | PVal(x: Item)    // about to store val
    | PSig(x: Item)    // about to store sig
    | PTest            // about to read the sig at prod
    | PRaise           // that sig was 0: about to interrupt the consumer
    | PMove            // about to advance prod

  /** Where the drain loop around read_fifo stands. */
  datatype Consumer =
    | CIdle                      // outside the interrupt routine
    | CSig                       // about to copy the sig of the slot after cons
    | CVal(sig: int)             // about to copy its val
    | CClear(sig: int, val: int) // about to store 0 into sig
    | CTest                      // about to read the sig at cons
    | CTell                      // that sig was not 0: about to signal not-full
    | CMove                      // about to advance cons

  datatype State = State(
    sig: seq<int>, val: seq<int>, prod: nat, cons: nat,
    p: Producer, c: Consumer,
    intr: bool,        // an interrupt is pending at the consumer
    notFull: bool,     // a not-full notification is pending at the producer
    sent: seq<Item>,   // history: items in the order their sig was stored
    got: seq<Item>)    // history: items in the order their slot was cleared

  datatype Action =
    | Call(x: Item) | Check | GiveUp | Retry | StoreVal | StoreSig | Test | Raise | Advance
    | TakeIntr | ReadSig | ReadVal | ClearSig | TestFull | Tell | AdvanceCons | Unheard

  function Nxt(i: nat, n: nat): nat
    requires i < n
  {
    if i + 1 == n then 0 else i + 1
  }

  predicate Shape(s: State, n: nat) {
    |s.sig| == |s.val| == n && s.prod < n && s.cons < n && n >= 2
  }

  function Init(n: nat): State {
    State(seq(n, _ => 0), seq(n, _ => 0), 0, 0, PIdle, CIdle, false, false, [], [])
  }

  predicate Enabled(s: State, a: Action) {
    match a
    case Call(x) => s.p.PIdle? && x.sig != 0
    case Check => s.p.PCheck?
    case GiveUp => s.p.PFull?
    case Retry => s.p.PFull? && s.notFull
    case StoreVal => s.p.PVal?
    case StoreSig => s.p.PSig?
    case Test => s.p.PTest?
    case Raise => s.p.PRaise?
    case Advance => s.p.PMove?
    case TakeIntr => s.c.CIdle? && s.intr
    case ReadSig => s.c.CSig?
    case ReadVal => s.c.CVal?
    case ClearSig => s.c.CClear?
    case TestFull => s.c.CTest?
    case Tell => s.c.CTell?
    case AdvanceCons => s.c.CMove?
    case Unheard => s.notFull && !s.p.PFull?
  }

  /** One atomic step. GiveUp is Int_signal_bmt returning 0; Retry is Signal_bmt woken up. Unheard is a
      not-full notification delivered while nobody waits for it, which is lost. */
  function Apply(s: State, n: nat, a: Action): (s': State)
    requires Shape(s, n) && Enabled(s, a)
    ensures Shape(s', n)
  {
    var put, take := Nxt(s.prod, n), Nxt(s.cons, n);
    match a
    case Call(x) => s.(p := PCheck(x))
    case Check => s.(p := if s.sig[put] == 0 then PVal(s.p.x) else PFull(s.p.x))
    case GiveUp => s.(p := PIdle)
    case Retry => s.(p := PCheck(s.p.x), notFull := false)
    case StoreVal => s.(p := PSig(s.p.x), val := s.val[put := s.p.x.val])
    case StoreSig => s.(p := PTest, sig := s.sig[put := s.p.x.sig], sent := s.sent + [s.p.x])
    case Test => s.(p := if s.sig[s.prod] == 0 then PRaise else PMove)
    case Raise => s.(p := PMove, intr := true)
    case Advance => s.(p := PIdle, prod := put)
    case TakeIntr => s.(c := CSig, intr := false)
    case ReadSig => s.(c := CVal(s.sig[take]))
    case ReadVal => s.(c := if s.c.sig == 0 then CIdle else CClear(s.c.sig, s.val[take]))
    case ClearSig => s.(c := CTest, sig := s.sig[take := 0], got := s.got + [Item(s.c.sig, s.c.val)])
    case TestFull => s.(c := if s.sig[s.cons] != 0 then CTell else CMove)
    case Tell => s.(c := CMove, notFull := true)
    case AdvanceCons => s.(c := CSig, cons := take)
    case Unheard => s.(notFull := false)
  }

  // ----- the invariant -----

  function Slot(j: int, n: nat): nat
    requires n > 0
  {
    j % n
  }

  /** Item number j (from 1) sits unread in its slot. */
  predicate Holds(s: State, n: nat, j: int)
    requires Shape(s, n)
  {
    0 < j <= |s.sent| && s.sig[Slot(j, n)] == s.sent[j - 1].sig && s.val[Slot(j, n)] == s.sent[j - 1].val
  }

  predicate Free(s: State, n: nat, j: int)
    requires Shape(s, n)
  {
    s.sig[Slot(j, n)] == 0
  }

  /** The producer has stored item |sent| but not yet advanced over it; likewise the consumer. */
  function PLag(s: State): int { if s.p.PTest? || s.p.PRaise? || s.p.PMove? then 1 else 0 }
  function CLag(s: State): int { if s.c.CTest? || s.c.CTell? || s.c.CMove? then 1 else 0 }

  ghost predicate Ring(s: State, n: nat) {
    && Shape(s, n)
    && var t, h := |s.sent|, |s.got|;
    && h <= t <= h + n
    && s.got == s.sent[..h]
    && (forall i :: 0 <= i < t ==> s.sent[i].sig != 0)
    && s.prod == Slot(t - PLag(s), n) && s.cons == Slot(h - CLag(s), n)
    && PLag(s) <= t && CLag(s) <= h
    && (forall j :: h < j <= t ==> Holds(s, n, j))
    && (forall j :: t < j <= h + n ==> Free(s, n, j))
  }

  /** What each side knows between its own steps. */
  ghost predicate Local(s: State, n: nat)
    requires Shape(s, n)
  {
    var t, h := |s.sent|, |s.got|;
    && (s.p.PCheck? || s.p.PFull? || s.p.PVal? || s.p.PSig? ==> s.p.x.sig != 0)
    && (s.p.PVal? || s.p.PSig? ==> t < h + n)
    && (s.p.PSig? ==> s.val[Slot(t + 1, n)] == s.p.x.val)
    && (s.c.CVal? && s.c.sig != 0 ==> h < t && s.sent[h].sig == s.c.sig)
    && (s.c.CClear? ==> h < t && s.sent[h] == Item(s.c.sig, s.c.val))
  }

  /** The consumer is outside its drain loop, or has already seen the ring empty. */
  predicate Leaving(s: State) { s.c.CIdle? || s.c == CVal(0) }

  /** An unread item always has someone who will notice it. */
  predicate NoLostInterrupt(s: State) {
    Leaving(s) && |s.got| < |s.sent| ==>
      s.intr || s.p.PRaise? || (s.p.PTest? && |s.sent| == |s.got| + 1)
  }

  /** A producer that found the ring full, once a slot is free again, has been or will be told. */
  predicate NoLostNotFull(s: State, n: nat)
    requires Shape(s, n)
  {
    s.p.PFull? && |s.sent| < |s.got| + n ==>
      s.notFull || s.c.CTell? || (s.c.CTest? && s.sig[s.cons] != 0)
  }

  ghost predicate Inv(s: State, n: nat) {
    Ring(s, n) && Local(s, n) && NoLostInterrupt(s) && NoLostNotFull(s, n)
  }

  // ----- slot arithmetic -----

  lemma {:induction false} SlotNext(j: int, n: nat)
    requires n >= 2
    ensures Slot(j, n) < n && Slot(j + 1, n) == Nxt(Slot(j, n), n)
  {
    var q := j / n;
    assert j == q * n + Slot(j, n);
    if Slot(j, n) + 1 == n {
      assert j + 1 == (q + 1) * n;
      SlotUnique(j + 1, q + 1, 0, n);
    } else {
      SlotUnique(j + 1, q, Slot(j, n) + 1, n);
    }
  }

  lemma {:induction false} SlotUnique(j: int, q: int, r: int, n: nat)
    requires n > 0 && 0 <= r < n && j == q * n + r
    ensures Slot(j, n) == r
  {
    ModUnique(j, n, q, r);
  }

  lemma {:induction false} SlotApart(j: int, k: int, n: nat)
    requires n > 0 && j < k < j + n
    ensures Slot(j, n) != Slot(k, n)
  {
    var a, b := j / n, k / n;
    assert j == a * n + Slot(j, n) && k == b * n + Slot(k, n);
    assert (b - a) * n == k - j - (Slot(k, n) - Slot(j, n));
    Sign(b - a, n);
  }

  lemma {:induction false} SlotWrap(j: int, n: nat)
    requires n > 0
    ensures Slot(j + n, n) == Slot(j, n)
  {
    ModShift(j, 1, n);
  }

  // ----- every step keeps the invariant -----

  lemma {:induction false} InitInv(n: nat)
    requires n >= 2
    ensures Inv(Init(n), n)
  {
    SlotUnique(0, 0, 0, n);
  }

  lemma {:induction false} StoreValInv(s: State, n: nat)
    requires Inv(s, n) && s.p.PVal?
    ensures Inv(Apply(s, n, StoreVal), n)
  {
    var s', t, h := Apply(s, n, StoreVal), |s.sent|, |s.got|;
    SlotNext(t, n);
    forall j | h < j <= t ensures Holds(s', n, j) {
      assert Holds(s, n, j);
      SlotApart(j, t + 1, n);
    }
    forall j | t < j <= h + n ensures Free(s', n, j) { assert Free(s, n, j); }
  }

  lemma {:induction false} StoreSigInv(s: State, n: nat)
    requires Inv(s, n) && s.p.PSig?
    ensures Inv(Apply(s, n, StoreSig), n)
  {
    var s', t, h := Apply(s, n, StoreSig), |s.sent|, |s.got|;
    SlotNext(t, n);
    forall j | h < j <= t + 1 ensures Holds(s', n, j) {
      if j <= t {
        assert Holds(s, n, j);
        SlotApart(j, t + 1, n);
      }
    }
    forall j | t + 1 < j <= h + n ensures Free(s', n, j) {
      assert Free(s, n, j);
      SlotApart(t + 1, j, n);
    }
    if s.c.CTest? { CTestSlot(s, s', n); }
  }

  /** While the consumer is about to look at its old slot, a store elsewhere leaves that slot alone. */
  lemma {:induction false} CTestSlot(s: State, s': State, n: nat)
    requires Ring(s, n) && Local(s, n) && s.p.PSig? && s.c.CTest? && s' == Apply(s, n, StoreSig)
    ensures s.sig[s.cons] != 0 ==> s'.sig[s'.cons] != 0
  {
  }

  lemma {:induction false} ClearSigInv(s: State, n: nat)
    requires Inv(s, n) && s.c.CClear?
    ensures Inv(Apply(s, n, ClearSig), n)
  {
    var s', t, h := Apply(s, n, ClearSig), |s.sent|, |s.got|;
    SlotNext(h, n);
    SlotWrap(h + 1, n);
    forall j | h + 1 < j <= t ensures Holds(s', n, j) {
      assert Holds(s, n, j);
      SlotApart(h + 1, j, n);
    }
    forall j | t < j <= h + 1 + n ensures Free(s', n, j) {
      if j <= h + n {
        assert Free(s, n, j);
      }
    }
    assert s'.got == s.sent[..h + 1];
    if s.p.PFull? && t < h + 1 + n {
      // the ring was full, so the slot behind the freed one still holds the newest item
      SlotWrap(h, n);
      if t == h + n {
        assert Holds(s, n, t);
        SlotApart(h, h + 1, n);
      }
    }
  }

  /** Reading 0 ahead of cons means the ring is empty. */
  lemma {:induction false} ReadSigInv(s: State, n: nat)
    requires Inv(s, n) && s.c.CSig?
    ensures Inv(Apply(s, n, ReadSig), n)
  {
    var t, h := |s.sent|, |s.got|;
    SlotNext(h, n);
    if h < t { assert Holds(s, n, h + 1); } else { assert Free(s, n, h + 1); }
    Same(s, Apply(s, n, ReadSig), n);
  }

  lemma {:induction false} ReadValInv(s: State, n: nat)
    requires Inv(s, n) && s.c.CVal?
    ensures Inv(Apply(s, n, ReadVal), n)
  {
    var t, h := |s.sent|, |s.got|;
    SlotNext(h, n);
    if s.c.sig != 0 { assert Holds(s, n, h + 1); }
    Same(s, Apply(s, n, ReadVal), n);
  }

  /** Reading 0 ahead of prod means a slot is free, anything else that the ring is full. */
  lemma {:induction false} CheckInv(s: State, n: nat)
    requires Inv(s, n) && s.p.PCheck?
    ensures Inv(Apply(s, n, Check), n)
    ensures Apply(s, n, Check).p.PFull? <==> |s.sent| == |s.got| + n
  {
    var t, h := |s.sent|, |s.got|;
    SlotNext(t, n);
    if t < h + n {
      assert Free(s, n, t + 1);
    } else {
      assert Holds(s, n, h + 1);
      SlotWrap(h + 1, n);
    }
    Same(s, Apply(s, n, Check), n);
  }

  /** A step that touches neither slots nor histories nor pointers keeps the ring. */
  lemma {:induction false} Same(s: State, s': State, n: nat)
    requires Ring(s, n) && Shape(s', n)
    requires s'.sig == s.sig && s'.val == s.val && s'.sent == s.sent && s'.got == s.got
    requires s'.prod == s.prod && s'.cons == s.cons && PLag(s') == PLag(s) && CLag(s') == CLag(s)
    ensures Ring(s', n)
  {
    forall j | |s.got| < j <= |s.sent| ensures Holds(s', n, j) { assert Holds(s, n, j); }
    forall j | |s.sent| < j <= |s.got| + n ensures Free(s', n, j) { assert Free(s, n, j); }
  }

  lemma {:induction false} TestInv(s: State, n: nat)
    requires Inv(s, n)
    ensures s.p.PTest? ==> Inv(Apply(s, n, Test), n)
    ensures s.c.CTest? ==> Inv(Apply(s, n, TestFull), n)
  {
    var t, h := |s.sent|, |s.got|;
    if s.p.PTest? {
      Same(s, Apply(s, n, Test), n);
      if t == h + 1 {
        // the slot at prod belongs to the item before the new one, and that one has been read
        SlotWrap(h, n);
        assert Free(s, n, h + n);
      }
    }
    if s.c.CTest? { Same(s, Apply(s, n, TestFull), n); }
  }

  lemma {:induction false} AdvanceInv(s: State, n: nat)
    requires Inv(s, n) && s.p.PMove?
    ensures Inv(Apply(s, n, Advance), n)
  {
    hide Slot;
    var s', t, h := Apply(s, n, Advance), |s.sent|, |s.got|;
    SlotNext(t - 1, n);
    forall j | h < j <= t ensures Holds(s', n, j) { assert Holds(s, n, j); }
    forall j | t < j <= h + n ensures Free(s', n, j) { assert Free(s, n, j); }
  }

  lemma {:induction false} AdvanceConsInv(s: State, n: nat)
    requires Inv(s, n) && s.c.CMove?
    ensures Inv(Apply(s, n, AdvanceCons), n)
  {
    hide Slot;
    var s', t, h := Apply(s, n, AdvanceCons), |s.sent|, |s.got|;
    SlotNext(h - 1, n);
    forall j | h < j <= t ensures Holds(s', n, j) { assert Holds(s, n, j); }
    forall j | t < j <= h + n ensures Free(s', n, j) { assert Free(s, n, j); }
  }

  /** One step of either side, in any order, keeps the invariant. */
  lemma {:induction false} StepInv(s: State, n: nat, a: Action)
    requires Inv(s, n) && Enabled(s, a)
    ensures Inv(Apply(s, n, a), n) && |Apply(s, n, a).got| <= |Apply(s, n, a).sent|
  {
    match a
    case StoreVal => StoreValInv(s, n);
    case StoreSig => StoreSigInv(s, n);
    case ClearSig => ClearSigInv(s, n);
    case Check => CheckInv(s, n);
    case ReadSig => ReadSigInv(s, n);
    case ReadVal => ReadValInv(s, n);
    case Test => TestInv(s, n);
    case TestFull => TestInv(s, n);
    case Advance => AdvanceInv(s, n);
    case AdvanceCons => AdvanceConsInv(s, n);
    case _ => Same(s, Apply(s, n, a), n);
  }

  // ----- whole runs -----

  predicate Legal(s: State, n: nat, acts: seq<Action>)
    requires Shape(s, n)
    decreases |acts|
  {
    acts == [] || (Enabled(s, acts[0]) && Legal(Apply(s, n, acts[0]), n, acts[1..]))
  }

  function Run(s: State, n: nat, acts: seq<Action>): (s': State)
    requires Shape(s, n) && Legal(s, n, acts)
    ensures Shape(s', n)
    decreases |acts|
  {
    if acts == [] then s else Run(Apply(s, n, acts[0]), n, acts[1..])
  }

  lemma {:induction false} RunInv(s: State, n: nat, acts: seq<Action>)
    requires Inv(s, n) && Legal(s, n, acts)
    ensures Inv(Run(s, n, acts), n)
    decreases |acts|
  {
    if acts != [] {
      StepInv(s, n, acts[0]);
      RunInv(Apply(s, n, acts[0]), n, acts[1..]);
    }
  }

  /** FIFO safety, after every run: what came out is a prefix of what went in, value for value, and
      never more than the ring size is under way. */
  lemma {:induction false} Safety(n: nat, acts: seq<Action>)
    requires n >= 2 && Legal(Init(n), n, acts)
    ensures var s := Run(Init(n), n, acts); s.got <= s.sent && |s.sent| <= |s.got| + n
  {
    InitInv(n);
    RunInv(Init(n), n, acts);
  }

  /** No store of the producer hits a slot that is unread, and a clear hits the oldest unread one. */
  lemma {:induction false} NoOverwrite(n: nat, acts: seq<Action>, j: int)
    requires n >= 2 && Legal(Init(n), n, acts)
    ensures var s := Run(Init(n), n, acts);
      && (s.p.PVal? || s.p.PSig?) && |s.got| < j <= |s.sent| ==> Nxt(s.prod, n) != Slot(j, n)
    ensures var s := Run(Init(n), n, acts);
      s.c.CClear? ==>
        |s.got| < |s.sent| && Nxt(s.cons, n) == Slot(|s.got| + 1, n) && s.sent[|s.got|] == Item(s.c.sig, s.c.val)
  {
    InitInv(n);
    RunInv(Init(n), n, acts);
    var s := Run(Init(n), n, acts);
    SlotNext(|s.sent|, n);
    SlotNext(|s.got|, n);
    if (s.p.PVal? || s.p.PSig?) && |s.got| < j <= |s.sent| { SlotApart(j, |s.sent| + 1, n); }
  }

  /** No lost notification, in every reachable state and both ways round. */
  lemma {:induction false} NoLostNotification(n: nat, acts: seq<Action>)
    requires n >= 2 && Legal(Init(n), n, acts)
    ensures var s := Run(Init(n), n, acts);
      |s.got| < |s.sent| ==> s.intr || !Leaving(s) || s.p.PTest? || s.p.PRaise?
    ensures var s := Run(Init(n), n, acts);
      s.p.PFull? && |s.sent| < |s.got| + n ==>
        s.notFull || s.c.CTell? || (s.c.CTest? && Apply(s, n, TestFull).c.CTell?)
  {
    InitInv(n);
    RunInv(Init(n), n, acts);
  }

  // ----- what the producer was called with -----

  /** The items of all calls so far, in order, less the refused ones. */
  function Offered(acts: seq<Action>): seq<Item> {
    if acts == [] then [] else
      var o, a := Offered(acts[..|acts| - 1]), acts[|acts| - 1];
      match a
      case Call(x) => o + [x]
      case GiveUp => if o == [] then o else o[..|o| - 1]
      case _ => o
  }

  /** The item a call still has in hand. */
  function InHand(s: State): seq<Item> {
    if s.p.PCheck? || s.p.PFull? || s.p.PVal? || s.p.PSig? then [s.p.x] else []
  }

  /** No call loses its item, and none is stored twice or out of order: what was called for and not refused is
      what was written, and then what the producer still holds. */
  lemma {:induction false} EveryCallIsKept(n: nat, acts: seq<Action>)
    requires n >= 2 && Legal(Init(n), n, acts)
    ensures var s := Run(Init(n), n, acts); Offered(acts) == s.sent + InHand(s)
    decreases |acts|
  {
    if acts != [] {
      var k := |acts| - 1;
      var s := RunSplit(Init(n), n, acts, k);
      EveryCallIsKept(n, acts[..k]);
      assert acts[k..] == [acts[k]];
      assert Run(s, n, acts[k..]) == Apply(s, n, acts[k]);
      KeptStep(s, n, acts[k], Offered(acts[..k]));
    }
  }

  /** The last of these actions that matter is a Tell, or a Raise. */
  predicate Told(acts: seq<Action>) {
    acts != [] &&
    var a := acts[|acts| - 1];
    a.Tell? || (!a.Retry? && !a.Unheard? && Told(acts[..|acts| - 1]))
  }

  predicate Raised(acts: seq<Action>) {
    acts != [] &&
    var a := acts[|acts| - 1];
    a.Raise? || (!a.TakeIntr? && Raised(acts[..|acts| - 1]))
  }

  /** A notification is pending from when it is told until it is heard, or missed; an interrupt from when it is
      raised until it is taken. Neither comes by itself. */
  lemma {:induction false} PendingIffTold(n: nat, acts: seq<Action>)
    requires n >= 2 && Legal(Init(n), n, acts)
    ensures var s := Run(Init(n), n, acts); (s.notFull <==> Told(acts)) && (s.intr <==> Raised(acts))
    decreases |acts|
  {
    if acts != [] {
      var k := |acts| - 1;
      var s := RunSplit(Init(n), n, acts, k);
      PendingIffTold(n, acts[..k]);
      assert acts[k..] == [acts[k]];
      assert Run(s, n, acts[k..]) == Apply(s, n, acts[k]);
    }
  }

  lemma {:induction false} KeptStep(s: State, n: nat, a: Action, o: seq<Item>)
    requires Shape(s, n) && Enabled(s, a) && o == s.sent + InHand(s)
    ensures var t := Apply(s, n, a);
      t.sent + InHand(t) == if a.Call? then o + [a.x] else if a.GiveUp? then o[..|o| - 1] else o
  {
  }

  lemma {:induction false} RunSplit(s: State, n: nat, acts: seq<Action>, k: nat) returns (mid: State)
    requires Shape(s, n) && Legal(s, n, acts) && k <= |acts|
    ensures Legal(s, n, acts[..k]) && mid == Run(s, n, acts[..k])
    ensures Legal(mid, n, acts[k..]) && Run(s, n, acts) == Run(mid, n, acts[k..])
    decreases k
  {
    hide Apply, Enabled;
    if k == 0 {
      mid := s;
      assert acts[0..] == acts;
    } else {
      mid := RunSplit(Apply(s, n, acts[0]), n, acts[1..], k - 1);
      assert acts[..k][1..] == acts[1..][..k - 1] && acts[1..][k - 1..] == acts[k..];
    }
  }

  // ----- progress -----

  /** What the consumer does next on its own; nothing when it is outside and not interrupted. */
  function ConsumerNext(s: State): seq<Action> {
    match s.c
    case CIdle => if s.intr then [TakeIntr] else []
    case CSig => [ReadSig]
    case CVal(_) => [ReadVal]
    case CClear(_, _) => [ClearSig]
    case CTest => [TestFull]
    case CTell => [Tell]
    case CMove => [AdvanceCons]
  }

  /** Consumer steps left while the producer stands still. */
  function Rank(s: State): int {
    6 * (|s.sent| - |s.got|) + (if s.intr then 3 else 0) +
    match s.c
    case CIdle => 0
    case CSig => 2
    case CVal(_) => 1
    case CClear(_, _) => 0
    case CTest => 5
    case CTell => 4
    case CMove => 3
  }

  /** Left alone, the consumer delivers every item and comes to rest, and a producer that waits for
      room has been notified by then. */
  lemma {:induction false} Drains(s: State, n: nat) returns (acts: seq<Action>)
    requires Inv(s, n) && !s.p.PTest? && !s.p.PRaise?
    ensures Legal(s, n, acts)
    ensures var e := Run(s, n, acts);
      && e.c.CIdle? && !e.intr && e.p == s.p && e.sent == s.sent && e.got == s.sent
      && (s.p.PFull? ==> Enabled(e, Retry))
    ensures Patient(acts)
    decreases Rank(s)
  {
    hide Inv;
    Prefix(s, n);
    if ConsumerNext(s) == [] {
      acts := [];
      AtRest(s, n);
    } else {
      var a := ConsumerNext(s)[0];
      StepInv(s, n, a);
      var rest := Drains(Apply(s, n, a), n);
      acts := [a] + rest;
    }
  }

  // ----- the code itself, run without interleaving -----

  /** A run goes on by one more step. */
  lemma {:induction false} Then(s: State, n: nat, acts: seq<Action>, e: State, a: Action) returns (more: seq<Action>,
      e': State)
    requires Inv(s, n) && Shape(s, n) && Legal(s, n, acts) && Run(s, n, acts) == e && Inv(e, n) && Enabled(e, a)
    ensures e' == Apply(e, n, a) && Inv(e', n)
    ensures Legal(s, n, more) && Run(s, n, more) == e' && more == acts + [a]
    decreases |acts|
  {
    hide Ring, Local, NoLostInterrupt, NoLostNotFull, Enabled;
    StepInv(e, n, a);
    e' := Apply(e, n, a);
    if acts == [] {
      more := [a];
      assert Legal(e', n, more[1..]) && Run(e', n, more[1..]) == e';
    } else {
      StepInv(s, n, acts[0]);
      var rest, _ := Then(Apply(s, n, acts[0]), n, acts[1..], e, a);
      more := [acts[0]] + rest;
      assert more[1..] == rest;
    }
  }

  lemma {:induction false} None(s: State, n: nat) returns (acts: seq<Action>, e: State)
    requires Inv(s, n)
    ensures Shape(s, n) && e == s && Legal(s, n, acts) && Run(s, n, acts) == e
  {
    acts, e := [], s;
  }

  predicate Patient(acts: seq<Action>) { forall i :: 0 <= i < |acts| ==> !acts[i].GiveUp? && !acts[i].Call? }

  /** A producer that waits gets its item through: the consumer alone empties the ring, and the producer, told
      of it, then stores the very item it waited with. */
  lemma {:induction false} WaiterIsServed(s: State, n: nat) returns (acts: seq<Action>, e: State)
    requires Inv(s, n) && s.p.PFull?
    ensures Patient(acts) && Legal(s, n, acts) && Run(s, n, acts) == e && Inv(e, n)
    ensures e.p == PIdle && e.sent == s.sent + [s.p.x]
  {
    hide Ring, Local, NoLostInterrupt, NoLostNotFull, Legal, Run;
    acts, e := None(s, n);
    acts := Drains(s, n);
    e := Run(s, n, acts);
    RunInv(s, n, acts);
    acts, e := Then(s, n, acts, e, Retry);
    CheckInv(e, n);
    acts, e := Then(s, n, acts, e, Check);
    acts, e := Then(s, n, acts, e, StoreVal);
    acts, e := Then(s, n, acts, e, StoreSig);
    acts, e := Then(s, n, acts, e, Test);
    if e.p.PRaise? { acts, e := Then(s, n, acts, e, Raise); }
    acts, e := Then(s, n, acts, e, Advance);
  }

  /** The producer's steps for one item, back to back. */
  lemma {:induction false} Put(s: State, n: nat, x: Item) returns (acts: seq<Action>, e: State)
    requires Inv(s, n) && s.p.PIdle? && x.sig != 0
    ensures Legal(s, n, acts) && Run(s, n, acts) == e && Inv(e, n)
    ensures s.sig[Nxt(s.prod, n)] == 0 <==> |s.sent| < |s.got| + n
    ensures s.sig[Nxt(s.prod, n)] != 0 ==> e == s
    ensures s.sig[Nxt(s.prod, n)] == 0 ==> var put := Nxt(s.prod, n);
      && e == s.(sig := s.sig[put := x.sig], val := s.val[put := x.val], prod := put, sent := s.sent + [x],
                 intr := s.intr || s.sig[s.prod] == 0)
      && put != s.prod && (s.sig[s.prod] == 0 <==> s.sent == s.got)
  {
    hide Ring, Local, NoLostInterrupt, NoLostNotFull, Legal, Run;
    acts, e := None(s, n);
    acts, e := Then(s, n, acts, e, Call(x));
    CheckInv(e, n);
    acts, e := Then(s, n, acts, e, Check);
    if e.p.PFull? {
      acts, e := Then(s, n, acts, e, GiveUp);
    } else {
      acts, e := Then(s, n, acts, e, StoreVal);
      acts, e := Then(s, n, acts, e, StoreSig);
      TestEmpty(e, n);
      acts, e := Then(s, n, acts, e, Test);
      if e.p.PRaise? { acts, e := Then(s, n, acts, e, Raise); }
      acts, e := Then(s, n, acts, e, Advance);
    }
    Prefix(s, n);
  }

  lemma {:induction false} Prefix(s: State, n: nat)
    requires Inv(s, n)
    ensures Shape(s, n) && s.got <= s.sent && |s.sent| <= |s.got| + n
  {
  }

  lemma {:induction false} AtRest(s: State, n: nat)
    requires Inv(s, n) && s.c.CIdle? && !s.intr && !s.p.PTest? && !s.p.PRaise?
    ensures s.got == s.sent && (s.p.PFull? ==> s.notFull)
  {
  }

  /** The consumer's steps for one call of read_fifo, back to back. */
  lemma {:induction false} Take(s: State, n: nat) returns (acts: seq<Action>, e: State)
    requires Inv(s, n) && s.c.CSig? && s.p.PIdle?
    ensures Legal(s, n, acts) && Run(s, n, acts) == e && Inv(e, n)
    ensures var take := Nxt(s.cons, n);
      && (s.sig[take] == 0 <==> s.got == s.sent)
      && (s.sig[take] == 0 ==> e == s.(c := CIdle))
      && (s.sig[take] != 0 ==>
            && |s.got| < |s.sent| && s.sent[|s.got|] == Item(s.sig[take], s.val[take])
            && e == s.(sig := s.sig[take := 0], cons := take, got := s.got + [s.sent[|s.got|]],
                       notFull := s.notFull || s.sig[s.cons] != 0)
            && take != s.cons && (s.sig[s.cons] != 0 <==> |s.sent| == |s.got| + n))
  {
    hide Ring, Local, NoLostInterrupt, NoLostNotFull, Legal, Run;
    ReadEmpty(s, n);
    acts, e := None(s, n);
    acts, e := Then(s, n, acts, e, ReadSig);
    acts, e := Then(s, n, acts, e, ReadVal);
    Prefix(s, n);
    if s.sig[Nxt(s.cons, n)] != 0 {
      TestWasFull(e, n);
      acts, e := Then(s, n, acts, e, ClearSig);
      acts, e := Then(s, n, acts, e, TestFull);
      if e.c.CTell? { acts, e := Then(s, n, acts, e, Tell); }
      acts, e := Then(s, n, acts, e, AdvanceCons);
    }
  }

  /** BMT_FIFO with both its users. The ghost histories and `draining` (inside Bmt_intr) complete
      it to a state of the machine above. */
  class Fifo {
    const sig: array<int>
    const val: array<int>
    var prod: nat
    var cons: nat
    var intr: bool
    var notFull: bool
    ghost var sent: seq<Item>
    ghost var got: seq<Item>
    ghost var draining: bool

    constructor (n: nat)
      requires n >= 2
      ensures Valid() && sig.Length == n && sent == got == [] && !intr && !draining && fresh(sig) && fresh(val)
    {
      sig, val := new int[n](_ => 0), new int[n](_ => 0);
      prod, cons, intr, notFull, sent, got, draining := 0, 0, false, false, [], [], false;
      new;
      InitInv(n);
      assert View() == Init(n);
    }

    ghost function View(): State
      reads this, sig, val
    {
      State(sig[..], val[..], prod, cons, PIdle, if draining then CSig else CIdle, intr, notFull, sent, got)
    }

    ghost predicate Valid()
      reads this, sig, val
    {
      sig != val && Shape(View(), sig.Length) && |got| <= |sent| && Inv(View(), sig.Length)
    }

    /** Int_signal_bmt: refuse when the ring is full, interrupt the consumer when it was empty. */
    method IntSignal(s: int, v: int) returns (ok: bool)
      requires Valid() && s != 0
      modifies this`prod, this`intr, this`sent, sig, val
      ensures Valid()
      ensures ok <==> |old(sent)| < |got| + sig.Length
      ensures ok ==> sent == old(sent) + [Item(s, v)] && (intr <==> old(intr) || old(sent) == got)
      ensures !ok ==> View() == old(View())
    {
      hide Inv;
      ghost var acts, after := Put(View(), sig.Length, Item(s, v));
      var fip := if prod + 1 == sig.Length then 0 else prod + 1;
      if sig[fip] != 0 { return false; }
      val[fip] := v;
      sig[fip] := s;
      sent := sent + [Item(s, v)];
      if sig[prod] == 0 { intr := true; }
      prod := fip;
      assert View() == after;
      return true;
    }

    /** read_fifo: the oldest item, or sig 0; a slot freed in a full ring is announced. */
    method ReadFifo() returns (item: Item)
      requires Valid() && draining
      modifies this`cons, this`notFull, this`got, this`draining, sig
      ensures Valid()
      ensures old(got) == sent ==> item.sig == 0 && got == old(got) && !draining && notFull == old(notFull)
      ensures old(got) != sent ==> item.sig != 0 && item == sent[|old(got)|] && got == old(got) + [item] && draining
      ensures old(got) != sent ==> (notFull <==> old(notFull) || |sent| == |old(got)| + sig.Length)
    {
      hide Inv;
      ghost var acts, after := Take(View(), sig.Length);
      var fip := if cons + 1 == sig.Length then 0 else cons + 1;
      item := Item(sig[fip], val[fip]);
      if item.sig == 0 {
        draining := false;
        assert View() == after;
        return;
      }
      sig[fip] := 0;
      got := got + [item];
      if sig[cons] != 0 { notFull := true; }
      cons := fip;
      assert View() == after;
    }

    /** Bmt_intr: drain the ring, in order, until read_fifo finds it empty. */
    method Drain() returns (handled: seq<Item>)
      requires Valid() && !draining && intr
      modifies this`cons, this`notFull, this`got, this`draining, this`intr, sig
      ensures Valid() && !draining && !intr
      ensures got == sent && old(got) + handled == sent
    {
      hide Ring, Local, NoLostInterrupt, NoLostNotFull;
      StepInv(View(), sig.Length, TakeIntr);
      intr, draining := false, true;
      handled := [];
      var item := ReadFifo();
      while item.sig != 0
        invariant Valid() && !intr
        invariant draining == (item.sig != 0)
        invariant item.sig != 0 ==> old(got) + handled + [item] == got
        invariant item.sig == 0 ==> old(got) + handled == got == sent
        decreases |sent| - |got| + (if draining then 1 else 0)
      {
        handled := handled + [item];
        item := ReadFifo();
      }
    }
  }

  /** The slot at prod is clear exactly when everything before the new item has been read. */
  lemma {:induction false} TestEmpty(s: State, n: nat)
    requires Inv(s, n) && s.p.PTest?
    ensures s.sig[s.prod] == 0 <==> |s.sent| <= |s.got| + 1
  {
    var t, h := |s.sent|, |s.got|;
    if t <= h + 1 {
      SlotWrap(t - 1, n);
      assert Free(s, n, t - 1 + n);
    } else {
      assert Holds(s, n, t - 1);
    }
  }

  lemma {:induction false} ReadEmpty(s: State, n: nat)
    requires Inv(s, n) && s.c.CSig?
    ensures s.sig[Nxt(s.cons, n)] == 0 <==> s.got == s.sent
    ensures s.got != s.sent ==> s.sent[|s.got|] == Item(s.sig[Nxt(s.cons, n)], s.val[Nxt(s.cons, n)])
  {
    var t, h := |s.sent|, |s.got|;
    SlotNext(h, n);
    if h < t { assert Holds(s, n, h + 1); } else { assert Free(s, n, h + 1); }
  }

  /** The slot at cons is taken exactly when the ring is full. */
  lemma {:induction false} TestWasFull(s: State, n: nat)
    requires Inv(s, n) && s.c.CClear? && s.p.PIdle?
    ensures s.sig[s.cons] != 0 <==> |s.sent| == |s.got| + n
    ensures s.cons != Nxt(s.cons, n)
  {
    var t, h := |s.sent|, |s.got|;
    SlotWrap(h, n);
    if t == h + n { assert Holds(s, n, t); } else { assert Free(s, n, h + n); }
  }
}
