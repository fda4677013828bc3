/** icc.c: messages for the communication controller, queued through their link field behind the
    one-letter mailbox tr. A message is an index from 1; a link of 0 means not queued. */
module Icc {
  import opened Chain

  const END := -1

  datatype Flag = SEND | REPLY | REPLIED | TIME_OUT
  datatype Message = Message(flag: set<Flag>, sender: int, id: seq<int>, data: seq<int>)

  /** The mailbox: a message, with its address as the sender when it asks for a reply. */
  function Letter(m: Message, up: int): Message { if SEND in m.flag then m.(sender := up) else m }

  /** l tells what message up says now, and whom to answer: up itself if it asks for a reply. */
  predicate Carried(msgs: seq<Message>, up: int, l: Message) {
    && 0 <= up < |msgs| && l.flag == msgs[up].flag && l.id == msgs[up].id && l.data == msgs[up].data
    && l.sender == if SEND in msgs[up].flag then up else msgs[up].sender
  }

  datatype Mark = Sent(who: int, what: Message) | Acked

  /** What the driver does, without pointers: the queue, the mailbox, and the history of both. */
  datatype Post = Post(
    queue: seq<int>, msgs: seq<Message>, tr: Message, idle: bool, val: int, accepted: seq<int>, log: seq<Mark>)

  datatype Event =
    | Submit(up: int, kind: Flag)        // Send_icc or Reply_icc
    | Xint                               // the controller has read the mailbox
    | Rint(up: int, m: Message)          // a reply to message up arrives
    | Edit(up: int, m: Message)          // the owner of a message changes it

  predicate IsMessage(s: Post, up: int) { 0 < up < |s.msgs| }

  function Transmitted(s: Post): Post
    requires s.queue != [] ==> IsMessage(s, s.queue[0])
  {
    if s.queue == [] then s else
      var l := Letter(s.msgs[s.queue[0]], s.queue[0]);
      s.(queue := s.queue[1..], tr := l, idle := false, val := -1 - s.val, log := s.log + [Sent(s.queue[0], l)])
  }

  function Submitted(s: Post, up: int): Post
    requires IsMessage(s, up) && AllMessages(s)
  {
    if up in s.queue then s else
      var t := s.(queue := s.queue + [up], accepted := s.accepted + [up]);
      if s.idle then Transmitted(t) else t
  }

  function Read(s: Post): Post
    requires AllMessages(s)
  {
    Transmitted(s.(idle := true, log := s.log + [Acked]))
  }

  predicate AllMessages(s: Post) { forall i :: 0 <= i < |s.queue| ==> IsMessage(s, s.queue[i]) }

  /** A reply overwrites the message it answers, except for its sender. */
  function Replied(old_: Message, m: Message): Message {
    old_.(flag := old_.flag + {REPLIED}, id := m.id, data := m.data)
  }

  function Answered(s: Post, up: int, m: Message): Post
    requires IsMessage(s, up)
  {
    s.(msgs := s.msgs[up := Replied(s.msgs[up], m)])
  }

  predicate Enabled(s: Post, e: Event) {
    match e
    case Submit(up, kind) => IsMessage(s, up)
    case Xint => true
    case Rint(up, m) => IsMessage(s, up) && up !in s.queue
    case Edit(up, m) => IsMessage(s, up)
  }

  function Step(s: Post, e: Event): Post
    requires AllMessages(s) && Enabled(s, e)
  {
    match e
    case Submit(up, kind) => Submitted(s.(msgs := s.msgs[up := s.msgs[up].(flag := {kind})]), up)
    case Xint => Read(s)
    case Rint(up, m) => Answered(s, up, m)
    case Edit(up, m) => s.(msgs := s.msgs[up := m])
  }

  // ----- over every run -----

  function SentTo(log: seq<Mark>): seq<int> {
    if log == [] then [] else
      SentTo(log[..|log| - 1]) + (if log[|log| - 1].Sent? then [log[|log| - 1].who] else [])
  }

  function Flipped(v: int, n: nat): int { if n % 2 == 0 then v else -1 - v }

  predicate ReadBefore(log: seq<Mark>, i: int)
    requires 0 <= i < |log|
  {
    log[i].Sent? ==> i > 0 && log[i - 1].Acked?
  }

  /** Every letter was put into a mailbox the controller had read since the last one. */
  predicate NeverOverwritten(log: seq<Mark>) { forall i :: 0 <= i < |log| ==> ReadBefore(log, i) }

  predicate Inv(s: Post, v: int) {
    && AllMessages(s) && NoDup(s.queue)
    && (s.idle ==> s.queue == [])
    && SentTo(s.log) + s.queue == s.accepted
    && NeverOverwritten(s.log)
    && (s.idle <==> s.log != [] && s.log[|s.log| - 1].Acked?)
    && (s.log != [] && s.log[|s.log| - 1].Sent? ==> s.tr == s.log[|s.log| - 1].what)
    && s.val == Flipped(v, |SentTo(s.log)|)
  }

  predicate Start(s: Post) { s.queue == [] && s.accepted == [] && s.log == [] && !s.idle }

  lemma {:induction false} Logged(log: seq<Mark>, k: Mark)
    ensures SentTo(log + [k]) == SentTo(log) + if k.Sent? then [k.who] else []
    ensures NeverOverwritten(log) && (k.Sent? ==> log != [] && log[|log| - 1].Acked?) ==> NeverOverwritten(log + [k])
  {
    assert (log + [k])[..|log|] == log;
    if NeverOverwritten(log) && (k.Sent? ==> log != [] && log[|log| - 1].Acked?) {
      forall i | 0 <= i < |log + [k]| ensures ReadBefore(log + [k], i) {
        if i < |log| { assert ReadBefore(log, i); }
      }
    }
  }

  lemma {:induction false} TransmitInv(s: Post, v: int)
    requires AllMessages(s) && NoDup(s.queue) && SentTo(s.log) + s.queue == s.accepted && NeverOverwritten(s.log)
    requires s.idle && s.log != [] && s.log[|s.log| - 1].Acked? && s.val == Flipped(v, |SentTo(s.log)|)
    ensures Inv(Transmitted(s), v)
  {
    hide NeverOverwritten, SentTo;
    if s.queue != [] {
      var t := Transmitted(s);
      Logged(s.log, t.log[|s.log|]);
      assert AllMessages(t) && NoDup(t.queue) by {
        assert forall i :: 0 <= i < |t.queue| ==> t.queue[i] == s.queue[i + 1] && IsMessage(s, s.queue[i + 1]);
      }
      assert s.queue == [s.queue[0]] + t.queue;
      assert SentTo(t.log) + t.queue == SentTo(s.log) + s.queue;
    }
  }

  lemma {:induction false} StepInv(s: Post, e: Event, v: int)
    requires Inv(s, v) && Enabled(s, e)
    ensures Inv(Step(s, e), v)
  {
    hide NeverOverwritten, SentTo, Transmitted;
    match e
    case Submit(up, kind) =>
      var t := s.(msgs := s.msgs[up := s.msgs[up].(flag := {kind})]);
      assert forall i :: 0 <= i < |s.queue| ==> IsMessage(s, s.queue[i]) && IsMessage(t, t.queue[i]);
      if up !in s.queue {
        var u := t.(queue := t.queue + [up], accepted := t.accepted + [up]);
        assert SentTo(u.log) + u.queue == u.accepted;
        assert AllMessages(u) && NoDup(u.queue);
        if s.idle { TransmitInv(u, v); }
      }
    case Xint =>
      var t := s.(idle := true, log := s.log + [Acked]);
      Logged(s.log, Acked);
      assert forall i :: 0 <= i < |s.queue| ==> IsMessage(s, s.queue[i]) && IsMessage(t, t.queue[i]);
      TransmitInv(t, v);
    case Rint(up, m) =>
      var t := Step(s, e);
      assert forall i :: 0 <= i < |s.queue| ==> IsMessage(s, s.queue[i]) && IsMessage(t, t.queue[i]);
    case Edit(up, m) =>
      var t := Step(s, e);
      assert forall i :: 0 <= i < |s.queue| ==> IsMessage(s, s.queue[i]) && IsMessage(t, t.queue[i]);
  }

  ghost predicate Reaches(s: Post, es: seq<Event>, t: Post)
    decreases |es|
  {
    if es == [] then s == t else AllMessages(s) && Enabled(s, es[0]) && Reaches(Step(s, es[0]), es[1..], t)
  }

  /** In every reachable state: what was accepted is what was transmitted, once each and in order,
      and then what still waits; no letter was overwritten unread; an idle mailbox means an empty
      queue; and tr_val was complemented once a letter. */
  lemma {:induction false} EveryRun(s: Post, es: seq<Event>, t: Post, v: int)
    requires (Inv(s, v) || (Start(s) && s.val == v)) && Reaches(s, es, t)
    ensures Inv(t, v)
    decreases |es|
  {
    if es != [] {
      StepInv(s, es[0], v);
      EveryRun(Step(s, es[0]), es[1..], t, v);
    }
  }

  /** What one step adds to the log: letters are its last marks, and they carry what the messages then say. */
  lemma {:induction false} StepLog(s: Post, e: Event)
    requires AllMessages(s) && Enabled(s, e)
    ensures var t := Step(s, e);
      && s.log <= t.log
      && forall k :: |s.log| <= k < |t.log| && t.log[k].Sent? ==>
           k == |t.log| - 1 && Carried(t.msgs, t.log[k].who, t.log[k].what)
  {
    var t := Step(s, e);
    assert forall k :: 0 <= k < |s.log| ==> t.log[k] == s.log[k];
  }

  /** In every run each letter carries the contents its message has when it is sent: u is the state right
      after that. */
  lemma {:induction false} LettersCarry(s: Post, es: seq<Event>, t: Post, k: nat) returns (i: nat, u: Post)
    requires Reaches(s, es, t) && |s.log| <= k < |t.log| && t.log[k].Sent?
    ensures i <= |es| && Reaches(s, es[..i], u) && Reaches(u, es[i..], t)
    ensures |u.log| == k + 1 && u.log <= t.log && Carried(u.msgs, t.log[k].who, t.log[k].what)
    decreases |es|
  {
    var s1 := Step(s, es[0]);
    hide Step, Carried;
    StepLog(s, es[0]);
    LogGrows(s1, es[1..], t);
    if k < |s1.log| {
      i, u := 1, s1;
      assert es[..1][1..] == [] && es[..1][0] == es[0];
      assert Reaches(s1, es[..1][1..], s1);
    } else {
      i, u := LettersCarry(s1, es[1..], t, k);
      var n := i + 1;
      assert es[..n][1..] == es[1..][..i] && es[n..] == es[1..][i..] && es[..n][0] == es[0];
      i := n;
    }
  }

  lemma {:induction false} LogGrows(s: Post, es: seq<Event>, t: Post)
    requires Reaches(s, es, t)
    ensures s.log <= t.log
    decreases |es|
  {
    if es != [] {
      StepLog(s, es[0]);
      LogGrows(Step(s, es[0]), es[1..], t);
    }
  }

  function Reads(s: Post, k: nat): Post
    requires AllMessages(s)
    decreases k
  {
    if k == 0 then s else ReadKeeps(s); Reads(Read(s), k - 1)
  }

  lemma {:induction false} ReadKeeps(s: Post)
    requires AllMessages(s)
    ensures AllMessages(Read(s))
  {
    var t := s.(idle := true, log := s.log + [Acked]);
    assert forall i :: 0 <= i < |s.queue| ==> IsMessage(s, s.queue[i]) && IsMessage(t, t.queue[i]);
    assert forall i :: 0 <= i < |Read(s).queue| ==> Read(s).queue[i] == s.queue[i + 1];
  }

  /** Nothing waits for ever: k acknowledgements transmit the first k waiting messages. */
  lemma {:induction false} Drains(s: Post, k: nat)
    requires AllMessages(s) && k <= |s.queue|
    ensures Reads(s, k).queue == s.queue[k..]
    ensures SentTo(Reads(s, k).log) == SentTo(s.log) + s.queue[..k]
    decreases k
  {
    if k > 0 {
      ReadKeeps(s);
      var t := s.(idle := true, log := s.log + [Acked]);
      Logged(s.log, Acked);
      Logged(t.log, Sent(s.queue[0], Letter(s.msgs[s.queue[0]], s.queue[0])));
      Drains(Read(s), k - 1);
      assert s.queue[1..][k - 1..] == s.queue[k..] && [s.queue[0]] + s.queue[1..][..k - 1] == s.queue[..k];
    }
  }

  /** It happens: message 1 is sent, and submitted again behind another before its reply arrives. */
  lemma {:induction false} SubmittedAgain(s: Post) returns (es: seq<Event>, t: Post)
    requires Start(s) && |s.msgs| > 3
    ensures Reaches(s, es, t) && t.queue == [2, 1, 3] && t.accepted == [1, 2, 1, 3] && SentTo(t.log) == [1]
  {
    var s2, s1 := FirstSent(s);
    hide Transmitted, SentTo, Reaches, Submitted;
    var s3 := Waits(s2, 2);
    var s4 := Waits(s3, 1);
    t := Waits(s4, 3);
    var es0 := Nothing(t);
    var es4 := Before(s4, Submit(3, SEND), es0, t);
    var es3 := Before(s3, Submit(1, SEND), es4, t);
    var es2 := Before(s2, Submit(2, SEND), es3, t);
    var es1 := Before(s1, Xint, es2, t);
    es := Before(s, Submit(1, SEND), es1, t);
  }

  lemma {:induction false} Nothing(t: Post) returns (es: seq<Event>)
    ensures Reaches(t, es, t)
  {
    es := [];
  }

  lemma {:induction false} FirstSent(s: Post) returns (s2: Post, s1: Post)
    requires Start(s) && |s.msgs| > 3
    ensures AllMessages(s) && s1 == Step(s, Submit(1, SEND)) && AllMessages(s1) && s2 == Step(s1, Xint)
    ensures AllMessages(s2)
    ensures s2.queue == [] && s2.accepted == [1] && !s2.idle && SentTo(s2.log) == [1] && |s2.msgs| == |s.msgs|
  {
    hide SentTo, Step;
    s1 := Submitted1(s);
    s2 := Read1(s1);
  }

  lemma {:induction false} Submitted1(s: Post) returns (t: Post)
    requires Start(s) && |s.msgs| > 3
    ensures AllMessages(s) && t == Step(s, Submit(1, SEND)) && AllMessages(t) && |t.msgs| == |s.msgs|
    ensures t.queue == [1] && t.accepted == [1] && t.log == [] && !t.idle
  {
    hide SentTo;
    t := Step(s, Submit(1, SEND));
  }

  lemma {:induction false} Read1(s: Post) returns (t: Post)
    requires s.queue == [1] && s.accepted == [1] && s.log == [] && AllMessages(s) && |s.msgs| > 3
    ensures t == Step(s, Xint) && AllMessages(t) && |t.msgs| == |s.msgs|
    ensures t.queue == [] && t.accepted == [1] && !t.idle && SentTo(t.log) == [1]
  {
    assert SentTo([]) == [];
    hide SentTo, NeverOverwritten, Letter;
    t := Step(s, Xint);
    var k := Sent(1, Letter(s.msgs[1], 1));
    Logged([], Acked);
    Logged([] + [Acked], k);
    assert t.log == [] + [Acked] + [k];
  }

  /** Behind a mailbox that is not idle a message only waits. */
  lemma {:induction false} Waits(s: Post, up: int) returns (t: Post)
    requires AllMessages(s) && IsMessage(s, up) && up !in s.queue && !s.idle
    ensures t == Step(s, Submit(up, SEND)) && AllMessages(t) && |t.msgs| == |s.msgs| && !t.idle
    ensures t.queue == s.queue + [up] && t.accepted == s.accepted + [up] && t.log == s.log
  {
    t := Step(s, Submit(up, SEND));
    forall i | 0 <= i < |t.queue| ensures IsMessage(t, t.queue[i]) {
      if i < |s.queue| { assert IsMessage(s, s.queue[i]); }
    }
  }

  lemma {:induction false} Before(s: Post, e: Event, es: seq<Event>, t: Post) returns (all: seq<Event>)
    requires AllMessages(s) && Enabled(s, e) && Reaches(Step(s, e), es, t)
    ensures Reaches(s, all, t) && all == [e] + es
  {
    all := [e] + es;
    assert all[1..] == es;
  }

  // ----- pointers -----

  predicate Marked(link: seq<int>, queue: seq<int>, a: int) {
    0 < a < |link| ==> (link[a] != 0 <==> a in queue)
  }

  ghost predicate LinksTell(link: seq<int>, queue: seq<int>) { forall a :: Marked(link, queue, a) }

  ghost predicate Rep(first: int, last: int, link: seq<int>, s: Post) {
    && |link| == |s.msgs| && AllMessages(s)
    && Linked(link, s.queue, END) && first == Head(s.queue, END)
    && (s.queue != [] ==> last == s.queue[|s.queue| - 1])
    && LinksTell(link, s.queue)
  }

  /** The reply handler clears the link of the message it answers. "Queued" and "link not 0" still agree
      exactly when the message is not queued at that time, as it is after a second submission. */
  lemma {:induction false} ReplyIsSafeIff(link: seq<int>, queue: seq<int>, up: int)
    requires LinksTell(link, queue) && 0 < up < |link|
    ensures LinksTell(link[up := 0], queue) <==> up !in queue
  {
    var cleared := link[up := 0];
    if up !in queue {
      forall a ensures Marked(cleared, queue, a) { assert Marked(link, queue, a); }
    } else {
      assert !Marked(cleared, queue, up);
    }
  }

  /** The messages n calls of send_to_icc take, from what first and the links say alone. */
  function Sends(first: int, link: seq<int>, n: nat): seq<int>
    decreases n
  {
    if n == 0 || first == END || !(0 <= first < |link|) then []
    else [first] + Sends(link[first], link[first := 0], n - 1)
  }

  /** A chain that ends in some address sends its messages, and goes on there. */
  lemma {:induction false} SendsChain(link: seq<int>, q: seq<int>, end: int, n: nat)
    requires Linked(link, q, end) && (forall i :: 0 <= i < |q| ==> q[i] != END) && n >= |q|
    ensures exists link' :: |link'| == |link| && Sends(Head(q, end), link, n) == q + Sends(end, link', n - |q|)
    decreases |q|
  {
    if q == [] {
      assert Sends(Head(q, end), link, n) == q + Sends(end, link, n - |q|);
    } else {
      Rest(link, q, end);
      var rest, cut := q[1..], link[q[0] := 0];
      Frame(link, cut, rest, end);
      SendsChain(cut, rest, end, n - 1);
      var link' :| |link'| == |link| && Sends(Head(rest, end), cut, n - 1) == rest + Sends(end, link', n - 1 - |rest|);
      assert Sends(Head(q, end), link, n) == q + Sends(end, link', n - |q|);
    }
  }

  /** What it breaks otherwise: the chain ends behind the message answered, with 0 for a message. What waited
      behind it is never sent, and the sending goes on with address 0. */
  lemma {:induction false} ReplyLosesRest(link: seq<int>, queue: seq<int>, k: nat)
    requires Linked(link, queue, END) && k < |queue| && forall i :: 0 <= i < |queue| ==> 0 < queue[i]
    ensures 0 <= queue[k] < |link|
    ensures Sends(queue[0], link[queue[k] := 0], k + 2) == queue[..k + 1] + [0]
  {
    At(link, queue, END, k);
    var shown, cut := queue[..k + 1], link[queue[k] := 0];
    forall i | 0 <= i < |shown| ensures LinkOk(cut, shown, 0, i) { At(link, queue, END, i); }
    SendsChain(cut, shown, 0, k + 2);
    var link' :| |link'| == |link| && Sends(Head(shown, 0), cut, k + 2) == shown + Sends(0, link', 1);
    assert Sends(0, link', 1) == [0] + Sends(link'[0], link'[0 := 0], 0);
  }

  lemma {:induction false} RepHead(first: int, last: int, link: seq<int>, s: Post)
    requires Rep(first, last, link, s)
    ensures first == END <==> s.queue == []
    ensures s.queue != [] ==> first == s.queue[0] && 0 < first < |link| && link[first] == Head(s.queue[1..], END)
    ensures s.queue != [] ==> last == s.queue[|s.queue| - 1] && 0 < last < |link|
  {
    if s.queue != [] {
      assert IsMessage(s, s.queue[0]) && IsMessage(s, s.queue[|s.queue| - 1]);
      Rest(link, s.queue, END);
    }
  }

  lemma {:induction false} RepPop(first: int, last: int, link: seq<int>, s: Post, t: Post)
    requires Rep(first, last, link, s) && s.queue != [] && t.queue == s.queue[1..] && t.msgs == s.msgs
    ensures 0 < first < |link|
    ensures Rep(link[first], last, link[first := 0], t)
  {
    var q, link' := s.queue, link[first := 0];
    RepHead(first, last, link, s);
    Rest(link, q, END);
    Frame(link, link', t.queue, END);
    assert forall i :: 0 <= i < |t.queue| ==> t.queue[i] == q[i + 1] && IsMessage(s, q[i + 1]);
    forall a ensures Marked(link', t.queue, a) {
      assert Marked(link, q, a);
      assert a in q <==> a == q[0] || a in t.queue;
    }
  }

  /** The pointers after up is queued. */
  lemma {:induction false} RepPush(first: int, last: int, link: seq<int>, s: Post, up: int, t: Post)
    requires Rep(first, last, link, s) && IsMessage(s, up) && up !in s.queue && t.queue == s.queue + [up]
    requires t.msgs == s.msgs
    ensures s.queue == [] ==> Rep(up, up, link[up := END], t)
    ensures s.queue != [] ==> 0 < last < |link| && Rep(first, up, link[up := END][last := up], t)
  {
    var q := s.queue;
    RepHead(first, last, link, s);
    var link' := if q == [] then link[up := END] else link[up := END][last := up];
    if q == [] { Cons(link, q, END, up); assert t.queue == [up] + q; } else { Snoc(link, q, END, up); }
    assert forall i :: 0 <= i < |q| ==> IsMessage(s, q[i]);
    forall a ensures Marked(link', t.queue, a) {
      assert Marked(link, q, a);
    }
  }

  // ----- the driver -----

  class Driver {
    var first: int
    var last: int
    var link: seq<int>
    var msgs: seq<Message>
    var tr: Message
    var trEmpty: bool
    var trVal: int              // ~x is -1 - x
    ghost var accepted: seq<int>
    ghost var log: seq<Mark>
    ghost var queue: seq<int>

    ghost function S(): Post
      reads this
    {
      Post(queue, msgs, tr, trEmpty, trVal, accepted, log)
    }

    ghost predicate Valid()
      reads this
    {
      Rep(first, last, link, S())
    }

    /** icc_init: the mailbox holds a letter the controller still has to read. */
    constructor (messages: seq<Message>, value: int)
      requires messages != []
      ensures Valid() && Start(S()) && msgs == messages && trVal == value
    {
      first := END;
      last := END;
      link := seq(|messages|, _ => 0);
      msgs := messages;
      tr := Message({}, 0, [], []);
      trEmpty := false;
      trVal := value;
      accepted := [];
      log := [];
      queue := [];
      new;
      assert forall a :: Marked(link, queue, a);
    }

    method SendToIcc()
      requires Valid()
      modifies this
      ensures Valid() && S() == Transmitted(old(S()))
      ensures old(queue) != [] ==> Carried(old(msgs), old(queue)[0], tr)
      ensures old(queue) != [] ==> log == old(log) + [Sent(old(queue)[0], tr)]
      ensures old(queue) != [] ==> queue == old(queue)[1..] && !trEmpty && trVal == -1 - old(trVal)
    {
      hide Linked, LinksTell;
      RepHead(first, last, link, S());
      if first == END { return; }
      ghost var s := S();
      var up := first;
      RepPop(first, last, link, s, Transmitted(s));
      first := link[first];
      link := link[up := 0];
      tr := msgs[up].(sender := if SEND in msgs[up].flag then up else msgs[up].sender);
      trEmpty := false;
      trVal := -1 - trVal;
      log := log + [Sent(up, tr)];
      queue := queue[1..];
    }

    method Xint()
      requires Valid()
      modifies this
      ensures Valid() && S() == Read(old(S()))
      ensures trEmpty <==> old(queue) == []
      ensures old(queue) != [] ==> queue == old(queue)[1..] && Carried(old(msgs), old(queue)[0], tr)
      ensures log == old(log) + [Acked] + if old(queue) == [] then [] else [Sent(old(queue)[0], tr)]
    {
      ghost var s := S();
      trEmpty := true;
      log := log + [Acked];
      assert forall i :: 0 <= i < |s.queue| ==> IsMessage(s, s.queue[i]) && IsMessage(S(), s.queue[i]);
      SendToIcc();
    }

    /** com_send: refuses a message that is queued already. */
    method ComSend(up: int) returns (busy: bool)
      requires Valid() && IsMessage(S(), up)
      modifies this
      ensures Valid() && S() == Submitted(old(S()), up)
      ensures busy <==> up in old(queue)
      ensures busy ==> S() == old(S())
      ensures !busy ==> accepted == old(accepted) + [up] && msgs == old(msgs)
      ensures !busy && old(trEmpty) ==> var all := old(queue) + [up];
        queue == all[1..] && !trEmpty && Carried(old(msgs), all[0], tr)
      ensures !busy && !old(trEmpty) ==> queue == old(queue) + [up] && tr == old(tr) && log == old(log)
    {
      assert Marked(link, queue, up);
      if link[up] != 0 { return true; }
      ghost var s := S();
      ghost var t := s.(queue := queue + [up], accepted := accepted + [up]);
      RepHead(first, last, link, s);
      RepPush(first, last, link, s, up, t);
      link := link[up := END];
      if first == END {
        first, last := up, up;
      } else {
        link := link[last := up];
        last := up;
      }
      queue, accepted := t.queue, t.accepted;
      if trEmpty { SendToIcc(); }
      busy := false;
    }

    /** Send_icc and Reply_icc. The flag is set even when the message is then refused. */
    method SubmitIcc(up: int, kind: Flag)
      requires Valid() && IsMessage(S(), up)
      modifies this
      ensures Valid() && S() == Step(old(S()), Submit(up, kind))
      ensures msgs == old(msgs)[up := old(msgs)[up].(flag := {kind})]
      ensures accepted == if up in old(queue) then old(accepted) else old(accepted) + [up]
    {
      ghost var s := S();
      msgs := msgs[up := msgs[up].(flag := {kind})];
      assert forall i :: 0 <= i < |s.queue| ==> IsMessage(s, s.queue[i]) && IsMessage(S(), s.queue[i]);
      var _ := ComSend(up);
    }

    /** icc_rint for a reply. The driver stays in order exactly when the message is not queued again. */
    method Rint(up: int, rr: Message)
      requires Valid() && IsMessage(S(), up)
      modifies this
      ensures S() == Answered(old(S()), up, rr) && up < |old(link)| && link == old(link)[up := 0]
      ensures first == old(first) && last == old(last)
      ensures Valid() <==> up !in old(queue)
      ensures var was := old(msgs)[up];
        msgs == old(msgs)[up := Message(was.flag + {REPLIED}, was.sender, rr.id, rr.data)]
      ensures queue == old(queue) && tr == old(tr) && log == old(log) && accepted == old(accepted)
    {
      ghost var s := S();
      ReplyIsSafeIff(link, queue, up);
      msgs := msgs[up := msgs[up].(flag := msgs[up].flag + {REPLIED})];
      if up !in queue { Frame(link, link[up := 0], queue, END); }
      link := link[up := 0];
      msgs := msgs[up := msgs[up].(id := rr.id)];
      msgs := msgs[up := msgs[up].(data := rr.data)];
      assert msgs == s.msgs[up := Replied(s.msgs[up], rr)];
      assert forall i :: 0 <= i < |s.queue| ==> IsMessage(s, s.queue[i]) && IsMessage(S(), s.queue[i]);
    }
  }
}
