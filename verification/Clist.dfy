/** clist.c: the cblocks of cfree[], linked through c_next, the lists they are on, and cfreelist.
    A block pointer is an index into cfree[]; NULL is -1. */
module Clist {
  import opened ClistSpec
  import opened Buffers
  import opened Chain

  const CLSIZE := 64
  const NULL := -1

  datatype Cblock = Cblock(next: int, first: int, last: int, data: seq<byte>)
  datatype CharList = CharList(cc: int, cf: int, cl: int)

  /** Who has a block. Every block has one owner: the free list, a character list, or a caller. */
  datatype Owner = OnFreeList | InHand | On(p: int)

  /** What the kernel state stands for. */
  datatype Model = Model(queues: seq<seq<Blk<int>>>, free: seq<int>, owner: seq<Owner>)

  // ----- representation -----

  predicate IsBlock(mem: seq<Cblock>, b: int) { 0 <= b < |mem| && |mem[b].data| == CLSIZE }

  predicate FreeLink(mem: seq<Cblock>, free: seq<int>, i: int)
    requires 0 <= i < |free|
  {
    IsBlock(mem, free[i]) && mem[free[i]].next == if i + 1 < |free| then free[i + 1] else NULL
  }

  ghost predicate Owns(owner: seq<Owner>, o: Owner, ids: seq<int>) {
    NoDup(ids) && forall b :: b in ids <==> 0 <= b < |owner| && owner[b] == o
  }

  ghost predicate FreeOk(mem: seq<Cblock>, next: int, m: Model) {
    && next == (if m.free == [] then NULL else m.free[0])
    && (forall i :: 0 <= i < |m.free| ==> FreeLink(mem, m.free, i))
    && Owns(m.owner, OnFreeList, m.free)
  }

  /** Block i of a queue holds what the queue says, and points to block i + 1. */
  predicate Held(mem: seq<Cblock>, size: int, q: seq<Blk<int>>, i: int)
    requires 0 <= i < |q|
  {
    var k := q[i];
    && IsBlock(mem, k.b)
    && mem[k.b].next == (if i + 1 < |q| then q[i + 1].b else NULL)
    && mem[k.b].first == k.first && mem[k.b].last == k.first + |k.text|
    && 0 <= k.first && k.text != [] && mem[k.b].last <= size <= CLSIZE
    && k.text == mem[k.b].data[k.first..k.first + |k.text|]
  }

  ghost predicate ListOk(mem: seq<Cblock>, size: int, l: CharList, q: seq<Blk<int>>) {
    && l.cf == (if q == [] then NULL else q[0].b)
    && l.cl == (if q == [] then NULL else q[|q| - 1].b)
    && l.cc == |Bytes(q)|
    && forall i :: 0 <= i < |q| ==> Held(mem, size, q, i)
  }

  /** List p and the blocks it owns. */
  ghost predicate ListAt(mem: seq<Cblock>, size: int, lists: seq<CharList>, m: Model, p: int)
    requires 0 <= p < |lists| == |m.queues|
  {
    ListOk(mem, size, lists[p], m.queues[p]) && Owns(m.owner, On(p), Ids(m.queues[p]))
  }

  ghost predicate Good(mem: seq<Cblock>, size: int, next: int, lists: seq<CharList>, m: Model) {
    && 0 < size <= CLSIZE && |m.owner| == |mem| && |m.queues| == |lists|
    && (forall b :: 0 <= b < |mem| ==> IsBlock(mem, b))
    && FreeOk(mem, next, m)
    && (forall p :: 0 <= p < |lists| ==> ListAt(mem, size, lists, m, p))
    && (forall b :: 0 <= b < |m.owner| && m.owner[b].On? ==> 0 <= m.owner[b].p < |lists|)
  }

  // ----- what a change of one block or owner leaves alone -----

  predicate SameBut(mem: seq<Cblock>, mem': seq<Cblock>, owner: seq<Owner>, o: Owner, b: int)
    requires |mem| == |mem'| == |owner|
  {
    0 <= b < |mem| && owner[b] == o ==> mem'[b] == mem[b]
  }

  /** A list none of whose blocks changed, hands or contents, is still in order. */
  lemma {:induction false} ListFrame(mem: seq<Cblock>, mem': seq<Cblock>, size: int, lists: seq<CharList>,
      lists': seq<CharList>,
                                     m: Model, m': Model, p: int)
    requires |mem| == |mem'| == |m.owner| == |m'.owner| && 0 <= p < |lists| == |lists'| == |m.queues| == |m'.queues|
    requires ListAt(mem, size, lists, m, p) && lists'[p] == lists[p] && m'.queues[p] == m.queues[p]
    requires forall b :: 0 <= b < |mem| ==> SameBut(mem, mem', m.owner, On(p), b)
    requires forall b :: 0 <= b < |mem| ==> (m'.owner[b] == On(p) <==> m.owner[b] == On(p))
    ensures ListAt(mem', size, lists', m', p)
  {
    var q := m.queues[p];
    forall i | 0 <= i < |q| ensures Held(mem', size, q, i) {
      assert Held(mem, size, q, i);
      assert Ids(q)[i] in Ids(q);
      assert SameBut(mem, mem', m.owner, On(p), q[i].b);
    }
  }

  lemma {:induction false} FreeFrame(mem: seq<Cblock>, mem': seq<Cblock>, next: int, m: Model, m': Model)
    requires |mem| == |mem'| == |m.owner| == |m'.owner| && FreeOk(mem, next, m) && m'.free == m.free
    requires forall b :: 0 <= b < |mem| ==> SameBut(mem, mem', m.owner, OnFreeList, b)
    requires forall b :: 0 <= b < |mem| ==> (m'.owner[b] == OnFreeList <==> m.owner[b] == OnFreeList)
    ensures FreeOk(mem', next, m')
  {
    forall i | 0 <= i < |m.free| ensures FreeLink(mem', m.free, i) {
      assert FreeLink(mem, m.free, i);
      assert m.free[i] in m.free;
      assert SameBut(mem, mem', m.owner, OnFreeList, m.free[i]);
    }
  }

  // ----- the elementary moves -----

  lemma {:induction false} Ownership(m: Model, o: Owner, ids: seq<int>, i: int)
    requires Owns(m.owner, o, ids) && 0 <= i < |ids|
    ensures 0 <= ids[i] < |m.owner| && m.owner[ids[i]] == o
  {
    assert ids[i] in ids;
  }

  /** The head of a queue, as the code sees it. */
  lemma {:induction false} HeadOf(mem: seq<Cblock>, size: int, next: int, lists: seq<CharList>, m: Model, p: int)
    requires Good(mem, size, next, lists, m) && 0 <= p < |lists|
    ensures |m.owner| == |mem| && |m.queues| == |lists|
    ensures lists[p].cf == NULL <==> m.queues[p] == []
    ensures lists[p].cl == NULL <==> m.queues[p] == []
    ensures lists[p].cc == 0 <==> m.queues[p] == []
    ensures GoodQueue(m.queues[p], size) && lists[p].cc >= 0
    ensures m.queues[p] != [] ==> Held(mem, size, m.queues[p], 0) && Held(mem, size, m.queues[p], |m.queues[p]| - 1)
    ensures m.queues[p] != [] ==> lists[p].cf == m.queues[p][0].b && lists[p].cl == m.queues[p][|m.queues[p]| - 1].b
    ensures m.queues[p] != [] ==> m.owner[lists[p].cf] == On(p) && m.owner[lists[p].cl] == On(p)
    ensures lists[p].cc == |Bytes(m.queues[p])|
    ensures next == NULL <==> m.free == []
    ensures next != NULL ==> 0 <= next < |mem| && m.owner[next] == OnFreeList
  {
    if m.free != [] { FreePop(mem, size, next, lists, m); }
    var q := m.queues[p];
    assert ListAt(mem, size, lists, m, p);
    forall i | 0 <= i < |q| ensures 0 <= q[i].first && q[i].text != [] && q[i].first + |q[i].text| <= size {
      assert Held(mem, size, q, i);
    }
    if q != [] {
      TakeIsDequeue(View(q, m.free));
      Ownership(m, On(p), Ids(q), 0);
      Ownership(m, On(p), Ids(q), |q| - 1);
    }
  }

  /** Whatever a caller does to a block in its hand, everything else stands. */
  lemma {:induction false} HandWrite(mem: seq<Cblock>, mem': seq<Cblock>, size: int, next: int, lists: seq<CharList>,
      m: Model, bp: int)
    requires Good(mem, size, next, lists, m) && 0 <= bp < |mem| && m.owner[bp] == InHand
    requires |mem'| == |mem| && IsBlock(mem', bp) && forall b :: 0 <= b < |mem| && b != bp ==> mem'[b] == mem[b]
    ensures Good(mem', size, next, lists, m)
  {
    FreeFrame(mem, mem', next, m, m);
    forall p | 0 <= p < |lists| ensures ListAt(mem', size, lists, m, p) {
      ListFrame(mem, mem', size, lists, lists, m, m, p);
    }
    forall b | 0 <= b < |mem| ensures IsBlock(mem', b) { assert IsBlock(mem, b); }
  }

  function Unlinked(m: Model, p: int): Model
    requires 0 <= p < |m.queues| && m.queues[p] != [] && 0 <= m.queues[p][0].b < |m.owner|
  {
    m.(queues := m.queues[p := m.queues[p][1..]], owner := m.owner[m.queues[p][0].b := InHand])
  }

  /** Taking the first block off a list. */
  lemma {:induction false} Unlink(mem: seq<Cblock>, size: int, next: int, lists: seq<CharList>, lists': seq<CharList>,
      m: Model, p: int)
    requires Good(mem, size, next, lists, m) && 0 <= p < |lists| && m.queues[p] != []
    requires 0 <= m.queues[p][0].b < |mem| && |lists'| == |lists|
    requires var k := m.queues[p][0]; var after := mem[k.b].next;
      lists' == lists[p := CharList(lists[p].cc - |k.text|, after, if after == NULL then NULL else lists[p].cl)]
    ensures Good(mem, size, next, lists', Unlinked(m, p))
  {
    var q, m' := m.queues[p], Unlinked(m, p);
    var t := q[1..];
    HeadOf(mem, size, next, lists, m, p);
    assert ListAt(mem, size, lists, m, p);
    FreeFrame(mem, mem, next, m, m');
    forall r | 0 <= r < |lists| ensures ListAt(mem, size, lists', m', r) {
      assert ListAt(mem, size, lists, m, r);
      if r == p {
        UnlinkOwn(mem, size, lists, lists', m, p);
      } else {
        ListFrame(mem, mem, size, lists, lists', m, m', r);
      }
    }
  }

  lemma {:induction false} UnlinkOwn(mem: seq<Cblock>, size: int, lists: seq<CharList>, lists': seq<CharList>, m: Model,
      p: int)
    requires 0 <= p < |lists| == |lists'| == |m.queues| && |m.owner| == |mem|
    requires ListAt(mem, size, lists, m, p) && m.queues[p] != [] && 0 <= m.queues[p][0].b < |m.owner|
    requires var k := m.queues[p][0]; var after := mem[k.b].next;
      lists'[p] == CharList(lists[p].cc - |k.text|, after, if after == NULL then NULL else lists[p].cl)
    ensures ListAt(mem, size, lists', Unlinked(m, p), p)
  {
    var q := m.queues[p];
    var t := q[1..];
    assert Held(mem, size, q, 0) && Ids(t) == Ids(q)[1..];
    if t != [] { assert Held(mem, size, q, 1); }
    forall i | 0 <= i < |t| ensures Held(mem, size, t, i) { assert Held(mem, size, q, i + 1); }
    OwnsTail(m.owner, On(p), Ids(q));
  }

  lemma {:induction false} OwnsTail(owner: seq<Owner>, o: Owner, ids: seq<int>)
    requires Owns(owner, o, ids) && ids != [] && o != InHand && 0 <= ids[0] < |owner|
    ensures Owns(owner[ids[0] := InHand], o, ids[1..])
  {
    var t, owner' := ids[1..], owner[ids[0] := InHand];
    assert forall i :: 0 <= i < |t| ==> t[i] == ids[i + 1] && ids[i + 1] != ids[0];
    forall b ensures b in t <==> 0 <= b < |owner'| && owner'[b] == o {
      assert b in ids <==> b == ids[0] || b in t;
    }
  }

  /** putcf and the freeing half of getc: push a block in hand on the free list. */
  lemma {:induction false} FreePush(mem: seq<Cblock>, size: int, next: int, lists: seq<CharList>, m: Model, bp: int)
    requires Good(mem, size, next, lists, m) && 0 <= bp < |mem| && m.owner[bp] == InHand
    ensures Good(mem[bp := mem[bp].(next := next)], size, bp, lists,
                 m.(free := [bp] + m.free, owner := m.owner[bp := OnFreeList]))
  {
    var mem', m' := mem[bp := mem[bp].(next := next)], m.(free := [bp] + m.free, owner := m.owner[bp := OnFreeList]);
    assert IsBlock(mem, bp);
    HandWrite(mem, mem', size, next, lists, m, bp);
    forall i | 0 <= i < |m'.free| ensures FreeLink(mem', m'.free, i) {
      if i > 0 { assert FreeLink(mem', m.free, i - 1); }
    }
    OwnsMore(m.owner, OnFreeList, m.free, bp);
    forall p | 0 <= p < |lists| ensures ListAt(mem', size, lists, m', p) {
      assert ListAt(mem', size, lists, m, p);
      ListFrame(mem', mem', size, lists, lists, m, m', p);
    }
  }

  lemma {:induction false} OwnsMore(owner: seq<Owner>, o: Owner, ids: seq<int>, b: int)
    requires Owns(owner, o, ids) && 0 <= b < |owner| && owner[b] != o
    ensures Owns(owner[b := o], o, [b] + ids) && Owns(owner[b := o], o, ids + [b])
  {
    var u, v := [b] + ids, ids + [b];
    assert b !in ids;
    assert forall i :: 0 < i < |u| ==> u[i] == ids[i - 1];
    assert forall i :: 0 <= i < |ids| ==> v[i] == ids[i] && ids[i] in ids;
  }

  /** getcf and the allocating half of putc: pop the free list. */
  lemma {:induction false} FreePop(mem: seq<Cblock>, size: int, next: int, lists: seq<CharList>, m: Model)
    requires Good(mem, size, next, lists, m) && m.free != []
    ensures 0 <= next < |mem| && next == m.free[0] && m.owner[next] == OnFreeList
    ensures Good(mem, size, mem[next].next, lists, m.(free := m.free[1..], owner := m.owner[next := InHand]))
  {
    assert FreeLink(mem, m.free, 0);
    Ownership(m, OnFreeList, m.free, 0);
    var m' := m.(free := m.free[1..], owner := m.owner[next := InHand]);
    OwnsTail(m.owner, OnFreeList, m.free);
    forall i | 0 <= i < |m'.free| ensures FreeLink(mem, m'.free, i) { assert FreeLink(mem, m.free, i + 1); }
    forall p | 0 <= p < |lists| ensures ListAt(mem, size, lists, m', p) {
      assert ListAt(mem, size, lists, m, p);
      ListFrame(mem, mem, size, lists, lists, m, m', p);
    }
  }

  // ----- adding a block, and changing the end blocks -----

  /** The memory after the last block of list l, if any, is made to point to bp. */
  function LinkedAfter(mem: seq<Cblock>, l: CharList, bp: int): (mem': seq<Cblock>)
    requires l.cl == NULL || 0 <= l.cl < |mem|
    ensures |mem'| == |mem|
  {
    if l.cl == NULL then mem else mem[l.cl := mem[l.cl].(next := bp)]
  }

  function Appended(m: Model, p: int, k: Blk<int>): Model
    requires 0 <= p < |m.queues| && 0 <= k.b < |m.owner|
  {
    m.(queues := m.queues[p := m.queues[p] + [k]], owner := m.owner[k.b := On(p)])
  }

  /** A block in hand, holding some characters, goes to the end of a list. */
  lemma {:induction false} Append(mem: seq<Cblock>, size: int, next: int, lists: seq<CharList>, m: Model, p: int,
      k: Blk<int>)
    requires Good(mem, size, next, lists, m) && 0 <= p < |lists|
    requires 0 <= k.b < |mem| && m.owner[k.b] == InHand && Held(mem, size, [k], 0)
    requires lists[p].cl == NULL || 0 <= lists[p].cl < |mem|
    ensures var l := lists[p];
      Good(LinkedAfter(mem, l, k.b), size, next,
           lists[p := CharList(l.cc + |k.text|, if l.cl == NULL then k.b else l.cf, k.b)], Appended(m, p, k))
  {
    var l, q := lists[p], m.queues[p];
    var mem', m' := LinkedAfter(mem, l, k.b), Appended(m, p, k);
    var lists' := lists[p := CharList(l.cc + |k.text|, if l.cl == NULL then k.b else l.cf, k.b)];
    HeadOf(mem, size, next, lists, m, p);
    assert ListAt(mem, size, lists, m, p);
    FreeFrame(mem, mem', next, m, m');
    forall b | 0 <= b < |mem| ensures IsBlock(mem', b) { assert IsBlock(mem, b); }
    forall r | 0 <= r < |lists| ensures ListAt(mem', size, lists', m', r) {
      assert ListAt(mem, size, lists, m, r);
      if r == p { AppendOwn(mem, size, l, m, p, k); } else { ListFrame(mem, mem', size, lists, lists', m, m', r); }
    }
  }

  lemma {:induction false} AppendOwn(mem: seq<Cblock>, size: int, l: CharList, m: Model, p: int, k: Blk<int>)
    requires 0 <= p < |m.queues| && |m.owner| == |mem| && ListOk(mem, size, l, m.queues[p])
    requires Owns(m.owner, On(p), Ids(m.queues[p]))
    requires 0 <= k.b < |mem| && m.owner[k.b] == InHand && Held(mem, size, [k], 0)
    requires l.cl == NULL || 0 <= l.cl < |mem|
    ensures var q' := m.queues[p] + [k];
      && ListOk(LinkedAfter(mem, l, k.b), size, CharList(l.cc + |k.text|, if l.cl == NULL then k.b else l.cf, k.b), q')
      && Owns(m.owner[k.b := On(p)], On(p), Ids(q'))
  {
    var q, mem' := m.queues[p], LinkedAfter(mem, l, k.b);
    var q' := q + [k];
    BytesSplit(q, [k]);
    BytesOne(k);
    if q != [] { assert Held(mem, size, q, |q| - 1); assert Held(mem, size, q, 0); }
    forall i | 0 <= i < |q'| ensures Held(mem', size, q', i) {
      if i < |q| {
        assert Held(mem, size, q, i);
        Ownership(m, On(p), Ids(q), i);
        if i < |q| - 1 { assert Ids(q)[i] != Ids(q)[|q| - 1]; }
      }
    }
    assert Ids(q') == Ids(q) + [k.b];
    OwnsMore(m.owner, On(p), Ids(q), k.b);
  }

  /** One end block of list p is rewritten in place: same block, same link, other characters. */
  lemma {:induction false} Rewrite(mem: seq<Cblock>, mem': seq<Cblock>, size: int, next: int, lists: seq<CharList>,
      cc: int, m: Model, p: int, j: int, k: Blk<int>)
    requires Good(mem, size, next, lists, m) && 0 <= p < |lists| && 0 <= j < |m.queues[p]| && k.b == m.queues[p][j].b
    requires 0 <= k.b < |mem| && |mem'| == |mem| && forall b :: 0 <= b < |mem| && b != k.b ==> mem'[b] == mem[b]
    requires Held(mem', size, m.queues[p][j := k], j) && cc == |Bytes(m.queues[p][j := k])|
    ensures Good(mem', size, next, lists[p := lists[p].(cc := cc)], m.(queues := m.queues[p := m.queues[p][j := k]]))
  {
    var q := m.queues[p];
    var q', lists' := q[j := k], lists[p := lists[p].(cc := cc)];
    var m' := m.(queues := m.queues[p := q']);
    assert ListAt(mem, size, lists, m, p);
    Ownership(m, On(p), Ids(q), j);
    FreeFrame(mem, mem', next, m, m');
    forall b | 0 <= b < |mem| ensures IsBlock(mem', b) { assert IsBlock(mem, b); }
    forall i | 0 <= i < |q'| ensures Held(mem', size, q', i) {
      assert Held(mem, size, q, i);
      if i != j { assert Ids(q)[i] != Ids(q)[j] by { if i < j {} else {} } }
    }
    assert Ids(q') == Ids(q);
    forall r | 0 <= r < |lists| ensures ListAt(mem', size, lists', m', r) {
      assert ListAt(mem, size, lists, m, r);
      if r != p { ListFrame(mem, mem', size, lists, lists', m, m', r); }
    }
  }

  lemma {:induction false} BytesFirst(q: seq<Blk<int>>, k: Blk<int>)
    requires q != []
    ensures |Bytes(q[0 := k])| == |Bytes(q)| - |q[0].text| + |k.text|
  {
    assert q[0 := k][1..] == q[1..];
  }

  lemma {:induction false} BytesLast(q: seq<Blk<int>>, k: Blk<int>)
    requires q != []
    ensures |Bytes(q[|q| - 1 := k])| == |Bytes(q)| - |q[|q| - 1].text| + |k.text|
  {
    var n := |q| - 1;
    assert q == q[..n] + [q[n]] && q[n := k] == q[..n] + [k];
    BytesSplit(q[..n], [q[n]]);
    BytesSplit(q[..n], [k]);
    BytesOne(q[n]);
    BytesOne(k);
  }

  /** What callers hold is not touched. */
  ghost predicate HandsKept(mem: seq<Cblock>, mem': seq<Cblock>, owner: seq<Owner>) {
    forall b :: 0 <= b < |mem| && b < |mem'| && b < |owner| && owner[b] == InHand ==> mem'[b] == mem[b]
  }

  lemma {:induction false} SameMem(mem: seq<Cblock>, owner: seq<Owner>)
    ensures HandsKept(mem, mem, owner)
  {
  }

  lemma {:induction false} OneWritten(mem: seq<Cblock>, mem': seq<Cblock>, owner: seq<Owner>, b: int)
    requires |mem'| == |mem| == |owner| && 0 <= b < |mem| && owner[b] != InHand
    requires forall c :: 0 <= c < |mem| && c != b ==> mem'[c] == mem[c]
    ensures HandsKept(mem, mem', owner)
  {
  }

  // ----- the code -----

  lemma {:induction false} NoEmptyTail(mem: seq<Cblock>, size: int, next: int, lists: seq<CharList>, m: Model, p: int)
    requires 0 <= p < |m.queues| && m.queues[p] != []
    ensures Good(mem, size, next, lists, m) ==> m.queues[p][|m.queues[p]| - 1].text != []
  {
    if Good(mem, size, next, lists, m) { HeadOf(mem, size, next, lists, m, p); }
  }

  /** Before start-up nothing is linked; all blocks count as in hand. */
  lemma {:induction false} Nothing(mem: seq<Cblock>, lists: seq<CharList>, m: Model)
    requires forall b :: 0 <= b < |mem| ==> |mem[b].data| == CLSIZE
    requires forall p :: 0 <= p < |lists| ==> lists[p] == CharList(0, NULL, NULL)
    requires |m.queues| == |lists| && forall p :: 0 <= p < |lists| ==> m.queues[p] == []
    requires m.free == [] && |m.owner| == |mem| && forall b :: 0 <= b < |mem| ==> m.owner[b] == InHand
    ensures Good(mem, CLSIZE, NULL, lists, m)
  {
    forall p | 0 <= p < |lists| ensures ListAt(mem, CLSIZE, lists, m, p) {
      assert Ids(m.queues[p]) == [];
    }
    forall b | 0 <= b < |mem| ensures IsBlock(mem, b) {}
  }

  function Low(c: int): byte { c % 256 }

  class Kernel {
    var mem: seq<Cblock>      // cfree[]
    var next: int             // cfreelist.c_next
    var size: int             // cfreelist.c_size
    var flag: bool            // cfreelist.c_flag: someone sleeps until a block is freed
    var lists: seq<CharList>
    ghost var m: Model

    ghost predicate Valid()
      reads this
    {
      Good(mem, size, next, lists, m)
    }

    /** The start-up code: the blocks that do not cross a 64K boundary go on the free list in turn, and the
        lists are empty. The other blocks are never used. */
    constructor (blocks: nat, count: nat, over64k: int -> bool)
      ensures Valid() && |mem| == |m.owner| == blocks && |lists| == |m.queues| == count && size == CLSIZE && !flag
      ensures forall b :: 0 <= b < blocks ==> m.owner[b] == if over64k(b) then InHand else OnFreeList
      ensures forall p :: 0 <= p < count ==> m.queues[p] == []
    {
      var ms := seq(blocks, _ => Cblock(NULL, 0, 0, seq(CLSIZE, _ => 0)));
      var ls := seq(count, _ => CharList(0, NULL, NULL));
      ghost var model := Model(seq(count, _ => []), [], seq(blocks, _ => InHand));
      Nothing(ms, ls, model);
      var cp, head := 0, NULL;
      while cp < blocks
        invariant 0 <= cp <= blocks == |ms| && Good(ms, CLSIZE, head, ls, model) && model.queues == seq(count, _ => [])
        invariant forall b :: 0 <= b < blocks ==> model.owner[b] == if b < cp && !over64k(b) then OnFreeList else InHand
      {
        if !over64k(cp) {
          FreePush(ms, CLSIZE, head, ls, model, cp);
          model := model.(free := [cp] + model.free, owner := model.owner[cp := OnFreeList]);
          ms := ms[cp := ms[cp].(next := head)];
          head := cp;
        }
        cp := cp + 1;
      }
      mem, next, size, flag, lists, m := ms, head, CLSIZE, false, ls, model;
    }

    ghost function V(p: int): View<int>
      requires 0 <= p < |m.queues|
      reads this
    {
      View(m.queues[p], m.free)
    }

    /** Only list p, the free list and block ownership between the two have changed. */
    twostate predicate OnlyList(p: int)
      reads this
    {
      && |lists| == old(|lists|) && size == old(size) && |m.owner| == old(|m.owner|)
      && |m.queues| == old(|m.queues|)
      && (forall r :: 0 <= r < |m.queues| && r != p ==> m.queues[r] == old(m.queues[r]))
      && (forall b :: 0 <= b < |m.owner| ==> (m.owner[b] == InHand <==> old(m.owner[b]) == InHand))
      && |mem| == old(|mem|) == |m.owner| && HandsKept(old(mem), mem, m.owner)
    }

    /** getc: the first character, or -1 from an empty list. */
    method Getc(p: int) returns (c: int)
      requires Valid() && 0 <= p < |lists|
      modifies this
      ensures Valid() && OnlyList(p)
      ensures old(m.queues[p]) == [] ==> c == -1 && m == old(m) && flag == old(flag)
      ensures old(m.queues[p]) != [] ==> GoodQueue(old(m.queues[p]), size) && c == old(m.queues[p])[0].text[0]
      ensures old(m.queues[p]) != [] ==> V(p) == TakeOne(old(V(p))) && flag == (old(flag) && m.free == old(m.free))
    {
      hide FreeOk, ListAt, Bytes, GoodQueue, Owns, NoDup, HandsKept, Good;
      SameMem(mem, m.owner);
      HeadOf(mem, size, next, lists, m, p);
      if lists[p].cc <= 0 { return -1; }
      ghost var k := m.queues[p][0];
      lists := lists[p := lists[p].(cc := lists[p].cc - 1)];
      var bp := lists[p].cf;
      c := mem[bp].data[mem[bp].first];
      mem := mem[bp := mem[bp].(first := mem[bp].first + 1)];
      if mem[bp].first == mem[bp].last {
        var after := mem[bp].next;
        lists := lists[p := lists[p].(cf := after, cl := if after == NULL then NULL else lists[p].cl)];
        UsedUp(old(mem), mem, size, next, old(lists), lists, m, p);
        m := Unlinked(m, p);
        m := m.(free := [bp] + m.free, owner := m.owner[bp := OnFreeList]);
        mem, next := mem[bp := mem[bp].(next := next)], bp;
        OneWritten(old(mem), mem, m.owner, bp);
        if flag { flag := false; }
      } else {
        FirstShrunk(old(mem), size, next, old(lists), m, p, 1);
        OneWritten(old(mem), mem, m.owner, bp);
        m := m.(queues := m.queues[p := [Blk(k.b, k.first + 1, k.text[1..])] + m.queues[p][1..]]);
      }
    }

    /** Valid, but for d characters of list p that c_cc does not count yet. */
    ghost predicate ValidBut(p: int, d: int)
      reads this
    {
      0 <= p < |lists| && Good(mem, size, next, Counted(p, d), m)
    }

    ghost function Counted(p: int, d: int): seq<CharList>
      requires 0 <= p < |lists|
      reads this
    {
      lists[p := lists[p].(cc := lists[p].cc + d)]
    }

    /** The part putc and putcbp share: link a free block, still empty, at the end of list p. */
    method NewTail(p: int, ghost d: int) returns (bp: int)
      requires ValidBut(p, d)
      modifies this`mem, this`next, this`lists
      ensures bp == old(next)
      ensures bp == NULL ==> mem == old(mem) && next == old(next) && lists == old(lists) && m.free == []
      ensures bp != NULL ==> 0 <= bp < |old(mem)| && (old(lists)[p].cl == NULL || 0 <= old(lists)[p].cl < |old(mem)|)
      ensures bp != NULL ==> next == old(mem)[bp].next
      ensures bp != NULL ==>
        mem == LinkedAfter(old(mem)[bp := old(mem)[bp].(next := NULL, first := 0, last := 0)], old(lists)[p], bp)
      ensures bp != NULL ==>
        var l := old(lists)[p]; lists == old(lists)[p := l.(cf := if l.cl == NULL then bp else l.cf, cl := bp)]
    {
      hide FreeOk, ListAt, Bytes, GoodQueue;
      HeadOf(mem, size, next, Counted(p, d), m, p);
      var obp := lists[p].cl;
      bp := next;
      if bp == NULL { return; }
      next := mem[bp].next;
      mem := mem[bp := mem[bp].(next := NULL, first := 0, last := 0)];
      if obp == NULL {
        lists := lists[p := lists[p].(cf := bp)];
      } else {
        mem := mem[obp := mem[obp].(next := bp)];
      }
      lists := lists[p := lists[p].(cl := bp)];
    }

    /** The characters s go behind those a block already holds. */
    method CopyIn(bp: int, s: seq<byte>)
      requires 0 <= bp < |mem| && |mem[bp].data| == CLSIZE && 0 <= mem[bp].last && mem[bp].last + |s| <= CLSIZE
      modifies this`mem
      ensures mem == old(mem)[bp := old(mem)[bp].(last := old(mem)[bp].last + |s|,
                       data := Overwrite(old(mem)[bp].data, old(mem)[bp].last, s))]
    {
      var i := 0;
      ghost var was := mem[bp];
      OverwriteNone(was.data, was.last);
      assert s[..0] == [] && was.(data := was.data) == was && mem[bp := was] == mem;
      while i < |s|
        invariant 0 <= i <= |s|
        invariant mem == old(mem)[bp := was.(data := Overwrite(was.data, was.last, s[..i]))]
      {
        OverwriteStep(was.data, was.last, s, i);
        mem := mem[bp := mem[bp].(data := mem[bp].data[mem[bp].last + i := s[i]])];
        i := i + 1;
      }
      assert s[..i] == s;
      mem := mem[bp := mem[bp].(last := mem[bp].last + |s|)];
    }

    /** One round of putc or putcbp: as much of s as fits goes into the open last block, or else into a
        fresh one. c_cc is left to the caller. */
    method Store(p: int, s: seq<byte>, ghost d: int) returns (on: int)
      requires ValidBut(p, d) && s != []
      modifies this`mem, this`next, this`lists, this`m
      ensures ValidBut(p, d + on) && OnlyList(p) && 0 <= on <= |s| && lists[p].cc == old(lists)[p].cc
      ensures on == 0 <==> !CanPut(old(V(p)), size)
      ensures on == 0 ==> m == old(m)
      ensures on > 0 ==> PutN(old(V(p)), size, s) == PutN(V(p), size, s[on..])
      ensures on > 0 ==> PutCount(old(V(p)), size, s) == on + PutCount(V(p), size, s[on..])
    {
      hide FreeOk, ListAt, Bytes, GoodQueue, PutN, PutCount;
      HeadOf(mem, size, next, Counted(p, d), m, p);
      var bp := lists[p].cl;
      if bp == NULL || mem[bp].last == size {
        bp := NewTail(p, d);
        if bp == NULL { return 0; }
        on := FillFresh(bp, p, s, d, old(mem), old(next), old(lists));
      } else {
        on := FillTail(bp, p, s, d);
      }
    }

    /** Characters for the block NewTail just linked. */
    method FillFresh(bp: int, p: int, s: seq<byte>, ghost d: int, ghost mem0: seq<Cblock>, ghost next0: int,
        ghost lists0: seq<CharList>)
      returns (on: int)
      requires s != [] && |lists| == |lists0| && 0 <= p < |lists0| && bp == next0 != NULL
      requires Good(mem0, size, next0, lists0[p := lists0[p].(cc := lists0[p].cc + d)], m)
      requires TailFull(V(p), size) && 0 <= bp < |mem0| && (lists0[p].cl == NULL || 0 <= lists0[p].cl < |mem0|)
      requires next == mem0[bp].next
      requires mem == LinkedAfter(mem0[bp := mem0[bp].(next := NULL, first := 0, last := 0)], lists0[p], bp)
      requires lists == lists0[p := lists0[p].(cf := if lists0[p].cl == NULL then bp else lists0[p].cf, cl := bp)]
      modifies this`mem, this`m
      ensures ValidBut(p, d + on) && OnlyList(p) && 0 < on <= |s|
      ensures CanPut(old(V(p)), size)
      ensures PutN(old(V(p)), size, s) == PutN(V(p), size, s[on..])
      ensures PutCount(old(V(p)), size, s) == on + PutCount(V(p), size, s[on..])
    {
      hide FreeOk, ListAt, Bytes, GoodQueue, PutN, PutCount, Overwrite, CanPut;
      ghost var l0 := lists0[p := lists0[p].(cc := lists0[p].cc + d)];
      ghost var v := V(p);
      HeadOf(mem0, size, next0, l0, m, p);
      on := if |s| < size then |s| else size;
      FreshStored(mem0, size, next0, l0, m, p, s[..on]);
      FreshView(v, size, s, on);
      CopyIn(bp, s[..on]);
      m := Appended(m.(free := m.free[1..], owner := m.owner[bp := InHand]), p, Blk(bp, 0, s[..on]));
      assert mem == LinkedAfter(mem0[bp := Cblock(NULL, 0, on, Overwrite(mem0[bp].data, 0, s[..on]))], l0[p], bp);
      assert Counted(p, d + on) == l0[p := CharList(l0[p].cc + on, if l0[p].cl == NULL then bp else l0[p].cf, bp)];
      assert V(p) == View(v.queue + [Blk(v.free[0], 0, s[..on])], v.free[1..]);
    }

    /** Characters for the block that is last already. */
    method FillTail(bp: int, p: int, s: seq<byte>, ghost d: int) returns (on: int)
      requires ValidBut(p, d) && s != [] && bp == lists[p].cl && !TailFull(V(p), size)
      modifies this`mem, this`m
      ensures ValidBut(p, d + on) && OnlyList(p) && 0 < on <= |s|
      ensures PutN(old(V(p)), size, s) == PutN(V(p), size, s[on..])
      ensures PutCount(old(V(p)), size, s) == on + PutCount(V(p), size, s[on..])
    {
      hide FreeOk, ListAt, Bytes, GoodQueue, PutN, PutCount, Overwrite, CanPut;
      HeadOf(mem, size, next, Counted(p, d), m, p);
      ghost var v, q, was, l0 := V(p), m.queues[p], mem, Counted(p, d);
      ghost var n := |q| - 1;
      on := if |s| < size - mem[bp].last then |s| else size - mem[bp].last;
      ghost var k := q[n].(text := q[n].text + s[..on]);
      CopyIn(bp, s[..on]);
      TailStored(was, mem, size, next, l0, m, p, s[..on]);
      PutPart(v, size, s, on);
      assert q[n := k] == q[..n] + [k];
      m := m.(queues := m.queues[p := q[n := k]]);
      assert Counted(p, d + on) == l0[p := l0[p].(cc := l0[p].cc + on)];
    }

    /** putc: one character after the last, or -1 when a block is needed and none is free. */
    method Putc(c: int, p: int) returns (r: int)
      requires Valid() && 0 <= p < |lists|
      modifies this`mem, this`next, this`lists, this`m
      ensures Valid() && OnlyList(p)
      ensures CanPut(old(V(p)), size) ==> r == 0 && V(p) == PutOne(old(V(p)), size, Low(c))
      ensures !CanPut(old(V(p)), size) ==> r == -1 && m == old(m)
    {
      assert Counted(p, 0) == lists;
      var on := Store(p, [Low(c)], 0);
      if on == 0 {
        assert Counted(p, 0) == lists;
        return -1;
      }
      lists := lists[p := lists[p].(cc := lists[p].cc + 1)];
      r := 0;
    }

    /** putcbp: putc of every character, until one is refused. */
    method Putcbp(p: int, s: seq<byte>) returns (n: int)
      requires Valid() && 0 <= p < |lists|
      modifies this`mem, this`next, this`lists, this`m
      ensures Valid() && OnlyList(p)
      ensures V(p) == PutN(old(V(p)), size, s) && n == PutCount(old(V(p)), size, s)
    {
      hide Good, PutN, PutCount, CanPut;
      n := 0;
      assert Counted(p, 0) == lists && s[0..] == s;
      GoodHead(p, 0);
      while n < |s|
        invariant 0 <= n <= |s| && ValidBut(p, n) && OnlyList(p) && lists[p].cc == old(lists)[p].cc
        invariant PutN(old(V(p)), size, s) == PutN(V(p), size, s[n..])
        invariant PutCount(old(V(p)), size, s) == n + PutCount(V(p), size, s[n..])
        decreases |s| - n
      {
        var on := Store(p, s[n..], n);
        if on == 0 { break; }
        assert s[n..][on..] == s[n + on..];
        n := n + on;
      }
      PutNothing(V(p), size, s[n..]);
      lists := lists[p := lists[p].(cc := lists[p].cc + n)];
    }

    /** getcf: a free block into the caller's hand, or NULL. */
    method Getcf() returns (bp: int)
      requires Valid()
      modifies this`mem, this`next, this`m
      ensures Valid() && |mem| == old(|mem|)
      ensures old(m.free) == [] ==> bp == NULL && mem == old(mem) && m == old(m)
      ensures old(m.free) != [] ==> bp == old(m.free)[0] && 0 <= bp < |mem| && |old(m.owner)| == |mem|
      ensures old(m.free) != [] ==> m == old(m).(free := old(m.free)[1..], owner := old(m.owner)[bp := InHand])
      ensures old(m.free) != [] ==> mem == old(mem)[bp := Cblock(NULL, 0, size, old(mem)[bp].data)]
    {
      FreeNull(mem, size, next, lists, m);
      bp := next;
      if bp == NULL { return; }
      FreePop(mem, size, next, lists, m);
      assert IsBlock(mem, bp);
      next := mem[bp].next;
      m := m.(free := m.free[1..], owner := m.owner[bp := InHand]);
      ghost var mem1 := mem[bp := Cblock(NULL, 0, size, mem[bp].data)];
      HandWrite(mem, mem1, size, next, lists, m, bp);
      mem := mem[bp := mem[bp].(next := NULL)];
      mem := mem[bp := mem[bp].(first := 0)];
      mem := mem[bp := mem[bp].(last := size)];
      assert mem == mem1;
    }

    /** putcf: a block in hand is freed, and the sleepers are told. */
    method Putcf(bp: int)
      requires Valid() && 0 <= bp < |mem| && m.owner[bp] == InHand
      modifies this`mem, this`next, this`m, this`flag
      ensures Valid() && m == old(m).(free := [bp] + old(m.free), owner := old(m.owner)[bp := OnFreeList])
      ensures mem == old(mem)[bp := old(mem)[bp].(next := old(next))]
      ensures !flag
    {
      FreePush(mem, size, next, lists, m, bp);
      m := m.(free := [bp] + m.free, owner := m.owner[bp := OnFreeList]);
      mem := mem[bp := mem[bp].(next := next)];
      next := bp;
      if flag { flag := false; }
    }

    /** getcb: the first block, with its characters, into the caller's hand, or NULL. */
    method Getcb(p: int) returns (bp: int)
      requires Valid() && 0 <= p < |lists|
      modifies this`lists, this`m
      ensures Valid() && |lists| == |old(lists)| && |m.queues| == |old(m.queues)|
      ensures old(m.queues[p]) == [] ==> bp == NULL && m == old(m)
      ensures old(m.queues[p]) != [] ==>
        bp == old(m.queues[p])[0].b && 0 <= bp < |old(m.owner)| && m == Unlinked(old(m), p)
      ensures old(m.queues[p]) != [] ==> bp < |mem| && 0 <= mem[bp].first < mem[bp].last <= size <= |mem[bp].data|
      ensures old(m.queues[p]) != [] ==>
        Bytes(old(m.queues[p])) == mem[bp].data[mem[bp].first..mem[bp].last] + Bytes(m.queues[p])
    {
      hide FreeOk, ListAt, GoodQueue;
      HeadOf(mem, size, next, lists, m, p);
      bp := lists[p].cf;
      if bp == NULL { return; }
      ghost var k := m.queues[p][0];
      var after := mem[bp].next;
      ghost var l1 := lists[p := CharList(lists[p].cc - |k.text|, after, if after == NULL then NULL else lists[p].cl)];
      Unlink(mem, size, next, lists, l1, m, p);
      lists := lists[p := lists[p].(cc := lists[p].cc - (mem[bp].last - mem[bp].first))];
      lists := lists[p := lists[p].(cf := after)];
      if after == NULL { lists := lists[p := lists[p].(cl := NULL)]; }
      assert lists == l1;
      m := Unlinked(m, p);
    }

    /** The pointers of putcb. */
    method LinkIn(bp: int, p: int)
      requires 0 <= p < |lists| && 0 <= bp < |mem|
      requires (lists[p].cl == NULL || (0 <= lists[p].cl < |mem| && lists[p].cl != bp))
      modifies this`mem, this`lists
      ensures |mem| == |old(mem)|
      ensures mem == LinkedAfter(old(mem)[bp := old(mem)[bp].(next := NULL)], old(lists)[p], bp)
      ensures var l, b := old(lists)[p], old(mem)[bp];
        lists == old(lists)[p := CharList(l.cc + (b.last - b.first), if l.cl == NULL then bp else l.cf, bp)]
    {
      var obp := lists[p].cl;
      if obp == NULL {
        lists := lists[p := lists[p].(cf := bp)];
      } else {
        mem := mem[obp := mem[obp].(next := bp)];
      }
      lists := lists[p := lists[p].(cl := bp)];
      mem := mem[bp := mem[bp].(next := NULL)];
      lists := lists[p := lists[p].(cc := lists[p].cc + (mem[bp].last - mem[bp].first))];
    }

    /** putcb: a block in hand goes to the end of the list with its characters. An empty block is linked as
        well, against the rule that no block of a list is empty. */
    method Putcb(bp: int, p: int)
      requires Valid() && 0 <= p < |lists| && 0 <= bp < |mem| && m.owner[bp] == InHand
      requires 0 <= mem[bp].first <= mem[bp].last <= size
      modifies this`mem, this`lists, this`m
      ensures Valid() <==> old(mem)[bp].first < old(mem)[bp].last
      ensures |old(m.owner)| == |old(mem)| && |old(m.queues)| == |old(lists)| && size <= |old(mem)[bp].data|
      ensures var b := old(mem)[bp]; m == Appended(old(m), p, Blk(bp, b.first, b.data[b.first..b.last]))
      ensures HandsKept(old(mem), mem, m.owner)
      ensures var b := old(mem)[bp]; Bytes(m.queues[p]) == Bytes(old(m.queues[p])) + b.data[b.first..b.last]
    {
      hide FreeOk, ListAt, GoodQueue;
      assert IsBlock(mem, bp);
      HeadOf(mem, size, next, lists, m, p);
      ghost var k := Blk(bp, mem[bp].first, mem[bp].data[mem[bp].first..mem[bp].last]);
      ghost var mem1, l := mem[bp := mem[bp].(next := NULL)], lists[p];
      HandWrite(mem, mem1, size, next, lists, m, bp);
      if k.text != [] { Append(mem1, size, next, lists, m, p, k); }
      BytesSplit(m.queues[p], [k]);
      BytesOne(k);
      LinkIn(bp, p);
      m := Appended(m, p, k);
      if k.text == [] { NoEmptyTail(mem, size, next, lists, m, p); }
    }

    /** One round of getcbp that uses up the first block. c_cc is left to the caller. */
    method DropHead(p: int, ghost d: int)
      requires ValidBut(p, d) && m.queues[p] != []
      modifies this`mem, this`next, this`lists, this`m
      ensures ValidBut(p, d - |old(m.queues[p])[0].text|) && OnlyList(p) && lists[p].cc == old(lists)[p].cc
      ensures V(p) == View(old(m.queues[p])[1..], [old(m.queues[p])[0].b] + old(m.free))
    {
      hide FreeOk, ListAt, Bytes, GoodQueue;
      HeadOf(mem, size, next, Counted(p, d), m, p);
      var bp := lists[p].cf;
      ghost var k, l0 := m.queues[p][0], Counted(p, d);
      var after := mem[bp].next;
      ghost var l1 := l0[p := CharList(l0[p].cc - |k.text|, after, if after == NULL then NULL else l0[p].cl)];
      Unlink(mem, size, next, l0, l1, m, p);
      lists := lists[p := lists[p].(cf := after)];
      if after == NULL { lists := lists[p := lists[p].(cl := NULL)]; }
      assert Counted(p, d - |k.text|) == l1;
      m := Unlinked(m, p);
      FreePush(mem, size, next, l1, m, bp);
      m := m.(free := [bp] + m.free, owner := m.owner[bp := OnFreeList]);
      mem, next := mem[bp := mem[bp].(next := next)], bp;
    }

    /** The last round of getcbp, which leaves some of the first block. */
    method ShrinkHead(p: int, n: int, ghost d: int)
      requires ValidBut(p, d) && m.queues[p] != [] && 0 < n < |m.queues[p][0].text|
      modifies this`mem, this`m
      ensures ValidBut(p, d - n) && OnlyList(p)
      ensures var k := old(m.queues[p])[0];
        V(p) == View([Blk(k.b, k.first + n, k.text[n..])] + old(m.queues[p])[1..], old(m.free))
    {
      hide FreeOk, ListAt, Bytes, GoodQueue;
      HeadOf(mem, size, next, Counted(p, d), m, p);
      var bp := lists[p].cf;
      ghost var q, l0 := m.queues[p], Counted(p, d);
      FirstShrunk(mem, size, next, l0, m, p, n);
      mem := mem[bp := mem[bp].(first := mem[bp].first + n)];
      m := m.(queues := m.queues[p := [Blk(q[0].b, q[0].first + n, q[0].text[n..])] + q[1..]]);
      assert Counted(p, d - n) == l0[p := l0[p].(cc := l0[p].cc - n)];
    }

    /** One round of getcbp: the characters of the first block, or as many as are still wanted. */
    method TakeRound(p: int, left: int, ghost d: int) returns (piece: seq<byte>)
      requires ValidBut(p, d) && left > 0 && m.queues[p] != []
      modifies this`mem, this`next, this`lists, this`m
      ensures 0 < |piece| <= left && ValidBut(p, d - |piece|) && OnlyList(p) && lists[p].cc == old(lists)[p].cc
      ensures GoodQueue(old(m.queues[p]), size) && GoodQueue(m.queues[p], size)
      ensures TakeN(old(V(p)), size, left) == TakeN(V(p), size, left - |piece|)
      ensures Bytes(old(m.queues[p])) == piece + Bytes(m.queues[p])
    {
      hide FreeOk, ListAt, Good, TakeN, Bytes;
      GoodHead(p, d);
      ghost var q, v := m.queues[p], V(p);
      var bp := lists[p].cf;
      var on := mem[bp].last - mem[bp].first;
      if left >= on {
        piece := mem[bp].data[mem[bp].first..mem[bp].last];
        DropHead(p, d);
        TakeBlock(v, size, left);
        PartBytes(q);
      } else {
        piece := mem[bp].data[mem[bp].first..mem[bp].first + left];
        SliceOf(mem[bp].data, mem[bp].first, mem[bp].last, left);
        ShrinkHead(p, left, d);
        TakePart(v, size, left);
        HeadBytes(q, left);
        GoodHead(p, d - left);
        TakeNothing(V(p), size, 0);
      }
    }

    /** getcbp: getc n times, until the list is empty. Unlike getc it wakes nobody. */
    method Getcbp(p: int, n: nat) returns (out: seq<byte>)
      requires Valid() && 0 <= p < |lists|
      modifies this`mem, this`next, this`lists, this`m
      ensures Valid() && OnlyList(p) && GoodQueue(old(m.queues[p]), size)
      ensures V(p) == TakeN(old(V(p)), size, n)
      ensures var all := Bytes(old(m.queues[p]));
        |out| <= |all| && out == all[..|out|] && |out| == if n <= |all| then n else |all|
    {
      hide FreeOk, ListAt, Good, TakeN, Bytes;
      out := [];
      assert Counted(p, 0) == lists;
      GoodHead(p, 0);
      var left := n;
      while left > 0
        invariant 0 <= left <= n && |out| == n - left && ValidBut(p, -|out|) && OnlyList(p)
        invariant lists[p].cc == old(lists)[p].cc
        invariant GoodQueue(m.queues[p], size) && GoodQueue(old(m.queues[p]), size)
        invariant TakeN(old(V(p)), size, n) == TakeN(V(p), size, left)
        invariant Bytes(old(m.queues[p])) == out + Bytes(m.queues[p])
        decreases left
      {
        GoodHead(p, -|out|);
        if lists[p].cf == NULL { NoBytes(m.queues[p]); break; }
        var piece := TakeRound(p, left, -|out|);
        out := out + piece;
        left := left - |piece|;
      }
      TakeNothing(V(p), size, left);
      assert Counted(p, -|out|) == lists[p := lists[p].(cc := lists[p].cc - |out|)];
      lists := lists[p := lists[p].(cc := lists[p].cc - |out|)];
    }

    lemma GoodHead(p: int, d: int)
      requires ValidBut(p, d)
      ensures |lists| == |m.queues| && |mem| == |m.owner|
      ensures GoodQueue(m.queues[p], size)
      ensures lists[p].cf == NULL <==> m.queues[p] == []
      ensures m.queues[p] != [] ==> lists[p].cf == m.queues[p][0].b && Held(mem, size, m.queues[p], 0)
    {
      hide FreeOk, ListAt;
      HeadOf(mem, size, next, Counted(p, d), m, p);
    }
  }

  /** The first block of list p, with nothing left in it, goes to the free list. */
  lemma {:induction false} UsedUp(mem: seq<Cblock>, mem': seq<Cblock>, size: int, next: int, lists: seq<CharList>,
      lists': seq<CharList>, m: Model, p: int)
    requires Good(mem, size, next, lists, m) && 0 <= p < |lists| && m.queues[p] != []
    requires var b := m.queues[p][0].b;
      0 <= b < |mem| && mem' == mem[b := mem[b].(first := mem[b].first + 1)] && |mem[b].data| == CLSIZE
    requires var k := m.queues[p][0]; var after := mem[k.b].next;
      lists' == lists[p := CharList(lists[p].cc - |k.text|, after, if after == NULL then NULL else lists[p].cl)]
    ensures var b, u := m.queues[p][0].b, Unlinked(m, p);
      Good(mem'[b := mem'[b].(next := next)], size, b, lists',
           u.(free := [b] + u.free, owner := u.owner[b := OnFreeList]))
  {
    hide FreeOk, ListAt, Bytes, GoodQueue, Owns, NoDup;
    var b, u := m.queues[p][0].b, Unlinked(m, p);
    Unlink(mem, size, next, lists, lists', m, p);
    HandWrite(mem, mem', size, next, lists', u, b);
    FreePush(mem', size, next, lists', u, b);
  }

  /** The first n characters of list p, not all of the first block, are gone. */
  lemma {:induction false} FirstShrunk(mem: seq<Cblock>, size: int, next: int, lists: seq<CharList>, m: Model, p: int,
      n: int)
    requires Good(mem, size, next, lists, m) && 0 <= p < |lists| && m.queues[p] != [] && 0 < n < |m.queues[p][0].text|
    ensures 0 <= m.queues[p][0].b < |mem|
    ensures var k := m.queues[p][0];
      Good(mem[k.b := mem[k.b].(first := mem[k.b].first + n)], size, next, lists[p := lists[p].(cc := lists[p].cc - n)],
           m.(queues := m.queues[p := [Blk(k.b, k.first + n, k.text[n..])] + m.queues[p][1..]]))
  {
    hide FreeOk, ListAt, Bytes, GoodQueue;
    HeadOf(mem, size, next, lists, m, p);
    var q, b := m.queues[p], m.queues[p][0].b;
    var k := Blk(b, q[0].first + n, q[0].text[n..]);
    BytesFirst(q, k);
    var mem1 := mem[b := mem[b].(first := mem[b].first + n)];
    assert Held(mem1, size, q[0 := k], 0);
    Rewrite(mem, mem1, size, next, lists, lists[p].cc - n, m, p, 0, k);
    assert q[0 := k] == [k] + q[1..];
  }

  lemma {:induction false} FreeNull(mem: seq<Cblock>, size: int, next: int, lists: seq<CharList>, m: Model)
    requires Good(mem, size, next, lists, m)
    ensures next == NULL <==> m.free == []
  {
    if m.free != [] { FreePop(mem, size, next, lists, m); }
  }

  lemma {:induction false} HeadBytes(q: seq<Blk<int>>, n: nat)
    requires q != [] && n < |q[0].text|
    ensures Bytes(q) == q[0].text[..n] + Bytes([Blk(q[0].b, q[0].first + n, q[0].text[n..])] + q[1..])
  {
    var r := [Blk(q[0].b, q[0].first + n, q[0].text[n..])] + q[1..];
    assert r[1..] == q[1..];
    assert q[0].text == q[0].text[..n] + q[0].text[n..];
  }

  lemma {:induction false} SliceOf(data: seq<byte>, a: int, b: int, n: int)
    requires 0 <= a <= a + n <= b <= |data|
    ensures data[a..b][..n] == data[a..a + n]
  {
  }

  lemma {:induction false} PartBytes(q: seq<Blk<int>>)
    requires q != []
    ensures Bytes(q) == q[0].text + Bytes(q[1..])
  {
  }

  lemma {:induction false} NoBytes(q: seq<Blk<int>>)
    ensures q == [] ==> Bytes(q) == []
  {
  }

  lemma {:induction false} PutNothing<T>(v: View<T>, size: int, s: seq<byte>)
    requires s == [] || !CanPut(v, size)
    ensures PutN(v, size, s) == v && PutCount(v, size, s) == 0
  {
  }

  lemma {:induction false} TakeNothing<T>(v: View<T>, size: int, n: nat)
    requires GoodQueue(v.queue, size) && (n == 0 || v.queue == [])
    ensures TakeN(v, size, n) == v
  {
  }

  lemma {:induction false} FreshView<T>(v: View<T>, size: int, s: seq<byte>, on: int)
    requires TailFull(v, size) && v.free != [] && 1 <= on <= |s| && on <= size
    ensures CanPut(v, size)
    ensures var w := View(v.queue + [Blk(v.free[0], 0, s[..on])], v.free[1..]);
      PutN(v, size, s) == PutN(w, size, s[on..]) && PutCount(v, size, s) == on + PutCount(w, size, s[on..])
  {
    PutFresh(v, size, s, on);
  }

  /** A fresh block with characters t becomes the last one of list p. */
  lemma {:induction false} FreshStored(mem: seq<Cblock>, size: int, next: int, lists: seq<CharList>, m: Model, p: int,
      t: seq<byte>)
    requires Good(mem, size, next, lists, m) && 0 <= p < |lists| && m.free != [] && t != [] && |t| <= size
    ensures 0 <= next < |mem| && |mem[next].data| == CLSIZE && next == m.free[0] && m.free != []
    ensures lists[p].cl == NULL || 0 <= lists[p].cl < |mem|
    ensures var k := Blk(next, 0, t); var l := lists[p];
      Good(LinkedAfter(mem[next := Cblock(NULL, 0, |t|, Overwrite(mem[next].data, 0, t))], l, next),
           size, mem[next].next,
           lists[p := CharList(l.cc + |t|, if l.cl == NULL then next else l.cf, next)],
           Appended(m.(free := m.free[1..], owner := m.owner[next := InHand]), p, k))
  {
    FreePop(mem, size, next, lists, m);
    HeadOf(mem, size, next, lists, m, p);
    assert IsBlock(mem, next);
    var m1 := m.(free := m.free[1..], owner := m.owner[next := InHand]);
    var mem1 := mem[next := Cblock(NULL, 0, |t|, Overwrite(mem[next].data, 0, t))];
    var k := Blk(next, 0, t);
    HandWrite(mem, mem1, size, mem[next].next, lists, m1, next);
    assert mem1[next].data[0..|t|] == t;
    assert Held(mem1, size, [k], 0);
    Append(mem1, size, mem[next].next, lists, m1, p, k);
  }

  /** The last block of list p takes the characters t behind its own. */
  lemma {:induction false} TailStored(mem: seq<Cblock>, mem': seq<Cblock>, size: int, next: int, lists: seq<CharList>,
      m: Model, p: int, t: seq<byte>)
    requires Good(mem, size, next, lists, m) && 0 <= p < |lists| && m.queues[p] != [] && |mem'| == |mem|
    requires var bp := lists[p].cl;
      0 <= bp < |mem| && 0 <= mem[bp].last && mem[bp].last + |t| <= size && |mem[bp].data| == CLSIZE && size <= CLSIZE
    requires var bp := lists[p].cl;
      mem' == mem[bp := mem[bp].(last := mem[bp].last + |t|, data := Overwrite(mem[bp].data, mem[bp].last, t))]
    ensures var n := |m.queues[p]| - 1; var k := m.queues[p][n].(text := m.queues[p][n].text + t);
      Good(mem', size, next, lists[p := lists[p].(cc := lists[p].cc + |t|)],
           m.(queues := m.queues[p := m.queues[p][n := k]]))
  {
    hide FreeOk, ListAt, Bytes, GoodQueue;
    HeadOf(mem, size, next, lists, m, p);
    var q := m.queues[p];
    var n := |q| - 1;
    var k := q[n].(text := q[n].text + t);
    BytesLast(q, k);
    var b := mem[k.b];
    OverwriteAfter(b.data, b.first, b.last, t);
    assert Held(mem', size, q[n := k], n);
    Rewrite(mem, mem', size, next, lists, lists[p].cc + |t|, m, p, n, k);
  }
}
