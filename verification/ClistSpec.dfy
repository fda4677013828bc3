/** What the operations of clist.c mean: a queue of blocks, each holding a non-empty stretch of
    characters, and a stack of free blocks. */
module ClistSpec {
  // ----- meaning -----

  /** A linked block: where its characters start, and the characters. */
  datatype Blk<T> = Blk(b: T, first: int, text: seq<int>)

  /** One character list together with the free list. */
  datatype View<T> = View(queue: seq<Blk<T>>, free: seq<T>)

  function Bytes<T>(queue: seq<Blk<T>>): seq<int> {
    if queue == [] then [] else queue[0].text + Bytes(queue[1..])
  }

  predicate GoodQueue<T>(queue: seq<Blk<T>>, size: int) {
    forall i :: 0 <= i < |queue| ==>
      0 <= queue[i].first && queue[i].text != [] && queue[i].first + |queue[i].text| <= size
  }

  /** getc: the first character, and the block too once it is used up. */
  function TakeOne<T>(v: View<T>): View<T>
    requires v.queue != [] && v.queue[0].text != []
  {
    var h := v.queue[0];
    if |h.text| == 1 then View(v.queue[1..], [h.b] + v.free)
    else View([Blk(h.b, h.first + 1, h.text[1..])] + v.queue[1..], v.free)
  }

  predicate TailFull<T>(v: View<T>, size: int) {
    v.queue == [] || (var l := v.queue[|v.queue| - 1]; l.first + |l.text| == size)
  }

  predicate CanPut<T>(v: View<T>, size: int) { !TailFull(v, size) || v.free != [] }

  /** putc: one character after the last, in a fresh block when the last one is full. */
  function PutOne<T>(v: View<T>, size: int, c: int): View<T>
    requires CanPut(v, size)
  {
    if TailFull(v, size) then View(v.queue + [Blk(v.free[0], 0, [c])], v.free[1..])
    else
      var n := |v.queue| - 1;
      View(v.queue[..n] + [v.queue[n].(text := v.queue[n].text + [c])], v.free)
  }

  /** n times getc, stopping at the first -1. */
  function TakeN<T>(v: View<T>, size: int, n: nat): View<T>
    requires GoodQueue(v.queue, size)
    decreases n
  {
    if n == 0 || v.queue == [] then v else TakeGood(v, size); TakeN(TakeOne(v), size, n - 1)
  }

  lemma {:induction false} TakeGood<T>(v: View<T>, size: int)
    requires GoodQueue(v.queue, size) && v.queue != []
    ensures GoodQueue(TakeOne(v).queue, size)
  {
    var w := TakeOne(v).queue;
    forall i | 0 <= i < |w| ensures 0 <= w[i].first && w[i].text != [] && w[i].first + |w[i].text| <= size {
      assert |v.queue[0].text| == 1 ==> w[i] == v.queue[i + 1];
      assert |v.queue[0].text| > 1 && i > 0 ==> w[i] == v.queue[i];
    }
  }

  /** putc of each character in turn, stopping at the first -1. */
  function PutN<T>(v: View<T>, size: int, s: seq<int>): View<T>
    decreases |s|
  {
    if s == [] || !CanPut(v, size) then v else PutN(PutOne(v, size, s[0]), size, s[1..])
  }

  /** How many of them are accepted. */
  function PutCount<T>(v: View<T>, size: int, s: seq<int>): (n: nat)
    ensures n <= |s|
    decreases |s|
  {
    if s == [] || !CanPut(v, size) then 0 else 1 + PutCount(PutOne(v, size, s[0]), size, s[1..])
  }

  // ----- one byte queue -----

  lemma {:induction false} BytesSplit<T>(a: seq<Blk<T>>, b: seq<Blk<T>>)
    ensures Bytes(a + b) == Bytes(a) + Bytes(b)
    decreases |a|
  {
    if a == [] {
      assert a + b == b;
    } else {
      BytesSplit(a[1..], b);
      assert (a + b)[1..] == a[1..] + b;
    }
  }

  lemma {:induction false} BytesOne<T>(k: Blk<T>)
    ensures Bytes([k]) == k.text
  {
    assert Bytes([k][1..]) == [];
  }

  /** getc takes the first byte of the queue. */
  lemma {:induction false} TakeIsDequeue<T>(v: View<T>)
    requires v.queue != [] && v.queue[0].text != []
    ensures Bytes(v.queue) != [] && v.queue[0].text[0] == Bytes(v.queue)[0]
    ensures Bytes(TakeOne(v).queue) == Bytes(v.queue)[1..]
  {
    var h := v.queue[0];
    if |h.text| > 1 {
      var k := Blk(h.b, h.first + 1, h.text[1..]);
      BytesSplit([k], v.queue[1..]);
      BytesOne(k);
    }
  }

  /** putc appends one byte to the queue. */
  lemma {:induction false} PutIsEnqueue<T>(v: View<T>, size: int, c: int)
    requires CanPut(v, size)
    ensures Bytes(PutOne(v, size, c).queue) == Bytes(v.queue) + [c]
  {
    if TailFull(v, size) {
      BytesSplit(v.queue, [Blk(v.free[0], 0, [c])]);
      BytesOne(Blk(v.free[0], 0, [c]));
    } else {
      var n := |v.queue| - 1;
      var l := v.queue[n];
      var k := l.(text := l.text + [c]);
      assert v.queue == v.queue[..n] + [l];
      BytesSplit(v.queue[..n], [l]);
      BytesSplit(v.queue[..n], [k]);
      BytesOne(l);
      BytesOne(k);
    }
  }

  // ----- the bulk forms are the iterated simple forms -----

  /** Taking a whole first block at once is taking its characters one by one. */
  lemma {:induction false} TakeBlock<T>(v: View<T>, size: int, n: nat)
    requires GoodQueue(v.queue, size) && v.queue != [] && n >= |v.queue[0].text|
    ensures GoodQueue(v.queue[1..], size)
    ensures var w := View(v.queue[1..], [v.queue[0].b] + v.free);
            TakeN(v, size, n) == TakeN(w, size, n - |v.queue[0].text|)
    decreases |v.queue[0].text|
  {
    assert forall i :: 0 <= i < |v.queue[1..]| ==> v.queue[1..][i] == v.queue[i + 1];
    TakeGood(v, size);
    var h := v.queue[0];
    if |h.text| > 1 {
      var u := TakeOne(v);
      assert u.queue[1..] == v.queue[1..];
      TakeBlock(u, size, n - 1);
    }
  }

  /** Taking part of the first block moves its start. */
  lemma {:induction false} TakePart<T>(v: View<T>, size: int, n: nat)
    requires GoodQueue(v.queue, size) && v.queue != [] && n < |v.queue[0].text|
    ensures var h := v.queue[0];
            TakeN(v, size, n) == View([Blk(h.b, h.first + n, h.text[n..])] + v.queue[1..], v.free)
    decreases n
  {
    var h := v.queue[0];
    if n == 0 {
      assert [Blk(h.b, h.first, h.text)] + v.queue[1..] == v.queue;
    } else {
      TakeGood(v, size);
      TakePart(TakeOne(v), size, n - 1);
      assert h.text[1..][n - 1..] == h.text[n..];
    }
  }

  /** Filling the open last block with s at once is putting s one by one. */
  lemma {:induction false} PutPart<T>(v: View<T>, size: int, s: seq<int>, k: nat)
    requires v.queue != [] && k <= |s|
    requires var l := v.queue[|v.queue| - 1]; l.first + |l.text| + k <= size
    ensures var n := |v.queue| - 1;
      var w := View(v.queue[..n] + [v.queue[n].(text := v.queue[n].text + s[..k])], v.free);
      PutN(v, size, s) == PutN(w, size, s[k..]) && PutCount(v, size, s) == k + PutCount(w, size, s[k..])
    decreases k
  {
    var n := |v.queue| - 1;
    if k == 0 {
      assert v.queue[n].text + s[..0] == v.queue[n].text && v.queue[..n] + [v.queue[n]] == v.queue;
      assert v.queue[n].(text := v.queue[n].text + s[..0]) == v.queue[n] && s[0..] == s;
    } else {
      var u := PutOne(v, size, s[0]);
      PutPart(u, size, s[1..], k - 1);
      assert u.queue[..n] == v.queue[..n];
      assert v.queue[n].text + [s[0]] + s[1..][..k - 1] == v.queue[n].text + s[..k];
      assert s[1..][k - 1..] == s[k..];
    }
  }

  /** Starting a fresh block with k characters at once is putting them one by one. */
  lemma {:induction false} PutFresh<T>(v: View<T>, size: int, s: seq<int>, k: nat)
    requires TailFull(v, size) && v.free != [] && 1 <= k <= |s| && k <= size
    ensures var w := View(v.queue + [Blk(v.free[0], 0, s[..k])], v.free[1..]);
      PutN(v, size, s) == PutN(w, size, s[k..]) && PutCount(v, size, s) == k + PutCount(w, size, s[k..])
  {
    var u := PutOne(v, size, s[0]);
    PutPart(u, size, s[1..], k - 1);
    assert u.queue[..|v.queue|] == v.queue;
    assert [s[0]] + s[1..][..k - 1] == s[..k] && s[1..][k - 1..] == s[k..];
  }

  /** n characters taken are the first n bytes of the queue, or all of them. */
  lemma {:induction false} TakeNBytes<T>(v: View<T>, size: int, n: nat)
    requires GoodQueue(v.queue, size)
    ensures GoodQueue(TakeN(v, size, n).queue, size)
    ensures Bytes(TakeN(v, size, n).queue) == if n <= |Bytes(v.queue)| then Bytes(v.queue)[n..] else []
    decreases n
  {
    if n > 0 && v.queue != [] {
      TakeGood(v, size);
      TakeIsDequeue(v);
      TakeNBytes(TakeOne(v), size, n - 1);
    }
  }

  /** What is accepted of s is a prefix, appended to the queue; nothing is left over while a free
      block remains. */
  lemma {:induction false} PutNBytes<T>(v: View<T>, size: int, s: seq<int>)
    ensures Bytes(PutN(v, size, s).queue) == Bytes(v.queue) + s[..PutCount(v, size, s)]
    ensures PutCount(v, size, s) < |s| ==> PutN(v, size, s).free == [] && TailFull(PutN(v, size, s), size)
    decreases |s|
  {
    if s != [] && CanPut(v, size) {
      PutIsEnqueue(v, size, s[0]);
      PutNBytes(PutOne(v, size, s[0]), size, s[1..]);
    }
  }

  // ----- blocks are neither made nor lost -----

  function Blocks<T(==)>(v: View<T>): multiset<T> {
    multiset(Ids(v.queue)) + multiset(v.free)
  }

  function Ids<T>(queue: seq<Blk<T>>): (ids: seq<T>)
    ensures |ids| == |queue| && forall i :: 0 <= i < |queue| ==> ids[i] == queue[i].b
  {
    seq(|queue|, i requires 0 <= i < |queue| => queue[i].b)
  }

  lemma {:induction false} TakeKeepsBlocks<T>(v: View<T>, size: int, n: nat)
    requires GoodQueue(v.queue, size)
    ensures Blocks(TakeN(v, size, n)) == Blocks(v)
    decreases n
  {
    if n > 0 && v.queue != [] {
      TakeGood(v, size);
      TakeOneKeepsBlocks(v);
      TakeKeepsBlocks(TakeOne(v), size, n - 1);
    }
  }

  lemma {:induction false} TakeOneKeepsBlocks<T>(v: View<T>)
    requires v.queue != [] && v.queue[0].text != []
    ensures Blocks(TakeOne(v)) == Blocks(v)
  {
    var h := v.queue[0];
    if |h.text| > 1 {
      assert Ids(TakeOne(v).queue) == Ids(v.queue);
    } else {
      assert Ids(v.queue) == [h.b] + Ids(v.queue[1..]);
    }
  }

  lemma {:induction false} PutKeepsBlocks<T>(v: View<T>, size: int, s: seq<int>)
    ensures Blocks(PutN(v, size, s)) == Blocks(v)
    decreases |s|
  {
    if s != [] && CanPut(v, size) {
      var w := PutOne(v, size, s[0]);
      if TailFull(v, size) {
        assert Ids(w.queue) == Ids(v.queue) + [v.free[0]];
        assert v.free == [v.free[0]] + v.free[1..];
      } else {
        assert Ids(w.queue) == Ids(v.queue);
      }
      PutKeepsBlocks(w, size, s[1..]);
    }
  }
}
