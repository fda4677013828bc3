/** The table of hsearch.h: FIND and ENTER refine a finite map, with or without Brent's relocation. */
module HashTable {
  import opened Arithmetic
  import opened Wrappers
  import opened HashSearch

  // ----- what a table must satisfy -----

  predicate Distinct(t: seq<Slot>) {
    forall i, j :: 0 <= i < |t| && 0 <= j < |t| && i != j && t[i].Used? && t[j].Used? ==> t[i].key != t[j].key
  }

  /** Probe number k of the key lands on slot i, and all earlier ones on taken slots. */
  predicate Reaches(t: seq<Slot>, m: nat, key: Key, i: nat, k: nat)
    requires m <= 32 && |t| == Pow2(m)
  {
    Probe(key, m, k) == i && forall l: nat :: l < k ==> t[Probe(key, m, l)].Used?
  }

  ghost predicate Findable(t: seq<Slot>, m: nat, i: nat)
    requires m <= 32 && |t| == Pow2(m) && i < |t| && t[i].Used?
  {
    exists k: nat :: Reaches(t, m, t[i].key, i, k)
  }

  ghost predicate GoodTable(t: seq<Slot>, m: nat) {
    && 1 <= m <= 31 && |t| == Pow2(m) && Distinct(t)
    && forall i: nat :: i < |t| && t[i].Used? ==> Findable(t, m, i)
  }

  function UsedSlots(t: seq<Slot>): set<nat> { set i: nat | i < |t| && t[i].Used? }

  function KeysOf(t: seq<Slot>): set<Key> { set i | 0 <= i < |t| && t[i].Used? :: t[i].key }

  ghost function SlotOf(t: seq<Slot>, key: Key): (i: nat)
    requires key in KeysOf(t)
    ensures i < |t| && t[i].Used? && t[i].key == key
  {
    var i: nat :| i < |t| && t[i].Used? && t[i].key == key;
    i
  }

  /** The map a table stands for. */
  ghost function Contents(t: seq<Slot>): map<Key, int> {
    map key | key in KeysOf(t) :: t[SlotOf(t, key)].data
  }

  lemma {:induction false} ContentsAt(t: seq<Slot>, i: nat)
    requires Distinct(t) && i < |t| && t[i].Used?
    ensures t[i].key in Contents(t) && Contents(t)[t[i].key] == t[i].data
  {
    assert t[i].key in KeysOf(t);
  }

  lemma {:induction false} ContentsFrom(t: seq<Slot>, key: Key) returns (i: nat)
    requires Distinct(t) && key in Contents(t)
    ensures i < |t| && t[i].Used? && t[i].key == key
  {
    i := SlotOf(t, key);
  }

  /** The loop D4/D5 has seen `n` taken slots of other keys so far. */
  predicate Passed(t: seq<Slot>, m: nat, key: Key, n: nat)
    requires m <= 32 && |t| == Pow2(m)
  {
    forall l: nat :: l < n ==> t[Probe(key, m, l)].Used? && t[Probe(key, m, l)].key != key
  }

  /** With a slot to spare, the search is over before the table has been visited once. */
  lemma {:induction false} SearchEnds(t: seq<Slot>, m: nat, key: Key, n: nat)
    requires 1 <= m <= 32 && |t| == Pow2(m) && |UsedSlots(t)| < |t| && Passed(t, m, key, n)
    ensures n < |t|
  {
    if n >= |t| {
      SubsetSize(UsedSlots(t), Below(|t|));
      if UsedSlots(t) == Below(|t|) {
      } else {
        var i: nat :| i in Below(|t|) && i !in UsedSlots(t);
        var k := ProbesCover(key, m, i);
      }
    }
  }

  /** A search that ends on an empty slot has looked everywhere it needed to. */
  lemma {:induction false} NotStored(t: seq<Slot>, m: nat, key: Key, n: nat)
    requires GoodTable(t, m) && Passed(t, m, key, n) && t[Probe(key, m, n)].Empty?
    ensures key !in Contents(t)
  {
    forall i: nat | i < |t| && t[i].Used? ensures t[i].key != key {
      assert Findable(t, m, i);
      var k: nat :| Reaches(t, m, t[i].key, i, k);
      var atHit, atEnd := Probe(key, m, k), Probe(t[i].key, m, n);
    }
  }

  // ----- filling a slot -----

  lemma {:induction false} FilledSlots(t: seq<Slot>, i: nat, s: Slot)
    requires i < |t| && t[i].Empty? && s.Used?
    ensures UsedSlots(t[i := s]) == UsedSlots(t) + {i} && |UsedSlots(t[i := s])| == |UsedSlots(t)| + 1
  {
  }

  lemma {:induction false} FilledContents(t: seq<Slot>, i: nat, key: Key, data: int)
    requires Distinct(t) && i < |t| && t[i].Empty? && key !in Contents(t)
    ensures Distinct(t[i := Used(key, data)])
    ensures Contents(t[i := Used(key, data)]) == Contents(t)[key := data]
  {
    var t' := t[i := Used(key, data)];
    forall j: nat | j < |t| && t[j].Used? ensures t[j].key != key { ContentsAt(t, j); }
    forall x ensures x in Contents(t') <==> x in Contents(t)[key := data] {
      if x in Contents(t') { var j := ContentsFrom(t', x); if j != i { ContentsAt(t, j); } }
      if x in Contents(t) { var j := ContentsFrom(t, x); ContentsAt(t', j); }
      ContentsAt(t', i);
    }
    forall x | x in Contents(t') ensures Contents(t')[x] == Contents(t)[key := data][x] {
      var j := ContentsFrom(t', x);
      ContentsAt(t', j);
      if j != i { ContentsAt(t, j); }
    }
  }

  /** Filling an empty slot never hides a key that was findable. */
  lemma {:induction false} FilledFindable(t: seq<Slot>, m: nat, i: nat, s: Slot, j: nat)
    requires GoodTable(t, m) && i < |t| && t[i].Empty? && s.Used? && j < |t| && t[j].Used?
    ensures Findable(t[i := s], m, j)
  {
    assert Findable(t, m, j);
    var k: nat :| Reaches(t, m, t[j].key, j, k);
    assert Reaches(t[i := s], m, t[j].key, j, k);
  }

  /** Plain insertion: the new key goes into the empty slot its search ended on. */
  lemma {:induction false} InsertGood(t: seq<Slot>, m: nat, key: Key, data: int, n: nat)
    requires GoodTable(t, m) && Passed(t, m, key, n) && t[Probe(key, m, n)].Empty?
    ensures var t' := t[Probe(key, m, n) := Used(key, data)];
      GoodTable(t', m) && Contents(t') == Contents(t)[key := data]
  {
    var i := Probe(key, m, n);
    var t' := t[i := Used(key, data)];
    NotStored(t, m, key, n);
    FilledContents(t, i, key, data);
    forall j: nat | j < |t'| && t'[j].Used? ensures Findable(t', m, j) {
      if j == i {
        assert Reaches(t', m, key, i, n);
      } else {
        FilledFindable(t, m, i, Used(key, data), j);
      }
    }
  }

  // ----- Brent's relocation -----

  /** Step k of the secondary branch of the key stored at `site`. */
  function Side(site: nat, key: Key, m: nat, k: nat): (i: nat)
    requires 1 <= m <= 31 && site < Pow2(m)
    ensures i < Pow2(m)
  {
    var c := Hash2(key, m);
    (site + k * c) % Pow2(m)
  }

  /** The secondary branch of a stored key continues its own probe sequence. */
  lemma {:induction false} SideIsProbe(site: nat, key: Key, m: nat, a: nat, k: nat)
    requires 1 <= m <= 31 && site == Probe(key, m, a)
    ensures Side(site, key, m, k) == Probe(key, m, a + k)
  {
    hide Hash, Hash2, Pow2;
    var h, c := Hash(key, m), Hash2(key, m);
    ModAdd(h + a * c, k * c, Pow2(m));
    assert h + a * c + k * c == h + (a + k) * c;
  }

  /** A relocation: main-branch site j gives way, its key moves k steps along its own branch to the
      first empty slot there. */
  ghost predicate Relocation(t: seq<Slot>, m: nat, key: Key, n: nat, j: nat, k: nat)
    requires 1 <= m <= 31 && |t| == Pow2(m)
  {
    var site := Probe(key, m, j);
    && j < n && 1 <= k && t[site].Used?
    && t[Side(site, t[site].key, m, k)].Empty?
    && forall l: nat :: 1 <= l < k ==> t[Side(site, t[site].key, m, l)].Used?
  }

  /** A relocation makes the two keys cost fewer probes than the plain insertion behind n + 1 of them would:
      j + 1 for the new key, k more for the moved one. */
  ghost predicate Cheaper(t: seq<Slot>, m: nat, key: Key, n: nat, j: nat, k: nat)
    requires 1 <= m <= 31 && |t| == Pow2(m)
  {
    Relocation(t, m, key, n, j, k) && j + 1 + k < n + 1
  }

  /** None costs less, and of those that cost the same it is the one furthest along the main branch. */
  ghost predicate Cheapest(t: seq<Slot>, m: nat, key: Key, n: nat, j: nat, k: nat)
    requires 1 <= m <= 31 && |t| == Pow2(m)
  {
    && Cheaper(t, m, key, n, j, k)
    && forall j': nat, k': nat :: Relocation(t, m, key, n, j', k') ==> j + k < j' + k' || (j + k == j' + k' && j' <= j)
  }

  /** What ENTER makes of the table t for a key whose probe number n found an empty slot: with Brent's
      variation, and three probes or more, the cheapest relocation if one pays, and otherwise that slot filled. */
  ghost predicate Entered(t: seq<Slot>, m: nat, key: Key, data: int, n: nat, brent: bool, u: seq<Slot>, site: nat)
    requires 1 <= m <= 31 && |t| == Pow2(m)
  {
    if brent && n + 1 >= 3 && exists j: nat, k: nat :: Cheaper(t, m, key, n, j, k) then
      exists j: nat, k: nat :: Cheapest(t, m, key, n, j, k) && site == Probe(key, m, j) &&
        u == t[Side(site, t[site].key, m, k) := t[site]][site := Used(key, data)]
    else
      site == Probe(key, m, n) && u == t[site := Used(key, data)]
  }

  function Relocated(t: seq<Slot>, site: nat, dest: nat, s: Slot): seq<Slot>
    requires site < |t| && dest < |t|
  {
    t[dest := t[site]][site := s]
  }

  /** Tables with the same entries stand for the same map. */
  lemma {:induction false} SameContents(t: seq<Slot>, u: seq<Slot>)
    requires Distinct(t) && Distinct(u)
    requires forall s: Slot :: s.Used? ==> (s in t <==> s in u)
    ensures Contents(t) == Contents(u)
  {
    forall x ensures x in Contents(t) <==> x in Contents(u) {
      if x in Contents(t) { EntryMoves(t, u, x); }
      if x in Contents(u) { EntryMoves(u, t, x); }
    }
    forall x | x in Contents(t) ensures Contents(t)[x] == Contents(u)[x] { EntryMoves(t, u, x); }
  }

  lemma {:induction false} EntryMoves(t: seq<Slot>, u: seq<Slot>, x: Key)
    requires Distinct(t) && Distinct(u) && x in Contents(t)
    requires forall s: Slot :: s.Used? ==> (s in t <==> s in u)
    ensures x in Contents(u) && Contents(t)[x] == Contents(u)[x]
  {
    var a := ContentsFrom(t, x);
    ContentsAt(t, a);
    assert t[a] in u;
    var b: nat :| b < |u| && u[b] == t[a];
    ContentsAt(u, b);
  }

  lemma {:induction false} SwapContents(t: seq<Slot>, i: nat, j: nat)
    requires Distinct(t) && i < |t| && j < |t|
    ensures Distinct(t[i := t[j]][j := t[i]]) && Contents(t[i := t[j]][j := t[i]]) == Contents(t)
  {
    var u := t[i := t[j]][j := t[i]];
    forall s: Slot | s.Used? ensures s in t <==> s in u {
      if s in t {
        var x: nat :| x < |t| && t[x] == s;
        assert u[if x == i then j else if x == j then i else x] == s;
      }
    }
    SameContents(t, u);
  }

  lemma {:induction false} SwapSlots(t: seq<Slot>, i: nat, j: nat)
    requires i < |t| && j < |t| && t[i].Used? && t[j].Used?
    ensures UsedSlots(t[i := t[j]][j := t[i]]) == UsedSlots(t)
  {
  }

  /** Every key stays findable where the relocation leaves it. */
  lemma {:induction false} RelocatedFindable(t: seq<Slot>, m: nat, key: Key, data: int, n: nat, j: nat, k: nat, i: nat)
    requires GoodTable(t, m) && Passed(t, m, key, n) && Relocation(t, m, key, n, j, k)
    requires i < |t|
    requires var site := Probe(key, m, j);
      Relocated(t, site, Side(site, t[site].key, m, k), Used(key, data))[i].Used?
    ensures var site := Probe(key, m, j);
      Findable(Relocated(t, site, Side(site, t[site].key, m, k), Used(key, data)), m, i)
  {
    var site := Probe(key, m, j);
    var moved := t[site].key;
    var dest := Side(site, moved, m, k);
    var u := Relocated(t, site, dest, Used(key, data));
    assert forall x: nat :: x < |t| && t[x].Used? ==> u[x].Used?;
    if i == site {
      assert Reaches(u, m, key, site, j);
    } else if i == dest {
      assert Findable(t, m, site);
      var a: nat :| Reaches(t, m, moved, site, a);
      SideIsProbe(site, moved, m, a, k);
      forall l: nat | l < a + k ensures u[Probe(moved, m, l)].Used? {
        if l > a { SideIsProbe(site, moved, m, a, l - a); }
      }
      assert Reaches(u, m, moved, dest, a + k);
    } else {
      assert Findable(t, m, i);
      var a: nat :| Reaches(t, m, t[i].key, i, a);
      assert Reaches(u, m, t[i].key, i, a);
    }
  }

  /** Brent's relocation keeps the table good and adds exactly the new entry. */
  lemma {:induction false} RelocatedGood(t: seq<Slot>, m: nat, key: Key, data: int, n: nat, j: nat, k: nat)
    requires GoodTable(t, m) && Passed(t, m, key, n) && t[Probe(key, m, n)].Empty? && Relocation(t, m, key, n, j, k)
    ensures var site := Probe(key, m, j);
      var u := Relocated(t, site, Side(site, t[site].key, m, k), Used(key, data));
      && GoodTable(u, m) && Contents(u) == Contents(t)[key := data]
      && |UsedSlots(u)| == |UsedSlots(t)| + 1
  {
    var site := Probe(key, m, j);
    var dest := Side(site, t[site].key, m, k);
    var u, v := Relocated(t, site, dest, Used(key, data)), t[dest := Used(key, data)];
    NotStored(t, m, key, n);
    FilledContents(t, dest, key, data);
    FilledSlots(t, dest, Used(key, data));
    hide Contents, Distinct, Pow2, Probe, Side, UsedSlots;
    SwapContents(v, site, dest);
    SwapSlots(v, site, dest);
    assert u == v[site := v[dest]][dest := v[site]];
    forall i: nat | i < |u| && u[i].Used? ensures Findable(u, m, i) {
      RelocatedFindable(t, m, key, data, n, j, k, i);
    }
  }

  // ----- unsigned arithmetic of the probe expressions -----

  /** (a + x * c) % length, with every operation wrapping at 32 bits. */
  function WordProbe(a: nat, x: nat, c: nat, length: nat): nat
    requires length > 0
  {
    (a + x * c % WORD) % WORD % length
  }

  lemma {:induction false} WordProbeExact(a: nat, x: nat, c: nat, m: nat)
    requires 1 <= m <= 31
    ensures WordProbe(a, x, c, Pow2(m)) == (a + x * c) % Pow2(m)
  {
    Pow2Add(m, 32 - m);
    Pow2At32();
    ModAdd(x * c, a, WORD);
    ModMod(a + x * c, Pow2(m), Pow2(32 - m));
  }

  // ----- the module's state -----

  class Table {
    var table: array?<Slot>
    var count: nat
    var length: nat
    var m: nat
    var prcnt: nat

    ghost predicate Valid()
      reads this, table
    {
      && table != null && table.Length == length && GoodTable(table[..], m)
      && count == |UsedSlots(table[..])| < length
    }

    constructor ()
      ensures table == null && count == 0
    {
      table, count, length, m, prcnt := null, 0, 0, 0, 0;
    }

    /** hcreate: an empty table, of the smallest power of two above `size`. The count is not reset, so the
        table is in order exactly when the count was 0, as it is at first and after hdestroy. */
    method HCreate(size: int, room: bool) returns (ok: bool)
      requires size < 0x8000_0000
      modifies this
      ensures ok <==> 0 < size && room
      ensures count == old(count)
      ensures ok ==> table != null && fresh(table) && table.Length == length && size < length <= 2 * size
      ensures ok ==> GoodTable(table[..], m) && Contents(table[..]) == map[]
      ensures ok ==> (Valid() <==> old(count) == 0)
    {
      hide Pow2;
      if size <= 0 { return false; }
      var unsize := size;
      length, m := 1, 0;
      Pow2Step(0);
      while unsize != 0
        invariant 0 <= unsize && length == Pow2(m) && count == old(count)
        invariant Shifted(size, unsize, length)
        decreases unsize
      {
        Halve(unsize, length, size);
        Pow2Step(m);
        unsize, length, m := unsize / 2, 2 * length, m + 1;
      }
      SizeOf(size, length, m);
      if !room { return false; }
      table := new Slot[length](_ => Empty);
      EmptyTable(table[..], m);
      return true;
    }

    method HDestroy()
      modifies this
      ensures table == null && count == 0
    {
      table, count := null, 0;
    }

    /** D1 to D5: follow the probe sequence to the key or to an empty slot. */
    method Locate(key: Key) returns (i: nat)
      requires Valid()
      modifies this`prcnt
      ensures Valid() && 1 <= prcnt <= length && i == Probe(key, m, prcnt - 1)
      ensures Passed(table[..], m, key, prcnt - 1)
      ensures table[i].Empty? || table[i].key == key
    {
      hide Hash, Hash2, Pow2, GoodTable;
      GoodShape(table[..], m);
      prcnt := 1;
      i := Hash(key, m);
      ProbeFirst(key, m);
      if table[i].Empty? || table[i].key == key { return; }
      assert Passed(table[..], m, key, 1);
      SearchEnds(table[..], m, key, 1);
      var c := Hash2(key, m);
      while true
        invariant Valid() && 1 <= prcnt < length && i == Probe(key, m, prcnt - 1)
        invariant Passed(table[..], m, key, prcnt)
        decreases length - prcnt
      {
        ProbeNext(key, m, prcnt - 1);
        i := (i + c) % length;
        prcnt := prcnt + 1;
        if table[i].Empty? || table[i].key == key { return; }
        assert Passed(table[..], m, key, prcnt);
        SearchEnds(table[..], m, key, prcnt);
      }
    }

    /** The search of the BRENT block: the best site to vacate, and where its key can go. Nothing is
        gained when r is still prcnt - 1. */
    method BestSite(key: Key) returns (r: nat, curj: nat, curpos: nat, ghost bj: nat, ghost bk: nat)
      requires Valid() && prcnt >= 3 && Passed(table[..], m, key, prcnt - 1)
      ensures r <= prcnt - 1
      ensures r != prcnt - 1 ==>
        && bj + bk == r && Relocation(table[..], m, key, prcnt - 1, bj, bk)
        && curj == Probe(key, m, bj) && curpos == Side(curj, table[curj].key, m, bk)
        && (bj + 1) + bk < prcnt
      ensures NoBetter(table[..], m, key, prcnt - 1, r, bj, prcnt - 1)
    {
      hide Hash, Hash2, Pow2, GoodTable, Side;
      GoodShape(table[..], m);
      var p0, c0 := Hash(key, m), Hash2(key, m);
      r := prcnt - 1;
      curj, curpos, bj, bk := 0, 0, prcnt, 0;
      var j := 0;
      while j < prcnt - 1
        invariant 0 <= j <= prcnt - 1 && r <= prcnt - 1
        invariant r != prcnt - 1 ==>
          && bj + bk == r && Relocation(table[..], m, key, prcnt - 1, bj, bk)
          && curj == Probe(key, m, bj) && curpos == Side(curj, table[curj].key, m, bk)
        invariant NoBetter(table[..], m, key, j, r, bj, prcnt - 1)
      {
        WordProbeExact(p0, j, c0, m);
        var pj := WordProbe(p0, j, c0, length);
        ProbeIs(key, m, j);
        var k, at := FirstGap(pj, r - j);
        if k != 0 {
          r, curj, curpos := j + k, pj, at;
          bj, bk := j, k;
        }
        j := j + 1;
      }
    }

    /** The inner loop: the first empty slot within `limit` steps of the branch of the key at pj. */
    method FirstGap(pj: nat, limit: int) returns (k: nat, at: nat)
      requires Valid() && pj < length && table[pj].Used?
      ensures k != 0 ==> k <= limit && at == Side(pj, table[pj].key, m, k) && table[at].Empty?
      ensures forall l: nat :: 1 <= l && (if k != 0 then l < k else l <= limit) ==>
        table[..][Side(pj, table[pj].key, m, l)].Used?
    {
      hide Hash, Hash2, Pow2, GoodTable;
      GoodShape(table[..], m);
      var cj := Hash2(table[pj].key, m);
      var i := 1;
      at := 0;
      while i <= limit
        invariant 1 <= i
        invariant forall l: nat :: 1 <= l < i ==> table[..][Side(pj, table[pj].key, m, l)].Used?
        decreases limit - i
      {
        WordProbeExact(pj, i, cj, m);
        at := WordProbe(pj, i, cj, length);
        if table[at].Empty? { return i, at; }
        i := i + 1;
      }
      return 0, at;
    }

    /** hsearch: FIND looks a key up; ENTER adds an absent key while a slot can be spared, and never
        overwrites. The result is the index of the entry. */
    method HSearch(key: Key, data: int, action: Action, brent: bool) returns (r: Option<nat>)
      requires Valid()
      modifies this`prcnt, this`count, table
      ensures Valid()
      ensures var before, after := old(Contents(table[..])), Contents(table[..]);
        if key in before then after == before && count == old(count)
        else if action == ENTER && old(count) < length - 1
          then after == before[key := data] && count == old(count) + 1
        else after == before && count == old(count)
      ensures r.Some? <==> key in Contents(table[..])
      ensures r.Some? ==> r.value < length && table[r.value] == Used(key, Contents(table[..])[key])
      ensures key in old(Contents(table[..])) || action == FIND ==> table[..] == old(table[..])
      ensures prcnt >= 1 && 1 <= m <= 31 && old(table.Length) == Pow2(m)
      ensures Passed(old(table[..]), m, key, prcnt - 1)
      ensures key !in old(Contents(table[..])) && action == ENTER && old(count) < length - 1 ==>
        r.Some? && Entered(old(table[..]), m, key, data, prcnt - 1, brent, table[..], r.value)
    {
      hide GoodTable, Passed;
      var i := Locate(key);
      GoodShape(table[..], m);
      if table[i].Used? {
        ContentsAt(table[..], i);
        return Some(i);
      }
      NotStored(table[..], m, key, prcnt - 1);
      if action == FIND || count == length - 1 { return None; }
      i := Insert(key, data, i, brent);
      return Some(i);
    }

    /** D6: store the item in the empty slot i its search ended on, or, with Brent's relocation, in a
        better slot whose key moves on. */
    method Insert(key: Key, data: int, i: nat, brent: bool) returns (site: nat)
      requires Valid() && 1 <= prcnt && count < length - 1
      requires Passed(table[..], m, key, prcnt - 1) && i == Probe(key, m, prcnt - 1) && table[i].Empty?
      modifies this`count, table
      ensures Valid() && count == old(count) + 1
      ensures Contents(table[..]) == old(Contents(table[..]))[key := data]
      ensures site < length && table[site] == Used(key, data) && prcnt == old(prcnt)
      ensures 1 <= m <= 31 && Entered(old(table[..]), m, key, data, prcnt - 1, brent, table[..], site)
    {
      ghost var t, n := table[..], prcnt - 1;
      GoodShape(t, m);
      hide Pow2, Hash, Hash2, Probe, Side, Relocation, Passed, Contents, Settled, NoBetter, GoodTable;
      hide UsedSlots, Entered, Cheaper, Cheapest;
      site := i;
      if !brent || prcnt < 3 { PlainSettled(t, m, key, data, n, brent); }
      if brent && prcnt >= 3 {
        var best, curj, curpos; ghost var bj, bk;
        best, curj, curpos, bj, bk := BestSite(key);
        SearchSettled(t, m, key, data, n, best, bj, bk);
        if best != prcnt - 1 {
          table[curpos] := table[curj];
          site := curj;
        }
      }
      ghost var u := table[..][site := Used(key, data)];
      assert Settled(t, m, key, data, n, brent, u, site);
      SettledParts(t, m, key, data, n, brent, u, site);
      count := count + 1;
      table[site] := Used(key, data);
      assert table[..] == u;
    }
  }

  lemma {:induction false} GoodShape(t: seq<Slot>, m: nat)
    requires GoodTable(t, m)
    ensures 1 <= m <= 31 && |t| == Pow2(m) && Distinct(t)
  {
  }

  lemma {:induction false} ProbeIs(key: Key, m: nat, k: nat)
    requires 1 <= m <= 31
    ensures Probe(key, m, k) == (Hash(key, m) + k * Hash2(key, m)) % Pow2(m)
  {
  }

  /** No site among the first `sites` of the main branch has a gap that would cost less than r, nor one behind
      site best that would cost as much. */
  ghost predicate NoBetter(t: seq<Slot>, m: nat, key: Key, sites: nat, r: nat, best: nat, n: nat)
    requires 1 <= m <= 31 && |t| == Pow2(m) && sites <= n && Passed(t, m, key, n)
  {
    forall j: nat, k: nat :: j < sites && 1 <= k && (j + k < r || (j + k == r && best < j)) ==>
      t[Side(Probe(key, m, j), t[Probe(key, m, j)].key, m, k)].Used?
  }

  /** The search of the main branch found the cheapest relocation, or that none pays. */
  lemma {:induction false} SearchedAll(t: seq<Slot>, m: nat, key: Key, n: nat, r: nat, j: nat, k: nat)
    requires 1 <= m <= 31 && |t| == Pow2(m) && Passed(t, m, key, n) && r <= n && NoBetter(t, m, key, n, r, j, n)
    requires r != n ==> j + k == r && Relocation(t, m, key, n, j, k)
    ensures if r == n then !exists j': nat, k': nat :: Cheaper(t, m, key, n, j', k')
            else Cheapest(t, m, key, n, j, k)
  {
    hide Passed, Probe, Side;
    forall j': nat, k': nat | Relocation(t, m, key, n, j', k')
      ensures r < j' + k' || (r == j' + k' && j' <= j)
    {
    }
  }

  /** The table u, with the new entry at site, is what it should be. */
  ghost predicate Settled(t: seq<Slot>, m: nat, key: Key, data: int, n: nat, brent: bool, u: seq<Slot>, site: nat) {
    && 1 <= m <= 31 && |t| == |u| == Pow2(m) && site < |u| && u[site] == Used(key, data)
    && GoodTable(u, m) && Contents(u) == Contents(t)[key := data] && |UsedSlots(u)| == |UsedSlots(t)| + 1
    && Entered(t, m, key, data, n, brent, u, site)
  }

  lemma {:induction false} SettledParts(t: seq<Slot>, m: nat, key: Key, data: int, n: nat, brent: bool, u: seq<Slot>,
      site: nat)
    requires Settled(t, m, key, data, n, brent, u, site)
    ensures 1 <= m <= 31 && |t| == |u| == Pow2(m) && site < |u| && u[site] == Used(key, data)
    ensures GoodTable(u, m) && Contents(u) == Contents(t)[key := data] && |UsedSlots(u)| == |UsedSlots(t)| + 1
    ensures Entered(t, m, key, data, n, brent, u, site)
  {
  }

  lemma {:induction false} PlainSettled(t: seq<Slot>, m: nat, key: Key, data: int, n: nat, brent: bool)
    requires GoodTable(t, m) && Passed(t, m, key, n) && t[Probe(key, m, n)].Empty?
    requires !brent || n + 1 < 3 || !exists j: nat, k: nat :: Cheaper(t, m, key, n, j, k)
    ensures Settled(t, m, key, data, n, brent, t[Probe(key, m, n) := Used(key, data)], Probe(key, m, n))
  {
    InsertGood(t, m, key, data, n);
    FilledSlots(t, Probe(key, m, n), Used(key, data));
  }

  /** The slot chosen by the search of the main branch is the right one. */
  lemma {:induction false} SearchSettled(t: seq<Slot>, m: nat, key: Key, data: int, n: nat, r: nat, j: nat, k: nat)
    requires GoodTable(t, m) && Passed(t, m, key, n) && t[Probe(key, m, n)].Empty? && n + 1 >= 3
    requires r <= n && NoBetter(t, m, key, n, r, j, n)
    requires r != n ==> j + k == r && Relocation(t, m, key, n, j, k)
    ensures var s := Used(key, data);
      if r == n then Settled(t, m, key, data, n, true, t[Probe(key, m, n) := s], Probe(key, m, n))
      else
        var site := Probe(key, m, j);
        Settled(t, m, key, data, n, true, Relocated(t, site, Side(site, t[site].key, m, k), s), site)
  {
    SearchedAll(t, m, key, n, r, j, k);
    if r == n {
      PlainSettled(t, m, key, data, n, true);
    } else {
      RelocatedGood(t, m, key, data, n, j, k);
      hide GoodTable, Passed, Probe, Side, NoBetter, Relocation, Contents, UsedSlots;
    }
  }

  /** The count is kept over a second hcreate: after one entry the new table is empty, yet counts it. */
  method CreateAgain(size: int, key: Key, data: int, brent: bool) returns (t: Table)
    requires 0 < size < 0x8000_0000
    ensures fresh(t) && t.table != null && Contents(t.table[..]) == map[] && t.count == 1 && !t.Valid()
  {
    t := new Table();
    var ok := t.HCreate(size, true);
    var r := t.HSearch(key, data, ENTER, brent);
    ok := t.HCreate(size, true);
  }

  lemma {:induction false} Pow2Step(m: nat)
    ensures Pow2(0) == 1 && Pow2(m + 1) == 2 * Pow2(m)
  {
  }

  /** After some halvings: size is u * l and a remainder, and l has not outgrown size by more than
      one doubling. */
  predicate Shifted(size: int, u: int, l: int) {
    u * l <= size < u * l + l && (l == 1 || l <= 2 * size)
  }

  lemma {:induction false} Halve(u: nat, l: nat, size: nat)
    requires u > 0 && l > 0 && Shifted(size, u, l)
    ensures Shifted(size, u / 2, 2 * l)
  {
    Sign(u, l);
    var h := u / 2;
    if u % 2 == 0 { EvenProduct(h, l); } else { OddProduct(h, l); }
  }

  lemma {:induction false} EvenProduct(h: int, l: int)
    ensures (2 * h) * l == h * (2 * l)
  {
  }

  lemma {:induction false} OddProduct(h: int, l: int)
    ensures (2 * h + 1) * l == h * (2 * l) + l
  {
  }

  lemma {:induction false} SizeOf(size: int, length: nat, m: nat)
    requires 0 < size < 0x8000_0000 && Shifted(size, 0, length) && length == Pow2(m)
    ensures 1 <= m <= 31 && size < length <= 2 * size
  {
    SmallPower(m);
  }

  lemma {:induction false} EmptyTable(t: seq<Slot>, m: nat)
    requires 1 <= m <= 31 && |t| == Pow2(m) && forall i :: 0 <= i < |t| ==> t[i] == Empty
    ensures GoodTable(t, m) && UsedSlots(t) == {} && Contents(t) == map[]
  {
    assert KeysOf(t) == {};
  }

  lemma {:induction false} SmallPower(m: nat)
    requires 0 < Pow2(m) < WORD
    ensures m <= 31
    decreases m
  {
    Pow2At32();
    if m >= 32 {
      Pow2Add(m - 32, 32);
      Sign(Pow2(m - 32), WORD);
    }
  }
}
