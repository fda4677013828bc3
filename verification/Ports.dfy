/** sbp.c and icc_ether.c: configuring the input port numbers. */
module Ports {
  import Arithmetic

  const MAXPORTS := 50
  const DYNAMIC := 1000
  const FREEMIN := 1001
  const FREEMAX := 4095
  const RANGE := 3095    // how many numbers there are to allocate

  /** A port: whether it is configured, and the number it then has. */
  datatype Port = Port(conf: bool, inport: int)

  predicate Holds(ps: seq<Port>, i: int, n: int)
    requires 0 <= i < |ps|
  {
    ps[i].conf && ps[i].inport == n
  }

  predicate Clash(ps: seq<Port>, n: int) { exists i :: 0 <= i < |ps| && Holds(ps, i, n) }

  predicate Apart(ps: seq<Port>, i: int, j: int)
    requires 0 <= i < j < |ps|
  {
    ps[i].conf && ps[j].conf ==> ps[i].inport != ps[j].inport
  }

  /** No two configured ports have the same number. */
  predicate Distinct(ps: seq<Port>) { forall i, j :: 0 <= i < j < |ps| ==> Apart(ps, i, j) }

  // ----- the numbers tried -----

  /** Number k of the search that starts at the cursor. */
  function Nth(cursor: int, k: nat): (n: int)
    ensures FREEMIN <= n <= FREEMAX
  {
    FREEMIN + (cursor - FREEMIN + k) % RANGE
  }

  function Tried(cursor: int, k: nat): set<int> {
    if k == 0 then {} else Tried(cursor, k - 1) + {Nth(cursor, k - 1)}
  }

  lemma {:induction false} NthStep(cursor: int, k: nat)
    ensures Nth(cursor, k + 1) == if Nth(cursor, k) + 1 > FREEMAX then FREEMIN else Nth(cursor, k) + 1
  {
    var x := cursor - FREEMIN + k;
    var q, r := x / RANGE, x % RANGE;
    if r + 1 < RANGE {
      Arithmetic.ModUnique(x + 1, RANGE, q, r + 1);
    } else {
      Arithmetic.ModUnique(x + 1, RANGE, q + 1, 0);
    }
  }

  /** The search starts at the cursor and goes up by one, from 4095 back to 1001. */
  lemma {:induction false} NthGoesUp(cursor: int, k: nat)
    requires 1001 <= cursor <= 4095
    ensures Nth(cursor, 0) == cursor
    ensures Nth(cursor, k + 1) == if Nth(cursor, k) == 4095 then 1001 else Nth(cursor, k) + 1
  {
    Arithmetic.ModUnique(cursor - FREEMIN, RANGE, 0, cursor - FREEMIN);
    NthStep(cursor, k);
  }

  /** Within one round no number comes twice. */
  lemma {:induction false} NthApart(cursor: int, i: nat, k: nat)
    requires i < k < i + RANGE
    ensures Nth(cursor, i) != Nth(cursor, k)
  {
    if Nth(cursor, i) == Nth(cursor, k) {
      Arithmetic.ModEqual(cursor - FREEMIN + k, cursor - FREEMIN + i, RANGE);
      Arithmetic.ModUnique(k - i, RANGE, 0, k - i);
    }
  }

  lemma {:induction false} TriedMember(cursor: int, k: nat, n: int)
    requires n in Tried(cursor, k)
    ensures exists i: nat :: i < k && Nth(cursor, i) == n
  {
    if n != Nth(cursor, k - 1) { TriedMember(cursor, k - 1, n); }
  }

  lemma {:induction false} TriedCount(cursor: int, k: nat)
    requires k <= RANGE
    ensures |Tried(cursor, k)| == k
  {
    if k > 0 {
      TriedCount(cursor, k - 1);
      var n := Nth(cursor, k - 1);
      if n in Tried(cursor, k - 1) {
        TriedMember(cursor, k - 1, n);
        var i: nat :| i < k - 1 && Nth(cursor, i) == n;
        NthApart(cursor, i, k - 1);
      }
    }
  }

  // ----- the numbers in use -----

  function InUse(ps: seq<Port>): (s: set<int>) {
    if ps == [] then {} else InUse(ps[..|ps| - 1]) + if ps[|ps| - 1].conf then {ps[|ps| - 1].inport} else {}
  }

  function Configured(ps: seq<Port>): nat {
    if ps == [] then 0 else Configured(ps[..|ps| - 1]) + if ps[|ps| - 1].conf then 1 else 0
  }

  lemma {:induction false} InUseIff(ps: seq<Port>, n: int)
    ensures n in InUse(ps) <==> Clash(ps, n)
  {
    if ps != [] {
      var r, l := ps[..|ps| - 1], |ps| - 1;
      InUseIff(r, n);
      if Clash(r, n) {
        var i :| 0 <= i < |r| && Holds(r, i, n);
        assert Holds(ps, i, n);
      }
      if Clash(ps, n) {
        var i :| 0 <= i < |ps| && Holds(ps, i, n);
        if i < l { assert Holds(r, i, n); }
      }
      if ps[l].conf && ps[l].inport == n { assert Holds(ps, l, n); }
    }
  }

  lemma {:induction false} InUseCount(ps: seq<Port>)
    ensures |InUse(ps)| <= Configured(ps) <= |ps|
    ensures (exists i :: 0 <= i < |ps| && !ps[i].conf) ==> Configured(ps) < |ps|
  {
    if ps != [] {
      var r, l := ps[..|ps| - 1], |ps| - 1;
      InUseCount(r);
      if i :| 0 <= i < |ps| && !ps[i].conf {
        assert i < l ==> !r[i].conf;
      }
    }
  }

  lemma {:induction false} SmallerSubset(a: set<int>, b: set<int>)
    requires a <= b
    ensures |a| <= |b|
  {
    assert a + (b - a) == b;
  }

  /** The pigeonhole: numbers that all clash are no more than the ports that hold them. */
  lemma {:induction false} TriesBounded(ps: seq<Port>, cursor: int, k: nat)
    requires k <= RANGE && forall i: nat :: i < k ==> Clash(ps, Nth(cursor, i))
    ensures k <= Configured(ps)
  {
    forall n | n in Tried(cursor, k) ensures n in InUse(ps) {
      TriedMember(cursor, k, n);
      InUseIff(ps, n);
    }
    SmallerSubset(Tried(cursor, k), InUse(ps));
    TriedCount(cursor, k);
    InUseCount(ps);
  }

  /** While one port is not configured, a free number comes up within as many tries as there are ports. */
  lemma {:induction false} FreeNumberExists(ps: seq<Port>, cursor: int)
    requires |ps| <= RANGE && exists i :: 0 <= i < |ps| && !ps[i].conf
    ensures exists k: nat :: k < |ps| && !Clash(ps, Nth(cursor, k))
  {
    InUseCount(ps);
    if forall k: nat :: k < |ps| ==> Clash(ps, Nth(cursor, k)) {
      TriesBounded(ps, cursor, |ps|);
    }
  }

  /** n is the first number from the cursor on that nobody has, and comes within as many tries as there
      are ports; the cursor moves behind it. */
  ghost predicate FirstFree(ps: seq<Port>, cursor: int, n: int, next: int) {
    exists k: nat :: k < |ps| && NthIs(ps, cursor, k, n, next)
  }

  ghost predicate NthIs(ps: seq<Port>, cursor: int, k: nat, n: int, next: int) {
    && n == Nth(cursor, k) && next == Nth(cursor, k + 1) && !Clash(ps, n)
    && forall i: nat :: i < k ==> Clash(ps, Nth(cursor, i))
  }

  /** x comes before n when counting up from the cursor, with 1001 behind 4095. */
  predicate Before(cursor: int, x: int, n: int) {
    1001 <= x <= 4095 && if cursor <= n then cursor <= x < n else x >= cursor || x < n
  }

  /** In numbers: n is free, all that come before it are taken, and the cursor moves to the next. */
  lemma {:induction false} FirstFreeTells(ps: seq<Port>, cursor: int, n: int, next: int)
    requires 1001 <= cursor <= 4095 && FirstFree(ps, cursor, n, next)
    ensures 1001 <= n <= 4095 && !Clash(ps, n) && next == if n == 4095 then 1001 else n + 1
    ensures forall x :: Before(cursor, x, n) ==> Clash(ps, x)
  {
    var k: nat :| k < |ps| && NthIs(ps, cursor, k, n, next);
    NthGoesUp(cursor, k);
    forall x | Before(cursor, x, n) ensures Clash(ps, x) {
      var i := if cursor <= x then x - cursor else x - cursor + 3095;
      assert Nth(cursor, i) == x;
      assert i < k;
    }
  }

  // ----- the code both drivers have -----

  /** sbpclash and icc_bbpclash */
  method Clashes(ps: seq<Port>, n: int) returns (b: bool)
    ensures b == Clash(ps, n)
  {
    var i := 0;
    while i < |ps|
      invariant 0 <= i <= |ps| && forall j :: 0 <= j < i ==> !Holds(ps, j, n)
    {
      if ps[i].conf && ps[i].inport == n {
        assert Holds(ps, i, n);
        return true;
      }
      i := i + 1;
    }
    b := false;
  }

  /** The loop for DYNAMIC: the first number from the cursor on that no configured port has. */
  method Allocate(ps: seq<Port>, cursor: int) returns (n: int, next: int)
    requires FREEMIN <= cursor <= FREEMAX && |ps| <= RANGE && exists i :: 0 <= i < |ps| && !ps[i].conf
    ensures FirstFree(ps, cursor, n, next)
  {
    InUseCount(ps);
    next := cursor;
    ghost var tries: nat := 0;
    Arithmetic.ModUnique(cursor - FREEMIN, RANGE, 0, cursor - FREEMIN);
    while true
      invariant tries < |ps| && next == Nth(cursor, tries) && forall i: nat :: i < tries ==> Clash(ps, Nth(cursor, i))
      decreases |ps| - tries
    {
      n := next;
      next := next + 1;
      if next > FREEMAX { next := FREEMIN; }
      NthStep(cursor, tries);
      var clash := Clashes(ps, n);
      if !clash {
        assert NthIs(ps, cursor, tries, n, next);
        return;
      }
      tries := tries + 1;
      TriesBounded(ps, cursor, tries);
    }
  }

  // ----- BBPSET -----

  datatype Set = Refused | Faulted | Done

  /** What one BBPSET makes of the ports, given the number asked for, or what a failed copy left behind. */
  ghost predicate SetTo(ps: seq<Port>, cursor: int, dev: nat, asked: int, copied: bool, result: Set, ps': seq<Port>,
      next: int)
    requires dev < |ps|
  {
    && |ps'| == |ps|
    && (forall i :: 0 <= i < |ps| && i != dev ==> ps'[i] == ps[i])
    && (result == Done <==> ps'[dev].conf)
    && (result == Faulted <==> !copied)
    && (result == Refused <==> copied && asked != DYNAMIC && Clash(ps[dev := Port(false, asked)], asked))
    && (!(result == Done && asked == DYNAMIC) ==> ps'[dev].inport == asked && next == cursor)
    && (result == Done && asked == DYNAMIC ==> FirstFree(ps[dev := Port(false, asked)], cursor, ps'[dev].inport, next))
  }

  /** In words of the ports alone: what is asked for is set, or, for 1000, the number found; it is configured
      unless the copy failed or another port has it. */
  lemma {:induction false} SetToTells(ps: seq<Port>, cursor: int, dev: nat, asked: int, copied: bool, result: Set,
      ps': seq<Port>, next: int)
    requires dev < |ps| && 1001 <= cursor <= 4095 && SetTo(ps, cursor, dev, asked, copied, result, ps', next)
    ensures !copied ==> result == Faulted && ps' == ps[dev := Port(false, asked)] && next == cursor
    ensures copied && asked != 1000 && Taken(ps, dev, asked) ==>
      result == Refused && ps' == ps[dev := Port(false, asked)] && next == cursor
    ensures copied && asked != 1000 && !Taken(ps, dev, asked) ==>
      result == Done && ps' == ps[dev := Port(true, asked)] && next == cursor
    ensures copied && asked == 1000 ==>
      result == Done && |ps'| == |ps| && ps' == ps[dev := Port(true, ps'[dev].inport)]
      && !Taken(ps, dev, ps'[dev].inport) && 1001 <= ps'[dev].inport <= 4095
      && next == if ps'[dev].inport == 4095 then 1001 else ps'[dev].inport + 1
  {
    var off := ps[dev := Port(false, asked)];
    forall n ensures Clash(off, n) <==> Taken(ps, dev, n) {
      if i :| 0 <= i < |off| && Holds(off, i, n) { assert Holds(ps, i, n); }
      if i :| 0 <= i < |ps| && i != dev && Holds(ps, i, n) { assert Holds(off, i, n); }
    }
    if result == Done && asked == DYNAMIC { FirstFreeTells(off, cursor, ps'[dev].inport, next); }
  }

  /** Another configured port has number n. */
  predicate Taken(ps: seq<Port>, dev: nat, n: int) { exists i :: 0 <= i < |ps| && i != dev && Holds(ps, i, n) }

  method Configure(ps: seq<Port>, cursor: int, dev: nat, asked: int, copied: bool)
    returns (result: Set, ps': seq<Port>, next: int)
    requires dev < |ps| <= RANGE && FREEMIN <= cursor <= FREEMAX && Distinct(ps)
    ensures Distinct(ps') && FREEMIN <= next <= FREEMAX
    ensures SetTo(ps, cursor, dev, asked, copied, result, ps', next)
  {
    ps' := ps[dev := ps[dev].(conf := false)];
    next := cursor;
    ps' := ps'[dev := ps'[dev].(inport := asked)];
    Cleared(ps, dev, asked);
    assert ps' == ps[dev := Port(false, asked)];
    if !copied { return Faulted, ps', next; }
    assert !ps'[dev].conf;
    ghost var off := ps';
    if asked == DYNAMIC {
      var n;
      n, next := Allocate(ps', cursor);
      ps' := ps'[dev := ps'[dev].(inport := n)];
      NoClashNow(off, dev, n);
    } else {
      var clash := Clashes(ps', asked);
      if clash { return Refused, ps', next; }
      NoClashNow(off, dev, asked);
    }
    ps' := ps'[dev := ps'[dev].(conf := true)];
    assert ps' == off[dev := Port(true, ps'[dev].inport)];
    result := Done;
  }

  lemma {:induction false} Cleared(ps: seq<Port>, dev: nat, asked: int)
    requires dev < |ps| && Distinct(ps)
    ensures Distinct(ps[dev := Port(false, asked)])
  {
    var r := ps[dev := Port(false, asked)];
    forall i, j | 0 <= i < j < |r| ensures Apart(r, i, j) { assert Apart(ps, i, j); }
  }

  lemma {:induction false} NoClashNow(ps: seq<Port>, dev: nat, n: int)
    requires dev < |ps| && Distinct(ps) && !ps[dev].conf && !Clash(ps, n)
    ensures Distinct(ps[dev := Port(true, n)])
  {
    var r := ps[dev := Port(true, n)];
    forall i, j | 0 <= i < j < |r| ensures Apart(r, i, j) {
      assert Apart(ps, i, j);
      if i == dev { assert !Holds(ps, j, n); }
      if j == dev { assert !Holds(ps, i, n); }
    }
  }

  // ----- the ports of sbp.c -----

  class Sbp {
    var ports: seq<Port>
    var isOpen: seq<bool>
    var full: seq<bool>       // SBP_BUF: a message waits to be read
    var free: int             // sbpfree

    ghost predicate Valid()
      reads this
    {
      |ports| == |isOpen| == |full| == MAXPORTS && Distinct(ports) && FREEMIN <= free <= FREEMAX
    }

    constructor ()
      ensures Valid() && forall i :: 0 <= i < MAXPORTS ==> !ports[i].conf && !isOpen[i] && !full[i]
    {
      ports := seq(MAXPORTS, _ => Port(false, 0));
      isOpen := seq(MAXPORTS, _ => false);
      full := seq(MAXPORTS, _ => false);
      free := DYNAMIC + 1;
    }

    /** sbpioctl BBPSET: the port also gives up its message when its number changes. */
    method BbpSet(dev: nat, asked: int, copied: bool) returns (result: Set)
      requires Valid() && dev < MAXPORTS
      modifies this`ports, this`full, this`free
      ensures Valid() && |old(ports)| == MAXPORTS
      ensures SetTo(old(ports), old(free), dev, asked, copied, result, ports, free)
      ensures full == if copied && asked != old(ports)[dev].inport then old(full)[dev := false] else old(full)
    {
      var inport := ports[dev].inport;
      if copied && asked != inport && full[dev] { full := full[dev := false]; }
      result, ports, free := Configure(ports, free, dev, asked, copied);
    }

    /** sbpclose, after the last message is sent: the port is free again. */
    method Close(dev: nat)
      requires Valid() && dev < MAXPORTS
      modifies this`ports, this`isOpen, this`full
      ensures Valid() && ports == old(ports)[dev := Port(false, old(ports)[dev].inport)]
      ensures isOpen == old(isOpen)[dev := false] && full == old(full)[dev := false]
    {
      Cleared(ports, dev, ports[dev].inport);
      ports := ports[dev := ports[dev].(conf := false)];
      isOpen := isOpen[dev := false];
      full := full[dev := false];
    }

    /** sbpopen: ENXIO, EACCES or success. */
    method Open(dev: nat) returns (ok: bool)
      requires Valid()
      modifies this`ports, this`isOpen, this`full
      ensures Valid() && ok == (dev < MAXPORTS && !old(isOpen)[dev])
      ensures !ok ==> ports == old(ports) && isOpen == old(isOpen) && full == old(full)
      ensures ok ==> isOpen == old(isOpen)[dev := true] && !ports[dev].conf && !full[dev]
      ensures forall i :: 0 <= i < MAXPORTS && i != dev ==> ports[i] == old(ports)[i] && full[i] == old(full)[i]
    {
      if dev >= MAXPORTS { return false; }
      if isOpen[dev] { return false; }
      Cleared(ports, dev, ports[dev].inport);
      ports := ports[dev := ports[dev].(conf := false)];    // the flags are assigned anew
      isOpen := isOpen[dev := true];
      full := full[dev := false];
      ok := true;
    }
  }
}
