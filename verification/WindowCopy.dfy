/** bmt_cpmem.c, and its twin in host_mpp.c: copying between user memory and the memory of a board, of which
    one window at a time is mapped. Addresses are 32 bits wide and wrap. */
module WindowCopy {
  import opened Buffers

  const WINDOW := 0x2_0000            // RAMOFF
  const SPACE := 0x1_0000_0000
  const TOP := SPACE - WINDOW         // where the last window starts

  function Wrap(x: int): (w: int)
    ensures 0 <= w < SPACE
  {
    x % SPACE
  }

  /** Where the loop stops. */
  function End(start: int, cnt: int): int { Wrap(start + cnt) }

  /** The address behind the window of a: (a & -RAMOFF) + RAMOFF. */
  function Behind(a: int): int { Wrap(a - a % WINDOW + WINDOW) }

  /** The length of the piece at a. */
  function Piece(a: int, end: int): int { if Behind(a) < end then Wrap(Behind(a) - a) else end - a }

  /** The masks and the shift of the code are the remainders and the quotient used here. */
  lemma {:induction false} Masks(a: bv32)
    ensures -(0x2_0000 as bv32) == 0xfffe_0000
    ensures a & 0xfffe_0000 == a - a % 0x2_0000 && a & 0x1_ffff == a % 0x2_0000 && a >> 17 == a / 0x2_0000
  {
  }

  // ----- the pieces -----

  /** A piece stays inside its window, and below the end as long as the end is not in the last window. */
  lemma {:induction false} PieceFits(a: int, end: int)
    requires 0 <= a < end < SPACE
    ensures 0 < Piece(a, end) <= WINDOW - a % WINDOW
    ensures end <= TOP ==> a + Piece(a, end) <= end
    ensures end > TOP ==> Wrap(a + Piece(a, end)) < end && Piece(a, end) == WINDOW - a % WINDOW
  {
    var off, w := a % WINDOW, a / WINDOW;
    assert a == w * WINDOW + off && w < SPACE / WINDOW;
    var b := w * WINDOW + WINDOW;
    if w == SPACE / WINDOW - 1 {
      assert b == SPACE && Behind(a) == 0;
    } else {
      assert b <= TOP && Behind(a) == b;
    }
  }

  /** The loop copies as many bytes as it was asked for exactly when there are none, or the copy ends
      before the last window. */
  lemma {:induction false} CountIsRightIff(start: int, cnt: int)
    requires 0 <= start < SPACE && 0 <= cnt < 0x8000_0000
    ensures var end := End(start, cnt);
      (if end <= start then cnt == 0 else end <= TOP && end - start == cnt) <==> cnt == 0 || start + cnt <= TOP
  {
    if start + cnt < SPACE {
      assert End(start, cnt) == start + cnt;
    } else {
      assert End(start, cnt) == start + cnt - SPACE;
    }
  }

  // ----- the board -----

  class Board {
    var ram: seq<byte>        // all of the board's memory
    var map0: int             // the window that is mapped
    var user: seq<byte>       // the user memory that may be accessed, from address 0 on

    ghost predicate Valid()
      reads this
    {
      |ram| == SPACE && |user| < SPACE
    }

    constructor (accessible: seq<byte>)
      requires |accessible| < SPACE
      ensures Valid() && user == accessible
    {
      ram := seq(SPACE, _ => 0);
      map0 := 0;
      user := accessible;
    }

    /** copyin: to offset off of the mapped window. */
    method CopyInPiece(from: int, off: int, sz: int) returns (ok: bool)
      requires Valid() && 0 <= from && 0 <= off && 0 < sz && off + sz <= WINDOW && 0 <= map0 < SPACE / WINDOW
      modifies this`ram
      ensures Valid() && ok == (from + sz <= |user|)
      ensures map0 * WINDOW + off + sz <= |old(ram)|
      ensures ram == if ok then Overwrite(old(ram), map0 * WINDOW + off, user[from..from + sz]) else old(ram)
    {
      InRam(map0, off, sz);
      if from + sz > |user| { return false; }
      ram := Overwrite(ram, map0 * WINDOW + off, user[from..from + sz]);
      ok := true;
    }

    /** copyout: from offset off of the mapped window. */
    method CopyOutPiece(off: int, to: int, sz: int) returns (ok: bool)
      requires Valid() && 0 <= to && 0 <= off && 0 < sz && off + sz <= WINDOW && 0 <= map0 < SPACE / WINDOW
      modifies this`user
      ensures Valid() && ok == (to + sz <= |old(user)|)
      ensures map0 * WINDOW + off + sz <= |ram|
      ensures var at := map0 * WINDOW + off;
        user == if ok then Overwrite(old(user), to, ram[at..at + sz]) else old(user)
    {
      InRam(map0, off, sz);
      if to + sz > |user| { return false; }
      user := Overwrite(user, to, ram[map0 * WINDOW + off..map0 * WINDOW + off + sz]);
      ok := true;
    }

    /** One round of copy_in: a piece through its window. */
    method RoundIn(f: int, t: int, end: int) returns (ok: bool, f': int, t': int)
      requires Valid() && 0 <= f && 0 <= t < end < SPACE
      modifies this`ram, this`map0
      ensures Valid() && f' == f + Piece(t, end) && t' == Wrap(t + Piece(t, end)) && 0 < Piece(t, end)
      ensures end <= TOP ==> t' == t + Piece(t, end)
      ensures t + Piece(t, end) <= |old(ram)|
      ensures ok == (f' <= |user|) && user == old(user)
      ensures ram == if ok then Overwrite(old(ram), t, user[f..f']) else old(ram)
    {
      PieceFits(t, end);
      map0 := t / WINDOW;
      var p := Behind(t);
      var sz := if p < end then Wrap(p - t) else end - t;
      ok := CopyInPiece(f, t % WINDOW, sz);
      f' := f + sz;
      t' := Wrap(t + sz);
    }

    /** copy_in and bmtcopy_in. Between the start and an end outside the last window, it is a flat copy, or as
        much of one as the user memory allows. An end in the last window is never met: the copy runs over
        it, through all of the memory, until the user memory is used up. */
    method CopyIn(from: int, to: int, cnt: int) returns (r: int)
      requires Valid() && 0 <= from && 0 <= to < SPACE && -0x8000_0000 <= cnt < 0x8000_0000
      modifies this`ram, this`map0
      ensures Valid() && user == old(user)
      ensures End(to, cnt) <= to ==> r == 0 && ram == old(ram)
      ensures to < End(to, cnt) <= TOP ==> r == if from + (End(to, cnt) - to) <= |user| then 0 else -1
      ensures to < End(to, cnt) <= TOP && r == 0 ==> Copied(old(ram), to, user, from, End(to, cnt) - to, ram)
      ensures to < End(to, cnt) <= TOP && r == -1 ==>
        exists k :: k < End(to, cnt) - to && Copied(old(ram), to, user, from, k, ram)
      ensures to < End(to, cnt) && TOP < End(to, cnt) ==>
        r == -1 && exists k :: Overrun(from, to, |user|, k) && CopiedAround(old(ram), to, user, from, k, ram)
    {
      var f, t, end := from, to, End(to, cnt);
      ghost var was := ram;
      CopiedNone(was, to, user, from);
      NoneAround(was, to, user, from);
      hide Copied, CopiedAround, Piece, Overwrite, Behind, Wrap;
      while t < end
        invariant Valid() && user == old(user) && 0 <= t < SPACE && from <= f && (f == from || f <= |user|)
        invariant to < end <= TOP ==> to <= t <= end && f - from == t - to && Copied(was, to, user, from, t - to, ram)
        invariant TOP < end && to < end ==> t < end && t == Wrap(to + (f - from)) && (f == from || t % WINDOW == 0)
        invariant TOP < end && to < end ==> CopiedAround(was, to, user, from, f - from, ram)
        invariant end <= to ==> ram == was && t == to
        decreases |user| - f
      {
        PieceFits(t, end);
        ghost var before, k, sz := ram, t - to, Piece(t, end);
        var ok, f', t' := RoundIn(f, t, end);
        if end > TOP { NextAround(to, f - from, t, sz); }
        if !ok {
          assert end > TOP ==> Overrun(from, to, |user|, f - from);
          return -1;
        }
        if end <= TOP {
          CopiedMore(was, to, user, from, k, before, sz, ram);
        } else {
          AroundMore(was, to, user, from, f - from, before, t, sz, ram);
        }
        f, t := f', t';
      }
      r := 0;
    }

    /** One round of copy_out. */
    method RoundOut(f: int, t: int, end: int) returns (ok: bool, f': int, t': int)
      requires Valid() && 0 <= t && 0 <= f < end < SPACE
      modifies this`user, this`map0
      ensures Valid() && t' == t + Piece(f, end) && f' == Wrap(f + Piece(f, end)) && 0 < Piece(f, end)
      ensures end <= TOP ==> f' == f + Piece(f, end)
      ensures f + Piece(f, end) <= |ram|
      ensures ok == (t' <= |old(user)|) && |user| == |old(user)| && ram == old(ram)
      ensures user == if ok then Overwrite(old(user), t, ram[f..f + Piece(f, end)]) else old(user)
    {
      PieceFits(f, end);
      map0 := f / WINDOW;
      var p := Behind(f);
      var sz := if p < end then Wrap(p - f) else end - f;
      ok := CopyOutPiece(f % WINDOW, t, sz);
      t' := t + sz;
      f' := Wrap(f + sz);
    }

    /** copy_out and bmtcopy_out, the other way. */
    method CopyOut(from: int, to: int, cnt: int) returns (r: int)
      requires Valid() && 0 <= to && 0 <= from < SPACE && -0x8000_0000 <= cnt < 0x8000_0000
      modifies this`user, this`map0
      ensures Valid() && ram == old(ram) && |user| == |old(user)|
      ensures End(from, cnt) <= from ==> r == 0 && user == old(user)
      ensures from < End(from, cnt) <= TOP ==> r == if to + (End(from, cnt) - from) <= |user| then 0 else -1
      ensures from < End(from, cnt) <= TOP && r == 0 ==> Copied(old(user), to, ram, from, End(from, cnt) - from, user)
      ensures from < End(from, cnt) <= TOP && r == -1 ==>
        exists k :: k < End(from, cnt) - from && Copied(old(user), to, ram, from, k, user)
      ensures from < End(from, cnt) && TOP < End(from, cnt) ==>
        r == -1 && exists k :: Overrun(to, from, |user|, k) && CopiedFrom(old(user), to, ram, from, k, user)
    {
      var f, t, end := from, to, End(from, cnt);
      ghost var was := user;
      CopiedNone(was, to, ram, from);
      NoneFrom(was, to, ram, from);
      hide Copied, CopiedFrom, Piece, Overwrite, Behind, Wrap;
      while f < end
        invariant Valid() && ram == old(ram) && |user| == |was| && 0 <= f < SPACE && to <= t && (t == to || t <= |user|)
        invariant from < end <= TOP ==>
          from <= f <= end && t - to == f - from && Copied(was, to, ram, from, f - from, user)
        invariant TOP < end && from < end ==> f < end && f == Wrap(from + (t - to)) && (t == to || f % WINDOW == 0)
        invariant TOP < end && from < end ==> CopiedFrom(was, to, ram, from, t - to, user)
        invariant end <= from ==> user == was && f == from
        decreases |user| - t
      {
        PieceFits(f, end);
        ghost var before, k, sz := user, f - from, Piece(f, end);
        var ok, f', t' := RoundOut(f, t, end);
        if end > TOP { NextAround(from, t - to, f, sz); }
        if !ok {
          assert end > TOP ==> Overrun(to, from, |user|, t - to);
          return -1;
        }
        if end <= TOP {
          CopiedMore(was, to, ram, from, k, before, sz, user);
        } else {
          FromMore(was, to, ram, from, t - to, before, f, sz, user);
        }
        f, t := f', t';
      }
      r := 0;
    }
  }

  /** dst is what it was, but for k bytes of src copied flat. */
  predicate Copied(was: seq<byte>, to: int, src: seq<byte>, from: int, k: int, dst: seq<byte>) {
    0 <= k && if k == 0 then dst == was
      else
        && 0 <= to && 0 <= from && to + k <= |was| && from + k <= |src|
        && dst == Overwrite(was, to, src[from..from + k])
  }

  lemma {:induction false} CopiedNone(was: seq<byte>, to: int, src: seq<byte>, from: int)
    ensures Copied(was, to, src, from, 0, was)
  {
  }

  lemma {:induction false} CopiedMore(was: seq<byte>, to: int, src: seq<byte>, from: int, k: int, mid: seq<byte>,
      n: int, dst: seq<byte>)
    requires 0 <= to && 0 <= from && Copied(was, to, src, from, k, mid) && 0 < n
    requires to + k + n <= |mid| && from + k + n <= |src| && dst == Overwrite(mid, to + k, src[from + k..from + k + n])
    requires |mid| == |was|
    ensures Copied(was, to, src, from, k + n, dst)
  {
    if k > 0 {
      OverwriteMore(was, to, src[from..from + k], src[from + k..from + k + n]);
      assert src[from..from + k] + src[from + k..from + k + n] == src[from..from + (k + n)];
    }
  }

  // ----- a copy that does not meet its end -----

  /** It ends after k bytes: at the start or at a window's border, the next piece passing the end of the user
      memory. */
  predicate Overrun(at: int, start: int, limit: int, k: int) {
    && 0 <= k && (k == 0 || (at + k <= limit && (start + k) % WINDOW == 0))
    && limit < at + k + (WINDOW - (start + k) % WINDOW)
  }

  /** dst is what it was, but for k bytes of src from address `to` on, address 0 following the last one. */
  predicate CopiedAround(was: seq<byte>, to: int, src: seq<byte>, from: int, k: int, dst: seq<byte>) {
    if to + k <= SPACE then Copied(was, to, src, from, k, dst) else
      var j := SPACE - to;
      && 0 < j && 0 <= to && 0 <= from && to + j <= |was| && from + k <= |src|
      && Copied(Overwrite(was, to, src[from..from + j]), 0, src, from + j, k - j, dst)
  }

  /** The other way: k bytes of src from address `from` on, address 0 following the last one. */
  predicate CopiedFrom(was: seq<byte>, to: int, src: seq<byte>, from: int, k: int, dst: seq<byte>) {
    if from + k <= SPACE then Copied(was, to, src, from, k, dst) else
      var j := SPACE - from;
      && 0 < j && 0 <= from && 0 <= to && to + k <= |was| && from + j <= |src|
      && Copied(Overwrite(was, to, src[from..from + j]), to + j, src, 0, k - j, dst)
  }

  lemma {:induction false} NoneAround(was: seq<byte>, to: int, src: seq<byte>, from: int)
    ensures to <= SPACE ==> CopiedAround(was, to, src, from, 0, was)
    ensures 0 <= to < SPACE ==> Wrap(to) == to
  {
  }

  lemma {:induction false} NoneFrom(was: seq<byte>, to: int, src: seq<byte>, from: int)
    ensures from <= SPACE ==> CopiedFrom(was, to, src, from, 0, was)
    ensures 0 <= from < SPACE ==> Wrap(from) == from
  {
  }

  lemma {:induction false} NextAround(start: int, k: int, a: int, sz: int)
    requires 0 <= start < SPACE && 0 <= k && a == Wrap(start + k) && sz == WINDOW - a % WINDOW
    ensures Wrap(a + sz) == Wrap(start + (k + sz)) && a % WINDOW == (start + k) % WINDOW
    ensures a + sz <= SPACE && Wrap(a + sz) % WINDOW == 0
  {
  }

  lemma {:induction false} AroundMore(was: seq<byte>, to: int, src: seq<byte>, from: int, k: int, mid: seq<byte>,
      a: int, n: int, dst: seq<byte>)
    requires 0 <= to < SPACE && 0 <= from && 0 <= k && 0 < n && |was| == |mid| == SPACE > |src|
    requires CopiedAround(was, to, src, from, k, mid) && a == Wrap(to + k) && a + n <= SPACE && from + k + n <= |src|
    requires dst == Overwrite(mid, a, src[from + k..from + k + n])
    ensures CopiedAround(was, to, src, from, k + n, dst)
  {
    hide Copied, Overwrite;
    var j := SPACE - to;
    assert a == if k < j then to + k else k - j;
    hide Wrap;
    if k < j {
      CopiedMore(was, to, src, from, k, mid, n, dst);
    } else {
      if k == j { AtTheTop(was, to, src, from, mid); }
      CopiedMore(Overwrite(was, to, src[from..from + j]), 0, src, from + j, k - j, mid, n, dst);
    }
  }

  lemma {:induction false} AtTheTop(was: seq<byte>, to: int, src: seq<byte>, from: int, mid: seq<byte>)
    requires 0 <= to < SPACE && 0 <= from && |was| == SPACE && from + (SPACE - to) <= |src|
    requires Copied(was, to, src, from, SPACE - to, mid)
    ensures var j := SPACE - to; Copied(Overwrite(was, to, src[from..from + j]), 0, src, from + j, 0, mid)
  {
  }

  lemma {:induction false} FromMore(was: seq<byte>, to: int, src: seq<byte>, from: int, k: int, mid: seq<byte>,
      a: int, n: int, dst: seq<byte>)
    requires 0 <= from < SPACE == |src| && 0 <= to && 0 <= k && 0 < n && to + k + n <= |was| == |mid| < SPACE
    requires CopiedFrom(was, to, src, from, k, mid) && a == Wrap(from + k) && a + n <= SPACE
    requires dst == Overwrite(mid, to + k, src[a..a + n])
    ensures CopiedFrom(was, to, src, from, k + n, dst)
  {
    hide Copied, Overwrite;
    var j := SPACE - from;
    assert a == if k < j then from + k else k - j;
    hide Wrap;
    if k < j {
      CopiedMore(was, to, src, from, k, mid, n, dst);
    } else {
      if k == j { FromTheTop(was, to, src, from, mid); }
      CopiedMore(Overwrite(was, to, src[from..from + j]), to + j, src, 0, k - j, mid, n, dst);
    }
  }

  lemma {:induction false} FromTheTop(was: seq<byte>, to: int, src: seq<byte>, from: int, mid: seq<byte>)
    requires 0 <= from < SPACE == |src| && 0 <= to && to + (SPACE - from) <= |was|
    requires Copied(was, to, src, from, SPACE - from, mid)
    ensures var j := SPACE - from; Copied(Overwrite(was, to, src[from..from + j]), to + j, src, 0, 0, mid)
  {
  }

  lemma {:induction false} InRam(w: int, off: int, sz: int)
    requires 0 <= w < SPACE / WINDOW && 0 <= off && off + sz <= WINDOW
    ensures w * WINDOW + off + sz <= SPACE
  {
  }
}
