/** The compiler of regexp.h as it runs: one pass over the pattern that stores through `ep` and
    goes back to patch the last opcode. */
module RegexpCompile {
  import opened Buffers
  import opened RegexpCode
  import opened RegexpSyntax

  /** The bytes of a list of raw instructions. */
  function Flat(code: seq<Instr>): seq<byte> {
    if code == [] then [] else
      var n := |code| - 1;
      Flat(code[..n]) + [code[n].op] + code[n].args
  }

  /** Where the last instruction starts. */
  function LastAt(code: seq<Instr>): int {
    if code == [] then -1 else |Flat(code[..|code| - 1])|
  }

  // ----- bytes of a bitmap under PLACE and negation -----

  lemma {:induction false} BitClear(b: byte, j: int)
    requires 0 <= j < 8 && !Bit(b, j)
    ensures b + BITTAB[j] < 256
  {
  }

  /** b | bittab[j] */
  function SetBit(b: byte, j: int): byte
    requires 0 <= j < 8
  {
    if Bit(b, j) then b else (BitClear(b, j); b + BITTAB[j])
  }

  lemma {:induction false} PlaceInNibble(S: set<int>, c: int, base: int)
    ensures base <= c < base + 4 ==>
      Nibble(S + {c}, base) == Nibble(S, base) + (if c in S then 0 else [1, 2, 4, 8][c - base])
    ensures !(base <= c < base + 4) ==> Nibble(S + {c}, base) == Nibble(S, base)
  {
  }

  lemma {:induction false} PlaceInByte(S: set<int>, c: int, base: int)
    ensures base <= c < base + 8 ==> ByteOf(S + {c}, base) == SetBit(ByteOf(S, base), c - base)
    ensures !(base <= c < base + 8) ==> ByteOf(S + {c}, base) == ByteOf(S, base)
  {
    PlaceInNibble(S, c, base);
    PlaceInNibble(S, c, base + 4);
    if base <= c < base + 8 { ByteOfBit(S, base, c - base); }
  }

  /** PLACE(c) on the bitmap of S gives the bitmap of S with c. */
  lemma {:induction false} PlaceExact(S: set<int>, c: byte, n: nat)
    requires c < 8 * n
    ensures Bitmap(S + {c as int}, n) ==
      Bitmap(S, n)[c / 8 := SetBit(Bitmap(S, n)[c / 8], c % 8)]
  {
    var before, after := Bitmap(S, n), Bitmap(S + {c as int}, n);
    forall i | 0 <= i < n ensures after[i] == before[c / 8 := SetBit(before[c / 8], c % 8)][i] {
      PlaceInByte(S, c, 8 * i);
      assert i == c / 8 <==> 8 * i <= c < 8 * i + 8;
    }
  }

  lemma {:induction false} NegateNibble(S: set<int>, base: int)
    requires 0 <= base < 253
    ensures Nibble(Interval(1, 256) - S, base) ==
      15 - Nibble(S, base) - (if base == 0 && 0 !in S then 1 else 0)
  {
  }

  /** Flipping all bits complements the set, and clearing the lowest of the first byte takes NUL out. */
  lemma {:induction false} NegateExact(S: set<int>, i: nat)
    requires i < 32
    ensures var b := 255 - ByteOf(S, 8 * i);
            ByteOf(Interval(1, 256) - S, 8 * i) == if i == 0 then b - b % 2 else b
  {
    NegateNibble(S, 8 * i);
    NegateNibble(S, 8 * i + 4);
    if i == 0 { ByteOfBit(S, 0, 0); }
  }

  lemma {:induction false} NegateBits(S: set<int>, before: seq<byte>, after: seq<byte>)
    requires before == Bitmap(S, 32) && |after| == 32
    requires forall i :: 0 < i < 32 ==> after[i] == 255 - before[i]
    requires after[0] == (255 - before[0]) - (255 - before[0]) % 2
    ensures after == Bitmap(Interval(1, 256) - S, 32)
  {
    var flipped := Interval(1, 256) - S;
    forall i | 0 <= i < 32 ensures after[i] == Bitmap(flipped, 32)[i] {
      NegateExact(S, i);
      assert before[i] == ByteOf(S, 8 * i);
      hide ByteOf;
    }
  }

  /** Setting the lowest bit of the first byte adds NUL. */
  lemma {:induction false} AddNul(S: set<int>, n: nat)
    requires n > 0
    ensures Bitmap(S + {0}, n) == Bitmap(S, n)[0 := SetBit(Bitmap(S, n)[0], 0)]
  {
    PlaceExact(S, 0, n);
  }

  /** Widening: a bitmap of ASCII characters gains sixteen zero bytes. */
  lemma {:induction false} WidenExact(S: set<int>)
    requires forall x :: x in S ==> x < 128
    ensures Bitmap(S, 32) == Bitmap(S, 16) + seq(16, _ => 0)
  {
  }

  // ----- Flat -----

  lemma {:induction false} FlatSnoc(code: seq<Instr>, i: Instr)
    ensures Flat(code + [i]) == Flat(code) + [i.op] + i.args
    ensures LastAt(code + [i]) == |Flat(code)|
  {
    assert (code + [i])[..|code|] == code;
  }

  lemma {:induction false} FlatLast(code: seq<Instr>)
    requires code != []
    ensures 0 <= LastAt(code) < |Flat(code)| && Flat(code)[LastAt(code)] == code[|code| - 1].op
  {
  }

  lemma PatchAt(front: seq<byte>, was: byte, now: byte, args: seq<byte>, more: seq<byte>)
    ensures (front + [was] + args)[|front| := now] + more == front + [now] + (args + more)
  {
    assert (front + [was] + args)[|front| := now] == front + [now] + args;
  }

  /** Patching the last opcode and appending operands. */
  lemma {:induction false} FlatPatch(code: seq<Instr>, op: byte, more: seq<byte>)
    requires code != [] && 0 <= LastAt(code) < |Flat(code)|
    ensures var patched := code[..|code| - 1] + [Instr(op, code[|code| - 1].args + more)];
      Flat(code)[LastAt(code) := op] + more == Flat(patched) && LastAt(patched) == LastAt(code)
  {
    var front, last := code[..|code| - 1], code[|code| - 1];
    assert Flat(code) == Flat(front) + [last.op] + last.args;
    FlatSnoc(front, Instr(op, last.args + more));
    PatchAt(Flat(front), last.op, op, last.args, more);
    hide Flat;
  }

  // ----- the compiler -----

  datatype Status = Done | Kept | Failed(error: int) | RanOut

  function StatusOf(o: Outcome): Status {
    match o
    case Compiled(_, _, _, _) => Done
    case KeepOld(_) => Kept
    case Error(e) => Failed(e)
    case Overrun => RanOut
  }

  class Compiler {
    const pat: seq<byte>
    const d: Delim
    const buf: array<byte>
    const bracket: array<byte>
    var sp: int
    var ep: int
    var lastep: int       // -1 stands for a null pointer
    var bracketp: int
    var nbra: int
    var closed: int
    var circf: bool
    var nodelim: bool
    ghost var code: seq<Instr>

    constructor (pat: seq<byte>, d: Delim, buf: array<byte>)
      requires buf.Length > 33 * |pat|
      ensures Shape() && this.pat == pat && this.d == d && this.buf == buf && fresh(bracket) && !nodelim
    {
      this.pat, this.d, this.buf := pat, d, buf;
      bracket := new byte[NBRA];
      nodelim := false;
    }

    ghost predicate Shape() {
      buf.Length > 33 * |pat| && bracket.Length == NBRA && bracket != buf
    }

    /** Between two pattern characters: the buffer holds the code so far. */
    ghost predicate Valid()
      reads this, buf, bracket
    {
      && Shape()
      && 0 <= sp <= |pat| && 0 <= ep <= 33 * sp
      && buf[..ep] == Flat(code) && lastep == LastAt(code)
      && 0 <= bracketp <= nbra <= NBRA && 0 <= closed
    }

    ghost function St(): State
      reads this, bracket
      requires bracket.Length == NBRA && 0 <= bracketp <= NBRA && 0 <= nbra && 0 <= closed
    {
      State(code, bracket[..bracketp], nbra, closed)
    }

    /** An opcode and its operand byte are stored as a new instruction. */
    method Store2(op: byte, arg: byte)
      requires Valid() && ep + 2 <= 33 * sp
      modifies this`ep, this`lastep, this`code, buf
      ensures Valid() && St() == Emit(old(St()), op, [arg])
    {
      FlatSnoc(code, Instr(op, [arg]));
      lastep := ep;
      buf[ep] := op;
      buf[ep + 1] := arg;
      ep := ep + 2;
      code := code + [Instr(op, [arg])];
    }

    method Store1(op: byte)
      requires Valid() && ep + 1 <= 33 * sp
      modifies this`ep, this`lastep, this`code, buf
      ensures Valid() && St() == Emit(old(St()), op, [])
    {
      FlatSnoc(code, Instr(op, []));
      lastep := ep;
      buf[ep] := op;
      ep := ep + 1;
      code := code + [Instr(op, [])];
    }

    /** The last instruction stored becomes a starred one. */
    method Star()
      requires Valid() && code != []
      modifies this`code, buf
      ensures Valid() && St() == Amend(old(St()), OrStar(LastOp(old(St()))), [])
    {
      FlatLast(code);
      ghost var flat, n := Flat(code), |code| - 1;
      assert buf[..ep][lastep] == buf[lastep];
      var op := OrStar(buf[lastep]);
      FlatPatch(code, op, []);
      buf[lastep] := op;
      assert buf[..ep] == flat[lastep := op] + [];
      code := code[..n] + [Instr(op, code[n].args + [])];
    }

    /** nlim: one number, and the character that ended it. */
    method Number() returns (s: Status, i: int, c: byte)
      requires 0 <= sp <= |pat|
      modifies this`sp
      ensures old(sp) <= sp <= |pat|
      ensures match ScanNum(pat, old(sp), 0)
              case Num(v, stop, at) => s == Done && i == v && c == stop && sp == at
              case NumError => s == Failed(16)
              case NumOverrun => s == RanOut
    {
      i, c := 0, 0;
      if sp == |pat| { return RanOut, i, c; }
      c := pat[sp];
      sp := sp + 1;
      while true
        invariant old(sp) < sp <= |pat| && c == pat[sp - 1]
        invariant ScanNum(pat, old(sp), 0) == ScanNum(pat, sp - 1, i)
        decreases |pat| - sp
      {
        if ZERO <= c <= NINE {
          i := Wrap32(10 * i + c - ZERO);
        } else {
          return Failed(16), i, c;
        }
        if sp == |pat| { return RanOut, i, c; }
        c := pat[sp];
        sp := sp + 1;
        if !(c != BSLASH && c != COMMA) { break; }
      }
      return Done, i, c;
    }

    /** The operand of \{: read the limits and store them through ep. */
    method Limit2() returns (s: Status)
      requires Shape() && 0 < sp <= |pat| && 0 <= ep && ep + 2 <= buf.Length
      modifies this`sp, this`ep, buf
      ensures old(sp) <= sp
      ensures match ScanRange(pat, old(sp))
              case Limits(lo, hi, at) =>
                s == Done && sp == at && ep == old(ep) + 2 && buf[..ep] == old(buf[..ep]) + [lo, hi]
              case RangeError(e) => s == Failed(e)
              case RangeOverrun => s == RanOut
    {
      var st, i, c := Number();
      if st != Done { return st; }
      if i > 255 { return Failed(11); }
      var lo := LowByte(i);
      buf[ep] := lo;
      ep := ep + 1;
      var cflg := c == COMMA;
      if cflg {
        if sp == |pat| { return RanOut; }
        if pat[sp] == BSLASH {
          sp := sp + 1;
          buf[ep] := 255;
          ep := ep + 1;
        } else {
          st, i, c := Number();
          if st != Done { return st; }
          if i > 255 { return Failed(11); }
          buf[ep] := LowByte(i);
          ep := ep + 1;
          if c == COMMA { return Failed(44); }
        }
      }
      if sp == |pat| { return RanOut; }
      c := pat[sp];
      sp := sp + 1;
      if c != RBRC { return Failed(45); }
      if !cflg {
        buf[ep] := lo;
        ep := ep + 1;
      } else if buf[ep - 1] < buf[ep - 2] {
        return Failed(46);
      }
      return Done;
    }

    /** The case of \{: patch the last opcode, then store the two limits. */
    method Range() returns (s: Status)
      requires Valid() && code != [] && 0 < sp && ep + 2 <= 33 * sp
      modifies this`sp, this`ep, this`code, buf
      ensures old(sp) <= sp
      ensures match ScanRange(pat, old(sp))
              case Limits(lo, hi, at) =>
                s == Done && sp == at && Valid() && St() == Amend(old(St()), OrRnge(LastOp(old(St()))), [lo, hi])
              case RangeError(e) => s == Failed(e)
              case RangeOverrun => s == RanOut
    {
      FlatLast(code);
      ghost var flat, n, r := Flat(code), |code| - 1, ScanRange(pat, sp);
      assert buf[..ep][lastep] == buf[lastep];
      var op := OrRnge(buf[lastep]);
      buf[lastep] := op;
      assert buf[..ep] == flat[lastep := op];
      s := Limit2();
      if s == Done {
        FlatPatch(code, op, [r.lo, r.hi]);
        code := code[..n] + [Instr(op, code[n].args + [r.lo, r.hi])];
      }
    }

    /** The bitmap under construction at ep: the characters S, in sixteen or thirty-two bytes. */
    ghost predicate Building(S: set<int>, wide: bool)
      reads this`ep, buf
    {
      && Shape() && 0 < ep && ep + 32 <= buf.Length
      && (forall x :: x in S ==> 0 <= x < Size(wide) * 8)
      && buf[ep..ep + Size(wide)] == Bitmap(S, Size(wide))
      && buf[ep - 1] == (if wide then CXCL else CCL)
    }

    static function Size(wide: bool): nat { if wide then 32 else 16 }

    /** c joins the class. */
    method Place(c: byte, ghost S: set<int>, ghost wide: bool)
      requires Building(S, wide) && c < 8 * Size(wide)
      modifies buf
      ensures Building(S + {c as int}, wide) && buf[..ep] == old(buf[..ep])
      ensures buf[..ep - 1] == old(buf[..ep - 1])
    {
      PlaceExact(S, c, Size(wide));
      ghost var bits := buf[ep..ep + Size(wide)];
      assert bits[c / 8] == buf[ep + c / 8];
      buf[ep + c / 8] := SetBit(buf[ep + c / 8], c % 8);
      assert buf[ep..ep + Size(wide)] == bits[c / 8 := SetBit(bits[c / 8], c % 8)];
    }

    /** The first non-ASCII character makes the class a thirty-two byte one. */
    method Widen(c: byte, narrow: bool, ghost S: set<int>) returns (narrow': bool)
      requires Building(S, !narrow)
      modifies buf
      ensures narrow' == (narrow && c < 128) && Building(S, !narrow') && buf[..ep - 1] == old(buf[..ep - 1])
    {
      narrow' := narrow;
      if c >= 128 && narrow {
        narrow' := false;
        buf[ep - 1] := CXCL;
        ghost var bits := buf[ep..ep + 16];
        var i := 16;
        while i < 32
          invariant 16 <= i <= 32
          invariant buf[..ep - 1] == old(buf[..ep - 1]) && buf[ep - 1] == CXCL
          invariant buf[ep..ep + i] == bits + seq(i - 16, _ => 0)
        {
          buf[ep + i] := 0;
          i := i + 1;
        }
        WidenExact(S);
      }
    }

    /** The body of the bracket loop: c is in hand, lc was placed last. */
    method Member(c0: byte, lc: byte, narrow0: bool, ghost S0: set<int>)
      returns (s: Status, last: bool, c: byte, narrow: bool, ghost S: set<int>)
      requires Building(S0, !narrow0) && 0 < sp <= |pat| && c0 == pat[sp - 1] && lc < 8 * Size(!narrow0)
      modifies this`sp, buf
      ensures old(sp) <= sp <= |pat| && buf[..ep - 1] == old(buf[..ep - 1])
      ensures s != Kept && (s == Done ==> Building(S, !narrow) && c < 8 * Size(!narrow))
      ensures ScanClass(pat, old(sp) - 1, lc, S0, !narrow0) ==
        (match s
         case Failed(e) => ClassError(e)
         case RanOut => ClassOverrun
         case Done => if last then Class(S, !narrow, sp) else NextInClass(pat, sp, c, S, !narrow)
         case Kept => ClassOverrun)
    {
      hide Bitmap;
      c, narrow, S, last := c0, narrow0, S0, false;
      if c == 0 || c == NL { return Failed(49), last, c, narrow, S; }
      narrow := Widen(c, narrow, S);
      if c == MINUS && lc != 0 {
        if sp == |pat| { return RanOut, last, c, narrow, S; }
        c := pat[sp];
        sp := sp + 1;
        if c == RBRK {
          Place(MINUS, S, !narrow);
          return Done, true, MINUS, narrow, S + {MINUS as int};
        }
        narrow, S := PlaceSpan(lc, c, narrow, S);
      }
      Place(c, S, !narrow);
      return Done, false, c, narrow, S + {c as int};
    }

    /** The do-while loop over the characters of a bracket expression; c0 is the first. */
    method Members(c0: byte) returns (s: Status, narrow: bool, ghost S: set<int>)
      requires Building({}, false) && 0 < sp <= |pat| && c0 == pat[sp - 1]
      modifies this`sp, buf
      ensures old(sp) <= sp && buf[..ep - 1] == old(buf[..ep - 1])
      ensures match ScanClass(pat, old(sp) - 1, 0, {}, false)
              case Class(members, wide, at) =>
                s == Done && sp == at && narrow == !wide && S == members && Building(S, wide)
              case ClassError(e) => s == Failed(e)
              case ClassOverrun => s == RanOut
    {
      var c, lc: byte, last := c0, 0, false;
      narrow, S := true, {};
      ghost var goal := ScanClass(pat, sp - 1, 0, {}, false);
      while true
        invariant old(sp) <= sp <= |pat| && c == pat[sp - 1] && Building(S, !narrow) && lc < 8 * Size(!narrow)
        invariant buf[..ep - 1] == old(buf[..ep - 1])
        invariant goal == ScanClass(pat, sp - 1, lc, S, !narrow)
        decreases |pat| - sp
      {
        s, last, lc, narrow, S := Member(c, lc, narrow, S);
        if s != Done || last { return; }
        if sp == |pat| { return RanOut, narrow, S; }
        c := pat[sp];
        sp := sp + 1;
        if !(c != RBRK) { break; }
      }
      s := Done;
    }

    method PlaceSpan(lc: byte, c: byte, narrow: bool, ghost S: set<int>) returns (narrow': bool, ghost S': set<int>)
      requires Building(S, !narrow) && lc < 8 * Size(!narrow)
      modifies buf
      ensures narrow' == (narrow && c < 128) && S' == S + Interval(lc, c) && Building(S', !narrow')
      ensures buf[..ep - 1] == old(buf[..ep - 1])
    {
      narrow' := Widen(c, narrow, S);
      S' := PlaceBelow(lc, c, !narrow', S);
      assert buf[..ep - 1] == buf[..ep][..ep - 1];
    }

    /** The characters from lc up to, but not including, c join the class. */
    method PlaceBelow(lc: byte, c: byte, ghost wide: bool, ghost S: set<int>) returns (ghost S': set<int>)
      requires Building(S, wide) && c < 8 * Size(wide)
      modifies buf
      ensures S' == S + Interval(lc, c) && Building(S', wide) && buf[..ep] == old(buf[..ep])
    {
      var i: int := lc;
      S' := S;
      while i < c
        invariant lc <= i && (i <= c || i == lc)
        invariant S' == S + Interval(lc, i) && Building(S', wide) && buf[..ep] == old(buf[..ep])
      {
        Place(i, S', wide);
        S' := S' + {i};
        i := i + 1;
      }
    }

    /** The neg block: complement a wide class, or turn a narrow one into NCCL. */
    method Negate(narrow: bool, ghost S: set<int>)
      requires Building(S, !narrow)
      modifies buf
      ensures buf[..ep - 1] == old(buf[..ep - 1])
      ensures buf[ep - 1] == ClassInstr(S, !narrow, true).op
      ensures buf[ep..ep + Size(!narrow)] == ClassInstr(S, !narrow, true).args
    {
      if !narrow {
        ghost var before := buf[ep..ep + 32];
        Complement();
        buf[ep] := buf[ep] - buf[ep] % 2;
        NegateBits(S, before, buf[ep..ep + 32]);
        assert buf[ep - 1] == buf[..ep][ep - 1] == old(buf[..ep][ep - 1]) == CXCL;
      } else {
        AddNul(S, 16);
        ghost var bits := buf[ep..ep + 16];
        assert bits[0] == buf[ep];
        buf[ep - 1] := NCCL;
        buf[ep] := SetBit(buf[ep], 0);
        assert buf[ep..ep + 16] == bits[0 := SetBit(bits[0], 0)];
      }
    }

    /** The next sixteen bytes are cleared. */
    method Clear()
      requires Shape() && 0 < ep && ep + 32 <= buf.Length && buf[ep - 1] == CCL
      modifies buf
      ensures Building({}, false) && buf[..ep - 1] == old(buf[..ep - 1])
    {
      var i := 0;
      while i < 16
        invariant 0 <= i <= 16
        invariant buf[..ep] == old(buf[..ep])
        invariant buf[ep..ep + i] == seq(i, _ => 0)
      {
        buf[ep + i] := 0;
        i := i + 1;
      }
      assert buf[ep - 1] == buf[..ep][ep - 1];
    }

    /** All bits of the next thirty-two bytes are flipped. */
    method Complement()
      requires 0 <= ep && ep + 32 <= buf.Length
      modifies buf
      ensures buf[..ep] == old(buf[..ep])
      ensures forall k :: ep <= k < ep + 32 ==> buf[k] == 255 - old(buf[k])
    {
      var i := ep;
      while i < ep + 32
        invariant ep <= i <= ep + 32
        invariant forall k :: 0 <= k < ep || i <= k < ep + 32 ==> buf[k] == old(buf[k])
        invariant forall k :: ep <= k < i ==> buf[k] == 255 - old(buf[k])
      {
        buf[i] := 255 - buf[i];
        i := i + 1;
      }
    }

    /** After the closing bracket: negate if asked, and step over the bitmap. */
    method CloseClass(narrow: bool, neg: bool, ghost S: set<int>)
      requires Building(S, !narrow) && 0 <= sp <= |pat| && ep + 32 <= 33 * sp
      requires buf[..ep - 1] == Flat(code) && lastep == ep - 1
      requires 0 <= bracketp <= nbra <= NBRA && 0 <= closed
      modifies this`ep, this`code, buf
      ensures Valid() && St() == Emit(old(St()), ClassInstr(S, !narrow, neg).op, ClassInstr(S, !narrow, neg).args)
    {
      if neg { Negate(narrow, S); }
      StepOver(Size(!narrow), ClassInstr(S, !narrow, neg));
    }

    /** ep += n, past the operand of the instruction i that starts just before ep. */
    method StepOver(n: nat, ghost i: Instr)
      requires Shape() && 0 <= sp <= |pat| && 0 < ep && ep + n <= 33 * sp
      requires buf[..ep - 1] == Flat(code) && lastep == ep - 1 && buf[ep - 1] == i.op && buf[ep..ep + n] == i.args
      requires 0 <= bracketp <= nbra <= NBRA && 0 <= closed
      modifies this`ep, this`code
      ensures Valid() && St() == Emit(old(St()), i.op, i.args)
    {
      FlatSnoc(code, i);
      assert buf[..ep + n] == buf[..ep - 1] + [buf[ep - 1]] + buf[ep..ep + n];
      ep := ep + n;
      code := code + [i];
    }

    /** A class opcode is stored, with an empty bitmap behind it. */
    method OpenClass()
      requires Valid() && 0 < sp && ep + 33 <= 33 * sp
      modifies this`ep, this`lastep, buf
      ensures Building({}, false) && ep == old(ep) + 1 && lastep == ep - 1 && buf[..ep - 1] == Flat(code)
    {
      lastep := ep;
      buf[ep] := CCL;
      ep := ep + 1;
      Clear();
    }

    /** The case of '[': everything up to and including the closing bracket. */
    method Bracket() returns (s: Status)
      requires Valid() && 0 < sp && ep + 33 <= 33 * sp
      modifies this`sp, this`ep, this`lastep, this`code, buf
      ensures old(sp) <= sp
      ensures old(sp) == |pat| ==> s == RanOut
      ensures old(sp) < |pat| ==>
        var neg := pat[old(sp)] == CARET;
        match ScanClass(pat, if neg then old(sp) + 1 else old(sp), 0, {}, false)
        case Class(S, wide, at) =>
          var i := ClassInstr(S, wide, neg); s == Done && sp == at && Valid() && St() == Emit(old(St()), i.op, i.args)
        case ClassError(e) => s == Failed(e)
        case ClassOverrun => s == RanOut
    {
      hide ClassInstr, Bitmap, Flat;
      OpenClass();
      if sp == |pat| { return RanOut; }
      var c := pat[sp];
      sp := sp + 1;
      var neg := c == CARET;
      if neg {
        if sp == |pat| { return RanOut; }
        c := pat[sp];
        sp := sp + 1;
      }
      var narrow; ghost var S;
      s, narrow, S := Members(c);
      if s == Done { CloseClass(narrow, neg, S); }
    }

    /** \( and \): group numbers are handed out in order of opening, and kept on a stack. */
    method GroupMark(c: byte) returns (s: Status)
      requires Valid() && ep + 2 <= 33 * sp && (c == LPAR || c == RPAR)
      modifies this`ep, this`lastep, this`code, this`nbra, this`closed, this`bracketp, buf, bracket
      ensures match Escape(old(St()), c)
              case Left(e) => s == Failed(e)
              case Right(st) => s == Done && Valid() && St() == st
    {
      hide Flat, LastAt;
      if c == LPAR {
        if nbra >= NBRA { return Failed(43); }
        Store2(CBRA, nbra);
        bracket[bracketp] := nbra;
        bracketp := bracketp + 1;
        nbra := nbra + 1;
      } else {
        if bracketp <= 0 { return Failed(42); }
        Store2(CKET, bracket[bracketp - 1]);
        bracketp := bracketp - 1;
        closed := closed + 1;
      }
      s := Done;
    }

    /** The case of a backslash before anything but a range suffix. */
    method Escaped(c: byte) returns (s: Status)
      requires Valid() && ep + 2 <= 33 * sp
      modifies this`ep, this`lastep, this`code, this`nbra, this`closed, this`bracketp, buf, bracket
      ensures match Escape(old(St()), c)
              case Left(e) => s == Failed(e)
              case Right(st) => s == Done && Valid() && St() == st
    {
      if c == LPAR || c == RPAR {
        s := GroupMark(c);
        return;
      } else if c == NL {
        return Failed(36);
      } else if c == LOWN {
        Store2(CCHR, NL);
      } else if ZERO < c <= NINE {
        if c - ZERO - 1 >= closed { return Failed(25); }
        Store2(CBACK, c - ZERO - 1);
      } else {
        Store2(CCHR, c);
      }
      s := Done;
    }

    /** The case of a backslash: a range suffix for the last instruction, or an escape. */
    method Backslash() returns (s: Status)
      requires Valid() && 0 < sp && ep <= 33 * (sp - 1) && pat[sp - 1] == BSLASH && d.eof != BSLASH
      modifies this`sp, this`ep, this`lastep, this`code, this`nbra, this`closed, this`bracketp, buf, bracket
      ensures old(sp) <= sp
      ensures Turn(old(sp) - 1, old(St()), s)
    {
      ScanBackslash(pat, d, sp - 1, St());
      hide Scan, Escape, ScanRange, Amend, OrRnge;
      if sp == |pat| { return RanOut; }
      var e := pat[sp];
      sp := sp + 1;
      if e == LBRC && lastep != -1 {
        s := Range();
      } else {
        s := Escaped(e);
      }
    }

    /** The turn that started at `from` in state st ended with status s, as the scanner says. */
    ghost predicate Turn(from: nat, st: State, s: Status)
      reads this, buf, bracket
    {
      && s != Kept && (s == Done ==> Valid())
      && Scan(pat, d, from, st) ==
        (match s
         case Done => Scan(pat, d, sp, St())
         case Failed(e) => Error(e)
         case RanOut => Overrun
         case Kept => Overrun)
    }

    /** One turn of the main loop, for a character c that does not end the pattern. */
    method Token(c: byte) returns (s: Status)
      requires Valid() && 0 < sp && ep <= 33 * (sp - 1) && c == pat[sp - 1] && c != d.eof && c != NL
      modifies this`sp, this`ep, this`lastep, this`code, this`nbra, this`closed, this`bracketp, buf, bracket
      ensures old(sp) <= sp
      ensures Turn(old(sp) - 1, old(St()), s)
    {
      s := Done;
      if c == PERIOD {
        Store1(CDOT);
      } else if c == STARCH {
        FlatLastOp();
        if lastep == -1 || buf[lastep] == CBRA || buf[lastep] == CKET {
          Store2(CCHR, c);
        } else {
          Star();
        }
      } else if c == DOLLAR {
        if sp == |pat| { return RanOut; }
        if pat[sp] != d.eof && pat[sp] != NL {
          Store2(CCHR, c);
        } else {
          Store1(CDOL);
        }
      } else if c == LBRK {
        s := Bracket();
      } else if c == BSLASH {
        s := Backslash();
      } else {
        Store2(CCHR, c);
      }
    }

    lemma FlatLastOp()
      requires Valid()
      ensures lastep == -1 <==> code == []
      ensures code != [] ==> 0 <= lastep < ep && buf[lastep] == LastOp(St())
    {
      if code != [] {
        FlatLast(code);
        assert buf[..ep][lastep] == buf[lastep];
      }
    }

    /** The end mark is stored, and every group must be closed. */
    method Finish() returns (s: Status)
      requires Valid()
      modifies this`ep, buf
      ensures s == if bracketp == 0 then Done else Failed(42)
      ensures 0 <= ep <= buf.Length && buf[..ep] == Flat(code) + [CCEOF]
    {
      buf[ep] := CCEOF;
      ep := ep + 1;
      s := if bracketp != 0 then Failed(42) else Done;
    }

    /** compile: translate the whole pattern into buf. */
    method Run() returns (s: Status)
      requires Shape() && !nodelim
      modifies this, buf, bracket
      ensures match Compile(pat, d, old(buf[0]) != 0)
              case Compiled(code', nbra', nodelim', sp') =>
                && s == Done && 0 <= ep <= buf.Length && buf[..ep] == Flat(code') + [CCEOF]
                && nbra == nbra' && nodelim == nodelim' && sp == sp'
                && pat != [] && (circf <==> pat[0] == 94)
              case KeepOld(nodelim') =>
                && s == Kept && buf[..] == old(buf[..]) && nodelim == nodelim' && circf == old(circf)
                && nbra == old(nbra) && sp == if nodelim' then 0 else 1
              case Error(e) => s == Failed(e)
              case Overrun => s == RanOut
    {
      if |pat| == 0 { return RanOut; }
      var c := pat[0];
      sp := 1;
      if c == d.eof || c == NL {
        if c == NL {
          sp := 0;
          nodelim := true;
        }
        if buf[0] == 0 && !d.sed { return Failed(41); }
        return Kept;
      }
      bracketp, closed, nbra := 0, 0, 0;
      ep, lastep, code := 0, -1, [];
      circf := c == CARET;
      if !circf { sp := 0; }
      assert St() == START && Valid();
      s := MainLoop();
    }

    /** The main loop: one token after another until the pattern ends. */
    method MainLoop() returns (s: Status)
      requires Valid() && !nodelim
      modifies this`sp, this`ep, this`lastep, this`code, this`nbra, this`closed, this`bracketp, this`nodelim,
        buf, bracket
      ensures s != Kept && s == StatusOf(Scan(pat, d, old(sp), old(St())))
      ensures match Scan(pat, d, old(sp), old(St()))
              case Compiled(code', nbra', nodelim', sp') =>
                && 0 <= ep <= buf.Length && buf[..ep] == Flat(code') + [CCEOF]
                && nbra == nbra' && nodelim == nodelim' && sp == sp'
              case _ => true
    {
      ghost var goal := Scan(pat, d, sp, St());
      while true
        invariant Valid() && !nodelim
        invariant Scan(pat, d, sp, St()) == goal
        decreases |pat| - sp
      {
        if sp == |pat| { return RanOut; }
        var c := pat[sp];
        sp := sp + 1;
        if c == d.eof || (c == NL && !d.sed) {
          if c != d.eof {
            sp := sp - 1;
            nodelim := true;
          }
          s := Finish();
          return;
        }
        if c == NL { return Failed(36); }
        s := Token(c);
        if s != Done { return; }
      }
    }
  }
}
