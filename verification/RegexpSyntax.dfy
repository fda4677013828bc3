/** What `compile` of regexp.h does with a pattern: a scanner over pattern bytes that yields raw
    instructions, an error number, or a run past the end of the pattern. */
module RegexpSyntax {
  import opened Buffers
  import opened RegexpCode

  const NL: byte := 10
  const DOLLAR: byte := 36
  const LPAR: byte := 40
  const RPAR: byte := 41
  const STARCH: byte := 42
  const COMMA: byte := 44
  const MINUS: byte := 45
  const PERIOD: byte := 46
  const ZERO: byte := 48
  const NINE: byte := 57
  const LBRK: byte := 91
  const BSLASH: byte := 92
  const RBRK: byte := 93
  const CARET: byte := 94
  const LOWN: byte := 110
  const LBRC: byte := 123
  const RBRC: byte := 125

  // ----- reading what was written -----

  /** The pattern continues with w at sp. */
  predicate Reads(pat: seq<byte>, sp: int, w: seq<byte>) {
    0 <= sp && sp + |w| <= |pat| && pat[sp..sp + |w|] == w
  }

  lemma {:induction false} ReadsSplit(pat: seq<byte>, sp: int, u: seq<byte>, v: seq<byte>)
    requires Reads(pat, sp, u + v)
    ensures Reads(pat, sp, u) && Reads(pat, sp + |u|, v)
  {
    var w := pat[sp..sp + |u + v|];
    assert w[..|u|] == u && w[|u|..] == v;
  }

  lemma {:induction false} ReadsAt(pat: seq<byte>, sp: int, w: seq<byte>, i: int)
    requires Reads(pat, sp, w) && 0 <= i < |w|
    ensures sp + i < |pat| && pat[sp + i] == w[i]
  {
    assert pat[sp..sp + |w|][i] == pat[sp + i];
  }

  // ----- class bitmaps as sets -----

  function BitOf(S: set<int>, c: int): int { if c in S then 1 else 0 }

  function Nibble(S: set<int>, base: int): (n: byte)
    ensures n < 16
  {
    BitOf(S, base) + 2 * BitOf(S, base + 1) + 4 * BitOf(S, base + 2) + 8 * BitOf(S, base + 3)
  }

  /** The bitmap byte that covers characters base .. base + 7. */
  function ByteOf(S: set<int>, base: int): byte {
    Nibble(S, base) + 16 * Nibble(S, base + 4)
  }

  function Bitmap(S: set<int>, n: nat): (bits: seq<byte>)
    ensures |bits| == n
  {
    seq(n, i requires 0 <= i < n => ByteOf(S, 8 * i))
  }

  lemma {:induction false} NibbleBit(S: set<int>, base: int, j: int)
    requires 0 <= j < 4
    ensures Bit(Nibble(S, base), j) <==> base + j in S
  {
  }

  lemma {:induction false} HalfBit(lo: byte, hi: byte, j: int)
    requires lo < 16 && hi < 16 && 0 <= j < 4
    ensures Bit(lo + 16 * hi, j) == Bit(lo, j)
    ensures Bit(lo + 16 * hi, j + 4) == Bit(hi, j)
  {
    LowBit(lo, hi, j);
    HighBit(lo, hi, j);
  }

  lemma {:induction false} LowBit(lo: byte, hi: byte, j: int)
    requires lo < 16 && hi < 16 && 0 <= j < 4
    ensures Bit(lo + 16 * hi, j) == Bit(lo, j)
  {
    var x := lo + 16 * hi;
    if j == 0 {
      assert x / 1 == lo / 1 + 2 * (8 * hi);
    } else if j == 1 {
      assert x / 2 == lo / 2 + 2 * (4 * hi);
    } else if j == 2 {
      assert x / 4 == lo / 4 + 2 * (2 * hi);
    } else {
      assert x / 8 == lo / 8 + 2 * hi;
    }
  }

  lemma {:induction false} HighBit(lo: byte, hi: byte, j: int)
    requires lo < 16 && hi < 16 && 0 <= j < 4
    ensures Bit(lo + 16 * hi, j + 4) == Bit(hi, j)
  {
    var x := lo + 16 * hi;
    if j == 0 {
      assert x / 16 == hi / 1;
    } else if j == 1 {
      assert x / 32 == hi / 2;
    } else if j == 2 {
      assert x / 64 == hi / 4;
    } else {
      assert x / 128 == hi / 8;
    }
  }

  lemma {:induction false} ByteOfBit(S: set<int>, base: int, j: int)
    requires 0 <= j < 8
    ensures Bit(ByteOf(S, base), j) <==> base + j in S
  {
    var half := if j < 4 then 0 else 4;
    NibbleBit(S, base + half, j - half);
    HalfBit(Nibble(S, base), Nibble(S, base + 4), j - half);
  }

  /** The bitmap of S holds exactly the characters of S. */
  lemma {:induction false} BitmapExact(S: set<int>, n: nat, c: byte)
    requires c < 8 * n
    ensures IsThere(Bitmap(S, n), c) <==> c in S
  {
    ByteOfBit(S, 8 * (c / 8), c % 8);
  }

  // ----- bracket expressions -----

  datatype ClassResult =
    | Class(members: set<int>, wide: bool, sp: int)
    | ClassError(error: int)
    | ClassOverrun

  function Interval(lo: int, hi: int): (s: set<int>)
    ensures forall x :: x in s <==> lo <= x < hi
    decreases hi - lo
  {
    if lo >= hi then {} else {lo} + Interval(lo + 1, hi)
  }

  /** The do-while loop of the bracket case: the character at sp is in hand, lc is the last one placed. */
  function ScanClass(pat: seq<byte>, sp: nat, lc: byte, S: set<int>, wide: bool): (r: ClassResult)
    ensures r.Class? ==> sp < r.sp <= |pat|
    decreases |pat| - sp, 0
  {
    if sp >= |pat| then ClassOverrun else
    var c := pat[sp];
    if c == 0 || c == NL then ClassError(49) else
    if c == MINUS && lc != 0 then
      if sp + 1 >= |pat| then ClassOverrun else
      var c2 := pat[sp + 1];
      if c2 == RBRK then Class(S + {MINUS as int}, wide, sp + 2)
      else NextInClass(pat, sp + 2, c2, S + Interval(lc, c2) + {c2 as int}, wide || c2 >= 128)
    else NextInClass(pat, sp + 1, c, S + {c as int}, wide || c >= 128)
  }

  /** Whether the bracket expression goes on behind an element. */
  function NextInClass(pat: seq<byte>, sp: nat, lc: byte, S: set<int>, wide: bool): (r: ClassResult)
    requires sp > 0
    ensures r.Class? ==> sp < r.sp <= |pat|
    decreases |pat| - sp, 1
  {
    if sp >= |pat| then ClassOverrun
    else if pat[sp] == RBRK then Class(S, wide, sp + 1)
    else ScanClass(pat, sp, lc, S, wide)
  }

  /** The instruction for a finished bracket expression. */
  function ClassInstr(S: set<int>, wide: bool, neg: bool): Instr {
    if wide then Instr(CXCL, Bitmap(if neg then Interval(1, 256) - S else S, 32))
    else if neg then Instr(NCCL, Bitmap(S + {0}, 16))
    else Instr(CCL, Bitmap(S, 16))
  }

  // ----- range suffixes -----

  datatype RangeResult = Limits(lo: byte, hi: byte, sp: int) | RangeError(error: int) | RangeOverrun

  /** A 32-bit int. */
  function Wrap32(x: int): int { (x + 0x8000_0000) % 0x1_0000_0000 - 0x8000_0000 }

  datatype NumResult = Num(value: int, stop: byte, sp: int) | NumError | NumOverrun

  /** Digits up to a backslash or comma; sp is left behind that character. */
  function ScanNum(pat: seq<byte>, sp: nat, i: int): (r: NumResult)
    ensures r.Num? ==> sp + 1 < r.sp <= |pat| && (r.stop == BSLASH || r.stop == COMMA)
    decreases |pat| - sp
  {
    if sp >= |pat| then NumOverrun
    else if !(ZERO <= pat[sp] <= NINE) then NumError
    else if sp + 1 >= |pat| then NumOverrun
    else
      var i' := Wrap32(10 * i + pat[sp] - ZERO);
      if pat[sp + 1] == BSLASH || pat[sp + 1] == COMMA then Num(i', pat[sp + 1], sp + 2)
      else ScanNum(pat, sp + 1, i')
  }

  /** A number is stored in one byte, which keeps its low bits. */
  function LowByte(i: int): byte { i % 256 }

  /** The closing brace, and the order of the limits when there are two. */
  function CloseRange(pat: seq<byte>, sp: nat, lo: byte, hi: byte): RangeResult {
    if sp >= |pat| then RangeOverrun
    else if pat[sp] != RBRC then RangeError(45)
    else if hi < lo then RangeError(46)
    else Limits(lo, hi, sp + 1)
  }

  /** The operand of \{ ... \}: one number, two, or one and an open end (255). */
  function ScanRange(pat: seq<byte>, sp: nat): (r: RangeResult)
    ensures r.Limits? ==> sp < r.sp <= |pat|
  {
    match ScanNum(pat, sp, 0)
    case NumOverrun => RangeOverrun
    case NumError => RangeError(16)
    case Num(lo, stop, sp1) =>
      if lo > 255 then RangeError(11)
      else if stop == BSLASH then CloseRange(pat, sp1, LowByte(lo), LowByte(lo))
      else if sp1 >= |pat| then RangeOverrun
      else if pat[sp1] == BSLASH then CloseRange(pat, sp1 + 1, LowByte(lo), 255)
      else
        match ScanNum(pat, sp1, 0)
        case NumOverrun => RangeOverrun
        case NumError => RangeError(16)
        case Num(hi, stop2, sp2) =>
          if hi > 255 then RangeError(11)
          else if stop2 == COMMA then RangeError(44)
          else CloseRange(pat, sp2, LowByte(lo), LowByte(hi))
  }

  // ----- whole patterns -----

  /** The delimiter the caller chose, and whether it is sed. */
  datatype Delim = Delim(eof: byte, sed: bool)

  /** The compiler's state between two pattern characters. */
  datatype State = State(code: seq<Instr>, opens: seq<byte>, nbra: nat, closed: nat)

  datatype Outcome =
    | Compiled(code: seq<Instr>, nbra: nat, nodelim: bool, sp: int)
    | KeepOld(nodelim: bool)
    | Error(error: int)
    | Overrun

  function Emit(st: State, op: byte, args: seq<byte>): State {
    st.(code := st.code + [Instr(op, args)])
  }

  function Literal(st: State, c: byte): State { Emit(st, CCHR, [c]) }

  /** Change the last instruction: or `bits` into its opcode, append operands. */
  function Amend(st: State, op: byte, args: seq<byte>): State
    requires st.code != []
  {
    var last := st.code[|st.code| - 1];
    st.(code := st.code[..|st.code| - 1] + [Instr(op, last.args + args)])
  }

  function LastOp(st: State): byte
    requires st.code != []
  {
    st.code[|st.code| - 1].op
  }

  function OrStar(op: byte): byte { if op % 2 == 0 then op + 1 else op }
  function OrRnge(op: byte): byte { op - op % 4 + 3 }

  function Finish(st: State, nodelim: bool, sp: int): Outcome {
    if st.opens != [] then Error(42) else Compiled(st.code, st.nbra, nodelim, sp)
  }

  /** The main loop from pattern position sp. */
  function Scan(pat: seq<byte>, d: Delim, sp: nat, st: State): Outcome
    decreases |pat| - sp
  {
    if sp >= |pat| then Overrun else
    var c := pat[sp];
    if c == d.eof then Finish(st, false, sp + 1)
    else if c == PERIOD then Scan(pat, d, sp + 1, Emit(st, CDOT, []))
    else if c == NL then (if d.sed then Error(36) else Finish(st, true, sp))
    else if c == STARCH then
      if st.code == [] || LastOp(st) == CBRA || LastOp(st) == CKET then Scan(pat, d, sp + 1, Literal(st, c))
      else Scan(pat, d, sp + 1, Amend(st, OrStar(LastOp(st)), []))
    else if c == DOLLAR then
      if sp + 1 >= |pat| then Overrun
      else if pat[sp + 1] != d.eof && pat[sp + 1] != NL then Scan(pat, d, sp + 1, Literal(st, c))
      else Scan(pat, d, sp + 1, Emit(st, CDOL, []))
    else if c == LBRK then
      if sp + 1 >= |pat| then Overrun else
      var neg := pat[sp + 1] == CARET;
      var r := ScanClass(pat, if neg then sp + 2 else sp + 1, 0, {}, false);
      if r.ClassOverrun? then Overrun
      else if r.ClassError? then Error(r.error)
      else
        var i := ClassInstr(r.members, r.wide, neg);
        Scan(pat, d, r.sp, Emit(st, i.op, i.args))
    else if c == BSLASH then
      if sp + 1 >= |pat| then Overrun else
      var e := pat[sp + 1];
      if e == LBRC && st.code != [] then
        var r := ScanRange(pat, sp + 2);
        if r.RangeOverrun? then Overrun
        else if r.RangeError? then Error(r.error)
        else Scan(pat, d, r.sp, Amend(st, OrRnge(LastOp(st)), [r.lo, r.hi]))
      else
        var r := Escape(st, e);
        if r.Left? then Error(r.error) else Scan(pat, d, sp + 2, r.st)
    else Scan(pat, d, sp + 1, Literal(st, c))
  }

  /** The turn of the scanner for a backslash. */
  lemma {:induction false} ScanBackslash(pat: seq<byte>, d: Delim, sp: nat, st: State)
    requires sp < |pat| && pat[sp] == BSLASH && d.eof != BSLASH
    ensures sp + 1 == |pat| ==> Scan(pat, d, sp, st) == Overrun
    ensures sp + 1 < |pat| && pat[sp + 1] == LBRC && st.code != [] ==>
      Scan(pat, d, sp, st) ==
      match ScanRange(pat, sp + 2)
      case RangeOverrun => Overrun
      case RangeError(e) => Error(e)
      case Limits(lo, hi, at) => Scan(pat, d, at, Amend(st, OrRnge(LastOp(st)), [lo, hi]))
    ensures sp + 1 < |pat| && !(pat[sp + 1] == LBRC && st.code != []) ==>
      Scan(pat, d, sp, st) ==
      match Escape(st, pat[sp + 1])
      case Left(e) => Error(e)
      case Right(st') => Scan(pat, d, sp + 2, st')
  {
    hide Escape, ScanRange, Amend, OrRnge;
  }

  datatype Escaped = Left(error: int) | Right(st: State)

  /** A backslash and the character e, other than a range suffix. */
  function Escape(st: State, e: byte): Escaped {
    if e == LPAR then
      if st.nbra >= NBRA then Left(43)
      else Right(Emit(st, CBRA, [st.nbra]).(opens := st.opens + [st.nbra], nbra := st.nbra + 1))
    else if e == RPAR then
      if st.opens == [] then Left(42)
      else
        var n := |st.opens| - 1;
        Right(Emit(st, CKET, [st.opens[n]]).(opens := st.opens[..n], closed := st.closed + 1))
    else if e == NL then Left(36)
    else if e == LOWN then Right(Literal(st, NL))
    else if ZERO < e <= NINE then
      if e - ZERO - 1 >= st.closed then Left(25) else Right(Emit(st, CBACK, [e - ZERO - 1]))
    else Right(Literal(st, e))
  }

  const START := State([], [], 0, 0)

  predicate Anchored(pat: seq<byte>) { pat != [] && pat[0] == CARET }

  /** compile: `hasOld` tells whether the output buffer already holds a program. */
  function Compile(pat: seq<byte>, d: Delim, hasOld: bool): Outcome {
    if pat == [] then Overrun
    else if pat[0] == d.eof || pat[0] == NL then
      if !hasOld && !d.sed then Error(41) else KeepOld(pat[0] == NL)
    else Scan(pat, d, if Anchored(pat) then 1 else 0, START)
  }
}
