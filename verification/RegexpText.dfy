/** What `compile` of regexp.h accepts and what it refuses, for every byte pattern: the text is split into
    pieces, each known by how it is spelled and where it may stand, and the pieces alone say what program is
    stored. Nothing here follows the scanner's loop. */
module RegexpText {
  import opened Buffers
  import opened RegexpCode
  import opened RegexpSyntax
  import Arithmetic

  // ----- spelling -----

  /** What stands in brackets: a character alone, or a dash and a character, for all from the one before. */
  datatype Part = Alone(c: byte) | UpTo(c: byte)

  datatype Piece =
    | Self(c: byte)                                      // a character that stands for itself
    | Quote(c: byte)                                     // behind a backslash
    | NewLine                                            // \n
    | Period
    | Bracket(neg: bool, parts: seq<Part>, dash: bool)   // dash: a last dash, before the closing bracket
    | StarMark
    | Braces(lo: seq<byte>, two: bool, hi: seq<byte>)    // \{lo\}, \{lo,\} or \{lo,hi\}
    | DollarMark
    | OpenMark
    | CloseMark
    | RefMark(n: byte)                                   // \1 to \9

  function PartText(p: Part): seq<byte> { match p case Alone(c) => [c] case UpTo(c) => [45, c] }

  function PartsText(parts: seq<Part>): seq<byte> {
    if parts == [] then [] else PartsText(parts[..|parts| - 1]) + PartText(parts[|parts| - 1])
  }

  function BracketHead(neg: bool): seq<byte> { if neg then [91, 94] else [91] }

  /** The parts and what closes them. */
  function Inside(parts: seq<Part>, dash: bool): seq<byte> {
    PartsText(parts) + if dash then [45, 93] else [93]
  }

  function LimitsText(lo: seq<byte>, two: bool, hi: seq<byte>): seq<byte> {
    lo + (if two then [44] + hi else []) + [92, 125]
  }

  function Text(p: Piece): (w: seq<byte>)
    ensures w != []
  {
    match p
    case Self(c) => [c]
    case Quote(c) => [92, c]
    case NewLine => [92, 110]
    case Period => [46]
    case Bracket(neg, parts, dash) => BracketHead(neg) + Inside(parts, dash)
    case StarMark => [42]
    case Braces(lo, two, hi) => [92, 123] + LimitsText(lo, two, hi)
    case DollarMark => [36]
    case OpenMark => [92, 40]
    case CloseMark => [92, 41]
    case RefMark(n) => if n <= 9 then [92, 48 + n] else [92]
  }

  // ----- counting -----

  function Opened(ps: seq<Piece>): nat {
    if ps == [] then 0 else Opened(ps[..|ps| - 1]) + if ps[|ps| - 1].OpenMark? then 1 else 0
  }

  function Closed(ps: seq<Piece>): nat {
    if ps == [] then 0 else Closed(ps[..|ps| - 1]) + if ps[|ps| - 1].CloseMark? then 1 else 0
  }

  // ----- brackets -----

  function LastChar(parts: seq<Part>): byte
    requires parts != []
  {
    parts[|parts| - 1].c
  }

  /** How the inside of a bracket goes on. A closing bracket is a character only as the first one, a dash only as
      the first or behind a NUL; neither NUL nor newline stand alone, but they may end a range. */
  predicate PartFits(parts: seq<Part>, p: Part) {
    match p
    case Alone(c) =>
      && c !in {0, 10} && (c == 93 ==> parts == []) && (c == 45 ==> parts == [] || LastChar(parts) == 0)
    case UpTo(c) => parts != [] && LastChar(parts) != 0 && c != 93
  }

  predicate PartsFit(parts: seq<Part>) {
    parts == [] || (PartsFit(parts[..|parts| - 1]) && PartFits(parts[..|parts| - 1], parts[|parts| - 1]))
  }

  predicate BracketFits(neg: bool, parts: seq<Part>, dash: bool) {
    && parts != [] && PartsFit(parts) && (!neg ==> parts[0].c != 94) && (dash ==> LastChar(parts) != 0)
  }

  predicate PartHas(parts: seq<Part>, i: int, x: int)
    requires 0 <= i < |parts|
  {
    x == parts[i].c || (i > 0 && parts[i].UpTo? && parts[i - 1].c <= x <= parts[i].c)
  }

  predicate InBracket(parts: seq<Part>, dash: bool, x: int) {
    (exists i :: 0 <= i < |parts| && PartHas(parts, i, x)) || (dash && x == 45)
  }

  function BracketSet(parts: seq<Part>, dash: bool): set<int> { set x | 0 <= x < 256 && InBracket(parts, dash, x) }

  predicate Beyond(parts: seq<Part>, i: int)
    requires 0 <= i < |parts|
  {
    parts[i].c >= 128
  }

  predicate BeyondAscii(parts: seq<Part>) { exists i :: 0 <= i < |parts| && Beyond(parts, i) }

  /** In the bracket expression at sp, behind these parts, stands a character that may not. */
  predicate Breaks(pat: seq<byte>, sp: int, neg: bool, parts: seq<Part>) {
    var w := BracketHead(neg) + PartsText(parts);
    && PartsFit(parts) && (!neg && parts != [] ==> parts[0].c != 94)
    && Reads(pat, sp, w) && sp + |w| < |pat| && pat[sp + |w|] in {0, 10}
  }

  ghost predicate BracketFails(pat: seq<byte>, sp: int) { exists neg, parts :: Breaks(pat, sp, neg, parts) }

  // ----- limits -----

  predicate IsDigit(c: byte) { 48 <= c <= 57 }

  predicate Digits(ds: seq<byte>) { forall i :: 0 <= i < |ds| ==> IsDigit(ds[i]) }

  function Decimal(ds: seq<byte>): int {
    if ds == [] then 0 else 10 * Decimal(ds[..|ds| - 1]) + ds[|ds| - 1] - 48
  }

  /** The number as a 32-bit int holds it. */
  function Word(ds: seq<byte>): int {
    var v := Decimal(ds) % 0x1_0000_0000;
    if v < 0x8000_0000 then v else v - 0x1_0000_0000
  }

  /** The number as one byte holds it. */
  function Stored(ds: seq<byte>): byte { Decimal(ds) % 256 }

  function LowLimit(lo: seq<byte>): byte { Stored(lo) }

  function HighLimit(lo: seq<byte>, two: bool, hi: seq<byte>): byte {
    if !two then Stored(lo) else if hi == [] then 255 else Stored(hi)
  }

  predicate NumberFits(ds: seq<byte>) { ds != [] && Digits(ds) && Word(ds) <= 255 }

  predicate BracesFit(lo: seq<byte>, two: bool, hi: seq<byte>) {
    && NumberFits(lo) && (!two ==> hi == []) && (hi != [] ==> NumberFits(hi))
    && LowLimit(lo) <= HighLimit(lo, two, hi)
  }

  /** A number at `at`, ended by a backslash or a comma. */
  predicate Number(pat: seq<byte>, at: int, ds: seq<byte>) {
    ds != [] && Digits(ds) && Reads(pat, at, ds) && at + |ds| < |pat| && pat[at + |ds|] in {92, 44}
  }

  /** A character where a digit has to be, or behind some digits where they have to end. */
  predicate Broken(pat: seq<byte>, at: int, ds: seq<byte>) {
    && Digits(ds) && Reads(pat, at, ds) && at + |ds| < |pat| && !IsDigit(pat[at + |ds|])
    && (ds != [] ==> pat[at + |ds|] !in {92, 44})
  }

  ghost predicate NoNumber(pat: seq<byte>, at: int) { exists ds :: Broken(pat, at, ds) }

  /** The first of the limits, one that fits. */
  predicate First(pat: seq<byte>, at: int, lo: seq<byte>) { Number(pat, at, lo) && Word(lo) <= 255 }

  /** Behind it comes the second number. */
  predicate Second(pat: seq<byte>, at: int, lo: seq<byte>, hi: seq<byte>) {
    First(pat, at, lo) && pat[at + |lo|] == 44 && Number(pat, at + |lo| + 1, hi)
  }

  predicate Is(pat: seq<byte>, i: int, c: byte) { 0 <= i < |pat| && pat[i] == c }

  predicate IsNot(pat: seq<byte>, i: int, c: byte) { 0 <= i < |pat| && pat[i] != c }

  /** What is wrong with the limits at `at`, behind the opening brace, when the first number is lo. */
  ghost predicate FirstFails(pat: seq<byte>, at: int, lo: seq<byte>, e: int) {
    Number(pat, at, lo) &&
    var stop := at + |lo|;
    || (e == 11 && Word(lo) > 255)
    || (e == 45 && Word(lo) <= 255 && pat[stop] == 92 && IsNot(pat, stop + 1, 125))
    || (e == 45 && Word(lo) <= 255 && pat[stop] == 44 && Is(pat, stop + 1, 92) && IsNot(pat, stop + 2, 125))
    || (e == 16 && Word(lo) <= 255 && pat[stop] == 44 && IsNot(pat, stop + 1, 92) && NoNumber(pat, stop + 1))
  }

  /** And when the second is hi. */
  predicate SecondFails(pat: seq<byte>, at: int, lo: seq<byte>, hi: seq<byte>, e: int) {
    Second(pat, at, lo, hi) &&
    var stop := at + |lo| + 1 + |hi|;
    || (e == 11 && Word(hi) > 255)
    || (e == 44 && Word(hi) <= 255 && pat[stop] == 44)
    || (e == 45 && Word(hi) <= 255 && pat[stop] == 92 && IsNot(pat, stop + 1, 125))
    || (e == 46 && Word(hi) <= 255 && pat[stop] == 92 && Is(pat, stop + 1, 125) && Stored(hi) < Stored(lo))
  }

  ghost predicate LimitsFail(pat: seq<byte>, at: int, e: int) {
    || (e == 16 && NoNumber(pat, at))
    || (exists lo :: FirstFails(pat, at, lo, e))
    || (exists lo, hi :: SecondFails(pat, at, lo, hi, e))
  }

  // ----- where a piece may stand -----

  /** Nothing to repeat: the text starts here, or a group does or has ended. */
  predicate Bare(ps: seq<Piece>) { ps == [] || ps[|ps| - 1].OpenMark? || ps[|ps| - 1].CloseMark? }

  predicate Follows(pat: seq<byte>, d: Delim, sp: int) { 0 <= sp < |pat| && pat[sp] in {d.eof, 10} }

  predicate InPattern(pat: seq<byte>, d: Delim, sp: int) { 0 <= sp < |pat| && pat[sp] != d.eof }

  /** Piece p stands at sp, behind the pieces ps. */
  predicate Here(pat: seq<byte>, d: Delim, sp: int, ps: seq<Piece>, p: Piece) {
    && InPattern(pat, d, sp) && Reads(pat, sp, Text(p))
    && match p
       case Self(c) =>
         && c !in {10, 46, 91, 92} && (c == 42 ==> Bare(ps))
         && (c == 36 ==> sp + 1 < |pat| && !Follows(pat, d, sp + 1))
       case Quote(c) => c !in {10, 40, 41, 110} && !(49 <= c <= 57) && (c == 123 ==> ps == [])
       case NewLine => true
       case Period => true
       case Bracket(neg, parts, dash) => BracketFits(neg, parts, dash)
       case StarMark => !Bare(ps)
       case Braces(lo, two, hi) => ps != [] && BracesFit(lo, two, hi)
       case DollarMark => Follows(pat, d, sp + 1)
       case OpenMark => Opened(ps) < 9
       case CloseMark => Closed(ps) < Opened(ps)
       case RefMark(n) => 1 <= n <= 9 && n <= Closed(ps)
  }

  /** The pieces ps are the text from start to sp. */
  predicate Split(pat: seq<byte>, d: Delim, start: int, sp: int, ps: seq<Piece>)
    decreases |ps|
  {
    if ps == [] then sp == start else
      var n := |ps| - 1;
      var at := sp - |Text(ps[n])|;
      Split(pat, d, start, at, ps[..n]) && Here(pat, d, at, ps[..n], ps[n])
  }

  // ----- the program -----

  /** The numbers of the groups open behind ps, outermost first. */
  function Stack(ps: seq<Piece>): (o: seq<byte>) {
    if ps == [] then [] else
      var init, o := ps[..|ps| - 1], Stack(ps[..|ps| - 1]);
      match ps[|ps| - 1]
      case OpenMark => if Opened(init) < 256 then o + [Opened(init)] else o
      case CloseMark => if o == [] then o else o[..|o| - 1]
      case _ => o
  }

  /** An instruction as the text describes it: its kind and operand, whether a star follows, and the limits that
      do. */
  datatype Unit = Unit(kind: byte, args: seq<byte>, star: bool, limits: seq<byte>)

  function BracketUnit(neg: bool, S: set<int>, wide: bool): Unit {
    if wide then Unit(CXCL, Bitmap(if neg then (set x | 1 <= x < 256 && x !in S) else S, 32), false, [])
    else Unit(if neg then NCCL else CCL, Bitmap(if neg then S + {0} else S, 16), false, [])
  }

  /** The instruction a piece starts, if it is not a repetition of the one before. */
  function Starts(ps: seq<Piece>, p: Piece): Unit {
    match p
    case Self(c) => Unit(CCHR, [c], false, [])
    case Quote(c) => Unit(CCHR, [c], false, [])
    case NewLine => Unit(CCHR, [10], false, [])
    case Period => Unit(CDOT, [], false, [])
    case Bracket(neg, parts, dash) => BracketUnit(neg, BracketSet(parts, dash), BeyondAscii(parts))
    case DollarMark => Unit(CDOL, [], false, [])
    case OpenMark => Unit(CBRA, if Opened(ps) < 256 then [Opened(ps)] else [], false, [])
    case CloseMark => Unit(CKET, if Stack(ps) == [] then [] else [Stack(ps)[|Stack(ps)| - 1]], false, [])
    case RefMark(n) => Unit(CBACK, if n >= 1 then [n - 1] else [], false, [])
    case _ => Unit(CCEOF, [], false, [])
  }

  /** With a star, or limits, behind it. */
  function Amended(u: Unit, p: Piece): Unit {
    match p
    case StarMark => u.(star := true)
    case Braces(lo, two, hi) => u.(limits := u.limits + [LowLimit(lo), HighLimit(lo, two, hi)])
    case _ => u
  }

  function Units(ps: seq<Piece>): seq<Unit> {
    if ps == [] then [] else
      var init, p := ps[..|ps| - 1], ps[|ps| - 1];
      var us := Units(init);
      if p.StarMark? || p.Braces? then
        if us == [] then us else
          var n := |us| - 1;
          us[n := Amended(us[n], p)]
      else us + [Starts(init, p)]
  }

  /** The opcode has both low bits set for limits, the lowest for a star alone. */
  function Opcode(u: Unit): byte {
    if u.limits != [] then (if u.kind < 252 then u.kind / 4 * 4 + 3 else 255)
    else if u.star && u.kind % 2 == 0 then u.kind + 1 else u.kind
  }

  function CodeOf(ps: seq<Piece>): (code: seq<Instr>)
    ensures |code| == |Units(ps)|
  {
    var us := Units(ps);
    seq(|us|, i requires 0 <= i < |us| => Instr(Opcode(us[i]), us[i].args + us[i].limits))
  }

  // ----- ends and errors -----

  /** The pattern ends at its delimiter, and at a newline unless it is for sed. */
  predicate Ends(pat: seq<byte>, d: Delim, sp: int) {
    0 <= sp < |pat| && (pat[sp] == d.eof || (pat[sp] == 10 && !d.sed))
  }

  /** What is wrong with a backslash and the character behind it. */
  ghost predicate BackslashFails(pat: seq<byte>, sp: int, ps: seq<Piece>, e: int) {
    Is(pat, sp, 92) && 0 <= sp + 1 < |pat| &&
    var c := pat[sp + 1];
    || (e == 36 && c == 10)                                      // a newline
    || (e == 42 && c == 41 && Closed(ps) >= Opened(ps))          // no group to close
    || (e == 43 && c == 40 && Opened(ps) >= 9)                   // a tenth group
    || (e == 25 && 49 <= c <= 57 && c - 48 > Closed(ps))         // fewer groups closed
    || (c == 123 && ps != [] && LimitsFail(pat, sp + 2, e))      // limits for what is before
  }

  /** Behind the pieces ps, at sp, something is wrong. */
  ghost predicate Fails(pat: seq<byte>, d: Delim, sp: int, ps: seq<Piece>, e: int) {
    || (e == 42 && Ends(pat, d, sp) && Closed(ps) < Opened(ps))
    || (e == 36 && InPattern(pat, d, sp) && pat[sp] == 10 && d.sed)
    || (e == 49 && InPattern(pat, d, sp) && BracketFails(pat, sp))
    || (InPattern(pat, d, sp) && BackslashFails(pat, sp, ps, e))
  }

  // ----- the outcome -----

  function Start(pat: seq<byte>): int { if pat != [] && pat[0] == 94 then 1 else 0 }

  /** A pattern that ends where it starts. */
  predicate Empty(pat: seq<byte>, d: Delim) { pat != [] && pat[0] in {d.eof, 10} }

  ghost predicate SplitTo(pat: seq<byte>, d: Delim, sp: int, ps: seq<Piece>) { Split(pat, d, Start(pat), sp, ps) }

  /** The pattern is the pieces ps, up to its end at sp, and each group is closed. */
  ghost predicate Accepts(pat: seq<byte>, d: Delim, sp: int, ps: seq<Piece>) {
    !Empty(pat, d) && SplitTo(pat, d, sp, ps) && Ends(pat, d, sp) && Opened(ps) == Closed(ps)
  }

  ghost predicate FailsAt(pat: seq<byte>, d: Delim, sp: int, ps: seq<Piece>, e: int) {
    !Empty(pat, d) && SplitTo(pat, d, sp, ps) && Fails(pat, d, sp, ps, e)
  }

  /** The program of the pieces, and where reading stops: behind the delimiter, but at a newline. */
  function Program(pat: seq<byte>, d: Delim, sp: int, ps: seq<Piece>): Outcome
    requires 0 <= sp < |pat|
  {
    Compiled(CodeOf(ps), Opened(ps), pat[sp] != d.eof, if pat[sp] == d.eof then sp + 1 else sp)
  }
}
