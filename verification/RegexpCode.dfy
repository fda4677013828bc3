/** The byte code of regexp.h: opcodes, class bitmaps, and what a compiled program means.
    The meaning is given without any search: a match is a vector of cut points in the text,
    one more than there are instructions, where each instruction describes its own segment. */
module RegexpCode {
  import opened Buffers

  const CBRA: byte := 2
  const CCHR: byte := 4
  const CDOT: byte := 8
  const CCL: byte := 12
  const CXCL: byte := 16
  const CDOL: byte := 20
  const CCEOF: byte := 22
  const CKET: byte := 24
  const CBACK: byte := 36
  const NCCL: byte := 40
  const STAR: byte := 1
  const RNGE: byte := 3
  const NBRA := 9

  // ----- class bitmaps -----

  const BITTAB: seq<int> := [1, 2, 4, 8, 16, 32, 64, 128]

  predicate Bit(b: byte, j: int)
    requires 0 <= j < 8
  {
    b / BITTAB[j] % 2 == 1
  }

  /** ISTHERE(c) for a bitmap that starts at the first byte of `bits`. */
  predicate IsThere(bits: seq<byte>, c: byte) {
    c / 8 < |bits| && Bit(bits[c / 8], c % 8)
  }

  // ----- instructions -----

  /** A test on one character: the operand of a plain, starred or counted instruction. */
  datatype Test =
    | Chr(c: byte)
    | Dot
    | Ccl(bits: seq<byte>)   // 16-byte bitmap of ASCII characters
    | Nccl(bits: seq<byte>)  // the same, negated
    | Cxcl(bits: seq<byte>)  // 32-byte bitmap

  predicate Has(t: Test, c: byte) {
    match t
    case Chr(x) => c == x
    case Dot => c != 0
    case Ccl(bits) => c < 128 && IsThere(bits, c)
    case Nccl(bits) => !(c < 128 && IsThere(bits, c))
    case Cxcl(bits) => IsThere(bits, c)
  }

  /** Operands have their fixed size, and no test accepts the NUL that ends the text. */
  predicate GoodTest(t: Test) {
    && !Has(t, 0)
    && (t.Ccl? || t.Nccl? ==> |t.bits| == 16)
    && (t.Cxcl? ==> |t.bits| == 32)
  }

  datatype Item =
    | One(t: Test)
    | Many(t: Test)
    | Count(t: Test, lo: byte, hi: byte)
    | Open(g: byte)
    | Close(g: byte)
    | Back(g: byte)
    | BackMany(g: byte)
    | End

  function TestOp(t: Test): byte {
    match t
    case Chr(_) => CCHR
    case Dot => CDOT
    case Ccl(_) => CCL
    case Nccl(_) => NCCL
    case Cxcl(_) => CXCL
  }

  function TestArgs(t: Test): seq<byte> {
    match t
    case Chr(c) => [c]
    case Dot => []
    case Ccl(bits) => bits
    case Nccl(bits) => bits
    case Cxcl(bits) => bits
  }

  /** One raw instruction: opcode and operand bytes. */
  datatype Instr = Instr(op: byte, args: seq<byte>)

  function Assemble(it: Item): Instr {
    match it
    case One(t) => Instr(TestOp(t), TestArgs(t))
    case Many(t) => Instr(TestOp(t) + STAR, TestArgs(t))
    case Count(t, lo, hi) => Instr(TestOp(t) + RNGE, TestArgs(t) + [lo, hi])
    case Open(g) => Instr(CBRA, [g])
    case Close(g) => Instr(CKET, [g])
    case Back(g) => Instr(CBACK, [g])
    case BackMany(g) => Instr(CBACK + STAR, [g])
    case End => Instr(CDOL, [])
  }

  function Code(it: Item): seq<byte> {
    [Assemble(it).op] + Assemble(it).args
  }

  /** The whole program: every instruction, then CCEOF. */
  function Encode(items: seq<Item>): (prog: seq<byte>)
    ensures |prog| > 0
  {
    if items == [] then [CCEOF] else Code(items[0]) + Encode(items[1..])
  }

  /** The program text at ep is exactly the code of `rest`. */
  predicate At(prog: seq<byte>, ep: int, rest: seq<Item>) {
    0 <= ep <= |prog| && prog[ep..] == Encode(rest)
  }

  lemma AtStep(prog: seq<byte>, ep: int, rest: seq<Item>)
    requires At(prog, ep, rest) && rest != []
    ensures ep + |Code(rest[0])| <= |prog|
    ensures prog[ep..ep + |Code(rest[0])|] == Code(rest[0])
    ensures At(prog, ep + |Code(rest[0])|, rest[1..])
  {
    var n := |Code(rest[0])|;
    var tail := prog[ep..];
    assert tail[..n] == Code(rest[0]) && tail[n..] == Encode(rest[1..]);
    assert prog[ep..ep + n] == tail[..n];
    assert prog[ep + n..] == tail[n..];
  }

  // ----- the subject text -----

  /** What a match runs against: the text before its NUL, the `locs` stop (negative for a null
      pointer), and whether plain `char` is unsigned on the machine. */
  datatype Subject = Subject(text: seq<byte>, locs: int, uchar: bool)

  /** *lp: the text followed by its NUL. */
  function Deref(text: seq<byte>, i: int): byte
    requires 0 <= i <= |text|
  {
    if i < |text| then text[i] else 0
  }

  function Slice(text: seq<byte>, i: int, e: int): seq<byte> {
    if 0 <= i <= e <= |text| then text[i..e] else []
  }

  predicate AllIn(t: Test, text: seq<byte>, i: int, e: int) {
    0 <= i <= e <= |text| && forall x :: i <= x < e ==> Has(t, text[x])
  }

  /** The end of the longest run of characters accepted by t from i. */
  function RunEnd(t: Test, text: seq<byte>, i: nat): (e: nat)
    requires i <= |text|
    ensures i <= e <= |text|
    decreases |text| - i
  {
    if i < |text| && Has(t, text[i]) then RunEnd(t, text, i + 1) else i
  }

  lemma {:induction false} RunEndExact(t: Test, text: seq<byte>, i: nat, e: int)
    requires i <= |text|
    ensures AllIn(t, text, i, e) <==> i <= e <= RunEnd(t, text, i)
    decreases |text| - i
  {
    if i < |text| && Has(t, text[i]) {
      RunEndExact(t, text, i + 1, e);
    } else if i < |text| {
      assert !Has(t, text[i]);
    }
  }

  function Power(w: seq<byte>, n: nat): seq<byte> {
    if n == 0 then [] else w + Power(w, n - 1)
  }

  ghost predicate IsPower(v: seq<byte>, w: seq<byte>) {
    exists n: nat :: v == Power(w, n)
  }

  // ----- groups -----

  function IndexOf(items: seq<Item>, it: Item): (k: nat)
    ensures k <= |items|
    ensures k < |items| ==> items[k] == it
    ensures forall j :: 0 <= j < k ==> items[j] != it
  {
    if items == [] then 0 else if items[0] == it then 0 else 1 + IndexOf(items[1..], it)
  }

  /** The text captured by group g, read off the cut points at its two markers. */
  function Captured(items: seq<Item>, text: seq<byte>, p: seq<int>, g: byte): seq<byte> {
    var a, b := IndexOf(items, Open(g)), IndexOf(items, Close(g));
    if a < |p| && b < |p| then Slice(text, p[a], p[b]) else []
  }

  /** getrnge: the largest count, with the open-ended 255 that only unsigned chars can see. */
  function CountMax(s: Subject, lo: byte, hi: byte): int {
    if s.uchar && hi == 255 then lo + 20000 else hi
  }

  function Min(a: int, b: int): int { if a < b then a else b }

  // ----- meaning -----

  /** Instruction k may span the text from p[k] to e. `locs` cuts a starred or counted
      instruction short: once its longest run reaches locs, no end at or before locs is allowed. */
  ghost predicate Segment(items: seq<Item>, s: Subject, p: seq<int>, k: nat, e: int)
    requires k < |items| && k < |p|
  {
    var i := p[k];
    0 <= i <= e <= |s.text| &&
    match items[k]
    case One(t) => e == i + 1 && Has(t, s.text[i])
    case Many(t) => AllIn(t, s.text, i, e) && !(e <= s.locs <= RunEnd(t, s.text, i))
    case Count(t, lo, hi) =>
      && i + lo <= e <= i + CountMax(s, lo, hi)
      && AllIn(t, s.text, i, e)
      && !(e <= s.locs <= Min(RunEnd(t, s.text, i), i + CountMax(s, lo, hi)))
    case Open(_) => e == i
    case Close(_) => e == i
    case Back(g) => Slice(s.text, i, e) == Captured(items, s.text, p, g)
    case BackMany(g) => IsPower(Slice(s.text, i, e), Captured(items, s.text, p, g))
    case End => e == i == |s.text|
  }

  ghost predicate Cut(items: seq<Item>, s: Subject, p: seq<int>, k: nat)
    requires k < |items| && k + 1 < |p|
  {
    Segment(items, s, p, k, p[k + 1])
  }

  /** p cuts the text for the first |p| - 1 instructions. */
  ghost predicate Partial(items: seq<Item>, s: Subject, p: seq<int>) {
    && 1 <= |p| <= |items| + 1
    && 0 <= p[0] <= |s.text|
    && forall k :: 0 <= k < |p| - 1 ==> Cut(items, s, p, k)
  }

  /** p is a match of the whole program. */
  ghost predicate IsMatch(items: seq<Item>, s: Subject, p: seq<int>) {
    Partial(items, s, p) && |p| == |items| + 1
  }

  ghost predicate MatchesAt(items: seq<Item>, s: Subject, i: int) {
    exists q :: IsMatch(items, s, q) && q[0] == i
  }

  /** r takes more text than q at the first instruction where they differ. */
  ghost predicate Ahead(r: seq<int>, q: seq<int>) {
    exists d :: 0 <= d < |r| && d < |q| && r[..d] == q[..d] && r[d] > q[d]
  }

  ghost predicate Prefers(r: seq<int>, q: seq<int>) { r == q || Ahead(r, q) }

  // ----- programs the matcher supports -----

  predicate GoodItem(items: seq<Item>, k: nat)
    requires k < |items|
  {
    match items[k]
    case One(t) => GoodTest(t)
    case Many(t) => GoodTest(t)
    case Count(t, lo, hi) => GoodTest(t) && lo <= hi
    case Open(g) => g < NBRA && IndexOf(items, Open(g)) == k
    case Close(g) => g < NBRA && IndexOf(items, Close(g)) == k && IndexOf(items, Open(g)) < k
    case Back(g) => g < NBRA && IndexOf(items, Close(g)) < k
    case BackMany(g) => g < NBRA && IndexOf(items, Close(g)) < k
    case End => true
  }

  /** Group markers are unique and ordered, and a back-reference follows its closed group. */
  predicate GoodProgram(items: seq<Item>) {
    forall k :: 0 <= k < |items| ==> GoodItem(items, k)
  }

  /** No starred back-reference is ever reached with an empty capture (it would never advance). */
  ghost predicate NoEmptyLoop(items: seq<Item>, s: Subject, start: int) {
    forall p, g :: Partial(items, s, p) && p[0] == start && |p| <= |items| && items[|p| - 1] == BackMany(g)
      ==> Captured(items, s.text, p, g) != []
  }
}
