/** hsearch.h in its default configuration (OPEN, MULT): open addressing over a power-of-two table,
    multiplicative hashing, odd-stride double hashing, and optionally Brent's relocation. */
module HashSearch {
  import opened Arithmetic

  const WORD := 0x1_0000_0000
  const FACTOR := 4022687899  // 035761254233

  type Key = seq<int>

  datatype Slot = Empty | Used(key: Key, data: int)
  datatype Action = FIND | ENTER

  // ----- hashing -----

  function Sum(key: Key): int {
    if key == [] then 0 else Sum(key[..|key| - 1]) + key[|key| - 1]
  }

  /** The characters added up, plus their number, in an unsigned word. */
  function CrunchOf(key: Key): (c: nat)
    ensures c < WORD
  {
    (Sum(key) + |key|) % WORD
  }

  /** crunch: the summing loop. Plain char may be signed, so characters are any integers here. */
  method Crunch(key: Key) returns (r: nat)
    ensures r == CrunchOf(key)
  {
    var sum, s := 0, 0;
    while s < |key|
      invariant 0 <= s <= |key| && sum == Sum(key[..s]) % WORD
    {
      assert key[..s + 1][..s] == key[..s];
      ModAdd(Sum(key[..s]), key[s], WORD);
      sum := (sum + key[s]) % WORD;
      s := s + 1;
    }
    assert key[..s] == key;
    ModAdd(Sum(key), s, WORD);
    r := (sum + s) % WORD;
  }

  function Mixed(key: Key): (x: nat)
    ensures x < WORD
  {
    CrunchOf(key) * FACTOR % WORD
  }

  /** hashm: the top m bits of the product word. */
  function Hash(key: Key, m: nat): nat
    requires m <= 32
  {
    Shr(Mixed(key), 32 - m)
  }

  /** x << m in an unsigned word */
  function ShlWord(x: nat, m: nat): (r: nat)
    ensures r < WORD
  {
    x * Pow2(m) % WORD
  }

  /** hash2m: the next m bits, made odd. */
  function Hash2(key: Key, m: nat): nat
    requires m <= 32
  {
    var h := Shr(ShlWord(Mixed(key), m), 32 - m);
    if h % 2 == 0 then h + 1 else h
  }

  lemma {:induction false} TopBits(x: nat, m: nat)
    requires 1 <= m <= 32 && x < WORD
    ensures Shr(x, 32 - m) < Pow2(m) && Pow2(m) % 2 == 0
  {
    Pow2Add(m, 32 - m);
    Pow2At32();
    BelowProduct(Shr(x, 32 - m), Pow2(32 - m), Pow2(m));
  }

  lemma {:induction false} BelowProduct(q: int, d: int, p: int)
    requires d > 0 && q * d < p * d
    ensures q < p
  {
    Sign(q - p + 1, d);
    assert (q - p + 1) * d == q * d - p * d + d;
  }

  /** Both hash values are table indices, and the stride is odd. */
  lemma {:induction false} HashRange(key: Key, m: nat)
    requires 1 <= m <= 32
    ensures Hash(key, m) < Pow2(m) && Hash2(key, m) < Pow2(m) && Hash2(key, m) % 2 == 1
  {
    hide Mixed, ShlWord, Shr, Pow2;
    TopBits(Mixed(key), m);
    TopBits(ShlWord(Mixed(key), m), m);
  }

  /** What they are: the topmost m bits of the product of the crunched key and the factor, in a 32-bit word, and
      the m bits below them with the lowest one set. */
  lemma {:induction false} HashValues(key: Key, m: nat)
    requires 1 <= m <= 32
    ensures var w := (Sum(key) + |key|) % 0x1_0000_0000 * 4022687899 % 0x1_0000_0000; var cut := Pow2(32 - m);
      Hash(key, m) * cut <= w < (Hash(key, m) + 1) * cut
    ensures var w := (Sum(key) + |key|) % 0x1_0000_0000 * 4022687899 % 0x1_0000_0000; var cut := Pow2(32 - m);
      var low := w * Pow2(m) % 0x1_0000_0000; var even := Hash2(key, m) - 1;
      even % 2 == 0 && even * cut <= low < (even + 2) * cut
  {
    var w, cut := Mixed(key), Pow2(32 - m);
    var low := ShlWord(w, m);
    var top, h := Shr(w, 32 - m), Shr(low, 32 - m);
    NextMultiple(top, cut);
    OddAbove(h, cut, low);
    hide Pow2, Shr, Sum;
  }

  lemma {:induction false} NextMultiple(h: int, cut: int)
    ensures (h + 1) * cut == h * cut + cut && (h - 1) * cut == h * cut - cut
  {
  }

  lemma {:induction false} OddAbove(h: int, cut: int, x: int)
    requires h * cut <= x < h * cut + cut
    ensures var even := (if h % 2 == 0 then h + 1 else h) - 1; even % 2 == 0 && even * cut <= x < (even + 2) * cut
  {
    NextMultiple(h, cut);
    NextMultiple(h + 1, cut);
  }

  // ----- probe sequences -----

  /** Probe number k of a key in a table of Pow2(m) slots. */
  function Probe(key: Key, m: nat, k: nat): (i: nat)
    requires m <= 32
    ensures i < Pow2(m)
  {
    var h, c := Hash(key, m), Hash2(key, m);
    (h + k * c) % Pow2(m)
  }

  /** The incremental form i = (i + c) % length. */
  lemma {:induction false} ProbeNext(key: Key, m: nat, k: nat)
    requires 1 <= m <= 32
    ensures (Probe(key, m, k) + Hash2(key, m)) % Pow2(m) == Probe(key, m, k + 1)
  {
    hide Hash, Hash2, Pow2;
    var h, c := Hash(key, m), Hash2(key, m);
    ModAdd(h + k * c, c, Pow2(m));
    assert h + (k + 1) * c == h + k * c + c;
  }

  lemma {:induction false} ProbeFirst(key: Key, m: nat)
    requires 1 <= m <= 32
    ensures Probe(key, m, 0) == Hash(key, m)
  {
    hide Hash, Hash2, Pow2;
    HashRange(key, m);
    ModUnique(Hash(key, m), Pow2(m), 0, Hash(key, m));
  }

  /** A whole table's worth of probes never repeats a slot. */
  lemma {:induction false} ProbesApart(key: Key, m: nat, k: nat, l: nat)
    requires 1 <= m <= 32 && k < l < k + Pow2(m)
    ensures Probe(key, m, k) != Probe(key, m, l)
  {
    hide Hash, Hash2, Pow2;
    if Probe(key, m, k) == Probe(key, m, l) {
      var h, c, n := Hash(key, m), Hash2(key, m), Pow2(m);
      ModEqual(h + l * c, h + k * c, n);
      assert (h + l * c) - (h + k * c) == c * (l - k);
      HashRange(key, m);
      OddCancel(c, l - k, m);
      ModUnique(l - k, n, 0, l - k);
    }
  }

  function Probed(key: Key, m: nat, n: nat): set<nat>
    requires m <= 32
  {
    set k | 0 <= k < n :: Probe(key, m, k)
  }

  lemma {:induction false} ProbedSize(key: Key, m: nat, n: nat)
    requires 1 <= m <= 32 && n <= Pow2(m)
    ensures |Probed(key, m, n)| == n
    decreases n
  {
    if n > 0 {
      ProbedSize(key, m, n - 1);
      forall k | 0 <= k < n - 1 ensures Probe(key, m, k) != Probe(key, m, n - 1) {
        ProbesApart(key, m, k, n - 1);
      }
      assert Probed(key, m, n) == Probed(key, m, n - 1) + {Probe(key, m, n - 1)};
    }
  }

  function Below(n: nat): (s: set<nat>)
    ensures |s| == n && forall i: nat :: i in s <==> i < n
  {
    if n == 0 then {} else Below(n - 1) + {n - 1}
  }

  lemma {:induction false} SubsetSize<T>(a: set<T>, b: set<T>)
    requires a <= b
    ensures |a| <= |b| && (|a| == |b| ==> a == b)
  {
    assert b == a + (b - a);
    if |b - a| == 0 { assert b - a == {}; }
  }

  /** Double hashing covers the table: some probe among the first Pow2(m) visits slot i. */
  lemma {:induction false} ProbesCover(key: Key, m: nat, i: nat) returns (k: nat)
    requires 1 <= m <= 32 && i < Pow2(m)
    ensures k < Pow2(m) && Probe(key, m, k) == i
  {
    ProbedSize(key, m, Pow2(m));
    SubsetSize(Probed(key, m, Pow2(m)), Below(Pow2(m)));
    assert i in Probed(key, m, Pow2(m));
    k :| 0 <= k < Pow2(m) && Probe(key, m, k) == i;
  }
}
