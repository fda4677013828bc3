/** Bytes copied over a stretch of a buffer, as bcopy, copyin and copyout do. */
module Buffers {
  type byte = x: int | 0 <= x < 256

  function Overwrite(data: seq<byte>, at: int, s: seq<byte>): (r: seq<byte>)
    requires 0 <= at && at + |s| <= |data|
    ensures |r| == |data|
  {
    data[..at] + s + data[at + |s|..]
  }

  lemma {:induction false} OverwriteStep(data: seq<byte>, at: int, s: seq<byte>, i: int)
    requires 0 <= at && at + |s| <= |data| && 0 <= i < |s|
    ensures Overwrite(data, at, s[..i])[at + i := s[i]] == Overwrite(data, at, s[..i + 1])
  {
  }

  lemma {:induction false} OverwriteAfter(data: seq<byte>, a: int, b: int, s: seq<byte>)
    requires 0 <= a <= b && b + |s| <= |data|
    ensures Overwrite(data, b, s)[a..b + |s|] == data[a..b] + s
  {
  }

  lemma {:induction false} OverwriteNone(data: seq<byte>, at: int)
    requires 0 <= at <= |data|
    ensures Overwrite(data, at, []) == data
  {
  }

  lemma {:induction false} OverwriteMore(mem: seq<byte>, at: int, a: seq<byte>, b: seq<byte>)
    requires 0 <= at && at + |a| + |b| <= |mem|
    ensures Overwrite(Overwrite(mem, at, a), at + |a|, b) == Overwrite(mem, at, a + b)
  {
    var l, r := Overwrite(Overwrite(mem, at, a), at + |a|, b), Overwrite(mem, at, a + b);
    assert forall i :: 0 <= i < |mem| ==> l[i] == r[i];
  }
}
