/** Bytes, C strings and the few sequence facts the other modules share. */
module Bytes {

  type byte = x: int | 0 <= x < 256

  const NUL: byte := 0
  const TAB: byte := 9
  const LF: byte := 10
  const CR: byte := 13
  const SPACE: byte := 32
  const QUOTE: byte := 34
  const COLON: byte := 58
  const BACKSLASH: byte := 92

  predicate IsDigit(b: byte)
  {
    48 <= b <= 57
  }

  datatype Option<+T> = None | Some(value: T)

  /** The bytes of a source-level string literal. */
  function Ascii(s: string): (b: seq<byte>)
    ensures |b| == |s|
    ensures forall i | 0 <= i < |s| :: b[i] == s[i] as int % 256
  {
    seq(|s|, i requires 0 <= i < |s| => s[i] as int % 256)
  }

  /** The C string held in a buffer: everything before the first NUL. */
  function CString(s: seq<byte>): (r: seq<byte>)
    ensures NUL !in r
    ensures r <= s
    ensures |r| < |s| ==> s[|r|] == NUL
  {
    if s == [] || s[0] == NUL then [] else [s[0]] + CString(s[1..])
  }

  /** A buffer whose first NUL is at position n holds the string before it. */
  lemma {:induction false} CStringAt(s: seq<byte>, n: nat)
    requires n < |s| && s[n] == NUL && NUL !in s[..n]
    ensures CString(s) == s[..n]
  {
    if n > 0 {
      assert s[..n][0] == s[0];
      assert s[1..][..n - 1] == s[..n][1..];
      CStringAt(s[1..], n - 1);
    }
  }

  lemma {:induction false} WholeCString(s: seq<byte>)
    requires NUL !in s
    ensures CString(s) == s
  {
    if s != [] {
      WholeCString(s[1..]);
    }
  }

  /** A terminator ends the string at the latest: what stands behind it does not matter. */
  lemma {:induction false} CStringEnds(s: seq<byte>, n: nat)
    requires n < |s| && s[n] == NUL
    ensures CString(s) == CString(s[..n])
  {
    if n > 0 && s[0] != NUL {
      CStringEnds(s[1..], n - 1);
      assert s[..n][1..] == s[1..][..n - 1];
    }
  }

  function Concat(ss: seq<seq<byte>>): (r: seq<byte>)
  {
    if ss == [] then [] else ss[0] + Concat(ss[1..])
  }

  lemma {:induction false} ConcatAppend(a: seq<seq<byte>>, b: seq<seq<byte>>)
    ensures Concat(a + b) == Concat(a) + Concat(b)
  {
    if a == [] {
      assert a + b == b;
    } else {
      assert (a + b)[1..] == a[1..] + b;
      ConcatAppend(a[1..], b);
    }
  }

  lemma ConcatSnoc(a: seq<seq<byte>>, x: seq<byte>)
    ensures Concat(a + [x]) == Concat(a) + x
  {
    ConcatAppend(a, [x]);
    assert Concat([x]) == x + Concat([]);
  }

  function Min(a: int, b: int): (r: int)
    ensures r <= a && r <= b && (r == a || r == b)
  {
    if a < b then a else b
  }
}
