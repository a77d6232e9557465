/** The engine's field scanners over one header line (src/nw_engine.c:167-206), and what
    they find in the flat JSON the servers send. */
module Header {
  import opened Bytes

  const COMMA: byte := 44
  const MINUS: byte := 45
  const LETTER_N: byte := 110
  const OPEN_BRACE: byte := 123
  const CLOSE_BRACE: byte := 125

  predicate IsSep(b: byte)
  {
    b == SPACE || b == TAB || b == COLON
  }

  /** Reading a C string at any position: its terminator stands at the end. */
  function At(s: seq<byte>, i: nat): (b: byte)
  {
    if i < |s| then s[i] else NUL
  }

  // ---- specifications ----

  function SkipSeps(s: seq<byte>): (r: seq<byte>)
  {
    if s != [] && IsSep(s[0]) then SkipSeps(s[1..]) else s
  }

  /** The value that follows the first quoted occurrence of the key. */
  function FindVal(s: seq<byte>, key: seq<byte>): (v: Option<seq<byte>>)
  {
    if s == [] then None
    else if [QUOTE] + key + [QUOTE] <= s then Some(SkipSeps(s[|key| + 2..]))
    else FindVal(s[1..], key)
  }

  /** Value of the run of digits at the front of s, continuing from n. */
  function Number(s: seq<byte>, n: nat): (v: nat)
  {
    if s != [] && IsDigit(s[0]) then Number(s[1..], n * 10 + (s[0] - 48)) else n
  }

  function ReadInt(v: seq<byte>): (r: Option<int>)
  {
    if v == [] || v[0] == LETTER_N then None
    else
      var neg := v[0] == MINUS;
      var d := if neg then v[1..] else v;
      if d == [] || !IsDigit(d[0]) then None
      else if neg then Some(-(Number(d, 0) as int)) else Some(Number(d, 0))
  }

  function FindInt(s: seq<byte>, key: seq<byte>): (r: Option<int>)
  {
    match FindVal(s, key)
    case None => None
    case Some(v) => ReadInt(v)
  }

  /** An integer field overwrites the old value only when it is found. */
  function IntOr(s: seq<byte>, key: seq<byte>, old_: int): (r: int)
  {
    match FindInt(s, key)
    case None => old_
    case Some(v) => v
  }

  predicate Contains(s: seq<byte>, sub: seq<byte>)
  {
    s != [] && (sub <= s || Contains(s[1..], sub))
  }

  // ---- the scanning loops ----

  lemma Mismatch(t: seq<byte>, sub: seq<byte>, n: nat)
    requires n < |sub| && (n >= |t| || t[n] != sub[n])
    ensures !(sub <= t)
  {
  }

  /** Do the bytes of sub stand at position p? (a comparison loop that stops at a mismatch) */
  method Match(s: seq<byte>, p: nat, sub: seq<byte>) returns (n: nat)
    requires p <= |s| && NUL !in sub
    ensures n <= |sub| && (n == |sub| <==> sub <= s[p..])
  {
    n := 0;
    while n < |sub| && At(s, p + n) == sub[n]
      invariant n <= |sub| && p + n <= |s|
      invariant s[p..p + n] == sub[..n]
    {
      n := n + 1;
    }
    ghost var t := s[p..];
    assert t[..n] == s[p..p + n];
    if n < |sub| {
      Mismatch(t, sub, n);
    }
  }

  lemma KeyQuoted(s: seq<byte>, p: nat, key: seq<byte>)
    requires p < |s| && s[p] == QUOTE
    ensures [QUOTE] + key + [QUOTE] <= s[p..] <==> key <= s[p + 1..] && At(s, p + 1 + |key|) == QUOTE
  {
    var t, k := s[p..], [QUOTE] + key + [QUOTE];
    if key <= s[p + 1..] && At(s, p + 1 + |key|) == QUOTE {
      assert t[..|k|] == k by {
        assert t[1..|key| + 1] == s[p + 1..][..|key|] == key;
      }
    }
    if k <= t {
      assert t[1..|key| + 1] == k[1..|key| + 1] == key;
      assert s[p + 1..][..|key|] == t[1..|key| + 1];
      assert t[|key| + 1] == k[|key| + 1];
    }
  }

  /** find_val: the position of the value, or None. */
  method FindValue(s: seq<byte>, key: seq<byte>) returns (v: Option<seq<byte>>)
    requires NUL !in key
    ensures v == FindVal(s, key)
  {
    var p := 0;
    while p < |s|
      invariant p <= |s| && FindVal(s, key) == FindVal(s[p..], key)
    {
      if s[p] == QUOTE {
        var i := Match(s, p + 1, key);
        KeyQuoted(s, p, key);
        if i == |key| && At(s, p + 1 + |key|) == QUOTE {
          var c := p + 1 + |key| + 1;
          assert s[p..][|key| + 2..] == s[c..];
          while c < |s| && IsSep(s[c])
            invariant c <= |s| && SkipSeps(s[c..]) == FindVal(s, key).value
            invariant FindVal(s, key).Some?
          {
            assert s[c..][1..] == s[c + 1..];
            c := c + 1;
          }
          return Some(s[c..]);
        }
      }
      assert s[p..][1..] == s[p + 1..];
      p := p + 1;
    }
    return None;
  }

  /** find_int: 1 and the number, or 0 and the old value. */
  method FindInteger(s: seq<byte>, key: seq<byte>, old_: int) returns (found: bool, out: int)
    requires NUL !in key
    ensures found <==> FindInt(s, key).Some?
    ensures out == IntOr(s, key, old_)
  {
    var v := FindValue(s, key);
    if v == None { return false, old_; }
    var t := v.value;
    var n: int, neg, any, i := 0, false, false, 0;
    if At(t, 0) == LETTER_N { return false, old_; }
    if At(t, 0) == MINUS { neg := true; i := 1; }
    ghost var d := t[i..];
    while IsDigit(At(t, i))
      invariant i <= |t| && n >= 0
      invariant Number(d, 0) == Number(t[i..], n)
      invariant any ==> d != [] && IsDigit(d[0])
      invariant !any ==> t[i..] == d && n == 0
      decreases |t| - i
    {
      assert t[i..][1..] == t[i + 1..];
      n := n * 10 + (t[i] as int - 48);
      i := i + 1;
      any := true;
    }
    if !any { return false, old_; }
    return true, if neg then -n else n;
  }

  /** contains: is sub a substring of s? */
  method ContainsSub(s: seq<byte>, sub: seq<byte>) returns (b: bool)
    requires NUL !in sub
    ensures b <==> Contains(s, sub)
  {
    var p := 0;
    while p < |s|
      invariant p <= |s| && Contains(s, sub) == Contains(s[p..], sub)
    {
      var i := Match(s, p, sub);
      if i == |sub| { return true; }
      assert s[p..][1..] == s[p + 1..];
      p := p + 1;
    }
    return false;
  }

  // ---- decimal numbers ----

  function Dec(n: nat): (d: seq<byte>)
    ensures d != [] && (forall i | 0 <= i < |d| :: IsDigit(d[i]))
    ensures n < 10 ==> |d| == 1
  {
    if n < 10 then [48 + n] else Dec(n / 10) + [48 + n % 10]
  }

  lemma {:induction false} DecLength(n: nat, k: nat, bound: nat)
    requires k >= 1 && n < bound && bound == Pow10(k)
    ensures |Dec(n)| <= k
    decreases k
  {
    if n >= 10 {
      assert k > 1;
      DecLength(n / 10, k - 1, Pow10(k - 1));
    }
  }

  function Pow10(k: nat): (p: nat)
    ensures p >= 1
  {
    if k == 0 then 1 else 10 * Pow10(k - 1)
  }

  lemma {:induction false} NumberAppend(d: seq<byte>, c: byte, rest: seq<byte>, n: nat)
    requires forall i | 0 <= i < |d| :: IsDigit(d[i])
    requires IsDigit(c)
    ensures Number(d + [c] + rest, n) == Number(rest, Number(d, n) * 10 + (c - 48))
  {
    if d == [] {
      assert (d + [c] + rest)[1..] == rest;
    } else {
      assert (d + [c] + rest)[1..] == d[1..] + [c] + rest;
      NumberAppend(d[1..], c, rest, n * 10 + (d[0] - 48));
    }
  }

  lemma {:induction false} NumberOfDec(n: nat)
    ensures Number(Dec(n), 0) == n
  {
    if n >= 10 {
      NumberOfDec(n / 10);
      NumberAppend(Dec(n / 10), 48 + n % 10, [], 0);
      assert Dec(n / 10) + [48 + n % 10] + [] == Dec(n);
    } else {
      assert Dec(n)[1..] == [];
    }
  }

  lemma {:induction false} NumberStops(d: seq<byte>, rest: seq<byte>, n: nat)
    requires forall i | 0 <= i < |d| :: IsDigit(d[i])
    requires rest == [] || !IsDigit(rest[0])
    ensures Number(d + rest, n) == Number(d, n)
  {
    if d == [] {
      assert d + rest == rest;
    } else {
      assert (d + rest)[1..] == d[1..] + rest;
      NumberStops(d[1..], rest, n * 10 + (d[0] - 48));
    }
  }

  /** The number scanner reads back the decimal rendering. */
  lemma ReadIntDec(n: nat, rest: seq<byte>)
    requires rest == [] || !IsDigit(rest[0])
    ensures ReadInt(Dec(n) + rest) == Some(n)
  {
    NumberOfDec(n);
    NumberStops(Dec(n), rest, 0);
    assert (Dec(n) + rest)[0] == Dec(n)[0];
  }

  lemma {:induction false} SepsSkipped(sep: seq<byte>, v: seq<byte>)
    requires forall i | 0 <= i < |sep| :: sep[i] == 32 || sep[i] == 9 || sep[i] == 58
    requires v != [] && v[0] != 32 && v[0] != 9 && v[0] != 58
    ensures SkipSeps(sep + v) == v
  {
    if sep == [] {
      assert sep + v == v;
    } else {
      assert (sep + v)[1..] == sep[1..] + v;
      SepsSkipped(sep[1..], v);
    }
  }

  lemma SignedReads(neg: bool, n: nat, rest: seq<byte>)
    requires rest == [] || !IsDigit(rest[0])
    ensures ReadInt((if neg then [45] else []) + (Dec(n) + rest)) == Some(if neg then -(n as int) else n)
  {
    ReadIntDec(n, rest);
    var v := Dec(n) + rest;
    assert v[0] == Dec(n)[0];
    if neg {
      assert ([45] + v)[1..] == v;
    } else {
      assert [] + v == v;
    }
  }

  /** A field at the front of a line, with any blanks, tabs and colons behind its name and any sign: its number is
      read, and null is no number. */
  lemma FieldReads(key: seq<byte>, sep: seq<byte>, neg: bool, n: nat, rest: seq<byte>)
    requires forall i | 0 <= i < |sep| :: sep[i] == 32 || sep[i] == 9 || sep[i] == 58
    requires rest == [] || !IsDigit(rest[0])
    ensures FindInt([34] + key + [34] + (sep + ((if neg then [45] else []) + (Dec(n) + rest))), key)
         == Some(if neg then -(n as int) else n)
    ensures FindInt([34] + key + [34] + (sep + ([110] + rest)), key) == None
  {
    hide Dec, ReadInt;
    var v := (if neg then [45] else []) + (Dec(n) + rest);
    SignedReads(neg, n, rest);
    assert IsDigit(Dec(n)[0]) && v[0] == if neg then 45 else Dec(n)[0];
    SepsSkipped(sep, v);
    SepsSkipped(sep, [110] + rest);
    FirstKey(key, sep + v);
    FirstKey(key, sep + ([110] + rest));
    NullReads(rest);
  }

  lemma NullReads(rest: seq<byte>)
    ensures ReadInt([110] + rest) == None
  {
  }

  lemma FirstKey(key: seq<byte>, rest: seq<byte>)
    ensures FindVal([34] + key + [34] + rest, key) == Some(SkipSeps(rest))
  {
    var s := [34] + key + [34] + rest;
    assert [QUOTE] + key + [QUOTE] <= s && s[|key| + 2..] == rest;
  }
}
