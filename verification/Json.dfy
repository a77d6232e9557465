/** The far side's reading of a JSON string: section 7 of RFC 8259, over UTF-8 bytes. */
module Json {
  import opened Bytes
  import opened Utf8

  function HexValue(b: byte): (v: Option<nat>)
    ensures v.Some? ==> v.value < 16
  {
    if 48 <= b <= 57 then Some(b - 48)
    else if 65 <= b <= 70 then Some(b - 55)
    else if 97 <= b <= 102 then Some(b - 87)
    else None
  }

  /** The four hexadecimal digits at the front of s. */
  function Hex4(s: seq<byte>): (v: Option<nat>)
    ensures v.Some? ==> v.value < 0x10000 && |s| >= 4
  {
    if |s| < 4 then None
    else
      match (HexValue(s[0]), HexValue(s[1]), HexValue(s[2]), HexValue(s[3]))
      case (Some(a), Some(b), Some(c), Some(d)) => Some(a * 4096 + b * 256 + c * 16 + d)
      case _ => None
  }

  datatype Unescaped = Unescaped(value: seq<byte>, used: nat)

  /** The two-character escapes, by the character after the backslash. */
  function ShortEscape(c: byte): (v: Option<byte>)
  {
    if c == QUOTE || c == BACKSLASH || c == 47 then Some(c)
    else if c == 98 then Some(8)
    else if c == 102 then Some(12)
    else if c == 110 then Some(LF)
    else if c == 114 then Some(CR)
    else if c == 116 then Some(TAB)
    else None
  }

  /** The \uXXXX escape at the front of s, or the surrogate pair of two of them. */
  function UnicodeEscape(s: seq<byte>): (r: Option<Unescaped>)
    requires |s| >= 2
    ensures r.Some? ==> 0 < r.value.used <= |s|
  {
    match Hex4(s[2..])
    case None => None
    case Some(u) =>
      if !(0xD800 <= u <= 0xDFFF) then Some(Unescaped(EncodeScalar(u), 6))
      else if u <= 0xDBFF && |s| >= 12 && s[6] == BACKSLASH && s[7] == 117 then
        match Hex4(s[8..])
        case Some(l) =>
          if 0xDC00 <= l <= 0xDFFF
          then Some(Unescaped(EncodeScalar(0x10000 + (u - 0xD800) * 0x400 + (l - 0xDC00)), 12))
          else None
        case None => None
      else None
  }

  function Escape(s: seq<byte>): (r: Option<Unescaped>)
    requires |s| >= 1
    ensures r.Some? ==> 0 < r.value.used <= |s|
  {
    if |s| < 2 then None
    else if s[1] == 117 then UnicodeEscape(s)
    else match ShortEscape(s[1])
         case Some(c) => Some(Unescaped([c], 2))
         case None => None
  }

  datatype Parsed = Parsed(value: seq<byte>, rest: seq<byte>)

  /** Reads the characters of a string up to its closing quotation mark. */
  function StringBody(s: seq<byte>): (r: Option<Parsed>)
    ensures r.Some? ==> |r.value.rest| < |s|
    decreases |s|
  {
    if s == [] then None
    else if s[0] == QUOTE then Some(Parsed([], s[1..]))
    else if s[0] == BACKSLASH then
      match Escape(s)
      case None => None
      case Some(e) => Prepend(e.value, StringBody(s[e.used..]))
    else if s[0] < SPACE then None
    else Prepend([s[0]], StringBody(s[1..]))
  }

  function Prepend(v: seq<byte>, r: Option<Parsed>): (p: Option<Parsed>)
  {
    match r
    case None => None
    case Some(q) => Some(Parsed(v + q.value, q.rest))
  }

  // ---- numbers: section 6 ----

  predicate Digits(s: seq<byte>)
  {
    forall i | 0 <= i < |s| :: IsDigit(s[i])
  }

  predicate IsMinus(s: seq<byte>)
  {
    s == [] || s == [45]
  }

  /** No leading zeros. */
  predicate IsInt(s: seq<byte>)
  {
    s == [48] || (s != [] && s[0] != 48 && Digits(s))
  }

  predicate IsFrac(s: seq<byte>)
  {
    s == [] || (s[0] == 46 && s[1..] != [] && Digits(s[1..]))
  }

  predicate IsExpMark(b: byte)
  {
    b == 69 || b == 101
  }

  predicate IsSign(b: byte)
  {
    b == 43 || b == 45
  }

  predicate IsExp(s: seq<byte>)
  {
    s == []
    || (IsExpMark(s[0])
        && ((s[1..] != [] && Digits(s[1..])) || (|s| > 2 && IsSign(s[1]) && Digits(s[2..]))))
  }

  ghost predicate IsNumber(s: seq<byte>)
  {
    exists a, b, c | 0 <= a <= b <= c <= |s| ::
      IsMinus(s[..a]) && IsInt(s[a..b]) && IsFrac(s[b..c]) && IsExp(s[c..])
  }

  // ---- the scanner: the longest number at the front of s, or nothing ----

  function DigitRun(s: seq<byte>): (n: nat)
    ensures n <= |s|
  {
    if s == [] || !IsDigit(s[0]) then 0 else 1 + DigitRun(s[1..])
  }

  function MinusRun(s: seq<byte>): (n: nat)
    ensures n <= |s|
  {
    if s != [] && s[0] == 45 then 1 else 0
  }

  function IntRun(s: seq<byte>): (n: nat)
    ensures n <= |s|
  {
    if s != [] && s[0] == 48 then 1 else DigitRun(s)
  }

  function FracRun(s: seq<byte>): (n: nat)
    ensures n <= |s|
  {
    if s != [] && s[0] == 46 && DigitRun(s[1..]) > 0 then 1 + DigitRun(s[1..]) else 0
  }

  function ExpRun(s: seq<byte>): (n: nat)
    ensures n <= |s|
  {
    if s == [] || !IsExpMark(s[0]) then 0
    else
      var sign := if |s| > 1 && IsSign(s[1]) then 1 else 0;
      var n := DigitRun(s[1 + sign..]);
      if n > 0 then 1 + sign + n else 0
  }

  function NumberRun(s: seq<byte>): (n: nat)
    ensures n <= |s|
  {
    var a := MinusRun(s);
    var b := a + IntRun(s[a..]);
    if b == a then 0
    else
      var c := b + FracRun(s[b..]);
      c + ExpRun(s[c..])
  }

  lemma {:induction false} DigitRunIs(s: seq<byte>)
    ensures Digits(s[..DigitRun(s)]) && (DigitRun(s) < |s| ==> !IsDigit(s[DigitRun(s)]))
  {
    if s != [] && IsDigit(s[0]) {
      DigitRunIs(s[1..]);
      assert forall i | 1 <= i < DigitRun(s) :: s[i] == s[1..][..DigitRun(s[1..])][i - 1];
    }
  }

  lemma {:induction false} DigitsRunOn(s: seq<byte>, k: nat)
    requires k <= |s| && Digits(s[..k])
    ensures k <= DigitRun(s)
  {
    if k > 0 {
      assert s[..k][0] == s[0] && s[1..][..k - 1] == s[..k][1..];
      DigitsRunOn(s[1..], k - 1);
    }
  }

  lemma IntRunIs(s: seq<byte>)
    ensures IntRun(s) > 0 ==> IsInt(s[..IntRun(s)])
  {
    DigitRunIs(s);
  }

  lemma FracRunIs(s: seq<byte>)
    ensures IsFrac(s[..FracRun(s)])
  {
    if FracRun(s) > 0 {
      DigitRunIs(s[1..]);
      assert s[..FracRun(s)][1..] == s[1..][..DigitRun(s[1..])];
    }
  }

  lemma ExpRunIs(s: seq<byte>)
    ensures IsExp(s[..ExpRun(s)])
  {
    if ExpRun(s) > 0 {
      var sign := if |s| > 1 && IsSign(s[1]) then 1 else 0;
      DigitRunIs(s[1 + sign..]);
      assert s[..ExpRun(s)][1 + sign..] == s[1 + sign..][..DigitRun(s[1 + sign..])];
    }
  }

  lemma Window(s: seq<byte>, n: nat, a: nat, b: nat)
    requires a <= b <= n <= |s|
    ensures s[..n][a..b] == s[a..b] == s[a..][..b - a] && s[..n][a..] == s[a..][..n - a]
  {
  }

  lemma Shift(s: seq<byte>, b: nat, i: nat, j: nat)
    requires b <= |s| && i <= j <= |s| - b
    ensures s[b..][i..j] == s[b + i..b + j] && s[b..][i..] == s[b + i..]
  {
  }

  /** What is scanned is a number. */
  lemma NumberRunIs(s: seq<byte>)
    ensures NumberRun(s) > 0 ==> IsNumber(s[..NumberRun(s)])
  {
    hide IntRun, FracRun, ExpRun, IsInt, IsFrac, IsExp;
    var n, a := NumberRun(s), MinusRun(s);
    if n > 0 {
      var b := a + IntRun(s[a..]);
      var c := b + FracRun(s[b..]);
      IntRunIs(s[a..]);
      FracRunIs(s[b..]);
      ExpRunIs(s[c..]);
      var t := s[..n];
      Window(s, n, a, b);
      Window(s, n, b, c);
      Window(s, n, c, n);
      assert IsMinus(t[..a]) && IsInt(t[a..b]) && IsFrac(t[b..c]) && IsExp(t[c..]);
    }
  }

  lemma IntRunOn(s: seq<byte>, k: nat)
    requires k <= |s| && IsInt(s[..k])
    ensures 0 < k <= IntRun(s) && (k < IntRun(s) ==> IsDigit(s[k]))
  {
    assert s[..k][0] == s[0];
    if s[0] != 48 {
      DigitsRunOn(s, k);
      DigitRunIs(s);
      if k < DigitRun(s) { assert s[..DigitRun(s)][k] == s[k]; }
    }
  }

  lemma FracRunOn(s: seq<byte>, k: nat)
    requires k <= |s| && IsFrac(s[..k])
    ensures k <= FracRun(s) && (k < FracRun(s) ==> IsDigit(s[k]) || s[k] == 46)
  {
    if k > 0 {
      assert s[..k][0] == s[0] && s[..k][1..] == s[1..][..k - 1];
      DigitsRunOn(s[1..], k - 1);
      DigitRunIs(s[1..]);
      if k < FracRun(s) { assert s[1..][..DigitRun(s[1..])][k - 1] == s[k]; }
    }
  }

  lemma ExpRunOn(s: seq<byte>, k: nat)
    requires k <= |s| && IsExp(s[..k])
    ensures k <= ExpRun(s)
  {
    if k > 0 {
      var t := s[..k];
      assert t[0] == s[0];
      if t[1..] != [] && Digits(t[1..]) {
        assert t[1..][0] == s[1] && IsDigit(s[1]);
        assert t[1..] == s[1..][..k - 1];
        DigitsRunOn(s[1..], k - 1);
      } else {
        assert t[1] == s[1] && t[2..] == s[2..][..k - 2];
        DigitsRunOn(s[2..], k - 2);
      }
    }
  }

  /** No part begins like the one before it goes on. */
  lemma ExpStarts(s: seq<byte>)
    requires IsExp(s) && s != []
    ensures !IsDigit(s[0]) && s[0] != 46
  {
  }

  lemma MinusRunOn(s: seq<byte>, a: nat, b: nat)
    requires a <= b <= |s| && IsMinus(s[..a]) && IsInt(s[a..b])
    ensures a == MinusRun(s) && a < b
  {
    assert s[a..b][0] == s[a];
    if a > 0 { assert s[..a][0] == s[0]; }
  }

  lemma TailRunOn(s: seq<byte>, c: nat, k: nat)
    requires c <= k <= |s| && IsFrac(s[..c]) && IsExp(s[c..k])
    ensures k <= FracRun(s) + ExpRun(s[FracRun(s)..])
  {
    hide FracRun, ExpRun, IsFrac, IsExp;
    FracRunOn(s, c);
    if c < k {
      ExpStarts(s[c..k]);
      assert s[c..k][0] == s[c];
    }
    if c == FracRun(s) {
      assert s[c..][..k - c] == s[c..k];
      ExpRunOn(s[c..], k - c);
    }
  }

  /** Behind an integer that could go on there is neither fraction nor exponent. */
  lemma TailIsNothing(s: seq<byte>, c: nat)
    requires c <= |s| && IsFrac(s[..c]) && IsExp(s[c..]) && (s != [] ==> IsDigit(s[0]))
    ensures s == []
  {
    assert s[0..] == s;
  }

  /** The scanner takes the longest number there is. */
  lemma LongestNumber(s: seq<byte>, k: nat)
    requires k <= |s| && IsNumber(s[..k])
    ensures 0 < k <= NumberRun(s)
  {
    hide MinusRun, IntRun, FracRun, ExpRun, IsInt, IsMinus, IsFrac, IsExp, IsDigit;
    var t := s[..k];
    var a, b, c :| 0 <= a <= b <= c <= k && IsMinus(t[..a]) && IsInt(t[a..b]) && IsFrac(t[b..c]) && IsExp(t[c..]);
    assert t[..a] == s[..a];
    Window(s, k, a, b);
    MinusRunOn(s, a, b);
    IntRunOn(s[a..], b - a);
    if b < a + IntRun(s[a..]) {
      Window(t, k, b, c);
      assert t[b..][c - b..] == t[c..];
      TailIsNothing(t[b..], c - b);
    } else {
      var u := s[b..];
      Window(s, k, b, c);
      Window(s, k, c, k);
      Shift(s, b, c - b, k - b);
      TailRunOn(u, c - b, k - b);
      Shift(s, b, FracRun(u), |u|);
    }
  }

  predicate NumberChar(b: byte)
  {
    IsDigit(b) || IsExpMark(b) || IsSign(b) || b == 46
  }

  lemma FracChars(s: seq<byte>, i: nat)
    requires IsFrac(s) && i < |s|
    ensures NumberChar(s[i])
  {
    if i > 0 { assert s[1..][i - 1] == s[i]; }
  }

  lemma ExpChars(s: seq<byte>, i: nat)
    requires IsExp(s) && i < |s|
    ensures NumberChar(s[i])
  {
    if i > 0 { assert s[1..][i - 1] == s[i]; }
    if i > 1 { assert s[2..][i - 2] == s[i]; }
  }

  lemma NumberChars(s: seq<byte>, i: nat)
    requires IsNumber(s) && i < |s|
    ensures NumberChar(s[i])
  {
    hide IsFrac, IsExp;
    var a, b, c :| 0 <= a <= b <= c <= |s| && IsMinus(s[..a]) && IsInt(s[a..b]) && IsFrac(s[b..c]) && IsExp(s[c..]);
    if i < a {
      assert s[..a][i] == s[i];
    } else if i < b {
      assert s[a..b][i - a] == s[i];
    } else if i < c {
      FracChars(s[b..c], i - b);
    } else {
      ExpChars(s[c..], i - c);
    }
  }

  /** A number in front of anything that cannot go on with it is scanned whole. */
  lemma NumberEnds(s: seq<byte>, rest: seq<byte>)
    requires IsNumber(s) && (rest != [] ==> !NumberChar(rest[0]))
    ensures NumberRun(s + rest) == |s| > 0
  {
    hide NumberRun, IsNumber, NumberChar;
    var t := s + rest;
    assert t[..|s|] == s;
    LongestNumber(t, |s|);
    var n := NumberRun(t);
    if n > |s| {
      assert t[..n][|s|] == rest[0];
      NumberRunIs(t);
      NumberChars(t[..n], |s|);
    }
  }
}
