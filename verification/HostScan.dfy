/** The host side's field scanners (src/wyoming.c:41-80): like the engine's, but a key must be
    followed by a colon. */
module HostScan {
  import opened Bytes
  import opened Header

  const PLUS: byte := 43

  predicate IsBlank(b: byte)
  {
    b == SPACE || b == TAB
  }

  /** isspace in the C locale. */
  predicate IsSpace(b: byte)
  {
    b == SPACE || 9 <= b <= 13
  }

  // ---- specifications ----

  function SkipBlanks(s: seq<byte>): (r: seq<byte>)
    ensures |r| <= |s| && (r == [] || !IsBlank(r[0]))
  {
    if s != [] && IsBlank(s[0]) then SkipBlanks(s[1..]) else s
  }

  /** The value behind a closing quotation mark: blanks, a colon, blanks. */
  function BehindColon(s: seq<byte>): (v: Option<seq<byte>>)
  {
    var t := SkipBlanks(s);
    if t != [] && t[0] == COLON then Some(SkipBlanks(t[1..])) else None
  }

  predicate KeyAt(s: seq<byte>, key: seq<byte>)
  {
    [QUOTE] + key + [QUOTE] <= s && BehindColon(s[|key| + 2..]).Some?
  }

  function FindKey(s: seq<byte>, key: seq<byte>): (v: Option<seq<byte>>)
  {
    if s == [] then None
    else if KeyAt(s, key) then BehindColon(s[|key| + 2..])
    else FindKey(s[1..], key)
  }

  function SkipSpace(s: seq<byte>): (r: seq<byte>)
  {
    if s != [] && IsSpace(s[0]) then SkipSpace(s[1..]) else s
  }

  /** strtol, base 10, over numbers that do not overflow. */
  function Strtol(s: seq<byte>): (n: int)
  {
    var t := SkipSpace(s);
    if t != [] && t[0] == MINUS then -(Number(t[1..], 0) as int)
    else if t != [] && t[0] == PLUS then Number(t[1..], 0)
    else Number(t, 0)
  }

  /** json_find_int; anything but a value beginning with n counts as a number. */
  function FindLong(s: seq<byte>, key: seq<byte>): (r: Option<int>)
  {
    match FindKey(s, key)
    case None => None
    case Some(v) => if v != [] && v[0] == LETTER_N then None else Some(Strtol(v))
  }

  /** null is no number; everything else that stands there is read as one. */
  lemma NullIsNothing(s: seq<byte>, key: seq<byte>)
    ensures var v := FindKey(s, key);
            FindLong(s, key).Some? <==> v.Some? && !(v.value != [] && v.value[0] == 110)
  {
  }

  /** The string behind an opening quotation mark, at most `room` characters of it. */
  function Unquote(s: seq<byte>, room: nat): (r: seq<byte>)
    ensures |r| <= room
    decreases |s|
  {
    if room == 0 || s == [] || s[0] == QUOTE then []
    else if s[0] == BACKSLASH && |s| > 1 then [s[1]] + Unquote(s[2..], room - 1)
    else [s[0]] + Unquote(s[1..], room - 1)
  }

  /** json_find_str into a buffer of buflen bytes; None leaves the buffer alone. */
  function FindStr(s: seq<byte>, key: seq<byte>, buflen: nat): (r: Option<seq<byte>>)
    requires buflen > 0
  {
    match FindKey(s, key)
    case None => None
    case Some(v) => if v == [] || v[0] != QUOTE then None else Some(Unquote(v[1..], buflen - 1))
  }

  /** A backslash in front of every quotation mark and every backslash. */
  function Slashed(s: seq<byte>): (r: seq<byte>)
  {
    if s == [] then []
    else (if s[0] == 34 || s[0] == 92 then [92, s[0]] else [s[0]]) + Slashed(s[1..])
  }

  /** The copying undoes such backslashes, as far as there is room. */
  lemma {:induction false} UnquoteUndoes(s: seq<byte>, rest: seq<byte>, room: nat)
    ensures Unquote(Slashed(s) + [34] + rest, room) == s[..Min(|s|, room)]
    decreases |s|
  {
    var t := Slashed(s) + [34] + rest;
    if s != [] && room > 0 {
      UnquoteUndoes(s[1..], rest, room - 1);
      var later := Slashed(s[1..]) + [34] + rest;
      if s[0] == 34 || s[0] == 92 {
        assert t[2..] == later;
      } else {
        assert t[1..] == later;
      }
      assert [s[0]] + s[1..][..Min(|s| - 1, room - 1)] == s[..Min(|s|, room)];
    }
  }

  // ---- the scanning loops ----

  method SkipBlanksFrom(s: seq<byte>, p: nat) returns (c: nat)
    requires p <= |s|
    ensures p <= c <= |s| && s[c..] == SkipBlanks(s[p..])
  {
    c := p;
    while c < |s| && IsBlank(s[c])
      invariant p <= c <= |s| && SkipBlanks(s[c..]) == SkipBlanks(s[p..])
    {
      assert s[c..][1..] == s[c + 1..];
      c := c + 1;
    }
  }

  method ValueBehind(s: seq<byte>, p: nat) returns (v: Option<seq<byte>>)
    requires p <= |s|
    ensures v == BehindColon(s[p..])
  {
    var c := SkipBlanksFrom(s, p);
    if c < |s| && s[c] == COLON {
      assert s[c..][1..] == s[c + 1..];
      c := SkipBlanksFrom(s, c + 1);
      return Some(s[c..]);
    }
    return None;
  }

  /** find_key. */
  method FindKeyIn(s: seq<byte>, key: seq<byte>) returns (v: Option<seq<byte>>)
    requires NUL !in key
    ensures v == FindKey(s, key)
  {
    hide BehindColon;
    var p := 0;
    while p < |s|
      invariant p <= |s| && FindKey(s, key) == FindKey(s[p..], key)
    {
      if s[p] == QUOTE {
        var i := Match(s, p + 1, key);
        KeyQuoted(s, p, key);
        if i == |key| && At(s, p + 1 + |key|) == QUOTE {
          assert s[p..][|key| + 2..] == s[p + 1 + |key| + 1..];
          v := ValueBehind(s, p + 1 + |key| + 1);
          if v.Some? { return; }
        }
      }
      assert s[p..][1..] == s[p + 1..];
      p := p + 1;
    }
    return None;
  }

  /** json_find_int: the old value stays when nothing is found. */
  method JsonFindInt(s: seq<byte>, key: seq<byte>, old_: int) returns (found: bool, out: int)
    requires NUL !in key
    ensures found <==> FindLong(s, key).Some?
    ensures out == match FindLong(s, key) case None => old_ case Some(n) => n
  {
    var v := FindKeyIn(s, key);
    if v == None { return false, old_; }
    if At(v.value, 0) == LETTER_N { return false, old_; }
    return true, Strtol(v.value);
  }

  /** One trip of the copying loop from position p. */
  lemma UnquoteStep(t: seq<byte>, p: nat, room: nat, buf: seq<byte>)
    requires p < |t| && t[p] != QUOTE && room > 0
    ensures var k := if t[p] == BACKSLASH && p + 1 < |t| then p + 1 else p;
            buf + Unquote(t[p..], room) == (buf + [t[k]]) + Unquote(t[k + 1..], room - 1)
  {
    assert t[p..][1..] == t[p + 1..];
    if t[p] == BACKSLASH && p + 1 < |t| {
      assert t[p..][2..] == t[p + 2..] && t[p..][1] == t[p + 1];
    }
  }

  lemma UnquoteEnds(t: seq<byte>, p: nat, room: nat)
    requires p <= |t| && (p == |t| || t[p] == QUOTE || room == 0)
    ensures Unquote(t[p..], room) == []
  {
  }

  /** json_find_str: copies characters up to the closing quotation mark or the end of the buffer. */
  method JsonFindStr(s: seq<byte>, key: seq<byte>, old_: seq<byte>, buflen: nat) returns (found: bool, buf: seq<byte>)
    requires NUL !in key && buflen > 0
    ensures found <==> FindStr(s, key, buflen).Some?
    ensures buf == match FindStr(s, key, buflen) case None => old_ case Some(t) => t
  {
    hide Unquote, FindKey;
    var v := FindKeyIn(s, key);
    if v == None || At(v.value, 0) != QUOTE { return false, old_; }
    var t, p := v.value, 1;
    buf := [];
    while p < |t| && t[p] != QUOTE && |buf| + 1 < buflen
      invariant 1 <= p <= |t| && |buf| < buflen
      invariant buf + Unquote(t[p..], buflen - 1 - |buf|) == Unquote(t[1..], buflen - 1)
      decreases |t| - p
    {
      UnquoteStep(t, p, buflen - 1 - |buf|, buf);
      if t[p] == BACKSLASH && p + 1 < |t| { p := p + 1; }
      buf := buf + [t[p]];
      p := p + 1;
    }
    UnquoteEnds(t, p, buflen - 1 - |buf|);
    return true, buf;
  }

  // ---- blanks and signs ----

  lemma {:induction false} BlanksSkipped(b: seq<byte>, v: seq<byte>)
    requires forall i | 0 <= i < |b| :: b[i] == 32 || b[i] == 9
    requires v != [] && v[0] != 32 && v[0] != 9
    ensures SkipBlanks(b + v) == v
  {
    if b == [] {
      assert b + v == v;
    } else {
      assert (b + v)[1..] == b[1..] + v;
      BlanksSkipped(b[1..], v);
    }
  }

  lemma {:induction false} SpacesSkipped(b: seq<byte>, v: seq<byte>)
    requires forall i | 0 <= i < |b| :: b[i] == 32 || 9 <= b[i] <= 13
    requires v != [] && v[0] != 32 && !(9 <= v[0] <= 13)
    ensures SkipSpace(b + v) == v
  {
    if b == [] {
      assert b + v == v;
    } else {
      assert (b + v)[1..] == b[1..] + v;
      SpacesSkipped(b[1..], v);
    }
  }

  /** strtol over white space, a sign and a decimal rendering. */
  lemma StrtolReads(space: seq<byte>, sign: seq<byte>, n: nat, rest: seq<byte>)
    requires forall i | 0 <= i < |space| :: space[i] == 32 || 9 <= space[i] <= 13
    requires (sign == [] || sign == [43] || sign == [45]) && (rest == [] || !IsDigit(rest[0]))
    ensures Strtol(space + (sign + (Dec(n) + rest))) == if sign == [45] then -(n as int) else n
  {
    hide Dec;
    NumberOfDec(n);
    NumberStops(Dec(n), rest, 0);
    var v := Dec(n) + rest;
    assert v[0] == Dec(n)[0] && IsDigit(v[0]);
    if sign == [] {
      assert sign + v == v;
    } else {
      assert (sign + v)[1..] == v;
    }
    SpacesSkipped(space, sign + v);
  }

  lemma FirstKeyIs(key: seq<byte>, a: seq<byte>, b: seq<byte>, v: seq<byte>)
    requires forall i | 0 <= i < |a| :: a[i] == 32 || a[i] == 9
    requires forall i | 0 <= i < |b| :: b[i] == 32 || b[i] == 9
    requires v != [] && v[0] != 32 && v[0] != 9
    ensures FindKey([34] + key + [34] + (a + ([58] + (b + v))), key) == Some(v)
  {
    var rest := a + ([58] + (b + v));
    var s := [34] + key + [34] + rest;
    assert [QUOTE] + key + [QUOTE] <= s && s[|key| + 2..] == rest;
    BlanksSkipped(a, [58] + (b + v));
    assert ([58] + (b + v))[1..] == b + v;
    BlanksSkipped(b, v);
  }

  /** A field at the front of a line, with any blanks and tabs around its colon and any sign. */
  lemma FieldReadsLong(key: seq<byte>, a: seq<byte>, b: seq<byte>, sign: seq<byte>, n: nat, rest: seq<byte>)
    requires forall i | 0 <= i < |a| :: a[i] == 32 || a[i] == 9
    requires forall i | 0 <= i < |b| :: b[i] == 32 || b[i] == 9
    requires (sign == [] || sign == [43] || sign == [45]) && (rest == [] || !IsDigit(rest[0]))
    ensures FindLong([34] + key + [34] + (a + ([58] + (b + (sign + (Dec(n) + rest))))), key)
         == Some(if sign == [45] then -(n as int) else n)
  {
    hide Dec, Strtol, FindKey;
    var v := sign + (Dec(n) + rest);
    assert IsDigit(Dec(n)[0]) && v[0] == if sign == [] then Dec(n)[0] else sign[0];
    FirstKeyIs(key, a, b, v);
    StrtolReads([], sign, n, rest);
    assert [] + v == v;
  }
}
