/** The host side's bounded escaping (src/wyoming.c:21-34, 83-106): always terminated inside its buffer,
    never in the middle of an escape, and read back by the far side as an exact prefix of the input. */
module HostEscape {
  import opened Bytes
  import opened Utf8
  import Json

  // ---- specification ----

  function HexDigit(n: nat): (d: byte)
    requires n < 16
  {
    if n < 10 then 48 + n else 87 + n
  }

  /** What json_escape writes for one character. */
  function EscByte(c: byte): (e: seq<byte>)
    ensures 1 <= |e| <= 6
    ensures |e| > 2 ==> Control(c)
  {
    if c == QUOTE || c == BACKSLASH then [BACKSLASH, c]
    else if c == LF then [BACKSLASH, 110]
    else if c == CR then [BACKSLASH, 114]
    else if c == TAB then [BACKSLASH, 116]
    else if c < SPACE then [BACKSLASH, 117, 48, 48, HexDigit(c / 16), HexDigit(c % 16)]
    else [c]
  }

  /** The control characters without a short escape. */
  predicate Control(c: byte)
  {
    c < SPACE && c != LF && c != CR && c != TAB
  }

  function Esc(s: seq<byte>): (e: seq<byte>)
  {
    if s == [] then [] else Esc(s[..|s| - 1]) + EscByte(s[|s| - 1])
  }

  /** The loop stops in front of character k: fewer than three bytes are free, or too few for \uXXXX. */
  predicate Full(s: seq<byte>, k: nat, outlen: nat)
    requires k < |s|
  {
    |Esc(s[..k])| + 2 >= outlen || (Control(s[k]) && |Esc(s[..k])| + 6 >= outlen)
  }

  function KeptFrom(s: seq<byte>, k: nat, outlen: nat): (n: nat)
    requires k <= |s|
    ensures k <= n <= |s|
    decreases |s| - k
  {
    if k == |s| || Full(s, k, outlen) then k else KeptFrom(s, k + 1, outlen)
  }

  /** How many characters of s make it into a buffer of outlen bytes. */
  function Kept(s: seq<byte>, outlen: nat): (n: nat)
    ensures n <= |s|
  {
    KeptFrom(s, 0, outlen)
  }

  // ---- decoding ----

  /** The far side reads one escaped character as that character. */
  lemma EscByteDecodes(c: byte, rest: seq<byte>)
    ensures Json.StringBody(EscByte(c) + rest) == Json.Prepend([c], Json.StringBody(rest))
  {
    var s := EscByte(c) + rest;
    if |EscByte(c)| == 2 {
      assert s[2..] == rest;
      assert Json.Escape(s) == Some(Json.Unescaped([c], 2));
    } else if Control(c) {
      var h := s[2..];
      assert h[0] == 48 && h[1] == 48 && h[2] == HexDigit(c / 16) && h[3] == HexDigit(c % 16);
      assert Json.Hex4(h) == Some(c);
      assert Json.Escape(s) == Some(Json.Unescaped(EncodeScalar(c), 6));
      assert s[6..] == rest;
    } else {
      assert s[1..] == rest;
    }
  }

  lemma PrependTwice(a: seq<byte>, b: seq<byte>, r: Option<Json.Parsed>)
    ensures Json.Prepend(a, Json.Prepend(b, r)) == Json.Prepend(a + b, r)
  {
    if r.Some? {
      assert a + (b + r.value.value) == a + b + r.value.value;
    }
  }

  /** Section 7 of RFC 8259 undoes the escaping, byte for byte. */
  lemma {:induction false} EscDecodes(s: seq<byte>, rest: seq<byte>)
    ensures Json.StringBody(Esc(s) + rest) == Json.Prepend(s, Json.StringBody(rest))
  {
    hide Json.StringBody, EscByte;
    if s == [] {
      assert Esc(s) + rest == rest;
      var r := Json.StringBody(rest);
      assert r.Some? ==> [] + r.value.value == r.value.value;
    } else {
      var init, c := s[..|s| - 1], s[|s| - 1];
      assert Esc(s) + rest == Esc(init) + (EscByte(c) + rest);
      EscDecodes(init, EscByte(c) + rest);
      EscByteDecodes(c, rest);
      PrependTwice(init, [c], Json.StringBody(rest));
      assert init + [c] == s;
    }
  }

  // ---- how much is kept ----

  lemma {:induction false} EscAtMostSix(s: seq<byte>)
    ensures |s| <= |Esc(s)| <= 6 * |s|
  {
    if s != [] {
      EscAtMostSix(s[..|s| - 1]);
    }
  }

  lemma {:induction false} KeepsOnWithRoom(s: seq<byte>, k: nat, outlen: nat)
    requires k <= |s| && 6 * |s| + 1 <= outlen
    ensures KeptFrom(s, k, outlen) == |s|
    decreases |s| - k
  {
    if k < |s| {
      EscAtMostSix(s[..k]);
      KeepsOnWithRoom(s, k + 1, outlen);
    }
  }

  lemma {:induction false} KeptFromIs(s: seq<byte>, k: nat, outlen: nat, j: nat)
    requires k <= |s| && k <= j < |s|
    ensures j < KeptFrom(s, k, outlen) ==> !Full(s, j, outlen)
    ensures j == KeptFrom(s, k, outlen) ==> Full(s, j, outlen)
    decreases |s| - k
  {
    if k < j && !Full(s, k, outlen) {
      KeptFromIs(s, k + 1, outlen, j);
    }
  }

  /** Where the loop stops: in front of the first character for which fewer than three bytes are free, or fewer than
      seven and it is a control character without a short escape. */
  lemma KeptIs(s: seq<byte>, outlen: nat, j: nat)
    requires j < |s|
    ensures var free := outlen - |Esc(s[..j])|;
            var short := s[j] >= 32 || s[j] == 9 || s[j] == 10 || s[j] == 13;
            && (j < Kept(s, outlen) ==> free >= 3 && (short || free >= 7))
            && (j == Kept(s, outlen) ==> free < 3 || (!short && free < 7))
  {
    hide Esc;
    KeptFromIs(s, 0, outlen, j);
  }

  /** With six bytes a character and one for the terminator, nothing is lost. */
  lemma WholeWithRoom(s: seq<byte>, outlen: nat)
    requires 6 * |s| + 1 <= outlen
    ensures Kept(s, outlen) == |s|
  {
    KeepsOnWithRoom(s, 0, outlen);
  }

  /** The far side reads an exact prefix of the input; all of it when there is room. */
  lemma PrefixReadsBack(s: seq<byte>, outlen: nat, rest: seq<byte>)
    ensures Json.StringBody(Esc(s[..Kept(s, outlen)]) + [QUOTE] + rest)
         == Some(Json.Parsed(s[..Kept(s, outlen)], rest))
    ensures 6 * |s| + 1 <= outlen ==> s[..Kept(s, outlen)] == s
  {
    var p := s[..Kept(s, outlen)];
    assert Esc(p) + [QUOTE] + rest == Esc(p) + ([QUOTE] + rest);
    EscDecodes(p, [QUOTE] + rest);
    assert ([QUOTE] + rest)[1..] == rest;
    assert p + [] == p;
    if 6 * |s| + 1 <= outlen {
      WholeWithRoom(s, outlen);
    }
  }

  // ---- what the cut does to characters ----

  lemma CutCharacter(t: seq<byte>, k: nat)
    requires CharLen(t) > 0 && k <= |t|
    ensures 0 < k < CharLen(t) ==> IsTail(t[k]) && CharLen(t[..k]) == 0
    ensures k >= CharLen(t) ==> CharLen(t[..k]) == CharLen(t)
    ensures !IsTail(t[0])
  {
  }

  /** Valid text may be cut where no continuation byte follows, and nowhere else. */
  lemma {:induction false} CutIsUtf8Iff(t: seq<byte>, k: nat)
    requires IsUtf8(t) && k <= |t|
    ensures IsUtf8(t[..k]) <==> k == |t| || !IsTail(t[k])
    decreases |t|
  {
    if t == [] {
      assert t[..k] == [];
    } else if k > 0 {
      var n := CharLen(t);
      CutCharacter(t, k);
      hide CharLen;
      if k >= n {
        CutIsUtf8Iff(t[n..], k - n);
        assert t[..k][n..] == t[n..][..k - n];
      }
    } else {
      CutCharacter(t, k);
    }
  }

  /** The text the far side reads is valid UTF-8 exactly if the loop does not stop inside a character. */
  lemma StopsOutsideIff(s: seq<byte>, outlen: nat)
    requires IsUtf8(s)
    ensures IsUtf8(s[..Kept(s, outlen)]) <==> Kept(s, outlen) == |s| || !IsTail(s[Kept(s, outlen)])
  {
    CutIsUtf8Iff(s, Kept(s, outlen));
  }

  lemma CharacterParts(t: seq<byte>, k: nat)
    requires CharLen(t) > 0 && 0 < k < CharLen(t)
    ensures t[k - 1] >= 0x80
  {
  }

  /** In valid text a continuation byte follows another byte of its character. */
  lemma {:induction false} BeforeTail(t: seq<byte>, k: nat)
    requires IsUtf8(t) && 0 <= k < |t| && IsTail(t[k])
    ensures k > 0 && t[k - 1] >= 0x80
    decreases |t|
  {
    var n := CharLen(t);
    CutCharacter(t, k);
    if k < n {
      CharacterParts(t, k);
    } else {
      hide CharLen;
      BeforeTail(t[n..], k - n);
      assert t[n..][k - n - 1] == t[k - 1];
    }
  }

  lemma {:induction false} EscGrows(s: seq<byte>, j: nat, k: nat)
    requires j < k <= |s|
    ensures |Esc(s[..j])| + |EscByte(s[j])| <= |Esc(s[..k])|
    decreases k
  {
    hide Esc, EscByte;
    EscSnoc(s, k - 1);
    if j < k - 1 { EscGrows(s, j, k - 1); }
  }

  /** Where the buffer has exactly two bytes left the loop stops, unless it stopped before. */
  lemma {:induction false} StopsAt(s: seq<byte>, j: nat, k: nat, outlen: nat)
    requires j <= k < |s| && |Esc(s[..k])| + 2 == outlen
    ensures KeptFrom(s, j, outlen) == k
    decreases k - j
  {
    if j < k {
      EscGrows(s, j, k);
      StopsAt(s, j + 1, k, outlen);
    }
  }

  lemma HighByte(c: byte)
    ensures c >= 0x80 ==> |EscByte(c)| == 1
  {
  }

  /** In front of an unescaped byte behind an unescaped byte the loop stops with exactly two bytes left. */
  lemma {:induction false} StopHas(s: seq<byte>, j: nat, outlen: nat)
    requires j <= |s| && KeptFrom(s, j, outlen) < |s|
    ensures var k := KeptFrom(s, j, outlen);
            j < k && s[k - 1] >= 0x80 && !Control(s[k]) ==> |Esc(s[..k])| + 2 == outlen
    decreases |s| - j
  {
    hide Esc, EscByte;
    if j < |s| && !Full(s, j, outlen) {
      EscSnoc(s, j);
      HighByte(s[j]);
      StopHas(s, j + 1, outlen);
    }
  }

  /** A character is torn in front of byte k: it continues one, and exactly two bytes of the buffer are left. */
  predicate TornAt(s: seq<byte>, outlen: nat, k: nat)
  {
    0 < k < |s| && IsTail(s[k]) && |Esc(s[..k])| + 2 == outlen
  }

  /** What is read of valid text is valid exactly if no character is torn. */
  lemma KeptIsUtf8Iff(s: seq<byte>, outlen: nat)
    requires IsUtf8(s)
    ensures IsUtf8(s[..Kept(s, outlen)]) <==> !exists k: nat :: TornAt(s, outlen, k)
  {
    hide IsUtf8, Esc, EscByte;
    StopsOutsideIff(s, outlen);
    var n := Kept(s, outlen);
    if n < |s| && IsTail(s[n]) {
      BeforeTail(s, n);
      StopHas(s, 0, outlen);
      assert TornAt(s, outlen, n);
    } else if k: nat :| TornAt(s, outlen, k) {
      StopsAt(s, 0, k, outlen);
    }
  }

  /** It can: an accented letter that does not fit any more is torn. */
  lemma CharacterTorn() returns (s: seq<byte>, outlen: nat)
    ensures IsUtf8(s) && outlen >= 1 && !IsUtf8(s[..Kept(s, outlen)])
  {
    s, outlen := [97, 0xC3, 0xA9], 4;
    assert s[1..][2..] == [] && s == [97] + s[1..];
    assert s[..0] == [] && s[..1] == [97] && s[..2] == [97, 0xC3];
    assert Esc(s[..1]) == Esc([97][..0]) + [97];
    assert Esc(s[..2]) == Esc([97, 0xC3][..1]) + [0xC3] && [97, 0xC3][..1] == [97];
    assert Kept(s, outlen) == 2;
    assert [97, 0xC3][1..] == [0xC3];
  }

  // ---- writing into the buffer ----

  method Put(buf: array<byte>, p: nat, c: byte)
    requires p < buf.Length
    modifies buf
    ensures buf[..p + 1] == old(buf[..p]) + [c] && buf[p + 1..] == old(buf[p + 1..])
  {
    buf[p] := c;
  }

  /** vsnprintf of an already formatted string: at most room - 1 bytes and a terminator; the
      result is the length it would have needed. */
  method Vsnprintf(buf: array<byte>, pos: nat, room: nat, s: seq<byte>) returns (n: nat)
    requires room > 0 && pos + room <= buf.Length
    modifies buf
    ensures n == |s|
    ensures var w := Min(|s|, room - 1);
            buf[..pos + w + 1] == old(buf[..pos]) + s[..w] + [NUL] && buf[pos + w + 1..] == old(buf[pos + w + 1..])
  {
    var w := Min(|s|, room - 1);
    for i := 0 to w
      invariant buf[..pos + i] == old(buf[..pos]) + s[..i] && buf[pos + i..] == old(buf[pos + i..])
    {
      Put(buf, pos + i, s[i]);
    }
    ghost var tail := buf[pos + w..];
    Put(buf, pos + w, NUL);
    assert buf[pos + w + 1..] == tail[1..] == old(buf[pos + w..])[1..];
    n := |s|;
  }

  /** buf_appendf: the position moves only when everything fits with its terminator, and stays
      below the buffer's length. */
  method BufAppendf(buf: array<byte>, pos: nat, s: seq<byte>) returns (r: int, end: nat)
    modifies buf
    ensures r == if pos + |s| < buf.Length then 0 else -1
    ensures r == 0 ==> end == pos + |s| < buf.Length && buf[..end + 1] == old(buf[..pos]) + s + [NUL]
    ensures r != 0 ==> end == pos && (pos <= buf.Length ==> buf[..pos] == old(buf[..pos]))
  {
    if pos >= buf.Length { return -1, pos; }
    ghost var w := Min(|s|, buf.Length - pos - 1);
    var n := Vsnprintf(buf, pos, buf.Length - pos, s);
    assert buf[..pos] == buf[..pos + w + 1][..pos];
    if n >= buf.Length - pos { return -1, pos; }
    assert s[..w] == s;
    return 0, pos + n;
  }

  /** The escape of one more character, where the loop found room for it. */
  method PutEscape(out: array<byte>, o: nat, c: byte) returns (q: nat)
    requires o + 2 < out.Length && (Control(c) ==> o + 6 < out.Length)
    modifies out
    ensures q == o + |EscByte(c)| < out.Length && out[..q] == old(out[..o]) + EscByte(c)
  {
    if c == QUOTE || c == BACKSLASH {
      Put(out, o, BACKSLASH);
      Put(out, o + 1, c);
      q := o + 2;
    } else if c == LF {
      Put(out, o, BACKSLASH);
      Put(out, o + 1, 110);
      q := o + 2;
    } else if c == CR {
      Put(out, o, BACKSLASH);
      Put(out, o + 1, 114);
      q := o + 2;
    } else if c == TAB {
      Put(out, o, BACKSLASH);
      Put(out, o + 1, 116);
      q := o + 2;
    } else if c < 0x20 {
      var r;
      r, q := BufAppendf(out, o, EscByte(c));
      assert out[..q] == out[..q + 1][..q];
    } else {
      Put(out, o, c);
      q := o + 1;
    }
  }

  lemma EscSnoc(s: seq<byte>, i: nat)
    requires i < |s|
    ensures Esc(s[..i + 1]) == Esc(s[..i]) + EscByte(s[i])
  {
    assert s[..i + 1][..i] == s[..i];
  }

  /** json_escape, over the characters of a C string: a terminated string of Kept characters. */
  method JsonEscape(s: seq<byte>, out: array<byte>) returns (o: nat)
    requires out.Length >= 1
    modifies out
    ensures o == |Esc(s[..Kept(s, out.Length)])| < out.Length
    ensures out[..o + 1] == Esc(s[..Kept(s, out.Length)]) + [NUL]
  {
    assert s[..0] == [];
    assert Esc(s[..0]) == [];
    hide Esc, EscByte, Control;
    var i := 0;
    o := 0;
    while i < |s| && o + 2 < out.Length
      invariant i <= |s| && o == |Esc(s[..i])| < out.Length
      invariant out[..o] == Esc(s[..i])
      invariant Kept(s, out.Length) == KeptFrom(s, i, out.Length)
    {
      var c := s[i];
      if Control(c) && o + 6 >= out.Length { break; }
      o := PutEscape(out, o, c);
      EscSnoc(s, i);
      i := i + 1;
    }
    Put(out, o, NUL);
  }
}
