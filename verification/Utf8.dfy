/** UTF-8 validation of the text handed to the device (src/nw_engine.c:814-845). */
module Utf8 {
  import opened Bytes

  /** A Unicode scalar value. */
  type Scalar = x: int | 0 <= x < 0xD800 || 0xE000 <= x < 0x110000

  /** The encoding table of section 3 of RFC 3629. */
  function EncodeScalar(u: Scalar): (bs: seq<byte>)
    ensures 1 <= |bs| <= 4
  {
    if u < 0x80 then [u]
    else if u < 0x800 then [0xC0 + u / 64, 0x80 + u % 64]
    else if u < 0x10000 then [0xE0 + u / 4096, 0x80 + u / 64 % 64, 0x80 + u % 64]
    else [0xF0 + u / 262144, 0x80 + u / 4096 % 64, 0x80 + u / 64 % 64, 0x80 + u % 64]
  }

  function EncodeScalars(us: seq<Scalar>): (bs: seq<byte>)
  {
    if us == [] then [] else EncodeScalar(us[0]) + EncodeScalars(us[1..])
  }

  predicate IsTail(b: byte) { 0x80 <= b <= 0xBF }

  predicate IsTwo(c: byte, a: byte)
  {
    0xC2 <= c <= 0xDF && IsTail(a)
  }

  predicate IsThree(c: byte, a: byte, b: byte)
  {
    && IsTail(b)
    && ((c == 0xE0 && 0xA0 <= a <= 0xBF)
        || (0xE1 <= c <= 0xEC && IsTail(a))
        || (c == 0xED && 0x80 <= a <= 0x9F)
        || (0xEE <= c <= 0xEF && IsTail(a)))
  }

  predicate IsFour(c: byte, a: byte, b: byte, d: byte)
  {
    && IsTail(b)
    && IsTail(d)
    && ((c == 0xF0 && 0x90 <= a <= 0xBF)
        || (0xF1 <= c <= 0xF3 && IsTail(a))
        || (c == 0xF4 && 0x80 <= a <= 0x8F))
  }

  /** Length of the UTF8-char production of section 4 of RFC 3629 at the front of t, or 0. */
  function CharLen(t: seq<byte>): (n: nat)
    ensures n <= |t| && n <= 4
  {
    if t == [] then 0
    else if t[0] <= 0x7F then 1
    else if |t| >= 2 && IsTwo(t[0], t[1]) then 2
    else if |t| >= 3 && IsThree(t[0], t[1], t[2]) then 3
    else if |t| >= 4 && IsFour(t[0], t[1], t[2], t[3]) then 4
    else 0
  }

  /** The UTF8-octets production: a run of UTF8-char. */
  predicate IsUtf8(t: seq<byte>)
    decreases |t|
  {
    t == [] || (CharLen(t) > 0 && IsUtf8(t[CharLen(t)..]))
  }

  lemma SplitBits(z: nat, y: nat, x: nat)
    requires y < 64 && x < 64
    ensures var u := z * 4096 + y * 64 + x; u / 4096 == z && u / 64 == z * 64 + y && u / 64 % 64 == y && u % 64 == x
  {
  }

  function Decode2(c: byte, a: byte): (u: Scalar)
    requires IsTwo(c, a)
    ensures EncodeScalar(u) == [c, a]
  {
    (c as int - 0xC0) * 64 + (a as int - 0x80)
  }

  function Decode3(c: byte, a: byte, b: byte): (u: Scalar)
    requires IsThree(c, a, b)
    ensures EncodeScalar(u) == [c, a, b]
  {
    var z, y, x := c as int - 0xE0, a as int - 0x80, b as int - 0x80;
    SplitBits(z, y, x);
    z * 4096 + y * 64 + x
  }

  function Decode4(c: byte, a: byte, b: byte, d: byte): (u: Scalar)
    requires IsFour(c, a, b, d)
    ensures EncodeScalar(u) == [c, a, b, d]
  {
    var w, z, y, x := c as int - 0xF0, a as int - 0x80, b as int - 0x80, d as int - 0x80;
    SplitBits(w * 64 + z, y, x);
    assert (w * 64 + z) * 4096 == w * 262144 + z * 4096;
    w * 262144 + z * 4096 + y * 64 + x
  }

  /** The scalar that the character at the front of t encodes. */
  lemma CharIsEncoding(t: seq<byte>) returns (u: Scalar)
    requires CharLen(t) > 0
    ensures EncodeScalar(u) == t[..CharLen(t)]
  {
    var n := CharLen(t);
    if n == 1 {
      u := t[0];
    } else if n == 2 {
      u := Decode2(t[0], t[1]);
      assert t[..2] == [t[0], t[1]];
    } else if n == 3 {
      u := Decode3(t[0], t[1], t[2]);
      assert t[..3] == [t[0], t[1], t[2]];
    } else {
      u := Decode4(t[0], t[1], t[2], t[3]);
      assert t[..4] == [t[0], t[1], t[2], t[3]];
    }
  }

  lemma EncodeIsChar(u: Scalar, rest: seq<byte>)
    ensures CharLen(EncodeScalar(u) + rest) == |EncodeScalar(u)|
  {
  }

  lemma {:induction false} EncodingsAreUtf8(us: seq<Scalar>)
    ensures IsUtf8(EncodeScalars(us))
  {
    if us != [] {
      var rest := EncodeScalars(us[1..]);
      EncodeIsChar(us[0], rest);
      EncodingsAreUtf8(us[1..]);
      assert (EncodeScalar(us[0]) + rest)[|EncodeScalar(us[0])|..] == rest;
    }
  }

  lemma {:induction false} Utf8IsEncoding(t: seq<byte>) returns (us: seq<Scalar>)
    requires IsUtf8(t)
    ensures EncodeScalars(us) == t
    decreases |t|
  {
    hide CharLen, EncodeScalar;
    us := [];
    if t != [] {
      var n := CharLen(t);
      var u := CharIsEncoding(t);
      var tail := Utf8IsEncoding(t[n..]);
      us := [u] + tail;
      assert us[1..] == tail;
      assert t == t[..n] + t[n..];
    }
  }

  /** The grammar generates exactly the encodings of sequences of scalar values. */
  lemma {:induction false} GrammarIsScalarEncodings(t: seq<byte>)
    ensures IsUtf8(t) <==> exists us: seq<Scalar> :: EncodeScalars(us) == t
  {
    if IsUtf8(t) {
      var us := Utf8IsEncoding(t);
    }
    if us: seq<Scalar> :| EncodeScalars(us) == t {
      EncodingsAreUtf8(us);
    }
  }

  /** A character can be recognised before whatever follows it is known. */
  lemma CharLenPrefix(t: seq<byte>, k: nat)
    requires CharLen(t) > 0 && k <= |t|
    requires k == |t| || t[k] < 0x80
    ensures k == 0 || (CharLen(t) <= k && CharLen(t[..k]) == CharLen(t))
  {
  }

  /** Cutting valid text in front of an ASCII byte, or at its end, cuts between characters. */
  lemma {:induction false} CutBeforeAscii(t: seq<byte>, k: nat)
    requires IsUtf8(t) && k <= |t|
    requires k == |t| || t[k] < 0x80
    ensures IsUtf8(t[..k]) && IsUtf8(t[k..])
    decreases |t|
  {
    if k == 0 {
      assert t[k..] == t;
    } else {
      var n := CharLen(t);
      CharLenPrefix(t, k);
      CutBeforeAscii(t[n..], k - n);
      assert t[..k][n..] == t[n..][..k - n];
      assert t[n..][k - n..] == t[k..];
    }
  }

  lemma CharLenExtend(t: seq<byte>, b: seq<byte>)
    requires CharLen(t) > 0
    ensures CharLen(t + b) == CharLen(t)
  {
  }

  lemma Utf8Cons(t: seq<byte>)
    requires CharLen(t) > 0 && IsUtf8(t[CharLen(t)..])
    ensures IsUtf8(t)
  {
  }

  lemma {:induction false} Utf8Append(a: seq<byte>, b: seq<byte>)
    requires IsUtf8(a) && IsUtf8(b)
    ensures IsUtf8(a + b)
    decreases |a|
  {
    if a == [] {
      assert a + b == b;
    } else {
      var n := CharLen(a);
      CharLenExtend(a, b);
      assert (a + b)[n..] == a[n..] + b;
      Utf8Append(a[n..], b);
      Utf8Cons(a + b);
    }
  }

  lemma {:induction false} AsciiIsUtf8(t: seq<byte>)
    requires forall i | 0 <= i < |t| :: t[i] < 0x80
    ensures IsUtf8(t)
  {
    if t != [] {
      AsciiIsUtf8(t[1..]);
    }
  }

  /** The number of trailing bytes a lead byte announces, and the bits it contributes. */
  function Trail(c: byte): (n: nat)
    requires 0xC2 <= c < 0xF5
    ensures 1 <= n <= 3
  {
    if c < 0xE0 then 1 else if c < 0xF0 then 2 else 3
  }

  function LeadBits(c: byte): (b: nat)
    requires 0xC2 <= c < 0xF5
  {
    if c < 0xE0 then c % 32 else if c < 0xF0 then c % 16 else c % 8
  }

  /** The code point accumulated after k continuation bytes of t. */
  function Accumulated(t: seq<byte>, k: nat): (cp: nat)
    requires k < |t| && 0xC2 <= t[0] < 0xF5
  {
    if k == 0 then LeadBits(t[0]) else Accumulated(t, k - 1) * 64 + t[k] % 64
  }

  /** The tests the validator makes on a code point assembled from `trail` continuation bytes. */
  predicate InRange(trail: nat, cp: nat)
  {
    && !(trail == 1 && cp < 0x80)
    && !(trail == 2 && cp < 0x800)
    && !(trail == 3 && cp < 0x10000)
    && !(0xD800 <= cp <= 0xDFFF)
    && cp <= 0x10FFFF
  }

  /** The C range tests on the assembled code point are the grammar's second-byte ranges. */
  lemma RangeTestsAreGrammar(t: seq<byte>)
    requires |t| > 0 && 0xC2 <= t[0] < 0xF5 && Trail(t[0]) < |t|
    requires forall k | 1 <= k <= Trail(t[0]) :: t[k] / 64 == 2
    ensures CharLen(t) == if InRange(Trail(t[0]), Accumulated(t, Trail(t[0]))) then 1 + Trail(t[0]) else 0
  {
    var c: int, a: int := t[0], t[1];
    assert IsTail(t[1]);
    assert Accumulated(t, 0) == LeadBits(t[0]);
    assert Accumulated(t, 1) == LeadBits(t[0]) * 64 + a - 0x80;
    if c >= 0xE0 {
      assert IsTail(t[2]);
      assert Accumulated(t, 2) == Accumulated(t, 1) * 64 + t[2] - 0x80;
      if c >= 0xF0 {
        assert IsTail(t[3]);
        assert Accumulated(t, 3) == Accumulated(t, 2) * 64 + t[3] - 0x80;
        assert LeadBits(t[0]) == c - 0xF0;
      } else {
        assert LeadBits(t[0]) == c - 0xE0;
      }
    }
  }

  lemma BadTail(t: seq<byte>, k: nat)
    requires |t| > 0 && 0xC2 <= t[0] < 0xF5
    requires Trail(t[0]) >= |t| || (1 <= k <= Trail(t[0]) && t[k] / 64 != 2)
    ensures CharLen(t) == 0
  {
  }

  lemma BadLead(t: seq<byte>)
    requires t != [] && (0x80 <= t[0] < 0xC2 || t[0] >= 0xF5)
    ensures CharLen(t) == 0
  {
  }

  /** The loop over the continuation bytes of the character at i. */
  method ScanTail(t: seq<byte>, i: nat, trail: nat, lead: nat) returns (ok: bool, cp: nat)
    requires i + trail < |t| && 0xC2 <= t[i] < 0xF5 && lead == LeadBits(t[i])
    ensures ok ==> (forall j | 1 <= j <= trail :: t[i..][j] / 64 == 2) && cp == Accumulated(t[i..], trail)
    ensures !ok ==> exists j :: 1 <= j <= trail && t[i..][j] / 64 != 2
  {
    ghost var u := t[i..];
    cp := lead;
    var k := 1;
    while k <= trail
      invariant 1 <= k <= trail + 1
      invariant cp == Accumulated(u, k - 1)
      invariant forall j | 1 <= j < k :: u[j] / 64 == 2
    {
      var cc := t[i + k];
      assert cc == u[k];
      if cc / 64 != 2 { return false, cp; }
      cp := cp * 64 + cc % 64;
      k := k + 1;
    }
    ok := true;
  }

  /** One pass of the validator's loop: the length of the character at i, or 0 when it is
      rejected. Masks and shifts are written as the equal remainders and products on bytes. */
  method ScanChar(t: seq<byte>, i: nat) returns (n: nat)
    requires i < |t|
    ensures n == CharLen(t[i..])
  {
    ghost var u := t[i..];
    var c := t[i];
    if c < 0x80 { return 1; }
    hide CharLen, Accumulated;
    if c < 0xC2 || c >= 0xF5 { BadLead(u); }
    if c < 0xC2 { return 0; }
    var trail: int, cp: int;
    if c < 0xE0 { trail := 1; cp := c % 32; }
    else if c < 0xF0 { trail := 2; cp := c % 16; }
    else if c < 0xF5 { trail := 3; cp := c % 8; }
    else { return 0; }
    if i + trail >= |t| {
      BadTail(u, 1);
      return 0;
    }
    var ok;
    ok, cp := ScanTail(t, i, trail, cp);
    if !ok {
      ghost var k :| 1 <= k <= trail && u[k] / 64 != 2;
      BadTail(u, k);
      return 0;
    }
    RangeTestsAreGrammar(u);
    if trail == 1 && cp < 0x80 { return 0; }
    if trail == 2 && cp < 0x800 { return 0; }
    if trail == 3 && cp < 0x10000 { return 0; }
    if 0xD800 <= cp <= 0xDFFF { return 0; }
    if cp > 0x10FFFF { return 0; }
    return 1 + trail;
  }

  lemma NextChar(u: seq<byte>, n: nat)
    requires u != [] && n == CharLen(u)
    ensures if n == 0 then !IsUtf8(u) else IsUtf8(u) <==> IsUtf8(u[n..])
  {
  }

  /** is_valid_utf8: accepts exactly the strings of the grammar. */
  method IsValidUtf8(t: seq<byte>) returns (ok: bool)
    ensures ok <==> IsUtf8(t)
  {
    hide CharLen, IsUtf8;
    var i := 0;
    EmptyIsUtf8();
    assert t[0..] == t;
    while i < |t|
      invariant 0 <= i <= |t|
      invariant IsUtf8(t) <==> IsUtf8(t[i..])
    {
      var n := ScanChar(t, i);
      NextChar(t[i..], n);
      if n == 0 { return false; }
      assert t[i..][n..] == t[i + n..];
      i := i + n;
    }
    assert t[i..] == [];
    return true;
  }

  lemma EmptyIsUtf8()
    ensures IsUtf8([])
  {
  }
}
