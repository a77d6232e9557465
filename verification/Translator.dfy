/** Translate() and the resume loop its documentation asks of callers (src/translator_library.c:64-80). */
module Translator {
  import opened Bytes

  /** How many bytes of an input of n bytes go into a buffer of len. */
  function Copied(n: int, len: int): (k: nat)
  {
    if n <= 0 || len <= 0 then 0 else Min(n, len - 1)
  }

  /** The result: 0, or the negated position where the copying stopped. */
  function Answer(n: int, len: int): (r: int)
  {
    if len > 0 && Copied(n, len) < n then -(Copied(n, len) as int) else 0
  }

  /** __Translate, on the n bytes of english behind position from. The buffer holds a C string afterwards. */
  method Translate(english: array<byte>, from: nat, n: int, buffer: array<byte>, len: int) returns (r: int)
    requires from <= english.Length && from + n <= english.Length && len <= buffer.Length && buffer != english
    modifies buffer
    // no room for a terminator, everything, as much as there is room for, nothing
    ensures len <= 0 ==> r == 0 && buffer[..] == old(buffer[..])
    ensures 0 <= n < len ==> r == 0 && buffer[..n + 1] == english[from..from + n] + [NUL]
    ensures 0 < len <= n ==> r == -(len - 1) && buffer[..len] == english[from..from + len - 1] + [NUL]
    ensures n < 0 < len ==> r == 0 && buffer[0] == NUL
    // in one formula
    ensures r == Answer(n, len)
    ensures len > 0 ==> buffer[..Copied(n, len) + 1] == english[from..from + Copied(n, len)] + [NUL]
                        && buffer[Copied(n, len) + 1..] == old(buffer[Copied(n, len) + 1..])
  {
    var i, englishLen := 0, n;
    if englishLen < 0 { englishLen := 0; }
    if len <= 0 { return 0; }
    while i < englishLen && i < len - 1
      invariant 0 <= i <= englishLen && i <= len - 1
      invariant buffer[..i] == english[from..from + i]
      invariant buffer[i..] == old(buffer[i..])
    {
      buffer[i] := english[from + i];
      i := i + 1;
    }
    buffer[i] := NUL;
    if i < englishLen { return -i; }
    return 0;
  }

  /** 0 is documented to mean that the whole input was translated. For a non-empty input it does
      exactly when the buffer has room for a byte and the terminator: with a length of 1 the
      stopping position is 0 and its negation says "done". */
  lemma ZeroMeansDone(n: int, len: int)
    ensures (Answer(n, len) == 0 ==> Copied(n, len) >= n) <==> (len >= 2 || n <= 0)
    ensures len > 0 ==> Copied(n, len) == if n <= 0 then 0 else if n < len then n else len - 1
    ensures len >= 2 && Answer(n, len) != 0 ==> 0 < -Answer(n, len) < n
  {
  }

  lemma {:induction false} HoldsPiece(buffer: seq<byte>, piece: seq<byte>)
    requires |piece| < |buffer| && buffer[..|piece| + 1] == piece + [NUL] && NUL !in piece
    ensures CString(buffer) == piece
  {
    assert buffer[..|piece|] == buffer[..|piece| + 1][..|piece|] == piece;
    assert buffer[|piece|] == buffer[..|piece| + 1][|piece|];
    CStringAt(buffer, |piece|);
  }

  /** One call of the resume loop, and the string the caller then finds in its buffer. */
  method Piece(english: array<byte>, pos: nat, buffer: array<byte>, len: int) returns (r: int, s: seq<byte>)
    requires pos <= english.Length && 2 <= len <= buffer.Length && buffer != english
    modifies buffer
    ensures r == Answer(english.Length - pos, len)
    ensures NUL !in english[..] ==> s == english[pos..pos + Copied(english.Length - pos, len)]
  {
    r := Translate(english, pos, english.Length - pos, buffer, len);
    s := CString(buffer[..]);
    if NUL !in english[..] {
      HoldsPiece(buffer[..], english[pos..pos + Copied(english.Length - pos, len)]);
    }
  }

  /** The caller's loop: while the answer is negative, resume behind the position it names. It ends,
      the positions only grow, and for a C string the pieces put together are the input. */
  method TranslateAll(english: array<byte>, buffer: array<byte>, len: int)
    returns (out: seq<byte>, ghost stops: seq<nat>)
    requires 2 <= len <= buffer.Length && buffer != english
    modifies buffer
    ensures NUL !in english[..] ==> out == english[..]
    ensures forall i, j | 0 <= i < j < |stops| :: stops[i] < stops[j]
    ensures forall i | 0 <= i < |stops| :: 0 < stops[i] < english.Length
  {
    var n, pos := english.Length, 0;
    stops := [];
    var r, s := Piece(english, 0, buffer, len);
    out := s;
    while r != 0
      invariant pos <= n && r == Answer(n - pos, len)
      invariant NUL !in english[..] ==> out == english[..pos + Copied(n - pos, len)]
      invariant forall i, j | 0 <= i < j < |stops| :: stops[i] < stops[j]
      invariant forall i | 0 <= i < |stops| :: 0 < stops[i] <= pos && stops[i] < n
      decreases n - pos
    {
      pos := pos + -r;
      stops := stops + [pos];
      r, s := Piece(english, pos, buffer, len);
      out := out + s;
    }
  }
}
