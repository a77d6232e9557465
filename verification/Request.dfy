/** Escaping, framing and sending of synthesize requests
    (src/nw_engine.c:1022-1077, 1086-1099), and what the far side reads out of them. */
module Request {
  import opened Bytes
  import opened Utf8
  import opened Segments
  import Json

  /** What json_escape_append writes for one byte. */
  function EscapeByte(c: byte): (e: seq<byte>)
    ensures 1 <= |e| <= 2
  {
    if c == QUOTE || c == BACKSLASH then [BACKSLASH, c]
    else if c == LF then [BACKSLASH, 110]
    else if c == CR then [BACKSLASH, 114]
    else if c < SPACE then [SPACE]
    else [c]
  }

  function EscapeText(s: seq<byte>): (e: seq<byte>)
  {
    if s == [] then [] else EscapeByte(s[0]) + EscapeText(s[1..])
  }

  /** The text the far side is meant to see: control bytes other than LF and CR become spaces. */
  function Clean(s: seq<byte>): (r: seq<byte>)
    ensures |r| == |s|
    ensures forall i | 0 <= i < |s| ::
              r[i] == if s[i] < SPACE && s[i] != LF && s[i] != CR then SPACE else s[i]
  {
    seq(|s|, i requires 0 <= i < |s| => CleanByte(s[i]))
  }

  function CleanByte(c: byte): (r: byte)
  {
    if c < SPACE && c != LF && c != CR then SPACE else c
  }

  lemma {:induction false} EscapeAppend(a: seq<byte>, b: seq<byte>)
    ensures EscapeText(a + b) == EscapeText(a) + EscapeText(b)
  {
    if a == [] {
      assert a + b == b;
    } else {
      assert (a + b)[1..] == a[1..] + b;
      EscapeAppend(a[1..], b);
    }
  }

  lemma {:induction false} EscapeAtMostDoubles(s: seq<byte>)
    ensures |s| <= |EscapeText(s)| <= 2 * |s|
  {
    if s != [] {
      EscapeAtMostDoubles(s[1..]);
    }
  }

  /** Decoding one escaped byte by the string rules yields the cleaned byte. */
  lemma EscapeByteDecodes(c: byte, rest: seq<byte>)
    ensures Json.StringBody(EscapeByte(c) + rest) == Json.Prepend([CleanByte(c)], Json.StringBody(rest))
  {
    var s := EscapeByte(c) + rest;
    if |EscapeByte(c)| == 2 {
      assert s[2..] == rest;
      assert Json.Escape(s) == Some(Json.Unescaped([CleanByte(c)], 2));
    } else {
      assert s[1..] == rest;
    }
  }

  lemma ClosingQuote(rest: seq<byte>)
    ensures Json.StringBody([QUOTE] + rest) == Some(Json.Parsed([], rest))
  {
    assert ([QUOTE] + rest)[1..] == rest;
  }

  /** Decoding by section 7 of RFC 8259 undoes the escaping, up to the replaced controls. */
  lemma {:induction false} EscapeDecodes(s: seq<byte>, rest: seq<byte>)
    ensures Json.StringBody(EscapeText(s) + [QUOTE] + rest) == Some(Json.Parsed(Clean(s), rest))
  {
    hide Json.StringBody, EscapeByte;
    if s == [] {
      assert EscapeText(s) + [QUOTE] + rest == [QUOTE] + rest;
      ClosingQuote(rest);
    } else {
      var tail := EscapeText(s[1..]) + [QUOTE] + rest;
      EscapeDecodes(s[1..], rest);
      EscapeByteDecodes(s[0], tail);
      assert EscapeText(s) + [QUOTE] + rest == EscapeByte(s[0]) + tail;
      assert [CleanByte(s[0])] + Clean(s[1..]) == Clean(s);
    }
  }

  lemma {:induction false} EscapeHasNoLineFeed(s: seq<byte>)
    ensures LF !in EscapeText(s)
  {
    if s != [] {
      EscapeHasNoLineFeed(s[1..]);
    }
  }

  lemma {:induction false} HighBytesUnchanged(s: seq<byte>)
    requires forall i | 0 <= i < |s| :: s[i] >= 0x80
    ensures EscapeText(s) == s
  {
    if s != [] {
      HighBytesUnchanged(s[1..]);
    }
  }

  /** Escaping keeps valid UTF-8 valid. */
  lemma {:induction false} EscapeKeepsUtf8(s: seq<byte>)
    requires IsUtf8(s)
    ensures IsUtf8(EscapeText(s))
    decreases |s|
  {
    if s != [] {
      var n := CharLen(s);
      assert s == s[..n] + s[n..];
      EscapeAppend(s[..n], s[n..]);
      EscapeKeepsUtf8(s[n..]);
      if n == 1 {
        assert s[..1] == [s[0]];
        assert EscapeText(s[..1]) == EscapeByte(s[0]) + EscapeText(s[..1][1..]);
        AsciiIsUtf8(EscapeText(s[..1]));
      } else {
        HighBytesUnchanged(s[..n]);
        CharLenPrefixOf(s, n);
      }
      Utf8Append(EscapeText(s[..n]), EscapeText(s[n..]));
    }
  }

  lemma CharLenPrefixOf(s: seq<byte>, n: nat)
    requires n == CharLen(s) && n > 0
    ensures IsUtf8(s[..n])
  {
    assert CharLen(s[..n]) == n;
    assert s[..n][n..] == [];
    Utf8Cons(s[..n]);
  }

  // ---- the request line ----

  const TYPE_PART := Ascii("{\"type\": ")
  const SYNTHESIZE_PART := Ascii("\"synthesize\", ")
  const DATA_PART := Ascii("\"data\": {")
  const TEXT_PART := Ascii("\"text\": \"")
  const HEAD := TYPE_PART + SYNTHESIZE_PART + DATA_PART + TEXT_PART
  const VOICE_FIELD := Ascii(", \"voice\": {\"name\": \"")
  const CLOSE: seq<byte> := [125, 125]         // }}
  const VOICE_CLOSE: seq<byte> := [125] + CLOSE
  const VOICE_HEAD := [QUOTE] + VOICE_FIELD
  const VOICE_TAIL: seq<byte> := [QUOTE, 125]
  const TAIL := CLOSE + [LF]

  /** The bytes session_send_one puts on the wire. */
  function RequestLine(text: seq<byte>, voice: seq<byte>): (r: seq<byte>)
  {
    HEAD + EscapeText(text) + VoicePart(voice) + TAIL
  }

  function VoicePart(voice: seq<byte>): (r: seq<byte>)
  {
    if voice == [] then [QUOTE] else VOICE_HEAD + EscapeText(voice) + VOICE_TAIL
  }

  datatype Synthesize = Synthesize(text: seq<byte>, voice: Option<seq<byte>>)

  function Strip(prefix: seq<byte>, s: seq<byte>): (r: Option<seq<byte>>)
  {
    if prefix <= s then Some(s[|prefix|..]) else None
  }

  /** The far side's reading of one request line (without its line feed). */
  function ParseRequest(line: seq<byte>): (r: Option<Synthesize>)
  {
    match Strip(HEAD, line)
    case None => None
    case Some(body) =>
      match Json.StringBody(body)
      case None => None
      case Some(text) =>
        if text.rest == CLOSE then Some(Synthesize(text.value, None))
        else
          match Strip(VOICE_FIELD, text.rest)
          case None => None
          case Some(vbody) =>
            match Json.StringBody(vbody)
            case None => None
            case Some(voice) =>
              if voice.rest == VOICE_CLOSE then Some(Synthesize(text.value, Some(voice.value)))
              else None
  }

  lemma StripPrefix(p: seq<byte>, s: seq<byte>)
    ensures Strip(p, p + s) == Some(s)
  {
  }

  function RequestOf(text: seq<byte>, voice: seq<byte>): (r: Synthesize)
  {
    Synthesize(Clean(text), if voice == [] then None else Some(Clean(voice)))
  }

  /** The line without its line feed, as head, text, closing quote and the rest. */
  function AfterText(voice: seq<byte>): (r: seq<byte>)
  {
    if voice == [] then CLOSE
    else VOICE_FIELD + (EscapeText(voice) + [QUOTE] + VOICE_CLOSE)
  }

  function LineBody(text: seq<byte>, voice: seq<byte>): (r: seq<byte>)
  {
    HEAD + (EscapeText(text) + [QUOTE] + AfterText(voice))
  }

  lemma VoiceFieldStart()
    ensures VOICE_FIELD != [] && VOICE_FIELD[0] == 44
  {
  }

  lemma TypePartsAreOneLine()
    ensures LF !in TYPE_PART && LF !in SYNTHESIZE_PART
  {
  }

  lemma DataPartsAreOneLine()
    ensures LF !in DATA_PART && LF !in TEXT_PART
  {
  }

  lemma HeadIsOneLine()
    ensures LF !in HEAD
  {
    TypePartsAreOneLine();
    DataPartsAreOneLine();
    hide Ascii, TYPE_PART, SYNTHESIZE_PART, DATA_PART, TEXT_PART;
  }

  lemma VoiceFieldIsOneLine()
    ensures LF !in VOICE_FIELD
  {
  }

  lemma Regroup(h: seq<byte>, e: seq<byte>, c: seq<byte>)
    ensures h + e + [QUOTE] + (c + [LF]) == h + (e + [QUOTE] + c) + [LF]
  {
  }

  lemma RegroupVoice(h: seq<byte>, e: seq<byte>, vh: seq<byte>, ev: seq<byte>, vt: seq<byte>, tl: seq<byte>,
                     v: seq<byte>, c: seq<byte>)
    requires vh == [QUOTE] + v && vt + tl == [QUOTE] + c + [LF]
    ensures h + e + (vh + ev + vt) + tl == h + (e + [QUOTE] + (v + (ev + [QUOTE] + c))) + [LF]
  {
    calc {
      h + e + (vh + ev + vt) + tl;
      (h + e) + (([QUOTE] + v) + ev + (vt + tl));
      (h + e) + ([QUOTE] + (v + (ev + [QUOTE] + c)) + [LF]);
    }
  }

  lemma LineShape(text: seq<byte>, voice: seq<byte>)
    ensures RequestLine(text, voice) == LineBody(text, voice) + [LF]
  {
    if voice == [] {
      Regroup(HEAD, EscapeText(text), CLOSE);
    } else {
      assert VOICE_TAIL + TAIL == [QUOTE] + VOICE_CLOSE + [LF];
      RegroupVoice(HEAD, EscapeText(text), VOICE_HEAD, EscapeText(voice), VOICE_TAIL, TAIL,
                   VOICE_FIELD, VOICE_CLOSE);
    }
  }

  lemma LineBodyIsOneLine(text: seq<byte>, voice: seq<byte>)
    ensures LF !in LineBody(text, voice)
  {
    HeadIsOneLine();
    VoiceFieldIsOneLine();
    EscapeHasNoLineFeed(text);
    EscapeHasNoLineFeed(voice);
    if voice != [] {
      var v := EscapeText(voice) + [QUOTE] + VOICE_CLOSE;
      assert LF !in v;
    }
    assert LF !in EscapeText(text) + [QUOTE] + AfterText(voice);
  }

  /** The far side reads a request line back as its cleaned text and voice. */
  lemma RequestReadsBack(text: seq<byte>, voice: seq<byte>)
    ensures ParseRequest(LineBody(text, voice)) == Some(RequestOf(text, voice))
  {
    var rest := AfterText(voice);
    VoiceFieldStart();
    StripPrefix(HEAD, EscapeText(text) + [QUOTE] + rest);
    EscapeDecodes(text, rest);
    if voice != [] {
      EscapeDecodes(voice, VOICE_CLOSE);
      StripPrefix(VOICE_FIELD, EscapeText(voice) + [QUOTE] + VOICE_CLOSE);
      assert rest[0] == 44;
    }
  }

  // ---- building the line in place ----

  lemma EscapeSnoc(s: seq<byte>, c: byte)
    ensures EscapeText(s + [c]) == EscapeText(s) + EscapeByte(c)
  {
    EscapeAppend(s, [c]);
    assert EscapeText([c]) == EscapeByte(c) + EscapeText([]);
  }

  lemma EscapePrefixFits(s: seq<byte>, i: nat)
    requires i < |s|
    ensures EscapeText(s[..i + 1]) == EscapeText(s[..i]) + EscapeByte(s[i])
    ensures |EscapeText(s[..i])| + |EscapeByte(s[i])| <= |EscapeText(s)|
  {
    assert s[..i + 1] == s[..i] + [s[i]];
    EscapeSnoc(s[..i], s[i]);
    assert s == s[..i + 1] + s[i + 1..];
    EscapeAppend(s[..i + 1], s[i + 1..]);
  }

  method Put(req: array<byte>, p: nat, c: byte)
    requires p < req.Length
    modifies req
    ensures req[..p + 1] == old(req[..p]) + [c]
  {
    req[p] := c;
  }

  /** The body of the escaping loop. */
  method PutEscaped(req: array<byte>, p: nat, c: byte) returns (q: nat)
    requires p + |EscapeByte(c)| <= req.Length
    modifies req
    ensures q == p + |EscapeByte(c)| && req[..q] == old(req[..p]) + EscapeByte(c)
  {
    if c == QUOTE || c == BACKSLASH {
      Put(req, p, BACKSLASH);
      Put(req, p + 1, c);
      q := p + 2;
    } else if c == LF {
      Put(req, p, BACKSLASH);
      Put(req, p + 1, 110);
      q := p + 2;
    } else if c == CR {
      Put(req, p, BACKSLASH);
      Put(req, p + 1, 114);
      q := p + 2;
    } else if c < 0x20 {
      Put(req, p, SPACE);
      q := p + 1;
    } else {
      Put(req, p, c);
      q := p + 1;
    }
  }

  /** json_escape_append: writes the escaped bytes at p and returns the position after them. */
  method JsonEscapeAppend(req: array<byte>, p: nat, src: seq<byte>) returns (q: nat)
    requires p + |EscapeText(src)| <= req.Length
    modifies req
    ensures q == p + |EscapeText(src)|
    ensures req[..q] == old(req[..p]) + EscapeText(src)
  {
    q := p;
    for i := 0 to |src|
      invariant q == p + |EscapeText(src[..i])| && q <= req.Length
      invariant req[..q] == old(req[..p]) + EscapeText(src[..i])
    {
      EscapePrefixFits(src, i);
      q := PutEscaped(req, q, src[i]);
    }
    assert src[..|src|] == src;
  }

  method AppendLiteral(req: array<byte>, p: nat, lit: seq<byte>) returns (q: nat)
    requires p + |lit| <= req.Length
    modifies req
    ensures q == p + |lit| && req[..q] == old(req[..p]) + lit
  {
    q := p;
    for i := 0 to |lit|
      invariant q == p + i && req[..q] == old(req[..p]) + lit[..i]
    {
      Put(req, q, lit[i]);
      q := q + 1;
    }
  }

  /** The buffer session_send_one allocates: both strings may double, plus 96 for the frame. */
  function BufferSize(text: seq<byte>, voice: seq<byte>): (n: nat)
  {
    |text| * 2 + |voice| * 2 + 96
  }

  lemma RequestFits(text: seq<byte>, voice: seq<byte>)
    ensures |HEAD| + |EscapeText(text)| + |VoicePart(voice)| + |TAIL| <= BufferSize(text, voice)
  {
    EscapeAtMostDoubles(text);
    EscapeAtMostDoubles(voice);
  }

  /** Appends an escaped string between two literals. */
  method AppendQuoted(req: array<byte>, p: nat, before: seq<byte>, s: seq<byte>, after: seq<byte>) returns (q: nat)
    requires p + |before| + |EscapeText(s)| + |after| <= req.Length
    modifies req
    ensures q == p + |before| + |EscapeText(s)| + |after|
    ensures req[..q] == old(req[..p]) + (before + EscapeText(s) + after)
  {
    q := AppendLiteral(req, p, before);
    q := JsonEscapeAppend(req, q, s);
    q := AppendLiteral(req, q, after);
  }

  method AppendVoice(req: array<byte>, p: nat, voice: seq<byte>) returns (q: nat)
    requires p + |VoicePart(voice)| <= req.Length
    modifies req
    ensures q == p + |VoicePart(voice)| && req[..q] == old(req[..p]) + VoicePart(voice)
  {
    if |voice| > 0 {
      q := AppendQuoted(req, p, VOICE_HEAD, voice, VOICE_TAIL);
    } else {
      Put(req, p, QUOTE);
      q := p + 1;
    }
  }

  method AppendAll(req: array<byte>, head: seq<byte>, text: seq<byte>, voice: seq<byte>, tail: seq<byte>)
    returns (n: nat)
    requires |head| + |EscapeText(text)| + |VoicePart(voice)| + |tail| <= req.Length
    modifies req
    ensures n <= req.Length && req[..n] == head + EscapeText(text) + VoicePart(voice) + tail
  {
    n := AppendLiteral(req, 0, head);
    n := JsonEscapeAppend(req, n, text);
    assert req[..n] == head + EscapeText(text);
    n := AppendVoice(req, n, voice);
    n := AppendLiteral(req, n, tail);
  }

  /** The first half of session_send_one: the request line, built in its buffer. */
  method BuildRequest(text: seq<byte>, voice: seq<byte>) returns (req: array<byte>, n: nat)
    ensures fresh(req) && req.Length == BufferSize(text, voice) && n <= req.Length
    ensures req[..n] == RequestLine(text, voice)
  {
    req := new byte[BufferSize(text, voice)](_ => 0);
    RequestFits(text, voice);
    n := AppendAll(req, HEAD, text, voice, TAIL);
  }
}
