/** The host side's synthesize request (src/wyoming.c:121-181): built in fixed buffers, sent whole. */
module HostRequest {
  import opened Bytes
  import opened HostEscape
  import opened Wire
  import Json
  import Request

  const ESC_SIZE := 2048
  const VBUF_SIZE := 512
  const ESCV_SIZE := 256
  const ESCL_SIZE := 64
  const LINE_SIZE := 4096

  const VOICE_OPEN := Ascii(", \"voice\": {")
  const NAME_KEY := Ascii("\"name\": \"")
  const LANGUAGE_KEY := Ascii("\"language\": \"")
  const SPEAKER_KEY := Ascii("\"speaker\": ")
  const COMMA_SPACE: seq<byte> := [44, SPACE]
  const OBJECT_END: seq<byte> := [125]

  /** What a string of s becomes in an escape buffer of that size. */
  function Bounded(s: seq<byte>, size: nat): (e: seq<byte>)
  {
    Esc(s[..Kept(s, size)])
  }

  function Sep(first: bool): (s: seq<byte>)
  {
    if first then [] else COMMA_SPACE
  }

  function NamePart(voice: seq<byte>): (s: seq<byte>)
  {
    if voice == [] then [] else NAME_KEY + Bounded(voice, ESCV_SIZE) + [QUOTE]
  }

  function LanguagePart(language: seq<byte>, first: bool): (s: seq<byte>)
  {
    if language == [] then [] else Sep(first) + LANGUAGE_KEY + Bounded(language, ESCL_SIZE) + [QUOTE]
  }

  function SpeakerPart(speaker: seq<byte>, first: bool): (s: seq<byte>)
  {
    if speaker == [] then [] else Sep(first) + SPEAKER_KEY + speaker
  }

  /** The voice sub-object; empty strings stand for null pointers, too. */
  function VoiceObject(voice: seq<byte>, language: seq<byte>, speaker: seq<byte>): (s: seq<byte>)
  {
    if voice == [] && language == [] && speaker == [] then []
    else VOICE_OPEN + NamePart(voice) + LanguagePart(language, voice == [])
         + SpeakerPart(speaker, voice == [] && language == []) + OBJECT_END
  }

  /** The request line without its line feed. */
  function Line(text: seq<byte>, voice: seq<byte>, language: seq<byte>, speaker: seq<byte>): (s: seq<byte>)
  {
    Request.HEAD + (Bounded(text, ESC_SIZE) + [QUOTE] + (VoiceObject(voice, language, speaker) + Request.CLOSE))
  }

  // ---- what the bounds leave room for ----

  lemma {:induction false} EscIsString(s: seq<byte>)
    ensures NUL !in Esc(s) && LF !in Esc(s)
  {
    if s != [] {
      EscIsString(s[..|s| - 1]);
    }
  }

  lemma {:induction false} KeptFits(s: seq<byte>, k: nat, outlen: nat)
    requires k <= |s| && outlen >= 1 && |Esc(s[..k])| < outlen
    ensures |Esc(s[..KeptFrom(s, k, outlen)])| < outlen
    decreases |s| - k
  {
    if k < |s| && !Full(s, k, outlen) {
      EscSnoc(s, k);
      KeptFits(s, k + 1, outlen);
    }
  }

  lemma BoundedFits(s: seq<byte>, size: nat)
    requires size >= 1
    ensures |Bounded(s, size)| < size && NUL !in Bounded(s, size) && LF !in Bounded(s, size)
  {
    assert s[..0] == [];
    KeptFits(s, 0, size);
    EscIsString(s[..Kept(s, size)]);
  }

  /** A name and a language always fit the voice buffer; only the speaker may be too long. */
  lemma VoiceFits(voice: seq<byte>, language: seq<byte>, speaker: seq<byte>)
    ensures |speaker| <= 141 ==> |VoiceObject(voice, language, speaker)| < 512
  {
    BoundedFits(voice, ESCV_SIZE);
    BoundedFits(language, ESCL_SIZE);
  }

  /** The line buffer is never too small. */
  lemma LineFits(text: seq<byte>, voice: seq<byte>, language: seq<byte>, speaker: seq<byte>)
    requires |VoiceObject(voice, language, speaker)| < 512
    ensures |Line(text, voice, language, speaker)| + 1 < 4096
  {
    BoundedFits(text, ESC_SIZE);
  }

  // ---- what the far side reads ----

  /** Neither a line feed nor a terminator. */
  predicate Lacks(s: seq<byte>, b: byte)
  {
    b !in s
  }

  lemma KeysLack(b: byte)
    requires b == LF || b == NUL
    ensures Lacks(VOICE_OPEN, b) && Lacks(NAME_KEY, b) && Lacks(LANGUAGE_KEY, b) && Lacks(SPEAKER_KEY, b)
  {
  }

  lemma LacksBoth(s: seq<byte>, t: seq<byte>, b: byte)
    ensures Lacks(s + t, b) <==> Lacks(s, b) && Lacks(t, b)
  {
  }

  lemma LacksAll(s: seq<byte>, t: seq<byte>, u: seq<byte>, b: byte)
    ensures Lacks(s + t + u, b) <==> Lacks(s, b) && Lacks(t, b) && Lacks(u, b)
  {
  }

  lemma PartsLack(voice: seq<byte>, language: seq<byte>, speaker: seq<byte>, first: bool, second: bool, b: byte)
    requires b == LF || b == NUL
    ensures Lacks(NamePart(voice), b) && Lacks(LanguagePart(language, first), b)
    ensures Lacks(SpeakerPart(speaker, second), b) <==> Lacks(speaker, b)
  {
    KeysLack(b);
    BoundedFits(voice, ESCV_SIZE);
    BoundedFits(language, ESCL_SIZE);
    hide Bounded, Ascii;
    LacksAll(NAME_KEY, Bounded(voice, ESCV_SIZE), [QUOTE], b);
    LacksAll(Sep(first) + LANGUAGE_KEY, Bounded(language, ESCL_SIZE), [QUOTE], b);
    LacksBoth(Sep(first), LANGUAGE_KEY, b);
    LacksAll(Sep(second), SPEAKER_KEY, speaker, b);
  }

  lemma VoiceLacksIff(voice: seq<byte>, language: seq<byte>, speaker: seq<byte>, b: byte)
    requires b == LF || b == NUL
    ensures Lacks(VoiceObject(voice, language, speaker), b) <==> Lacks(speaker, b)
  {
    KeysLack(b);
    PartsLack(voice, language, speaker, voice == [], voice == [] && language == [], b);
    hide Ascii, NamePart, LanguagePart, SpeakerPart;
    var head := VOICE_OPEN + NamePart(voice) + LanguagePart(language, voice == []);
    LacksAll(VOICE_OPEN, NamePart(voice), LanguagePart(language, voice == []), b);
    LacksAll(head, SpeakerPart(speaker, voice == [] && language == []), OBJECT_END, b);
  }

  /** One line, exactly if the speaker, which is inserted as it stands, has no line feed. */
  lemma LineIsOneLineIff(text: seq<byte>, voice: seq<byte>, language: seq<byte>, speaker: seq<byte>)
    ensures LF !in Line(text, voice, language, speaker) <==> LF !in speaker
  {
    BoundedFits(text, ESC_SIZE);
    Request.HeadIsOneLine();
    VoiceLacksIff(voice, language, speaker, LF);
    hide Ascii, Bounded, VoiceObject;
    var vo, t := VoiceObject(voice, language, speaker), Bounded(text, ESC_SIZE);
    LacksBoth(vo, Request.CLOSE, LF);
    LacksAll(t, [QUOTE], vo + Request.CLOSE, LF);
    LacksBoth(Request.HEAD, t + [QUOTE] + (vo + Request.CLOSE), LF);
    assert Lacks([QUOTE], LF) && Lacks(Request.CLOSE, LF) && Lacks(Request.HEAD, LF) && Lacks(t, LF);
  }

  lemma {:induction false} SomeLine(s: seq<byte>)
    requires LF in s
    ensures Lines(s) != []
  {
    var n := |s| - 1;
    if s[n] != LF {
      assert s == s[..n] + [s[n]];
      SomeLine(s[..n]);
    }
  }

  /** The far side splits the request off as one line exactly if the speaker has no line feed. */
  lemma PeerSeesOneLineIff(text: seq<byte>, voice: seq<byte>, language: seq<byte>, speaker: seq<byte>)
    ensures var line := Line(text, voice, language, speaker);
            Lines(line + [LF]) == [line] <==> LF !in speaker
  {
    var line := Line(text, voice, language, speaker);
    LineIsOneLineIff(text, voice, language, speaker);
    hide Line, Lines, Partial;
    LinesSnoc(line, LF);
    if LF !in line {
      NoLines(line);
    } else {
      SomeLine(line);
      assert |Lines(line + [LF])| >= 2;
    }
  }

  /** It happens: a speaker of a line feed. */
  lemma SpeakerBreaksLine(text: seq<byte>, voice: seq<byte>, language: seq<byte>)
    ensures var line := Line(text, voice, language, [LF]); |Lines(line + [LF])| >= 2
  {
    var line := Line(text, voice, language, [LF]);
    LineIsOneLineIff(text, voice, language, [LF]);
    hide Line, Lines, Partial;
    assert LF in [LF];
    SomeLine(line);
    LinesSnoc(line, LF);
  }

  /** The text comes out as an exact prefix of what was to be said, whatever the voice. */
  lemma TextReadsBack(text: seq<byte>, voice: seq<byte>, language: seq<byte>, speaker: seq<byte>)
    ensures var after := VoiceObject(voice, language, speaker) + Request.CLOSE;
            Request.Strip(Request.HEAD, Line(text, voice, language, speaker)).Some?
            && Json.StringBody(Request.Strip(Request.HEAD, Line(text, voice, language, speaker)).value)
            == Some(Json.Parsed(text[..Kept(text, ESC_SIZE)], after))
    ensures 6 * |text| + 1 <= 2048 ==> text[..Kept(text, ESC_SIZE)] == text
  {
    var after := VoiceObject(voice, language, speaker) + Request.CLOSE;
    PrefixReadsBack(text, ESC_SIZE, after);
    Request.StripPrefix(Request.HEAD, Bounded(text, ESC_SIZE) + [QUOTE] + after);
  }

  lemma FieldIsOpenAndKey()
    ensures Request.VOICE_FIELD == VOICE_OPEN + NAME_KEY
  {
  }

  lemma RegroupNamed(o: seq<byte>, k: seq<byte>, e: seq<byte>, x: seq<byte>, c: seq<byte>)
    ensures o + (k + e + [QUOTE]) + [] + [] + x + c == (o + k) + (e + [QUOTE] + (x + c))
  {
  }

  /** Without language and speaker the line is one the engine's reader of requests understands:
      it means what was asked for, up to the two cuts. */
  lemma RequestReadsBack(text: seq<byte>, voice: seq<byte>)
    ensures Request.ParseRequest(Line(text, voice, [], []))
         == Some(Request.Synthesize(text[..Kept(text, ESC_SIZE)],
                                    if voice == [] then None else Some(voice[..Kept(voice, ESCV_SIZE)])))
  {
    TextReadsBack(text, voice, [], []);
    if voice == [] {
      assert [] + Request.CLOSE == Request.CLOSE;
    } else {
      var e := Bounded(voice, ESCV_SIZE);
      FieldIsOpenAndKey();
      Request.VoiceFieldStart();
      RegroupNamed(VOICE_OPEN, NAME_KEY, e, OBJECT_END, Request.CLOSE);
      var body := e + [QUOTE] + Request.VOICE_CLOSE;
      assert VoiceObject(voice, [], []) + Request.CLOSE == Request.VOICE_FIELD + body;
      assert (Request.VOICE_FIELD + body)[0] == 44;
      Request.StripPrefix(Request.VOICE_FIELD, body);
      PrefixReadsBack(voice, ESCV_SIZE, Request.VOICE_CLOSE);
    }
  }

  // ---- building and sending ----

  /** One buf_appendf behind the text already in the buffer. */
  method Append(buf: array<byte>, pos: nat, ghost text: seq<byte>, s: seq<byte>) returns (r: int, end: nat)
    requires pos == |text| < buf.Length && buf[..pos] == text
    modifies buf
    ensures r == if |text + s| < buf.Length then 0 else -1
    ensures r == 0 ==> end == |text + s| < buf.Length && buf[..end] == text + s && buf[end] == NUL
  {
    r, end := BufAppendf(buf, pos, s);
    if r == 0 {
      assert buf[..end] == buf[..end + 1][..end] == text + s;
      assert buf[end] == buf[..end + 1][end];
    }
  }

  /** Escapes into a buffer of its own and reads it back as a C string, as %s does. */
  method Escaped(s: seq<byte>, size: nat) returns (e: seq<byte>)
    requires size >= 1
    ensures e == Bounded(s, size)
  {
    BoundedFits(s, size);
    var buf := new byte[size](_ => 0);
    var o := JsonEscape(s, buf);
    assert buf[..o] == buf[..o + 1][..o] == Bounded(s, size);
    assert buf[o] == buf[..o + 1][o];
    CStringAt(buf[..], o);
    assert buf[..][..o] == buf[..o];
    e := CString(buf[..]);
  }

  /** The buffer holds the text, terminated. */
  ghost predicate Holds(buf: array<byte>, o: nat, text: seq<byte>)
    reads buf
  {
    o == |text| < buf.Length && buf[..o] == text && buf[o] == NUL
  }

  method AppendName(vbuf: array<byte>, pos: nat, ghost text: seq<byte>, voice: seq<byte>) returns (r: int, o: nat)
    requires Holds(vbuf, pos, text)
    modifies vbuf
    ensures r == if |text + NamePart(voice)| < vbuf.Length then 0 else -1
    ensures r == 0 ==> Holds(vbuf, o, text + NamePart(voice))
  {
    if voice == [] {
      assert text + [] == text;
      return 0, pos;
    }
    var escv := Escaped(voice, ESCV_SIZE);
    r, o := Append(vbuf, pos, text, NAME_KEY + escv + [QUOTE]);
  }

  method AppendLanguage(vbuf: array<byte>, pos: nat, ghost text: seq<byte>, language: seq<byte>, first: bool)
    returns (r: int, o: nat)
    requires Holds(vbuf, pos, text)
    modifies vbuf
    ensures r == if |text + LanguagePart(language, first)| < vbuf.Length then 0 else -1
    ensures r == 0 ==> Holds(vbuf, o, text + LanguagePart(language, first))
  {
    if language == [] {
      assert text + [] == text;
      return 0, pos;
    }
    var escl := Escaped(language, ESCL_SIZE);
    r, o := Append(vbuf, pos, text, Sep(first) + LANGUAGE_KEY + escl + [QUOTE]);
  }

  method AppendSpeaker(vbuf: array<byte>, pos: nat, ghost text: seq<byte>, speaker: seq<byte>, first: bool)
    returns (r: int, o: nat)
    requires Holds(vbuf, pos, text)
    modifies vbuf
    ensures r == if |text + SpeakerPart(speaker, first)| < vbuf.Length then 0 else -1
    ensures r == 0 ==> Holds(vbuf, o, text + SpeakerPart(speaker, first))
  {
    if speaker == [] {
      assert text + [] == text;
      return 0, pos;
    }
    r, o := Append(vbuf, pos, text, Sep(first) + SPEAKER_KEY + speaker);
  }

  /** The voice sub-object: built if it fits its buffer, else the request is given up. */
  method BuildVoice(vbuf: array<byte>, voice: seq<byte>, language: seq<byte>, speaker: seq<byte>)
    returns (r: int, o: nat)
    requires vbuf.Length == 512 && !(voice == [] && language == [] && speaker == [])
    modifies vbuf
    ensures r == if |VoiceObject(voice, language, speaker)| < 512 then 0 else -1
    ensures r == 0 ==> Holds(vbuf, o, VoiceObject(voice, language, speaker))
  {
    hide Ascii, Holds, NamePart, LanguagePart, SpeakerPart;
    r, o := Open(vbuf);
    ghost var text := VOICE_OPEN;
    r, o := AppendName(vbuf, o, text, voice);
    text := text + NamePart(voice);
    if r < 0 { return; }
    var first := voice == [];
    r, o := AppendLanguage(vbuf, o, text, language, first);
    text := text + LanguagePart(language, first);
    if r < 0 { return; }
    first := first && language == [];
    r, o := AppendSpeaker(vbuf, o, text, speaker, first);
    text := text + SpeakerPart(speaker, first);
    if r < 0 { return; }
    r, o := Close(vbuf, o, text);
  }

  method Open(vbuf: array<byte>) returns (r: int, o: nat)
    requires vbuf.Length == 512
    modifies vbuf
    ensures r == 0 && Holds(vbuf, o, VOICE_OPEN)
  {
    r, o := Append(vbuf, 0, [], VOICE_OPEN);
    assert [] + VOICE_OPEN == VOICE_OPEN;
  }

  method Close(vbuf: array<byte>, pos: nat, ghost text: seq<byte>) returns (r: int, o: nat)
    requires Holds(vbuf, pos, text)
    modifies vbuf
    ensures r == if |text + OBJECT_END| < vbuf.Length then 0 else -1
    ensures r == 0 ==> Holds(vbuf, o, text + OBJECT_END)
  {
    r, o := Append(vbuf, pos, text, OBJECT_END);
  }

  /** The formatted line, for whatever the caller found in the two buffers. */
  method Format(esc: seq<byte>, vobj: seq<byte>) returns (line: array<byte>, n: int)
    requires |Request.HEAD| + |esc| + |vobj| + 4 < 4096
    ensures fresh(line) && n == |Request.HEAD| + |esc| + |vobj| + 4 < line.Length
    ensures line[..n] == Request.HEAD + (esc + [QUOTE] + (vobj + Request.CLOSE)) + [LF]
  {
    line := new byte[LINE_SIZE](_ => 0);
    ghost var s := Request.HEAD + (esc + [QUOTE] + (vobj + Request.CLOSE)) + [LF];
    n := Vsnprintf(line, 0, LINE_SIZE, Request.HEAD + (esc + [QUOTE] + (vobj + Request.CLOSE)) + [LF]);
    assert s[..|s|] == s;
    assert line[..n] == line[..n + 1][..n];
  }

  /** Both escapes and the voice object, read back as C strings; None if the voice does not fit. */
  method VoiceString(voice: seq<byte>, language: seq<byte>, speaker: seq<byte>) returns (v: Option<seq<byte>>)
    requires NUL !in speaker
    ensures v == if |VoiceObject(voice, language, speaker)| < 512
                 then Some(VoiceObject(voice, language, speaker)) else None
  {
    if voice == [] && language == [] && speaker == [] { return Some([]); }
    var vbuf := new byte[VBUF_SIZE](_ => 0);
    var r, o := BuildVoice(vbuf, voice, language, speaker);
    if r < 0 { return None; }
    VoiceLacksIff(voice, language, speaker, NUL);
    assert vbuf[..][..o] == vbuf[..o];
    CStringAt(vbuf[..], o);
    return Some(CString(vbuf[..]));
  }

  /** wyo_send_synthesize: nothing is sent if the voice object does not fit; else the whole line,
      or what the connection took of it before it failed. */
  method SendSynthesize(sock: Socket, text: seq<byte>, voice: seq<byte>, language: seq<byte>, speaker: seq<byte>)
    returns (r: int)
    requires sock.Valid() && NUL !in speaker
    modifies sock`sent, sock`sends
    ensures sock.Valid() && (r == 0 || r == -1)
    ensures |VoiceObject(voice, language, speaker)| >= 512 ==> r == -1 && sock.sent == old(sock.sent)
    ensures r == 0 <==> |VoiceObject(voice, language, speaker)| < 512 && sock.Refused() == old(sock.Refused())
    ensures r == 0 ==> sock.sent == old(sock.sent) + (Line(text, voice, language, speaker) + [LF])
    ensures r == -1 ==> old(sock.sent) <= sock.sent
                        && sock.sent < old(sock.sent) + (Line(text, voice, language, speaker) + [LF])
  {
    hide Ascii, Bounded, VoiceObject, Socket.Valid, Socket.Pending;
    var esc := Escaped(text, ESC_SIZE);
    var v := VoiceString(voice, language, speaker);
    if v == None { return -1; }
    LineFits(text, voice, language, speaker);
    var line, n := Format(esc, v.value);
    r := WriteAll(sock, line, n);
  }
}
