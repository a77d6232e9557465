/** What a reader of JSON objects makes of the host side's request with all its voice fields
    (src/wyoming.c:121-181). */
module HostVoice {
  import opened Bytes
  import opened Json
  import opened JsonObjects
  import opened HostEscape
  import opened HostRequest
  import opened RequestMeaning
  import Request

  const LANGUAGE := Ascii("language")
  const SPEAKER := Ascii("speaker")

  // ---- the request as an object ----

  function SpeakerField(speaker: seq<byte>): (fs: Fields)
  {
    if speaker == [] then Nil else Field(SPEAKER, Num(speaker), Nil)
  }

  /** A string cut to what its buffer holds. */
  function CutString(s: seq<byte>, size: nat): (d: Doc)
  {
    Str(Bounded(s, size), s[..Kept(s, size)])
  }

  function LanguageField(language: seq<byte>, more: Fields): (fs: Fields)
  {
    if language == [] then more else Field(LANGUAGE, CutString(language, ESCL_SIZE), more)
  }

  function NameField(voice: seq<byte>, more: Fields): (fs: Fields)
  {
    if voice == [] then more else Field(NAME, CutString(voice, ESCV_SIZE), more)
  }

  function AllFields(voice: seq<byte>, language: seq<byte>, speaker: seq<byte>): (fs: Fields)
  {
    NameField(voice, LanguageField(language, SpeakerField(speaker)))
  }

  function VoiceField(voice: seq<byte>, language: seq<byte>, speaker: seq<byte>): (fs: Fields)
  {
    if voice == [] && language == [] && speaker == [] then Nil
    else Field(VOICE, Obj(AllFields(voice, language, speaker)), Nil)
  }

  function RequestDoc(text: seq<byte>, more: Fields): (d: Doc)
  {
    SynthesizeDoc(Bounded(text, ESC_SIZE), text[..Kept(text, ESC_SIZE)], more)
  }

  // ---- it is written like that ----

  lemma LanguageKeyIs()
    ensures LANGUAGE_KEY == Keying(LANGUAGE) + [34] && Plain(LANGUAGE)
  {
  }

  lemma NameKeyIs()
    ensures NAME_KEY == Keying(NAME) + [34] && Plain(NAME)
  {
  }

  lemma SpeakerKeyIs()
    ensures SPEAKER_KEY == Keying(SPEAKER) && Plain(SPEAKER)
  {
  }

  lemma VoiceOpenIs()
    ensures VOICE_OPEN == [44, 32] + Keying(VOICE) + [123] && Plain(VOICE)
  {
  }

  lemma SpeakerWritten(speaker: seq<byte>, first: bool)
    ensures WrittenFields(SpeakerField(speaker), first) == SpeakerPart(speaker, first) + [125]
  {
    SpeakerKeyIs();
    hide Ascii, Keying, SPEAKER, SPEAKER_KEY;
    if speaker == [] {
      assert [] + [125] == [125];
    } else {
      assert WrittenFields(SpeakerField(speaker), first)
          == Comma(first) + (Keying(SPEAKER) + (speaker + WrittenFields(Nil, false)));
      assert Comma(first) + (Keying(SPEAKER) + (speaker + [125])) == Comma(first) + Keying(SPEAKER) + speaker + [125];
    }
  }

  lemma StringField(c: seq<byte>, k: seq<byte>, e: seq<byte>, more: seq<byte>)
    ensures c + (k + (([34] + e + [34]) + more)) == (c + (k + [34]) + e + [34]) + more
  {
  }

  lemma LanguageWritten(language: seq<byte>, first: bool, more: Fields)
    ensures WrittenFields(LanguageField(language, more), first)
         == LanguagePart(language, first) + WrittenFields(more, first && language == [])
  {
    LanguageKeyIs();
    hide Ascii, Keying, LANGUAGE, LANGUAGE_KEY, Bounded;
    if language == [] {
      assert [] + WrittenFields(more, first) == WrittenFields(more, first);
    } else {
      StringField(Comma(first), Keying(LANGUAGE), Bounded(language, ESCL_SIZE), WrittenFields(more, false));
    }
  }

  lemma NameWritten(voice: seq<byte>, more: Fields)
    ensures WrittenFields(NameField(voice, more), true) == NamePart(voice) + WrittenFields(more, voice == [])
  {
    NameKeyIs();
    hide Ascii, Keying, NAME, NAME_KEY, Bounded;
    if voice == [] {
      assert [] + WrittenFields(more, true) == WrittenFields(more, true);
    } else {
      StringField([], Keying(NAME), Bounded(voice, ESCV_SIZE), WrittenFields(more, false));
      assert [] + (Keying(NAME) + [34]) == Keying(NAME) + [34];
    }
  }

  lemma VoiceRejoined(v: seq<byte>, n: seq<byte>, l: seq<byte>, s: seq<byte>)
    ensures [44, 32] + (v + (([123] + (n + (l + (s + [125])))) + [125])) + [125]
         == (([44, 32] + v + [123]) + n + l + s + [125]) + [125, 125]
  {
  }

  lemma VoiceWritten(voice: seq<byte>, language: seq<byte>, speaker: seq<byte>)
    ensures WrittenFields(VoiceField(voice, language, speaker), false) + [125]
         == VoiceObject(voice, language, speaker) + Request.CLOSE
  {
    if voice == [] && language == [] && speaker == [] {
      assert [] + Request.CLOSE == [125] + [125];
    } else {
      var last := voice == [] && language == [];
      VoiceOpenIs();
      SpeakerWritten(speaker, last);
      LanguageWritten(language, voice == [], SpeakerField(speaker));
      NameWritten(voice, LanguageField(language, SpeakerField(speaker)));
      hide Ascii, Keying, VOICE, VOICE_OPEN, NamePart, LanguagePart, SpeakerPart;
      var all := AllFields(voice, language, speaker);
      assert WrittenFields(Field(VOICE, Obj(all), Nil), false)
          == [44, 32] + (Keying(VOICE) + (([123] + WrittenFields(all, true)) + WrittenFields(Nil, false)));
      VoiceRejoined(Keying(VOICE), NamePart(voice), LanguagePart(language, voice == []), SpeakerPart(speaker, last));
    }
  }

  lemma LineIsWritten(text: seq<byte>, voice: seq<byte>, language: seq<byte>, speaker: seq<byte>)
    ensures Line(text, voice, language, speaker) == Written(RequestDoc(text, VoiceField(voice, language, speaker)))
  {
    hide VoiceObject, Ascii, Written, Bounded, Request.HEAD;
    VoiceWritten(voice, language, speaker);
    HeadOpens(Bounded(text, ESC_SIZE), text[..Kept(text, ESC_SIZE)], VoiceField(voice, language, speaker));
  }

  // ---- it is read back ----

  lemma CutIsSound(s: seq<byte>, size: nat)
    ensures Sound(CutString(s, size))
  {
    forall rest
      ensures StringBody(Bounded(s, size) + [34] + rest) == Some(Parsed(s[..Kept(s, size)], rest))
    {
      PrefixReadsBack(s, size, rest);
    }
  }

  lemma FieldsAreSound(voice: seq<byte>, language: seq<byte>, speaker: seq<byte>)
    requires speaker == [] || IsNumber(speaker)
    ensures AllSound(VoiceField(voice, language, speaker))
  {
    LanguageKeyIs();
    NameKeyIs();
    SpeakerKeyIs();
    VoiceOpenIs();
    CutIsSound(language, ESCL_SIZE);
    CutIsSound(voice, ESCV_SIZE);
    hide Ascii, Plain, Unescapes, IsNumber, CutString, VOICE, NAME, LANGUAGE, SPEAKER;
    assert AllSound(SpeakerField(speaker));
    assert AllSound(LanguageField(language, SpeakerField(speaker)));
    assert AllSound(AllFields(voice, language, speaker));
    assert Sound(Obj(AllFields(voice, language, speaker)));
  }

  /** The voice fields that were asked for, in order. */
  function MeantFields(voice: seq<byte>, language: seq<byte>, speaker: seq<byte>): (ms: seq<Member>)
  {
    (if voice == [] then [] else [Member(Ascii("name"), Text(voice[..Kept(voice, ESCV_SIZE)]))])
    + ((if language == [] then [] else [Member(Ascii("language"), Text(language[..Kept(language, ESCL_SIZE)]))])
       + (if speaker == [] then [] else [Member(Ascii("speaker"), Number(speaker))]))
  }

  /** What was asked for: the text and the voice fields, cut to what their buffers hold. */
  function Meant(text: seq<byte>, voice: seq<byte>, language: seq<byte>, speaker: seq<byte>): (v: Value)
  {
    Object([Member(Ascii("type"), Text(Ascii("synthesize"))),
            Member(Ascii("data"), Object(
              [Member(Ascii("text"), Text(text[..Kept(text, ESC_SIZE)]))]
              + if voice == [] && language == [] && speaker == [] then []
                else [Member(Ascii("voice"), Object(MeantFields(voice, language, speaker)))]))])
  }

  lemma FieldsMean(voice: seq<byte>, language: seq<byte>, speaker: seq<byte>)
    ensures MeaningOf(AllFields(voice, language, speaker)) == MeantFields(voice, language, speaker)
  {
    hide Ascii, Kept, Bounded;
    var s := SpeakerField(speaker);
    assert MeaningOf(s) == if speaker == [] then [] else [Member(SPEAKER, Number(speaker))];
    var l := LanguageField(language, s);
    assert MeaningOf(l) == (if language == [] then []
                            else [Member(LANGUAGE, Text(language[..Kept(language, ESCL_SIZE)]))]) + MeaningOf(s);
  }

  lemma RequestMeans(text: seq<byte>, voice: seq<byte>, language: seq<byte>, speaker: seq<byte>)
    ensures Meaning(RequestDoc(text, VoiceField(voice, language, speaker))) == Meant(text, voice, language, speaker)
  {
    FieldsMean(voice, language, speaker);
    hide Ascii, Kept, Bounded, AllFields, MeantFields, TYPE, SYNTHESIZE, DATA, TEXT, VOICE;
    var vs := VoiceField(voice, language, speaker);
    var ms := if voice == [] && language == [] && speaker == [] then []
              else [Member(VOICE, Object(MeantFields(voice, language, speaker)))];
    assert MeaningOf(vs) == ms;
    var text' := Field(TEXT, CutString(text, ESC_SIZE), vs);
    assert MeaningOf(text') == [Member(TEXT, Text(text[..Kept(text, ESC_SIZE)]))] + ms;
    var data := Field(DATA, Obj(text'), Nil);
    assert MeaningOf(data) == [Member(DATA, Object(MeaningOf(text')))];
    assert MeaningOf(Field(TYPE, Str(SYNTHESIZE, SYNTHESIZE), data))
        == [Member(TYPE, Text(SYNTHESIZE))] + MeaningOf(data);
    TheNames();
  }

  lemma TheNames()
    ensures TYPE == Ascii("type") && SYNTHESIZE == Ascii("synthesize") && DATA == Ascii("data")
    ensures TEXT == Ascii("text") && VOICE == Ascii("voice")
  {
  }

  lemma NumberReadsBack(text: seq<byte>, voice: seq<byte>, language: seq<byte>, speaker: seq<byte>)
    requires speaker == [] || IsNumber(speaker)
    ensures ReadLine(Line(text, voice, language, speaker)) == Some(Meant(text, voice, language, speaker))
  {
    hide *;
    LineIsWritten(text, voice, language, speaker);
    FieldsAreSound(voice, language, speaker);
    RequestIsSound(text, VoiceField(voice, language, speaker));
    LineReads(RequestDoc(text, VoiceField(voice, language, speaker)));
    RequestMeans(text, voice, language, speaker);
  }

  lemma RequestIsSound(text: seq<byte>, more: Fields)
    requires AllSound(more)
    ensures Sound(RequestDoc(text, more))
  {
    CutIsSound(text, ESC_SIZE);
    hide Ascii, Written, Unescapes, Bounded, Request.HEAD;
    HeadOpens(Bounded(text, ESC_SIZE), text[..Kept(text, ESC_SIZE)], more);
  }

  // ---- exactly for numbers ----

  lemma SpeakerIsMeant(text: seq<byte>, voice: seq<byte>, language: seq<byte>, speaker: seq<byte>)
    requires speaker != [] && TrueNumbers(Meant(text, voice, language, speaker))
    ensures IsNumber(speaker)
  {
    hide Ascii, Kept, IsNumber;
    var fields := MeantFields(voice, language, speaker);
    var last := Member(SPEAKER, Number(speaker));
    assert fields[|fields| - 1] == last && last in fields;
    var data := [Member(Ascii("text"), Text(text[..Kept(text, ESC_SIZE)]))]
                + [Member(Ascii("voice"), Object(fields))];
    assert data[1] == Member(Ascii("voice"), Object(fields)) && data[1] in data;
    var all := [Member(Ascii("type"), Text(Ascii("synthesize"))), Member(Ascii("data"), Object(data))];
    assert Meant(text, voice, language, speaker) == Object(all);
    assert all[1] in all;
    assert TrueNumbers(Object(data)) && TrueNumbers(Object(fields)) && TrueNumbers(last.value);
  }

  /** The request means what was asked for, up to the cuts of its strings, exactly if the speaker, which is
      inserted as it stands, is a JSON number. */
  lemma RequestMeansIff(text: seq<byte>, voice: seq<byte>, language: seq<byte>, speaker: seq<byte>)
    ensures ReadLine(Line(text, voice, language, speaker)) == Some(Meant(text, voice, language, speaker))
            <==> speaker == [] || IsNumber(speaker)
  {
    hide Line, ReadLine, IsNumber, Meant, TrueNumbers;
    if speaker == [] || IsNumber(speaker) {
      NumberReadsBack(text, voice, language, speaker);
    } else if ReadLine(Line(text, voice, language, speaker)) == Some(Meant(text, voice, language, speaker)) {
      LineHasTrueNumbers(Line(text, voice, language, speaker));
      SpeakerIsMeant(text, voice, language, speaker);
    }
  }

  // ---- two speakers ----

  const SEVEN := Ascii("007")
  const MINUS_FIVE := Ascii("-5")

  /** A negative speaker does no harm; a leading zero makes the whole request unreadable. */
  lemma LeadingZeros(text: seq<byte>, voice: seq<byte>, language: seq<byte>)
    ensures IsNumber(MINUS_FIVE) && !IsNumber(SEVEN) && ReadLine(Line(text, voice, language, SEVEN)) == None
  {
    NegativeNumber();
    SevenRuns([]);
    assert SEVEN[..3] == SEVEN + [] == SEVEN;
    if IsNumber(SEVEN) { LongestNumber(SEVEN, 3); }
    hide IsNumber, Line, ReadMembers, ReadValue, Written, VoiceField;
    LineIsWritten(text, voice, language, SEVEN);
    VoiceBreaks(voice, language, [125]);
    RequestBreaks(text, VoiceField(voice, language, SEVEN));
  }

  lemma NegativeNumber()
    ensures IsNumber(MINUS_FIVE)
  {
    var s := MINUS_FIVE;
    assert s[..1] == [45] && s[1..2] == [53] && s[2..2] == [] && s[2..] == [];
    hide Ascii;
    assert IsMinus(s[..1]) && IsInt(s[1..2]) && IsFrac(s[2..2]) && IsExp(s[2..]);
  }

  lemma SevenRuns(rest: seq<byte>)
    ensures var v := SEVEN + rest; |SEVEN| == 3 && v[0] == 48 && v[1] == 48 && NumberRun(v) == 1
  {
    var v := SEVEN + rest;
    assert v[0] == 48 && v[1] == 48 && v[1..][0] == 48;
    hide Ascii;
  }

  /** The number ends behind its first zero, and what follows is neither a comma nor a brace. */
  lemma SevenBreaks(rest: seq<byte>)
    ensures BreaksAt(Num(SEVEN), rest) && Written(Num(SEVEN)) != [] && Written(Num(SEVEN))[0] == 48
  {
    SevenRuns(rest);
    hide Ascii, NumberRun, Keyed;
    var v := SEVEN + rest;
    assert ReadValue(v) == Some(Read(Number(v[..1]), v[1..]));
    assert v[1..][0] == 48;
  }

  lemma SpeakerBreaks(first: bool, rest: seq<byte>)
    ensures ReadMembers(WrittenFields(SpeakerField(SEVEN), first) + rest, first) == None
  {
    SpeakerKeyIs();
    SevenBreaks(WrittenFields(Nil, false) + rest);
    hide Ascii, ReadMembers, ReadValue, BreaksAt;
    FieldBreaks(SPEAKER, Num(SEVEN), Nil, first, rest);
  }

  lemma AllBreak(voice: seq<byte>, language: seq<byte>, rest: seq<byte>)
    ensures ReadMembers(WrittenFields(AllFields(voice, language, SEVEN), true) + rest, true) == None
  {
    LanguageKeyIs();
    NameKeyIs();
    CutIsSound(language, ESCL_SIZE);
    CutIsSound(voice, ESCV_SIZE);
    hide Ascii, ReadMembers, ReadValue, WrittenFields, SpeakerField, Plain, Sound;
    var s := SpeakerField(SEVEN);
    var first := voice == [];
    SpeakerBreaks(first, rest);
    SpeakerBreaks(false, rest);
    if language != [] { BreaksBehind(LANGUAGE, CutString(language, ESCL_SIZE), s, first, rest); }
    if voice != [] { BreaksBehind(NAME, CutString(voice, ESCV_SIZE), LanguageField(language, s), true, rest); }
  }

  lemma VoiceBreaks(voice: seq<byte>, language: seq<byte>, rest: seq<byte>)
    ensures ReadMembers(WrittenFields(VoiceField(voice, language, SEVEN), false) + rest, false) == None
  {
    VoiceOpenIs();
    SevenRuns([]);
    hide Ascii, ReadMembers, ReadValue, WrittenFields, AllFields, Plain, BreaksAt, NumberRun;
    var all := AllFields(voice, language, SEVEN);
    AllBreak(voice, language, WrittenFields(Nil, false) + rest);
    ObjectBreaks(all, WrittenFields(Nil, false) + rest);
    FieldBreaks(VOICE, Obj(all), Nil, false, rest);
  }

  lemma RequestBreaks(text: seq<byte>, more: Fields)
    requires ReadMembers(WrittenFields(more, false) + [125], false) == None
    ensures ReadLine(Written(RequestDoc(text, more))) == None
  {
    CutIsSound(text, ESC_SIZE);
    TypePart();
    DataPart();
    TextPart();
    SynthesizePart();
    PlainUnescapes(SYNTHESIZE);
    hide Ascii, ReadMembers, ReadValue, WrittenFields, Plain, BreaksAt, CutString;
    var inner := Field(TEXT, CutString(text, ESC_SIZE), more);
    var data := Field(DATA, Obj(inner), Nil);
    var all := Field(TYPE, Str(SYNTHESIZE, SYNTHESIZE), data);
    NothingMore();
    BreaksBehind(TEXT, CutString(text, ESC_SIZE), more, true, [125]);
    ObjectBreaks(inner, [125]);
    FieldBreaks(DATA, Obj(inner), Nil, false, []);
    BreaksBehind(TYPE, Str(SYNTHESIZE, SYNTHESIZE), data, true, []);
    ObjectBreaks(all, []);
    assert Written(Obj(all)) + [] == Written(Obj(all));
    OneSpace(Written(Obj(all)));
  }

  lemma NothingMore()
    ensures WrittenFields(Nil, false) + [] == [125]
  {
  }
}
