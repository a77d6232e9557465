/** What a reader of JSON objects makes of the engine's requests (src/nw_engine.c:1044-1068). */
module RequestMeaning {
  import opened Bytes
  import opened Json
  import opened JsonObjects
  import opened Request

  const TYPE := Ascii("type")
  const SYNTHESIZE := Ascii("synthesize")
  const DATA := Ascii("data")
  const TEXT := Ascii("text")
  const VOICE := Ascii("voice")
  const NAME := Ascii("name")

  function VoiceFields(voice: seq<byte>): (fs: Fields)
  {
    if voice == [] then Nil else Field(VOICE, Obj(Field(NAME, Str(EscapeText(voice), Clean(voice)), Nil)), Nil)
  }

  /** A synthesize request for a text, whatever else its data says. */
  function SynthesizeDoc(esc: seq<byte>, value: seq<byte>, more: Fields): (d: Doc)
  {
    Obj(Field(TYPE, Str(SYNTHESIZE, SYNTHESIZE), Field(DATA, Obj(Field(TEXT, Str(esc, value), more)), Nil)))
  }

  function DocOf(text: seq<byte>, voice: seq<byte>): (d: Doc)
  {
    SynthesizeDoc(EscapeText(text), Clean(text), VoiceFields(voice))
  }

  lemma TypePart()
    ensures TYPE_PART == [123] + Keying(TYPE) && Plain(TYPE)
  {
  }

  lemma SynthesizePart()
    ensures SYNTHESIZE_PART == [34] + SYNTHESIZE + [34] + [44, 32] && Plain(SYNTHESIZE)
  {
  }

  lemma DataPart()
    ensures DATA_PART == Keying(DATA) + [123] && Plain(DATA)
  {
  }

  lemma TextPart()
    ensures TEXT_PART == Keying(TEXT) + [34] && Plain(TEXT)
  {
  }

  lemma VoicePlain()
    ensures Plain(VOICE)
  {
  }

  lemma NamePlain()
    ensures Plain(NAME)
  {
  }

  lemma VoiceFieldIs()
    ensures VOICE_FIELD == [44, 32] + Keying(VOICE) + [123] + Keying(NAME) + [34]
  {
  }

  /** The request opens as an object of type and data, whose text comes first. */
  lemma HeadOpens(esc: seq<byte>, value: seq<byte>, more: Fields)
    ensures Written(SynthesizeDoc(esc, value, more)) == HEAD + (esc + [QUOTE] + (WrittenFields(more, false) + [125]))
    ensures Unescapes(esc, value) && AllSound(more) ==> Sound(SynthesizeDoc(esc, value, more))
  {
    TypePart();
    SynthesizePart();
    DataPart();
    TextPart();
    PlainUnescapes(SYNTHESIZE);
    hide Ascii, Keying, TYPE_PART, SYNTHESIZE_PART, DATA_PART, TEXT_PART, TYPE, SYNTHESIZE, DATA, TEXT;
    var text := Field(TEXT, Str(esc, value), more);
    var data := Field(DATA, Obj(text), Nil);
    hide Plain, Unescapes;
    if Unescapes(esc, value) && AllSound(more) {
      assert AllSound(text) && Sound(Obj(text)) && AllSound(data) && Sound(Str(SYNTHESIZE, SYNTHESIZE));
      assert AllSound(Field(TYPE, Str(SYNTHESIZE, SYNTHESIZE), data));
    }
    assert WrittenFields(text, true) == [] + (Keying(TEXT) + (([34] + esc + [34]) + WrittenFields(more, false)));
    assert WrittenFields(data, false)
        == [44, 32] + (Keying(DATA) + (([123] + WrittenFields(text, true)) + WrittenFields(Nil, false)));
    assert WrittenFields(Field(TYPE, Str(SYNTHESIZE, SYNTHESIZE), data), true)
        == [] + (Keying(TYPE) + (([34] + SYNTHESIZE + [34]) + WrittenFields(data, false)));
    Regrouped(Keying(TYPE), SYNTHESIZE, Keying(DATA), Keying(TEXT), esc, WrittenFields(more, false));
  }

  lemma Regrouped(t: seq<byte>, syn: seq<byte>, d: seq<byte>, x: seq<byte>, esc: seq<byte>, more: seq<byte>)
    ensures [123] + ([] + (t + (([34] + syn + [34])
            + ([44, 32] + (d + (([123] + ([] + (x + (([34] + esc + [34]) + more)))) + [125]))))))
         == ([123] + t) + ([34] + syn + [34] + [44, 32]) + (d + [123]) + (x + [34]) + (esc + [34] + (more + [125]))
  {
  }

  lemma VoiceOpens(voice: seq<byte>)
    ensures WrittenFields(VoiceFields(voice), false) + [125] == AfterText(voice) && AllSound(VoiceFields(voice))
  {
    if voice == [] {
      assert WrittenFields(Nil, false) + [125] == CLOSE;
    } else {
      VoiceFieldIs();
      VoicePlain();
      NamePlain();
      EscapedUnescapes(voice);
      hide Ascii, Keying, VOICE_FIELD, VOICE, NAME, Plain, Unescapes;
      var name := Field(NAME, Str(EscapeText(voice), Clean(voice)), Nil);
      assert WrittenFields(name, true) == [] + (Keying(NAME) + (([34] + EscapeText(voice) + [34]) + [125]));
      assert WrittenFields(VoiceFields(voice), false)
          == [44, 32] + (Keying(VOICE) + (([123] + WrittenFields(name, true)) + WrittenFields(Nil, false)));
      assert Sound(Str(EscapeText(voice), Clean(voice))) && AllSound(Nil);
      assert AllSound(name);
      assert Sound(Obj(name));
      VoiceRegrouped(Keying(VOICE), Keying(NAME), EscapeText(voice));
    }
  }

  lemma VoiceRegrouped(v: seq<byte>, n: seq<byte>, e: seq<byte>)
    ensures [44, 32] + (v + (([123] + ([] + (n + (([34] + e + [34]) + [125])))) + [125])) + [125]
         == ([44, 32] + v + [123] + n + [34]) + (e + [34] + ([125] + [125, 125]))
  {
  }

  lemma EscapedUnescapes(s: seq<byte>)
    ensures Unescapes(EscapeText(s), Clean(s))
  {
    forall rest
      ensures StringBody(EscapeText(s) + [34] + rest) == Some(Parsed(Clean(s), rest))
    {
      EscapeDecodes(s, rest);
    }
  }

  /** Every request is one JSON object: its type is synthesize, and its data the cleaned text and, if there is one,
      the voice with the cleaned name. */
  lemma RequestIsObject(text: seq<byte>, voice: seq<byte>)
    ensures ReadLine(LineBody(text, voice))
         == Some(Object([Member(Ascii("type"), Text(Ascii("synthesize"))),
                         Member(Ascii("data"), Object(
                           [Member(Ascii("text"), Text(Clean(text)))]
                           + if voice == [] then []
                             else [Member(Ascii("voice"), Object([Member(Ascii("name"), Text(Clean(voice)))]))]))]))
  {
    HeadOpens(EscapeText(text), Clean(text), VoiceFields(voice));
    VoiceOpens(voice);
    EscapedUnescapes(text);
    hide Ascii, ReadLine, Unescapes, Plain, HEAD, Clean, EscapeText;
    LineReads(DocOf(text, voice));
    MeaningIs(text, voice);
  }

  lemma MeaningIs(text: seq<byte>, voice: seq<byte>)
    ensures Meaning(DocOf(text, voice))
         == Object([Member(TYPE, Text(SYNTHESIZE)),
                    Member(DATA, Object([Member(TEXT, Text(Clean(text)))]
                                        + if voice == [] then []
                                          else [Member(VOICE, Object([Member(NAME, Text(Clean(voice)))]))]))])
  {
    hide Ascii, Clean, EscapeText, TYPE, SYNTHESIZE, DATA, TEXT, VOICE, NAME;
    var vs := if voice == [] then [] else [Member(VOICE, Object([Member(NAME, Text(Clean(voice)))]))];
    assert MeaningOf(Field(NAME, Str(EscapeText(voice), Clean(voice)), Nil)) == [Member(NAME, Text(Clean(voice)))];
    assert MeaningOf(VoiceFields(voice)) == vs;
    var text' := Field(TEXT, Str(EscapeText(text), Clean(text)), VoiceFields(voice));
    assert MeaningOf(text') == [Member(TEXT, Text(Clean(text)))] + vs;
    var data := Field(DATA, Obj(text'), Nil);
    assert MeaningOf(data) == [Member(DATA, Object(MeaningOf(text')))];
    assert MeaningOf(Field(TYPE, Str(SYNTHESIZE, SYNTHESIZE), data))
        == [Member(TYPE, Text(SYNTHESIZE))] + MeaningOf(data);
  }
}
