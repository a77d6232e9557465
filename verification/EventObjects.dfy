/** The mock server's header lines and data blocks are JSON objects that say what they should
    (tests/mock_wyoming_server.py:29-69). */
module EventObjects {
  import opened Bytes
  import opened Json
  import opened JsonObjects
  import opened Header
  import opened Events

  // ---- decimal numbers ----

  lemma {:induction false} DecIsInt(n: nat)
    ensures IsInt(Dec(n)) && Digits(Dec(n)) && (n > 0 ==> Dec(n)[0] != 48)
  {
    if n >= 10 {
      DecIsInt(n / 10);
      assert Dec(n)[0] == Dec(n / 10)[0];
    }
  }

  lemma DecIsNumber(n: nat)
    ensures IsNumber(Dec(n))
  {
    DecIsInt(n);
    hide Dec, IsInt;
    var s := Dec(n);
    assert s[..0] == [] && s[0..|s|] == s && s[|s|..|s|] == [] && s[|s|..] == [];
    assert IsMinus(s[..0]) && IsInt(s[0..|s|]) && IsFrac(s[|s|..|s|]) && IsExp(s[|s|..]);
  }

  // ---- the lines as objects ----

  function Int(n: nat): (d: Doc)
  {
    Num(Dec(n))
  }

  function FormatFields(f: Format): (fs: Fields)
    requires f.rate >= 0 && f.width >= 0 && f.channels >= 0
  {
    Field(RATE, Int(f.rate), Field(WIDTH, Int(f.width), Field(CHANNELS, Int(f.channels), Nil)))
  }

  function Name(s: seq<byte>): (d: Doc)
  {
    Str(s, s)
  }

  function HeaderDoc(ev: Event): (d: Doc)
    requires Sized(ev)
  {
    match ev
    case Start(f) => Obj(Field(TYPE, Name(AUDIO_START), Field(DATA, Obj(FormatFields(f)), Nil)))
    case Chunk(f, data, inline) =>
      Obj(Field(TYPE, Name(AUDIO_CHUNK),
          if inline then Field(PAYLOAD_LENGTH, Int(|data|), FormatFields(f))
          else Field(DATA_LENGTH, Int(|DataBlock(f)|), Field(PAYLOAD_LENGTH, Int(|data|), Nil))))
    case Stop => Obj(Field(TYPE, Name(AUDIO_STOP), Field(DATA, Obj(Nil), Nil)))
  }

  lemma TypeIs()
    ensures Ascii("{\"type\": ") == [123] + Keying(TYPE) && Plain(TYPE)
  {
  }

  lemma StartIs()
    ensures Ascii("\"audio-start\", ") == [34] + AUDIO_START + [34] + [44, 32] && Plain(AUDIO_START)
  {
  }

  lemma ChunkIs()
    ensures Ascii("\"audio-chunk\", ") == [34] + AUDIO_CHUNK + [34] + [44, 32] && Plain(AUDIO_CHUNK)
  {
  }

  lemma StopIs()
    ensures Ascii("\"audio-stop\", ") == [34] + AUDIO_STOP + [34] + [44, 32] && Plain(AUDIO_STOP)
  {
  }

  lemma DataOpenIs()
    ensures Ascii("\"data\": {") == Keying(DATA) + [123] && Plain(DATA)
  {
  }

  lemma EmptyDataIs()
    ensures Ascii("\"data\": {}}") == Keying(DATA) + [123, 125, 125]
  {
  }

  lemma RateIs()
    ensures Ascii("\"rate\": ") == Keying(RATE) && Plain(RATE)
  {
  }

  lemma WidthIs()
    ensures Ascii("\"width\": ") == Keying(WIDTH) && Plain(WIDTH)
  {
  }

  lemma ChannelsIs()
    ensures Ascii("\"channels\": ") == Keying(CHANNELS) && Plain(CHANNELS)
  {
  }

  lemma PayloadLengthIs()
    ensures Ascii("\"payload_length\": ") == Keying(PAYLOAD_LENGTH) && Plain(PAYLOAD_LENGTH)
  {
  }

  lemma DataLengthIs()
    ensures Ascii("\"data_length\": ") == Keying(DATA_LENGTH) && Plain(DATA_LENGTH)
  {
  }

  lemma BracesAre()
    ensures Ascii(", ") == [44, 32] && Ascii("}") == [125] && Ascii("}}") == [125, 125] && Ascii("{") == [123]
  {
  }

  lemma Three(r: seq<byte>, a: seq<byte>, w: seq<byte>, b: seq<byte>, c: seq<byte>, d: seq<byte>, x: seq<byte>)
    ensures x + (r + (a + ([44, 32] + (w + (b + ([44, 32] + (c + (d + [125]))))))))
         == x + (r + a + [44, 32] + w + b + [44, 32] + c + d) + [125]
  {
  }

  lemma FormatWritten(f: Format, first: bool)
    requires f.rate >= 0 && f.width >= 0 && f.channels >= 0
    ensures WrittenFields(FormatFields(f), first) == Comma(first) + Dec3(f) + [125]
  {
    RateIs();
    WidthIs();
    ChannelsIs();
    BracesAre();
    hide Ascii, Keying, Dec, RATE, WIDTH, CHANNELS;
    var c := Field(CHANNELS, Int(f.channels), Nil);
    var w := Field(WIDTH, Int(f.width), c);
    assert WrittenFields(c, false) == [44, 32] + (Keying(CHANNELS) + (Dec(f.channels) + [125]));
    assert WrittenFields(w, false) == [44, 32] + (Keying(WIDTH) + (Dec(f.width) + WrittenFields(c, false)));
    Three(Keying(RATE), Dec(f.rate), Keying(WIDTH), Dec(f.width), Keying(CHANNELS), Dec(f.channels), Comma(first));
  }

  lemma BlockWritten(f: Format)
    requires f.rate >= 0 && f.width >= 0 && f.channels >= 0
    ensures Written(Obj(FormatFields(f))) == DataBlock(f)
  {
    FormatWritten(f, true);
    BracesAre();
    ObjectWritten(FormatFields(f));
    hide Ascii, Dec3, Written, FormatFields;
    assert [123] + ([] + Dec3(f) + [125]) == [123] + Dec3(f) + [125];
  }

  lemma TypedWritten(t: seq<byte>, more: Fields)
    ensures Written(Obj(Field(TYPE, Name(t), more)))
         == [123] + ([] + (Keying(TYPE) + (([34] + t + [34]) + WrittenFields(more, false))))
  {
    hide Ascii, Keying;
    var all := Field(TYPE, Name(t), more);
    assert Written(Name(t)) == [34] + t + [34];
    assert WrittenFields(all, true) == Comma(true) + (Keying(TYPE) + (Written(Name(t)) + WrittenFields(more, false)));
    assert Written(Obj(all)) == [123] + WrittenFields(all, true);
  }

  lemma StartJoined(k: seq<byte>, t: seq<byte>, d: seq<byte>, x: seq<byte>)
    ensures [123] + ([] + (k + (([34] + t + [34]) + ([44, 32] + (d + (([123] + ([] + x + [125])) + [125]))))))
         == ([123] + k) + ([34] + t + [34] + [44, 32]) + (d + [123]) + x + [125, 125]
  {
  }

  lemma StartWritten(f: Format)
    requires Sized(Start(f))
    ensures Written(HeaderDoc(Start(f))) == HeaderLine(Start(f))
  {
    TypeIs();
    StartIs();
    DataOpenIs();
    BracesAre();
    FormatWritten(f, true);
    hide Ascii, Keying, Dec3, TYPE, AUDIO_START, DATA, FormatFields, Written;
    var fields := FormatFields(f);
    var data := Field(DATA, Obj(fields), Nil);
    ObjectWritten(fields);
    assert WrittenFields(data, false)
        == [44, 32] + (Keying(DATA) + (([123] + ([] + Dec3(f) + [125])) + WrittenFields(Nil, false)));
    TypedWritten(AUDIO_START, data);
    StartJoined(Keying(TYPE), AUDIO_START, Keying(DATA), Dec3(f));
  }

  lemma ObjectWritten(fs: Fields)
    ensures Written(Obj(fs)) == [123] + WrittenFields(fs, true)
  {
  }

  lemma StopJoined(k: seq<byte>, t: seq<byte>, d: seq<byte>)
    ensures [123] + ([] + (k + (([34] + t + [34]) + ([44, 32] + (d + (([123] + [125]) + [125]))))))
         == ([123] + k) + ([34] + t + [34] + [44, 32]) + (d + [123, 125, 125])
  {
  }

  lemma StopWritten()
    ensures Written(HeaderDoc(Stop)) == HeaderLine(Stop)
  {
    TypeIs();
    StopIs();
    EmptyDataIs();
    hide Ascii, Keying, TYPE, AUDIO_STOP, DATA, Written;
    ObjectWritten(Nil);
    TypedWritten(AUDIO_STOP, Field(DATA, Obj(Nil), Nil));
    assert WrittenFields(Field(DATA, Obj(Nil), Nil), false) == [44, 32] + (Keying(DATA) + (([123] + [125]) + [125]));
    StopJoined(Keying(TYPE), AUDIO_STOP, Keying(DATA));
  }

  lemma InlineJoined(k: seq<byte>, t: seq<byte>, p: seq<byte>, n: seq<byte>, x: seq<byte>)
    ensures [123] + ([] + (k + (([34] + t + [34]) + ([44, 32] + (p + (n + ([44, 32] + x + [125])))))))
         == ([123] + k) + ([34] + t + [34] + [44, 32]) + p + n + [44, 32] + x + [125]
  {
  }

  lemma InlineWritten(f: Format, data: seq<byte>)
    requires Sized(Chunk(f, data, true))
    ensures Written(HeaderDoc(Chunk(f, data, true))) == HeaderLine(Chunk(f, data, true))
  {
    TypeIs();
    ChunkIs();
    PayloadLengthIs();
    BracesAre();
    FormatWritten(f, false);
    hide Ascii, Keying, Dec3, Dec, TYPE, AUDIO_CHUNK, PAYLOAD_LENGTH, FormatFields;
    var fields := FormatFields(f);
    var length := Field(PAYLOAD_LENGTH, Int(|data|), fields);
    assert WrittenFields(length, false)
        == [44, 32] + (Keying(PAYLOAD_LENGTH) + (Dec(|data|) + WrittenFields(fields, false)));
    TypedWritten(AUDIO_CHUNK, length);
    InlineJoined(Keying(TYPE), AUDIO_CHUNK, Keying(PAYLOAD_LENGTH), Dec(|data|), Dec3(f));
  }

  lemma SeparateJoined(k: seq<byte>, t: seq<byte>, l: seq<byte>, m: seq<byte>, p: seq<byte>, n: seq<byte>)
    ensures [123] + ([] + (k + (([34] + t + [34]) + ([44, 32] + (l + (m + ([44, 32] + (p + (n + [125])))))))))
         == ([123] + k) + ([34] + t + [34] + [44, 32]) + l + m + [44, 32] + p + n + [125]
  {
  }

  lemma SeparateWritten(f: Format, data: seq<byte>)
    requires Sized(Chunk(f, data, false))
    ensures Written(HeaderDoc(Chunk(f, data, false))) == HeaderLine(Chunk(f, data, false))
  {
    TypeIs();
    ChunkIs();
    PayloadLengthIs();
    DataLengthIs();
    BracesAre();
    hide Ascii, Keying, DataBlock, Dec, TYPE, AUDIO_CHUNK, PAYLOAD_LENGTH, DATA_LENGTH;
    var m := Dec(|DataBlock(f)|);
    var length := Field(PAYLOAD_LENGTH, Int(|data|), Nil);
    var block := Field(DATA_LENGTH, Int(|DataBlock(f)|), length);
    assert WrittenFields(length, false) == [44, 32] + (Keying(PAYLOAD_LENGTH) + (Dec(|data|) + [125]));
    assert WrittenFields(block, false) == [44, 32] + (Keying(DATA_LENGTH) + (m + WrittenFields(length, false)));
    TypedWritten(AUDIO_CHUNK, block);
    SeparateJoined(Keying(TYPE), AUDIO_CHUNK, Keying(DATA_LENGTH), m, Keying(PAYLOAD_LENGTH), Dec(|data|));
  }

  lemma FormatSound(f: Format)
    requires f.rate >= 0 && f.width >= 0 && f.channels >= 0
    ensures AllSound(FormatFields(f)) && Sound(Obj(FormatFields(f)))
  {
    RateIs();
    WidthIs();
    ChannelsIs();
    DecIsNumber(f.rate);
    DecIsNumber(f.width);
    DecIsNumber(f.channels);
    hide Ascii, Dec, IsNumber, Plain, RATE, WIDTH, CHANNELS;
    var c := Field(CHANNELS, Int(f.channels), Nil);
    assert AllSound(c);
    assert AllSound(Field(WIDTH, Int(f.width), c));
    assert AllSound(FormatFields(f));
  }

  lemma NamesSound()
    ensures Sound(Name(AUDIO_START)) && Sound(Name(AUDIO_CHUNK)) && Sound(Name(AUDIO_STOP))
    ensures Plain(TYPE) && Plain(DATA) && Plain(DATA_LENGTH) && Plain(PAYLOAD_LENGTH)
  {
    TypeIs();
    StartIs();
    ChunkIs();
    StopIs();
    DataOpenIs();
    PayloadLengthIs();
    DataLengthIs();
    hide Ascii, Plain;
    PlainUnescapes(AUDIO_START);
    PlainUnescapes(AUDIO_CHUNK);
    PlainUnescapes(AUDIO_STOP);
  }

  lemma HeaderSound(ev: Event)
    requires Sized(ev)
    ensures Sound(HeaderDoc(ev))
  {
    NamesSound();
    hide Ascii, Plain, Unescapes, IsNumber, Dec, DataBlock, Name, FormatFields;
    hide TYPE, DATA, DATA_LENGTH, PAYLOAD_LENGTH, AUDIO_START, AUDIO_CHUNK, AUDIO_STOP;
    match ev
    case Start(f) =>
      FormatSound(f);
      assert AllSound(Field(DATA, Obj(FormatFields(f)), Nil));
    case Chunk(f, data, inline) =>
      FormatSound(f);
      DecIsNumber(|data|);
      DecIsNumber(|DataBlock(f)|);
      assert AllSound(Field(PAYLOAD_LENGTH, Int(|data|), if inline then FormatFields(f) else Nil));
      assert !inline ==> AllSound(Field(DATA_LENGTH, Int(|DataBlock(f)|), Field(PAYLOAD_LENGTH, Int(|data|), Nil)));
    case Stop =>
      assert AllSound(Nil) && Sound(Obj(Nil));
      assert AllSound(Field(DATA, Obj(Nil), Nil));
  }

  // ---- what they say ----

  function Counts(f: Format): (ms: seq<Member>)
    requires f.rate >= 0 && f.width >= 0 && f.channels >= 0
  {
    [Member(Ascii("rate"), Number(Dec(f.rate))), Member(Ascii("width"), Number(Dec(f.width))),
     Member(Ascii("channels"), Number(Dec(f.channels)))]
  }

  function HeaderSays(ev: Event): (v: Value)
    requires Sized(ev)
  {
    match ev
    case Start(f) =>
      Object([Member(Ascii("type"), Text(Ascii("audio-start"))), Member(Ascii("data"), Object(Counts(f)))])
    case Chunk(f, data, inline) =>
      Object([Member(Ascii("type"), Text(Ascii("audio-chunk")))]
             + if inline then [Member(Ascii("payload_length"), Number(Dec(|data|)))] + Counts(f)
               else [Member(Ascii("data_length"), Number(Dec(|Block(ev)|))),
                     Member(Ascii("payload_length"), Number(Dec(|data|)))])
    case Stop =>
      Object([Member(Ascii("type"), Text(Ascii("audio-stop"))), Member(Ascii("data"), Object([]))])
  }

  lemma FormatMeans(f: Format)
    requires f.rate >= 0 && f.width >= 0 && f.channels >= 0
    ensures MeaningOf(FormatFields(f)) == Counts(f)
  {
    hide Ascii, Dec;
    var c := Field(CHANNELS, Int(f.channels), Nil);
    assert MeaningOf(c) == [Member(CHANNELS, Number(Dec(f.channels)))];
    assert MeaningOf(Field(WIDTH, Int(f.width), c)) == [Member(WIDTH, Number(Dec(f.width)))] + MeaningOf(c);
  }

  lemma TypedMeans(t: seq<byte>, more: Fields)
    ensures Meaning(Obj(Field(TYPE, Name(t), more))) == Object([Member(TYPE, Text(t))] + MeaningOf(more))
  {
    hide Ascii;
    var all := Field(TYPE, Name(t), more);
    assert MeaningOf(all) == [Member(TYPE, Meaning(Name(t)))] + MeaningOf(more);
    assert Meaning(Obj(all)) == Object(MeaningOf(all));
  }

  lemma HeaderMeans(ev: Event)
    requires Sized(ev)
    ensures Meaning(HeaderDoc(ev)) == HeaderSays(ev)
  {
    hide Ascii, Dec, DataBlock, FormatFields, Counts;
    match ev
    case Start(f) =>
      FormatMeans(f);
      assert MeaningOf(Field(DATA, Obj(FormatFields(f)), Nil)) == [Member(DATA, Object(Counts(f)))];
      TypedMeans(AUDIO_START, Field(DATA, Obj(FormatFields(f)), Nil));
    case Chunk(f, data, inline) =>
      FormatMeans(f);
      var length := Field(PAYLOAD_LENGTH, Int(|data|), if inline then FormatFields(f) else Nil);
      assert MeaningOf(length) == [Member(PAYLOAD_LENGTH, Number(Dec(|data|)))] + if inline then Counts(f) else [];
      var block := Field(DATA_LENGTH, Int(|DataBlock(f)|), length);
      assert MeaningOf(block) == [Member(DATA_LENGTH, Number(Dec(|DataBlock(f)|)))] + MeaningOf(length);
      TypedMeans(AUDIO_CHUNK, if inline then length else block);
    case Stop =>
      assert MeaningOf(Nil) == [] && Meaning(Obj(Nil)) == Object([]);
      assert MeaningOf(Field(DATA, Obj(Nil), Nil)) == [Member(DATA, Object([]))];
      TypedMeans(AUDIO_STOP, Field(DATA, Obj(Nil), Nil));
  }

  /** Every header line is one JSON object with the type and the numbers of its event, and so is the data block of
      a chunk that has one. */
  lemma HeaderIsObject(ev: Event)
    requires Sized(ev)
    ensures ReadLine(HeaderLine(ev)) == Some(HeaderSays(ev))
    ensures ev.Chunk? && !ev.inline ==> ReadLine(Block(ev)) == Some(Object(Counts(ev.fmt)))
  {
    hide HeaderDoc, HeaderLine, HeaderSays, Written, ReadLine, Counts, DataBlock, FormatFields;
    HeaderSound(ev);
    HeaderMeans(ev);
    LineReads(HeaderDoc(ev));
    match ev
    case Start(f) => StartWritten(f);
    case Chunk(f, data, inline) =>
      if inline {
        InlineWritten(f, data);
      } else {
        SeparateWritten(f, data);
        FormatSound(f);
        FormatMeans(f);
        BlockWritten(f);
        LineReads(Obj(FormatFields(f)));
      }
    case Stop => StopWritten();
  }
}
