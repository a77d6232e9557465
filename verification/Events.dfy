/** The server's side of the wire: the events of tests/mock_wyoming_server.py:29-69, and what
    the header scanners read in each of them. */
module Events {
  import opened Bytes
  import opened Header
  import opened Items

  datatype Format = Format(rate: int, width: int, channels: int)

  datatype Event =
    | Start(fmt: Format)
    | Chunk(fmt: Format, data: seq<byte>, inline: bool)
    | Stop

  /** Numbers a C long holds: what keeps a header inside the line buffer and digits from wrapping. */
  predicate InLong(n: int)
  {
    0 <= n < 0x8000_0000
  }

  predicate Sized(ev: Event)
  {
    match ev
    case Stop => true
    case Start(f) => InLong(f.rate) && InLong(f.width) && InLong(f.channels)
    case Chunk(f, data, _) => InLong(f.rate) && InLong(f.width) && InLong(f.channels) && InLong(|data|)
  }

  // ---- keys and names ----

  const TYPE := Ascii("type")
  const RATE := Ascii("rate")
  const WIDTH := Ascii("width")
  const CHANNELS := Ascii("channels")
  const DATA := Ascii("data")
  const DATA_LENGTH := Ascii("data_length")
  const PAYLOAD_LENGTH := Ascii("payload_length")
  const AUDIO_START := Ascii("audio-start")
  const AUDIO_CHUNK := Ascii("audio-chunk")
  const AUDIO_STOP := Ascii("audio-stop")

  const THEN: seq<byte> := [COMMA, SPACE]
  const IS: seq<byte> := [COLON, SPACE]
  const END: seq<byte> := [CLOSE_BRACE]

  // ---- the encoder, as format strings ----

  function Dec3(f: Format): (s: seq<byte>)
    requires f.rate >= 0 && f.width >= 0 && f.channels >= 0
  {
    Ascii("\"rate\": ") + Dec(f.rate) + Ascii(", ") + Ascii("\"width\": ") + Dec(f.width)
    + Ascii(", ") + Ascii("\"channels\": ") + Dec(f.channels)
  }

  /** The separate data block of a Piper-style chunk. */
  function DataBlock(f: Format): (s: seq<byte>)
    requires f.rate >= 0 && f.width >= 0 && f.channels >= 0
  {
    Ascii("{") + Dec3(f) + Ascii("}")
  }

  /** chunk_header: the header line (without its line feed) and the data block behind it. */
  function ChunkLine(f: Format, n: nat, inline: bool): (s: seq<byte>)
    requires f.rate >= 0 && f.width >= 0 && f.channels >= 0
  {
    if inline then
      Ascii("{\"type\": ") + Ascii("\"audio-chunk\", ") + Ascii("\"payload_length\": ") + Dec(n)
      + Ascii(", ") + Dec3(f) + Ascii("}")
    else
      Ascii("{\"type\": ") + Ascii("\"audio-chunk\", ") + Ascii("\"data_length\": ") + Dec(|DataBlock(f)|)
      + Ascii(", ") + Ascii("\"payload_length\": ") + Dec(n) + Ascii("}")
  }

  function HeaderLine(ev: Event): (s: seq<byte>)
    requires Sized(ev)
  {
    match ev
    case Start(f) =>
      Ascii("{\"type\": ") + Ascii("\"audio-start\", ") + Ascii("\"data\": {") + Dec3(f) + Ascii("}}")
    case Chunk(f, data, inline) => ChunkLine(f, |data|, inline)
    case Stop => Ascii("{\"type\": ") + Ascii("\"audio-stop\", ") + Ascii("\"data\": {}}")
  }

  function Block(ev: Event): (s: seq<byte>)
    requires Sized(ev)
  {
    if ev.Chunk? && !ev.inline then DataBlock(ev.fmt) else []
  }

  function Payload(ev: Event): (s: seq<byte>)
  {
    if ev.Chunk? then ev.data else []
  }

  /** The bytes of one event: header line, line feed, data block, payload. */
  function Encode(ev: Event): (s: seq<byte>)
    requires Sized(ev)
  {
    HeaderLine(ev) + [LF] + Block(ev) + Payload(ev)
  }

  predicate AllSized(evs: seq<Event>)
  {
    forall i | 0 <= i < |evs| :: Sized(evs[i])
  }

  function EncodeAll(evs: seq<Event>): (s: seq<byte>)
    requires AllSized(evs)
  {
    if evs == [] then [] else Encode(evs[0]) + EncodeAll(evs[1..])
  }

  // ---- the same lines as items ----

  function FormatItems(f: Format, close: seq<byte>): (its: seq<Item>)
    requires f.rate >= 0 && f.width >= 0 && f.channels >= 0
  {
    [Item(RATE, NumberGap(f.rate, THEN)), Item(WIDTH, NumberGap(f.width, THEN)),
     Item(CHANNELS, NumberGap(f.channels, close))]
  }

  function HeaderItems(ev: Event): (its: seq<Item>)
    requires Sized(ev)
  {
    match ev
    case Start(f) =>
      [Item(TYPE, IS), Item(AUDIO_START, THEN), Item(DATA, IS + [OPEN_BRACE])] + FormatItems(f, END + END)
    case Chunk(f, data, true) =>
      [Item(TYPE, IS), Item(AUDIO_CHUNK, THEN), Item(PAYLOAD_LENGTH, NumberGap(|data|, THEN))] + FormatItems(f, END)
    case Chunk(f, data, false) =>
      [Item(TYPE, IS), Item(AUDIO_CHUNK, THEN), Item(DATA_LENGTH, NumberGap(|DataBlock(f)|, THEN)),
       Item(PAYLOAD_LENGTH, NumberGap(|data|, END))]
    case Stop =>
      [Item(TYPE, IS), Item(AUDIO_STOP, THEN), Item(DATA, IS + [OPEN_BRACE] + END + END)]
  }

  function Quoted(name: seq<byte>): (q: seq<byte>)
  {
    [QUOTE] + name + [QUOTE]
  }

  lemma RateTemplate()
    ensures Ascii("\"rate\": ") == Quoted(RATE) + IS
  {
  }

  lemma WidthTemplate()
    ensures Ascii("\"width\": ") == Quoted(WIDTH) + IS
  {
  }

  lemma ChannelsTemplate()
    ensures Ascii("\"channels\": ") == Quoted(CHANNELS) + IS
  {
  }

  lemma DataLengthTemplate()
    ensures Ascii("\"data_length\": ") == Quoted(DATA_LENGTH) + IS
  {
  }

  lemma PayloadLengthTemplate()
    ensures Ascii("\"payload_length\": ") == Quoted(PAYLOAD_LENGTH) + IS
  {
  }

  lemma TypeTemplate()
    ensures Ascii("{\"type\": ") == [OPEN_BRACE] + (Quoted(TYPE) + IS)
  {
  }

  lemma StartTemplate()
    ensures Ascii("\"audio-start\", ") == Quoted(AUDIO_START) + THEN
  {
  }

  lemma ChunkTemplate()
    ensures Ascii("\"audio-chunk\", ") == Quoted(AUDIO_CHUNK) + THEN
  {
  }

  lemma StopTemplate()
    ensures Ascii("\"audio-stop\", ") == Quoted(AUDIO_STOP) + THEN
  {
  }

  lemma OpenDataTemplate()
    ensures Ascii("\"data\": {") == Quoted(DATA) + (IS + [OPEN_BRACE])
  {
  }

  lemma EmptyDataTemplate()
    ensures Ascii("\"data\": {}}") == Quoted(DATA) + (IS + [OPEN_BRACE] + END + END)
  {
  }

  lemma BraceTemplates()
    ensures Ascii("{") == [OPEN_BRACE] && Ascii("}") == END && Ascii("}}") == END + END && Ascii(", ") == THEN
  {
  }

  // ---- every header line is a brace and its items ----

  lemma RenderCons(it: Item, rest: seq<Item>)
    ensures Render([it] + rest) == Quoted(it.name) + (it.gap + Render(rest))
  {
    assert ([it] + rest)[1..] == rest;
  }

  lemma RegroupFormat(r: seq<byte>, w: seq<byte>, c: seq<byte>, i: seq<byte>, d1: seq<byte>, d2: seq<byte>,
                      d3: seq<byte>, th: seq<byte>, cl: seq<byte>)
    ensures (r + i) + d1 + th + (w + i) + d2 + th + (c + i) + d3 + cl
         == r + ((i + d1 + th) + (w + ((i + d2 + th) + (c + ((i + d3 + cl) + [])))))
  {
  }

  lemma FormatIsItems(f: Format, close: seq<byte>)
    requires f.rate >= 0 && f.width >= 0 && f.channels >= 0
    ensures Dec3(f) + close == Render(FormatItems(f, close))
  {
    RateTemplate();
    WidthTemplate();
    ChannelsTemplate();
    BraceTemplates();
    RegroupFormat(Quoted(RATE), Quoted(WIDTH), Quoted(CHANNELS), IS, Dec(f.rate), Dec(f.width), Dec(f.channels),
                  THEN, close);
    var its := FormatItems(f, close);
    assert its == [its[0]] + ([its[1]] + ([its[2]] + []));
    RenderCons(its[2], []);
    RenderCons(its[1], [its[2]] + []);
    RenderCons(its[0], [its[1]] + ([its[2]] + []));
  }

  lemma BlockIsItems(f: Format)
    requires f.rate >= 0 && f.width >= 0 && f.channels >= 0
    ensures DataBlock(f) == [OPEN_BRACE] + Render(FormatItems(f, END))
  {
    BraceTemplates();
    FormatIsItems(f, END);
  }

  lemma RegroupHead(a: seq<byte>, ga: seq<byte>, b: seq<byte>, gb: seq<byte>, c: seq<byte>, gc: seq<byte>,
                    x: seq<byte>, rest: seq<byte>)
    ensures x + (a + ga) + (b + gb) + (c + gc) + rest == x + (a + (ga + (b + (gb + (c + (gc + rest))))))
  {
  }

  lemma RenderThree(a: Item, b: Item, c: Item, rest: seq<Item>)
    ensures Render([a, b, c] + rest)
         == Quoted(a.name) + (a.gap + (Quoted(b.name) + (b.gap + (Quoted(c.name) + (c.gap + Render(rest))))))
  {
    RenderCons(c, rest);
    RenderCons(b, [c] + rest);
    RenderCons(a, [b] + ([c] + rest));
    assert [a, b, c] + rest == [a] + ([b] + ([c] + rest));
  }

  lemma StartIsItems(f: Format)
    requires Sized(Start(f))
    ensures HeaderLine(Start(f)) == [OPEN_BRACE] + Render(HeaderItems(Start(f)))
  {
    TypeTemplate();
    StartTemplate();
    OpenDataTemplate();
    BraceTemplates();
    FormatIsItems(f, END + END);
    var rest := Dec3(f) + (END + END);
    var g := IS + [OPEN_BRACE];
    RegroupHead(Quoted(TYPE), IS, Quoted(AUDIO_START), THEN, Quoted(DATA), g, [OPEN_BRACE], rest);
    RenderThree(Item(TYPE, IS), Item(AUDIO_START, THEN), Item(DATA, g), FormatItems(f, END + END));
  }

  lemma StopIsItems()
    ensures HeaderLine(Stop) == [OPEN_BRACE] + Render(HeaderItems(Stop))
  {
    TypeTemplate();
    StopTemplate();
    EmptyDataTemplate();
    var g := IS + [OPEN_BRACE] + END + END;
    RegroupHead(Quoted(TYPE), IS, Quoted(AUDIO_STOP), THEN, Quoted(DATA), g, [OPEN_BRACE], []);
    RenderThree(Item(TYPE, IS), Item(AUDIO_STOP, THEN), Item(DATA, g), []);
    assert [Item(TYPE, IS), Item(AUDIO_STOP, THEN), Item(DATA, g)] + [] == HeaderItems(Stop);
  }

  lemma RegroupNumber(x: seq<byte>, p: seq<byte>, i: seq<byte>, d: seq<byte>, th: seq<byte>, rest: seq<byte>)
    ensures x + (p + i) + d + th + rest == x + (p + (i + d + th)) + rest
  {
  }

  lemma InlineChunkIsItems(f: Format, data: seq<byte>)
    requires Sized(Chunk(f, data, true))
    ensures ChunkLine(f, |data|, true) == [OPEN_BRACE] + Render(HeaderItems(Chunk(f, data, true)))
  {
    TypeTemplate();
    ChunkTemplate();
    PayloadLengthTemplate();
    BraceTemplates();
    FormatIsItems(f, END);
    var rest, g := Dec3(f) + END, NumberGap(|data|, THEN);
    var head := [OPEN_BRACE] + (Quoted(TYPE) + IS) + (Quoted(AUDIO_CHUNK) + THEN);
    RegroupNumber(head, Quoted(PAYLOAD_LENGTH), IS, Dec(|data|), THEN, rest);
    RegroupHead(Quoted(TYPE), IS, Quoted(AUDIO_CHUNK), THEN, Quoted(PAYLOAD_LENGTH), g, [OPEN_BRACE], rest);
    RenderThree(Item(TYPE, IS), Item(AUDIO_CHUNK, THEN), Item(PAYLOAD_LENGTH, g), FormatItems(f, END));
  }

  lemma RegroupTail(x: seq<byte>, p: seq<byte>, d: seq<byte>, e: seq<byte>)
    ensures x + p + d + e == x + (p + d + e)
  {
  }

  lemma BlockChunkIsItems(f: Format, data: seq<byte>)
    requires Sized(Chunk(f, data, false))
    ensures ChunkLine(f, |data|, false) == [OPEN_BRACE] + Render(HeaderItems(Chunk(f, data, false)))
  {
    TypeTemplate();
    ChunkTemplate();
    DataLengthTemplate();
    PayloadLengthTemplate();
    BraceTemplates();
    var last := Item(PAYLOAD_LENGTH, NumberGap(|data|, END));
    RenderCons(last, []);
    assert [last] + [] == [last];
    var rest, g := Render([last]), NumberGap(|DataBlock(f)|, THEN);
    var head := [OPEN_BRACE] + (Quoted(TYPE) + IS) + (Quoted(AUDIO_CHUNK) + THEN);
    assert (Quoted(PAYLOAD_LENGTH) + IS) + Dec(|data|) + END == rest;
    RegroupTail(head + (Quoted(DATA_LENGTH) + IS) + Dec(|DataBlock(f)|) + THEN,
                Quoted(PAYLOAD_LENGTH) + IS, Dec(|data|), END);
    RegroupNumber(head, Quoted(DATA_LENGTH), IS, Dec(|DataBlock(f)|), THEN, rest);
    RegroupHead(Quoted(TYPE), IS, Quoted(AUDIO_CHUNK), THEN, Quoted(DATA_LENGTH), g, [OPEN_BRACE], rest);
    RenderThree(Item(TYPE, IS), Item(AUDIO_CHUNK, THEN), Item(DATA_LENGTH, g), [last]);
    assert HeaderItems(Chunk(f, data, false))
        == [Item(TYPE, IS), Item(AUDIO_CHUNK, THEN), Item(DATA_LENGTH, g)] + [last];
  }

  lemma HeaderIsItems(ev: Event)
    requires Sized(ev)
    ensures HeaderLine(ev) == [OPEN_BRACE] + Render(HeaderItems(ev))
  {
    match ev
    case Start(f) => StartIsItems(f);
    case Chunk(f, data, inline) =>
      if inline { InlineChunkIsItems(f, data); } else { BlockChunkIsItems(f, data); }
    case Stop => StopIsItems();
  }

  // ---- what the scanners read in them ----

  lemma NameShapes()
    ensures |TYPE| == 4 && |RATE| == 4 && |DATA| == 4 && |WIDTH| == 5 && |CHANNELS| == 8
    ensures |DATA_LENGTH| == 11 && |AUDIO_START| == 11 && |AUDIO_CHUNK| == 11
    ensures |AUDIO_STOP| == 10 && |PAYLOAD_LENGTH| == 14
    ensures TYPE[0] == 116 && RATE[0] == 114 && DATA[0] == 100 && WIDTH[0] == 119 && CHANNELS[0] == 99
    ensures DATA_LENGTH[0] == 100 && AUDIO_START[0] == 97 && AUDIO_CHUNK[0] == 97 && PAYLOAD_LENGTH[0] == 112
    ensures AUDIO_STOP[0] == 97
  {
  }

  /** None of these bytes stands in a name: quotation marks, ends of line and string. */
  predicate Safe(s: seq<byte>)
  {
    QUOTE !in s && LF !in s && NUL !in s
  }

  lemma SafeAscii(s: string)
    requires forall i | 0 <= i < |s| :: s[i] == '-' || s[i] == '_' || 'a' <= s[i] <= 'z'
    ensures Safe(Ascii(s))
  {
  }

  lemma NamesAreSafe()
    ensures Safe(TYPE) && Safe(RATE) && Safe(DATA) && Safe(WIDTH) && Safe(CHANNELS) && Safe(DATA_LENGTH)
    ensures Safe(AUDIO_START) && Safe(AUDIO_CHUNK) && Safe(AUDIO_STOP) && Safe(PAYLOAD_LENGTH)
  {
    SafeAscii("type");
    SafeAscii("rate");
    SafeAscii("data");
    SafeAscii("width");
    SafeAscii("channels");
    SafeAscii("data_length");
    SafeAscii("payload_length");
    SafeAscii("audio-start");
    SafeAscii("audio-chunk");
    SafeAscii("audio-stop");
  }

  lemma NumberGapIsSafe(n: nat, tail: seq<byte>)
    requires Safe(tail)
    ensures Safe(NumberGap(n, tail)) && NumberGap(n, tail)[0] == COLON
  {
    assert forall i | 0 <= i < |Dec(n)| :: IsDigit(Dec(n)[i]);
  }

  lemma FormatItemsPlain(f: Format, close: seq<byte>)
    requires f.rate >= 0 && f.width >= 0 && f.channels >= 0 && Safe(close)
    ensures Plain(FormatItems(f, close))
    ensures forall i | 0 <= i < 3 :: Safe(FormatItems(f, close)[i].name) && Safe(FormatItems(f, close)[i].gap)
  {
    NamesAreSafe();
    NumberGapIsSafe(f.rate, THEN);
    NumberGapIsSafe(f.width, THEN);
    NumberGapIsSafe(f.channels, close);
  }

  lemma HeaderItemsPlain(ev: Event)
    requires Sized(ev)
    ensures Plain(HeaderItems(ev))
    ensures forall i | 0 <= i < |HeaderItems(ev)| :: Safe(HeaderItems(ev)[i].name) && Safe(HeaderItems(ev)[i].gap)
  {
    NamesAreSafe();
    match ev
    case Start(f) => FormatItemsPlain(f, END + END);
    case Chunk(f, data, inline) =>
      FormatItemsPlain(f, END);
      NumberGapIsSafe(|data|, THEN);
      NumberGapIsSafe(|data|, END);
      NumberGapIsSafe(|DataBlock(f)|, THEN);
    case Stop =>
  }

  lemma NamesDiffer()
    ensures RATE != WIDTH && RATE != CHANNELS && WIDTH != CHANNELS && DATA_LENGTH != PAYLOAD_LENGTH
    ensures forall k | k in [RATE, WIDTH, CHANNELS, DATA_LENGTH, PAYLOAD_LENGTH] ::
              IsKey(k) && k !in [TYPE, DATA, AUDIO_START, AUDIO_CHUNK, AUDIO_STOP]
    ensures DATA_LENGTH !in [RATE, WIDTH, CHANNELS] && PAYLOAD_LENGTH !in [RATE, WIDTH, CHANNELS]
  {
    NameShapes();
    NamesAreSafe();
  }

  /** Three numeric fields at the end of a line. */
  lemma {:induction false} ReadThree(items: seq<Item>, j: nat, r: seq<byte>, w: seq<byte>, c: seq<byte>,
                  n: nat, m: nat, k: nat, close: seq<byte>)
    requires IsKey(r) && IsKey(w) && IsKey(c) && r != w && r != c && w != c
    requires close != [] && !IsDigit(close[0])
    requires Plain(items) && |items| == j + 3
    requires items[j] == Item(r, NumberGap(n, THEN)) && items[j + 1] == Item(w, NumberGap(m, THEN))
    requires items[j + 2] == Item(c, NumberGap(k, close))
    requires forall i | 0 <= i < j :: items[i].name != r && items[i].name != w && items[i].name != c
    ensures FindInt([OPEN_BRACE] + Render(items), r) == Some(n)
    ensures FindInt([OPEN_BRACE] + Render(items), w) == Some(m)
    ensures FindInt([OPEN_BRACE] + Render(items), c) == Some(k)
  {
    forall i | 0 <= i < j + 2
      ensures items[i].name != c && (i <= j ==> items[i].name != w)
    {
      if i == j {
        assert items[i].name == r;
      } else if i == j + 1 {
        assert items[i].name == w;
      }
    }
    var line := [OPEN_BRACE] + Render(items);
    assert FindInt(line, r) == Some(n) by { FindIntField(items, r, j, n, THEN); }
    assert FindInt(line, w) == Some(m) by { FindIntField(items, w, j + 1, m, THEN); }
    assert FindInt(line, c) == Some(k) by { FindIntField(items, c, j + 2, k, close); }
  }

  predicate ReadsFormat(line: seq<byte>, f: Format)
  {
    FindInt(line, RATE) == Some(f.rate) && FindInt(line, WIDTH) == Some(f.width)
    && FindInt(line, CHANNELS) == Some(f.channels)
  }

  predicate ReadsNoFormat(line: seq<byte>)
  {
    FindInt(line, RATE) == None && FindInt(line, WIDTH) == None && FindInt(line, CHANNELS) == None
  }

  lemma {:induction false} BehindHead(head: seq<Item>, f: Format, close: seq<byte>)
    requires f.rate >= 0 && f.width >= 0 && f.channels >= 0
    requires close != [] && !IsDigit(close[0])
    requires Plain(head + FormatItems(f, close))
    requires forall i | 0 <= i < |head| ::
               head[i].name in [TYPE, DATA, AUDIO_START, AUDIO_CHUNK, AUDIO_STOP, PAYLOAD_LENGTH]
    ensures ReadsFormat([OPEN_BRACE] + Render(head + FormatItems(f, close)), f)
  {
    hide Ascii, FindInt, Render, NumberGap, Dec, PlainItem, IsKey, IsDigit;
    NamesDiffer();
    var items := head + FormatItems(f, close);
    forall i | 0 <= i < |head|
      ensures items[i].name != RATE && items[i].name != WIDTH && items[i].name != CHANNELS
    {
      assert items[i] == head[i];
    }
    ReadThree(items, |head|, RATE, WIDTH, CHANNELS, f.rate, f.width, f.channels, close);
  }

  lemma BlockReads(f: Format)
    requires f.rate >= 0 && f.width >= 0 && f.channels >= 0
    ensures ReadsFormat(DataBlock(f), f)
  {
    BlockIsItems(f);
    FormatItemsPlain(f, END);
    assert [] + FormatItems(f, END) == FormatItems(f, END);
    BehindHead([], f, END);
  }

  /** What find_int reads in the header of an event. */
  function DataLengthOf(ev: Event): (r: Option<int>)
    requires Sized(ev)
  {
    if ev.Chunk? && !ev.inline then Some(|DataBlock(ev.fmt)|) else None
  }

  function FormatIn(ev: Event): (r: Option<Format>)
  {
    match ev
    case Start(f) => Some(f)
    case Chunk(f, _, inline) => if inline then Some(f) else None
    case Stop => None
  }

  lemma MissingFormat(ev: Event)
    requires Sized(ev) && FormatIn(ev) == None
    ensures ReadsNoFormat(HeaderLine(ev))
  {
    hide HeaderLine, DataBlock, Ascii;
    HeaderIsItems(ev);
    HeaderItemsPlain(ev);
    NamesDiffer();
    var items := HeaderItems(ev);
    FindIntMissing(items, RATE);
    FindIntMissing(items, WIDTH);
    FindIntMissing(items, CHANNELS);
  }

  lemma FormatReads(ev: Event)
    requires Sized(ev)
    ensures if FormatIn(ev) == None then ReadsNoFormat(HeaderLine(ev))
            else ReadsFormat(HeaderLine(ev), FormatIn(ev).value)
  {
    hide HeaderLine, DataBlock, Ascii;
    if FormatIn(ev) == None {
      MissingFormat(ev);
    } else {
      HeaderIsItems(ev);
      HeaderItemsPlain(ev);
      var close := if ev.Start? then END + END else END;
      var items := HeaderItems(ev);
      assert items == items[..3] + FormatItems(ev.fmt, close);
      BehindHead(items[..3], ev.fmt, close);
    }
  }

  lemma DataLengthReads(ev: Event)
    requires Sized(ev)
    ensures FindInt(HeaderLine(ev), DATA_LENGTH) == DataLengthOf(ev)
  {
    hide HeaderLine, DataBlock, Ascii;
    HeaderIsItems(ev);
    HeaderItemsPlain(ev);
    NamesDiffer();
    var items := HeaderItems(ev);
    if ev.Chunk? && !ev.inline {
      FindIntField(items, DATA_LENGTH, 2, |DataBlock(ev.fmt)|, THEN);
    } else {
      FindIntMissing(items, DATA_LENGTH);
    }
  }

  lemma PayloadLengthReads(ev: Event)
    requires Sized(ev)
    ensures FindInt(HeaderLine(ev), PAYLOAD_LENGTH) == if ev.Chunk? then Some(|ev.data|) else None
  {
    hide HeaderLine, DataBlock, Ascii;
    HeaderIsItems(ev);
    HeaderItemsPlain(ev);
    NamesDiffer();
    var items := HeaderItems(ev);
    if ev.Chunk? && !ev.inline {
      FindIntField(items, PAYLOAD_LENGTH, 3, |ev.data|, END);
    } else if ev.Chunk? {
      FindIntField(items, PAYLOAD_LENGTH, 2, |ev.data|, THEN);
    } else {
      FindIntMissing(items, PAYLOAD_LENGTH);
    }
  }

  const LETTER_P: byte := 112
  const LETTER_S: byte := 115

  lemma NamesWithoutStop()
    ensures LETTER_P in AUDIO_STOP && LETTER_S in AUDIO_STOP
    ensures LETTER_P !in AUDIO_CHUNK && LETTER_P !in AUDIO_START && LETTER_P !in DATA_LENGTH
    ensures LETTER_S !in PAYLOAD_LENGTH
  {
    assert AUDIO_STOP[9] == LETTER_P && AUDIO_STOP[6] == LETTER_S;
  }

  /** Text between names that cannot hold a name: punctuation and digits. */
  predicate Punctuation(s: seq<byte>)
  {
    LETTER_P !in s
  }

  lemma NumberGapPunctuation(n: nat, tail: seq<byte>)
    requires Punctuation(tail)
    ensures Punctuation(NumberGap(n, tail))
  {
    assert forall i | 0 <= i < |Dec(n)| :: IsDigit(Dec(n)[i]);
  }

  lemma NoStopInName(name: seq<byte>)
    requires name in [TYPE, RATE, WIDTH, CHANNELS, DATA, DATA_LENGTH, PAYLOAD_LENGTH, AUDIO_START, AUDIO_CHUNK]
    ensures !Contains(name, AUDIO_STOP)
  {
    NamesWithoutStop();
    if name == PAYLOAD_LENGTH {
      LacksByte(name, AUDIO_STOP, LETTER_S);
    } else if name == AUDIO_CHUNK || name == AUDIO_START || name == DATA_LENGTH {
      LacksByte(name, AUDIO_STOP, LETTER_P);
    } else {
      NameShapes();
      TooShort(name, AUDIO_STOP);
    }
  }

  lemma HeaderGaps(ev: Event, i: nat)
    requires Sized(ev) && i < |HeaderItems(ev)|
    ensures Punctuation(HeaderItems(ev)[i].gap)
    ensures HeaderItems(ev)[i].name == AUDIO_STOP
         || HeaderItems(ev)[i].name in
              [TYPE, RATE, WIDTH, CHANNELS, DATA, DATA_LENGTH, PAYLOAD_LENGTH, AUDIO_START, AUDIO_CHUNK]
    ensures HeaderItems(ev)[i].name == AUDIO_STOP ==> ev.Stop?
  {
    NameShapes();
    if ev.Start? || ev.Chunk? {
      NumberGapPunctuation(ev.fmt.rate, THEN);
      NumberGapPunctuation(ev.fmt.width, THEN);
      NumberGapPunctuation(ev.fmt.channels, END);
      NumberGapPunctuation(ev.fmt.channels, END + END);
      NumberGapPunctuation(|DataBlock(ev.fmt)|, THEN);
      NumberGapPunctuation(|Payload(ev)|, THEN);
      NumberGapPunctuation(|Payload(ev)|, END);
    }
  }

  lemma ContainsItself(s: seq<byte>)
    requires s != []
    ensures Contains(s, s)
  {
  }

  /** contains(hdr, "audio-stop") holds of the stop header and of no other. */
  lemma StopReads(ev: Event)
    requires Sized(ev)
    ensures Contains(HeaderLine(ev), AUDIO_STOP) <==> ev.Stop?
  {
    HeaderIsItems(ev);
    NameShapes();
    NamesAreSafe();
    NamesWithoutStop();
    var items := HeaderItems(ev);
    ContainsBehindBrace(Render(items), AUDIO_STOP);
    ContainsItems(items, AUDIO_STOP);
    if ev.Stop? {
      ContainsItself(AUDIO_STOP);
      assert Contains(items[1].name, AUDIO_STOP);
    } else {
      forall i: nat | i < |items|
        ensures !Contains(items[i].name, AUDIO_STOP) && !Contains(items[i].gap, AUDIO_STOP)
      {
        HeaderGaps(ev, i);
        NoStopInName(items[i].name);
        LacksByte(items[i].gap, AUDIO_STOP, LETTER_P);
      }
    }
  }

  lemma {:induction false} SafeRender(items: seq<Item>)
    requires forall i | 0 <= i < |items| :: Safe(items[i].name) && Safe(items[i].gap)
    ensures LF !in Render(items) && NUL !in Render(items)
  {
    if items != [] {
      SafeRender(items[1..]);
      assert Safe(items[0].name) && Safe(items[0].gap);
    }
  }

  lemma {:induction false} SafeLine(items: seq<Item>)
    requires forall i | 0 <= i < |items| :: Safe(items[i].name) && Safe(items[i].gap)
    ensures LF !in [OPEN_BRACE] + Render(items) && NUL !in [OPEN_BRACE] + Render(items)
  {
    SafeRender(items);
  }

  /** Header lines are C strings without a line feed ... */
  lemma HeaderIsOneLine(ev: Event)
    requires Sized(ev)
    ensures LF !in HeaderLine(ev) && NUL !in HeaderLine(ev) && HeaderLine(ev) != []
  {
    HeaderIsItems(ev);
    HeaderItemsPlain(ev);
    SafeLine(HeaderItems(ev));
  }

  lemma BlockIsCString(f: Format)
    requires f.rate >= 0 && f.width >= 0 && f.channels >= 0
    ensures NUL !in DataBlock(f) && DataBlock(f) != []
  {
    BlockIsItems(f);
    FormatItemsPlain(f, END);
    SafeLine(FormatItems(f, END));
  }

  lemma DecShort(n: nat)
    requires InLong(n)
    ensures |Dec(n)| <= 10
  {
    assert Pow10(10) == 10_000_000_000 by {
      assert Pow10(5) == 100_000;
      assert Pow10(10) == 10 * 10 * 10 * 10 * 10 * Pow10(5);
    }
    DecLength(n, 10, Pow10(10));
  }

  lemma Dec3Short(f: Format)
    requires InLong(f.rate) && InLong(f.width) && InLong(f.channels)
    ensures |Dec3(f)| <= 64 && |DataBlock(f)| <= 66
  {
    DecShort(f.rate);
    DecShort(f.width);
    DecShort(f.channels);
  }

  /** ... that fit the 512-byte line buffer of the engine with room for the terminator. */
  lemma HeaderFits(ev: Event)
    requires Sized(ev)
    ensures |HeaderLine(ev)| <= 200 && |Block(ev)| <= 66
  {
    match ev
    case Stop =>
    case Start(f) => Dec3Short(f);
    case Chunk(f, data, inline) =>
      Dec3Short(f);
      DecShort(|data|);
      DecShort(|DataBlock(f)|);
  }
}
