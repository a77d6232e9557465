/** The two decoders of the repository read the same things out of the same stream
    (src/nw_engine.c:1106-1168, src/wyoming.c:201-300, src/main.c:74-110). */
module HostDecoding {
  import opened Bytes
  import opened Header
  import opened Items
  import opened Events
  import opened Wire
  import opened Response
  import opened Decoding
  import Messages
  import opened HostScan
  import opened HostEvents

  // ---- the two scanners agree on flat headers ----

  lemma {:induction false} SkipQuoteFreeKey(a: seq<byte>, t: seq<byte>, key: seq<byte>)
    requires QUOTE !in a
    ensures FindKey(a + t, key) == FindKey(t, key)
  {
    if a == [] {
      assert a + t == t;
    } else {
      assert (a + t)[1..] == a[1..] + t;
      assert (a + t)[0] != QUOTE;
      SkipQuoteFreeKey(a[1..], t, key);
    }
  }

  lemma BehindGap(gap: seq<byte>, rest: seq<byte>)
    requires gap != [] && gap[0] == COLON
    ensures BehindColon(gap + rest) == Some(SkipBlanks(gap[1..] + rest))
  {
    assert (gap + rest)[1..] == gap[1..] + rest;
  }

  /** One item: its value if its name is the key, else the search goes on behind it. */
  lemma FindKeyStep(it: Item, rest: seq<byte>, key: seq<byte>)
    requires PlainItem(it) && IsKey(key) && (it.name == key ==> it.gap[0] == COLON)
    ensures FindKey([QUOTE] + it.name + [QUOTE] + (it.gap + rest), key)
         == if it.name == key then Some(SkipBlanks(it.gap[1..] + rest)) else FindKey(rest, key)
  {
    var s := [QUOTE] + it.name + [QUOTE] + (it.gap + rest);
    QuotedPrefix(it.name, key, it.gap + rest);
    if it.name == key {
      assert s[|key| + 2..] == it.gap + rest;
      BehindGap(it.gap, rest);
    } else {
      var tail := [QUOTE] + (it.gap + rest);
      assert s[1..] == it.name + tail;
      SkipQuoteFreeKey(it.name, tail, key);
      GapIsNoKey(it.gap, key, rest);
      assert tail[1..] == it.gap + rest;
      SkipQuoteFreeKey(it.gap, rest, key);
    }
  }

  /** The item is a numeric field. */
  ghost predicate Numeric(it: Item)
  {
    exists n: nat, tail :: IsNumberGap(it.gap, n, tail)
  }

  predicate IsNumberGap(gap: seq<byte>, n: nat, tail: seq<byte>)
  {
    tail != [] && !IsDigit(tail[0]) && gap == NumberGap(n, tail)
  }

  /** strtol reads back a decimal rendering. */
  lemma StrtolDec(n: nat, rest: seq<byte>)
    requires rest == [] || !IsDigit(rest[0])
    ensures Strtol(Dec(n) + rest) == n
  {
    NumberOfDec(n);
    NumberStops(Dec(n), rest, 0);
    assert (Dec(n) + rest)[0] == Dec(n)[0] && IsDigit(Dec(n)[0]);
  }

  lemma NumberGapReadsLong(n: nat, tail: seq<byte>, rest: seq<byte>)
    requires tail != [] && !IsDigit(tail[0])
    ensures var v := SkipBlanks(NumberGap(n, tail)[1..] + rest);
            v != [] && v[0] != LETTER_N && Strtol(v) == n
  {
    var v := Dec(n) + (tail + rest);
    var s := NumberGap(n, tail)[1..] + rest;
    assert s == [SPACE] + v && s[1..] == v;
    assert v[0] == Dec(n)[0] && IsDigit(v[0]);
    assert (tail + rest)[0] == tail[0];
    StrtolDec(n, tail + rest);
  }

  /** Both scanners read the same number, or both none, wherever the fields of that name are numbers. */
  lemma {:induction false} ItemScannersAgree(items: seq<Item>, key: seq<byte>)
    requires Plain(items) && IsKey(key)
    requires forall i | 0 <= i < |items| :: items[i].name == key ==> Numeric(items[i])
    ensures FindLong(Render(items), key) == FindInt(Render(items), key)
  {
    if items != [] {
      var it, rest := items[0], Render(items[1..]);
      assert PlainItem(it);
      FindValStep(it, rest, key);
      if it.name == key {
        var n: nat, tail :| IsNumberGap(it.gap, n, tail);
        FindKeyStep(it, rest, key);
        NumberGapReads(n, tail, rest);
        NumberGapReadsLong(n, tail, rest);
      } else {
        FindKeyStep(it, rest, key);
        ItemScannersAgree(items[1..], key);
      }
    }
  }

  lemma {:induction false} ScannersAgree(items: seq<Item>, key: seq<byte>)
    requires Plain(items) && IsKey(key)
    requires forall i | 0 <= i < |items| :: items[i].name == key ==> Numeric(items[i])
    ensures FindLong([OPEN_BRACE] + Render(items), key) == FindInt([OPEN_BRACE] + Render(items), key)
  {
    SkipQuoteFree([OPEN_BRACE], Render(items), key);
    SkipQuoteFreeKey([OPEN_BRACE], Render(items), key);
    ItemScannersAgree(items, key);
  }

  // ---- ... and so on every header of the server ----

  lemma GapIsNumeric(name: seq<byte>, n: nat, tail: seq<byte>)
    requires tail != [] && !IsDigit(tail[0])
    ensures Numeric(Item(name, NumberGap(n, tail)))
  {
    assert IsNumberGap(NumberGap(n, tail), n, tail);
  }

  predicate IsField(key: seq<byte>)
  {
    key == RATE || key == WIDTH || key == CHANNELS || key == DATA_LENGTH || key == PAYLOAD_LENGTH
  }

  lemma FormatItemsNumeric(f: Format, close: seq<byte>)
    requires f.rate >= 0 && f.width >= 0 && f.channels >= 0 && close != [] && !IsDigit(close[0])
    ensures forall i | 0 <= i < 3 :: Numeric(FormatItems(f, close)[i])
  {
    GapIsNumeric(RATE, f.rate, THEN);
    GapIsNumeric(WIDTH, f.width, THEN);
    GapIsNumeric(CHANNELS, f.channels, close);
  }

  lemma HeaderNumeric(ev: Event, key: seq<byte>)
    requires Sized(ev) && IsField(key)
    ensures forall i | 0 <= i < |HeaderItems(ev)| :: HeaderItems(ev)[i].name == key ==> Numeric(HeaderItems(ev)[i])
  {
    NamesDiffer();
    hide Ascii, Numeric, Dec, DataBlock;
    assert key in [RATE, WIDTH, CHANNELS, DATA_LENGTH, PAYLOAD_LENGTH];
    match ev
    case Start(f) => FormatItemsNumeric(f, END + END);
    case Chunk(f, data, true) =>
      FormatItemsNumeric(f, END);
      GapIsNumeric(PAYLOAD_LENGTH, |data|, THEN);
    case Chunk(f, data, false) =>
      GapIsNumeric(PAYLOAD_LENGTH, |data|, END);
      GapIsNumeric(DATA_LENGTH, |DataBlock(f)|, THEN);
    case Stop =>
  }

  lemma HeaderAgrees(ev: Event, key: seq<byte>)
    requires Sized(ev) && IsField(key)
    ensures FindLong(HeaderLine(ev), key) == FindInt(HeaderLine(ev), key)
  {
    NamesDiffer();
    HeaderIsItems(ev);
    HeaderItemsPlain(ev);
    HeaderNumeric(ev, key);
    hide Ascii, HeaderLine, FindLong, FindInt, HeaderItems, Render;
    ScannersAgree(HeaderItems(ev), key);
  }

  lemma BlockAgrees(f: Format, key: seq<byte>)
    requires f.rate >= 0 && f.width >= 0 && f.channels >= 0 && IsField(key)
    ensures FindLong(DataBlock(f), key) == FindInt(DataBlock(f), key)
  {
    NamesDiffer();
    BlockIsItems(f);
    FormatItemsPlain(f, END);
    FormatItemsNumeric(f, END);
    hide Ascii, DataBlock, FindLong, FindInt, Render;
    ScannersAgree(FormatItems(f, END), key);
  }

  // ---- what the reader reports of an event ----

  function KindOf(ev: Event): (k: seq<byte>)
  {
    match ev
    case Start(_) => AUDIO_START
    case Chunk(_, _, _) => AUDIO_CHUNK
    case Stop => AUDIO_STOP
  }

  lemma KindsArePlain(ev: Event)
    ensures QUOTE !in KindOf(ev) && BACKSLASH !in KindOf(ev) && |KindOf(ev)| < TYPE_MAX && KindOf(ev) != []
  {
    NameShapes();
    NamesAreSafe();
  }

  lemma {:induction false} UnquotePlain(name: seq<byte>, rest: seq<byte>, room: nat)
    requires QUOTE !in name && BACKSLASH !in name && |name| <= room
    ensures Unquote(name + [QUOTE] + rest, room) == name
  {
    if name == [] {
      assert (name + [QUOTE] + rest)[0] == QUOTE;
    } else {
      var s := name + [QUOTE] + rest;
      assert s[0] == name[0] && s[1..] == name[1..] + [QUOTE] + rest;
      UnquotePlain(name[1..], rest, room - 1);
    }
  }

  lemma {:induction false} FirstKey(items: seq<Item>, key: seq<byte>)
    requires Plain(items) && IsKey(key) && |items| >= 2 && items[0] == Item(key, IS)
    ensures FindKey([OPEN_BRACE] + Render(items), key) == Some(Render(items[1..]))
  {
    var rest := Render(items[1..]);
    assert PlainItem(items[0]);
    assert rest[0] == QUOTE && !IsBlank(rest[0]);
    assert IS[1..] + rest == [SPACE] + rest && ([SPACE] + rest)[1..] == rest;
    FindKeyStep(items[0], rest, key);
    hide FindKey;
    SkipQuoteFreeKey([OPEN_BRACE], Render(items), key);
  }

  /** The type of a header: the string behind its first name. */
  lemma {:induction false} KindReadsItems(items: seq<Item>, key: seq<byte>, kind: seq<byte>)
    requires Plain(items) && IsKey(key) && |items| >= 2 && items[0] == Item(key, IS) && items[1].name == kind
    requires BACKSLASH !in kind && |kind| < TYPE_MAX
    ensures FindStr([OPEN_BRACE] + Render(items), key, TYPE_MAX) == Some(kind)
  {
    hide FindKey, Unquote, IsKey;
    FirstKey(items, key);
    assert PlainItem(items[1]);
    var more := items[1..];
    RenderFirst(more);
    var tail := more[0].gap + Render(more[1..]);
    UnquotePlain(kind, tail, TYPE_MAX - 1);
  }

  lemma RenderFirst(items: seq<Item>)
    requires items != []
    ensures var tail := items[0].gap + Render(items[1..]);
            Render(items) != [] && Render(items)[0] == QUOTE && Render(items)[1..] == items[0].name + [QUOTE] + tail
  {
    var tail := items[0].gap + Render(items[1..]);
    assert Render(items) == [QUOTE] + items[0].name + [QUOTE] + tail;
  }

  lemma TypeIsKey()
    ensures IsKey(TYPE)
  {
    NamesAreSafe();
    NameShapes();
  }

  lemma KindReads(ev: Event)
    requires Sized(ev)
    ensures FindStr(HeaderLine(ev), TYPE, TYPE_MAX) == Some(KindOf(ev))
  {
    KindsArePlain(ev);
    TypeIsKey();
    HeaderIsItems(ev);
    HeaderItemsPlain(ev);
    hide Ascii, HeaderLine, Render, FindStr, DataBlock, Dec;
    KindReadsItems(HeaderItems(ev), TYPE, KindOf(ev));
  }

  /** The format the probe gets to know from an event. */
  function FormatOf(ev: Event): (f: Format)
  {
    if ev.Stop? then NO_FORMAT else ev.fmt
  }

  lemma MineReads(f: Format, line: seq<byte>, g: Option<Format>)
    requires FindLong(line, RATE) == FindInt(line, RATE) && FindLong(line, WIDTH) == FindInt(line, WIDTH)
    requires FindLong(line, CHANNELS) == FindInt(line, CHANNELS)
    requires if g == None then ReadsNoFormat(line) else ReadsFormat(line, g.value)
    ensures Mine(f, line) == if g == None then f else g.value
  {
  }

  lemma HeaderReads(ev: Event)
    requires Sized(ev)
    ensures FromHeader(HeaderLine(ev))
         == HostEvent(KindOf(ev), if ev.Chunk? then |ev.data| else -1,
                      if FormatIn(ev) == None then NO_FORMAT else FormatIn(ev).value)
    ensures LongOr(HeaderLine(ev), DATA_LENGTH, -1) == if ev.Chunk? && !ev.inline then |DataBlock(ev.fmt)| else -1
  {
    HeaderAgrees(ev, RATE);
    HeaderAgrees(ev, WIDTH);
    HeaderAgrees(ev, CHANNELS);
    HeaderAgrees(ev, PAYLOAD_LENGTH);
    HeaderAgrees(ev, DATA_LENGTH);
    KindReads(ev);
    FormatReads(ev);
    PayloadLengthReads(ev);
    DataLengthReads(ev);
    hide Ascii, HeaderLine, FindLong, FindInt, FindStr, DataBlock;
    MineReads(NO_FORMAT, HeaderLine(ev), FormatIn(ev));
  }

  lemma BlockMines(f: Format, g: Format)
    requires f.rate >= 0 && f.width >= 0 && f.channels >= 0
    ensures Mine(g, DataBlock(f)) == f
  {
    BlockAgrees(f, RATE);
    BlockAgrees(f, WIDTH);
    BlockAgrees(f, CHANNELS);
    BlockReads(f);
    hide Ascii, DataBlock, FindLong, FindInt;
    MineReads(g, DataBlock(f), Some(f));
  }

  lemma AfterHeaderReads(ev: Event, tail: seq<byte>)
    requires Sized(ev)
    ensures AfterHeader(HeaderLine(ev), Block(ev) + tail, true)
         == EventRead(1, HostEvent(KindOf(ev), if ev.Chunk? then |ev.data| else -1, FormatOf(ev)), tail)
  {
    HeaderReads(ev);
    KindsArePlain(ev);
    if ev.Chunk? && !ev.inline {
      BlockIsCString(ev.fmt);
      WholeCString(Block(ev));
      BlockMines(ev.fmt, NO_FORMAT);
      var rest := Block(ev) + tail;
      assert rest[..|Block(ev)|] == Block(ev) && rest[|Block(ev)|..] == tail;
    } else {
      assert Block(ev) + tail == tail;
    }
  }

  /** wyo_read_event reports an encoded event as what it is, and leaves its payload to be read. */
  lemma EventReads(ev: Event, tail: seq<byte>, e: Ending, c: Chance)
    requires Sized(ev) && |c.hdr| == HEADER_SIZE && c.memory
    ensures ReadOne(Encode(ev) + tail, e, c)
         == EventRead(1, HostEvent(KindOf(ev), if ev.Chunk? then |ev.data| else -1, FormatOf(ev)), Payload(ev) + tail)
  {
    var line, rest := HeaderLine(ev), Block(ev) + (Payload(ev) + tail);
    HeaderIsOneLine(ev);
    HeaderFits(ev);
    Messages.Regroup(line, Block(ev), Payload(ev), tail);
    WholeLine(line, rest, e, c.hdr);
    AfterHeaderReads(ev, Payload(ev) + tail);
    hide HeaderLine, Block, AfterHeader, LineFrom;
    assert Encode(ev) + tail == line + [LF] + rest;
  }

  // ---- whole runs ----

  predicate HasMemory(cs: seq<Chance>)
  {
    forall c | c in cs :: c.memory
  }

  function AdoptAll(f: Format, evs: seq<Event>): (r: Format)
    decreases |evs|
  {
    if evs == [] then f else AdoptAll(Adopt(f, FormatOf(evs[0])), evs[1..])
  }

  /** One trip of the probe consumes exactly one encoded event. */
  lemma HostEventTrip(st: HostLoop, ev: Event, tail: seq<byte>, e: Ending, c: Chance)
    requires Sized(ev) && |c.hdr| == HEADER_SIZE && c.memory && st.status == Reading && st.rest == Encode(ev) + tail
    ensures HostTrip(st, e, c)
         == HostLoop(Adopt(st.fmt, FormatOf(ev)), st.out + Payload(ev), tail, if ev.Stop? then Stopped else Reading)
  {
    EventReads(ev, tail, e, c);
    KindsDiffer();
    hide Ascii, Encode, ReadOne;
    var rest := Payload(ev) + tail;
    if ev.Chunk? {
      assert rest[..|ev.data|] == ev.data && rest[|ev.data|..] == tail;
      assert st.out + [] == st.out;
    } else {
      assert rest == tail && st.out + Payload(ev) == st.out;
    }
  }

  lemma KindsDiffer()
    ensures AUDIO_START != AUDIO_CHUNK && AUDIO_START != AUDIO_STOP && AUDIO_CHUNK != AUDIO_STOP
  {
    NameShapes();
    assert AUDIO_START[6] == 115 && AUDIO_CHUNK[6] == 99;
  }

  function Payloads(evs: seq<Event>): (s: seq<byte>)
  {
    if evs == [] then [] else Payload(evs[0]) + Payloads(evs[1..])
  }

  /** The probe on a stream with an audio-stop: all payloads before it, and nothing behind it. */
  lemma {:induction false} ProbeDecodes(st: HostLoop, before: seq<Event>, tail: seq<byte>, e: Ending,
                                        cs: seq<Chance>)
    requires AllSized(before) && CountStops(before) == 0 && st.status == Reading
    requires st.rest == EncodeAll(before) + (Encode(Stop) + tail)
    requires AllChances(cs) && HasMemory(cs) && HostRun(st, e, cs).status != Reading
    ensures HostRun(st, e, cs) == HostLoop(AdoptAll(st.fmt, before), st.out + Payloads(before), tail, Stopped)
    decreases |before|
  {
    hide HostTrip, Encode, Adopt, FormatOf, Payload;
    var next := HostTrip(st, e, cs[0]);
    assert cs[0] in cs;
    if before == [] {
      assert st.rest == Encode(Stop) + tail;
      HostEventTrip(st, Stop, tail, e, cs[0]);
      StopAddsNothing(st.fmt, st.out);
    } else {
      var ev, more := before[0], EncodeAll(before[1..]) + (Encode(Stop) + tail);
      EncodeCons(before, Encode(Stop) + tail);
      HostEventTrip(st, ev, more, e, cs[0]);
      ProbeDecodes(next, before[1..], tail, e, cs[1..]);
      assert st.out + Payload(ev) + Payloads(before[1..]) == st.out + Payloads(before);
    }
  }

  lemma StopAddsNothing(f: Format, out: seq<byte>)
    ensures Adopt(f, FormatOf(Stop)) == f && out + Payload(Stop) == out && out + Payloads([]) == out
  {
  }

  lemma DryTrip(st: HostLoop, e: Ending, c: Chance)
    requires st.status == Reading && st.rest == [] && |c.hdr| == HEADER_SIZE
    ensures HostTrip(st, e, c) == st.(status := Ended)
  {
  }

  /** On a stream that ends without an audio-stop it delivers the same, and fails. */
  lemma {:induction false} ProbeRunsDry(st: HostLoop, evs: seq<Event>, e: Ending, cs: seq<Chance>)
    requires AllSized(evs) && CountStops(evs) == 0 && st.status == Reading && st.rest == EncodeAll(evs)
    requires AllChances(cs) && HasMemory(cs) && HostRun(st, e, cs).status != Reading
    ensures HostRun(st, e, cs) == HostLoop(AdoptAll(st.fmt, evs), st.out + Payloads(evs), [], Ended)
    decreases |evs|
  {
    hide HostTrip, Encode, Adopt, FormatOf, Payload;
    assert cs[0] in cs;
    if evs == [] {
      DryTrip(st, e, cs[0]);
      assert st.out + Payloads([]) == st.out;
    } else {
      HostEventTrip(st, evs[0], EncodeAll(evs[1..]), e, cs[0]);
      ProbeRunsDry(HostTrip(st, e, cs[0]), evs[1..], e, cs[1..]);
      assert st.out + Payload(evs[0]) + Payloads(evs[1..]) == st.out + Payloads(evs);
    }
  }

  lemma {:induction false} PayloadsAreAudio(evs: seq<Event>)
    ensures Audio(FramesOf(evs)) == Payloads(evs)
  {
    if evs != [] {
      PayloadsAreAudio(evs[1..]);
      AudioAppend(FramesOfOne(evs[0]), FramesOf(evs[1..]));
      OneAudio(evs[0]);
    }
  }

  lemma OneAudio(ev: Event)
    ensures Audio(FramesOfOne(ev)) == Payload(ev)
  {
    if ev.Chunk? && |ev.data| > 0 {
      assert [Frame(ev.fmt, ev.data)][..0] == [];
    }
  }

  // ---- formats: the engine keeps the last one, the probe the last that is not zero ----

  function Last(xs: seq<int>, d: int): (r: int)
    decreases |xs|
  {
    if xs == [] then d else Last(xs[1..], xs[0])
  }

  function LastNonZero(xs: seq<int>, d: int): (r: int)
    decreases |xs|
  {
    if xs == [] then d else LastNonZero(xs[1..], Pick(d, xs[0]))
  }

  /** A field is settled if its last value is not zero, or if it never was anything but zero. */
  predicate Settled(xs: seq<int>)
  {
    xs != [] && xs[|xs| - 1] == 0 ==> forall i | 0 <= i < |xs| :: xs[i] == 0
  }

  lemma {:induction false} LastIsLast(xs: seq<int>, d: int)
    ensures Last(xs, d) == if xs == [] then d else xs[|xs| - 1]
    decreases |xs|
  {
    if xs != [] {
      LastIsLast(xs[1..], xs[0]);
    }
  }

  lemma {:induction false} LastNonZeroIs(xs: seq<int>, d: int)
    ensures (forall i | 0 <= i < |xs| :: xs[i] == 0) ==> LastNonZero(xs, d) == d
    ensures (exists i | 0 <= i < |xs| :: xs[i] != 0) ==> LastNonZero(xs, d) != 0
    ensures xs != [] && xs[|xs| - 1] != 0 ==> LastNonZero(xs, d) == xs[|xs| - 1]
    decreases |xs|
  {
    if xs != [] {
      var d' := Pick(d, xs[0]);
      LastNonZeroIs(xs[1..], d');
      if xs[0] != 0 {
        StaysNonZero(xs[1..], d');
      } else if exists i | 0 <= i < |xs| :: xs[i] != 0 {
        var i :| 0 <= i < |xs| && xs[i] != 0;
        assert xs[1..][i - 1] == xs[i];
      }
    }
  }

  lemma {:induction false} StaysNonZero(xs: seq<int>, d: int)
    requires d != 0
    ensures LastNonZero(xs, d) != 0
    decreases |xs|
  {
    if xs != [] {
      StaysNonZero(xs[1..], Pick(d, xs[0]));
    }
  }

  lemma AgreeIffSettled(xs: seq<int>)
    ensures Last(xs, 0) == LastNonZero(xs, 0) <==> Settled(xs)
  {
    LastIsLast(xs, 0);
    LastNonZeroIs(xs, 0);
  }

  function Formats(evs: seq<Event>): (fs: seq<Format>)
  {
    if evs == [] then [] else if evs[0].Stop? then Formats(evs[1..]) else [evs[0].fmt] + Formats(evs[1..])
  }

  function Rates(fs: seq<Format>): (xs: seq<int>)
  {
    seq(|fs|, i requires 0 <= i < |fs| => fs[i].rate)
  }

  function Widths(fs: seq<Format>): (xs: seq<int>)
  {
    seq(|fs|, i requires 0 <= i < |fs| => fs[i].width)
  }

  function ChannelCounts(fs: seq<Format>): (xs: seq<int>)
  {
    seq(|fs|, i requires 0 <= i < |fs| => fs[i].channels)
  }

  predicate AllSettled(evs: seq<Event>)
  {
    Settled(Rates(Formats(evs))) && Settled(Widths(Formats(evs))) && Settled(ChannelCounts(Formats(evs)))
  }

  lemma {:induction false} FormatAllIsLast(f: Format, evs: seq<Event>)
    ensures var fs := Formats(evs);
            FormatAll(f, evs) == Format(Last(Rates(fs), f.rate), Last(Widths(fs), f.width),
                                        Last(ChannelCounts(fs), f.channels))
    ensures var fs := Formats(evs);
            AdoptAll(f, evs) == Format(LastNonZero(Rates(fs), f.rate), LastNonZero(Widths(fs), f.width),
                                       LastNonZero(ChannelCounts(fs), f.channels))
    decreases |evs|
  {
    if evs != [] {
      var fs, rest := Formats(evs), Formats(evs[1..]);
      if evs[0].Stop? {
        FormatAllIsLast(f, evs[1..]);
      } else {
        FormatAllIsLast(evs[0].fmt, evs[1..]);
        FormatAllIsLast(Adopt(f, evs[0].fmt), evs[1..]);
        assert fs[1..] == rest;
        assert Rates(fs)[1..] == Rates(rest) && Widths(fs)[1..] == Widths(rest);
        assert ChannelCounts(fs)[1..] == ChannelCounts(rest);
      }
    }
  }

  lemma FormatsAgreeIff(evs: seq<Event>)
    ensures FormatAll(NO_FORMAT, evs) == AdoptAll(NO_FORMAT, evs) <==> AllSettled(evs)
  {
    FormatAllIsLast(NO_FORMAT, evs);
    hide Last, LastNonZero, FormatAll, AdoptAll, Settled;
    var fs := Formats(evs);
    AgreeIffSettled(Rates(fs));
    AgreeIffSettled(Widths(fs));
    AgreeIffSettled(ChannelCounts(fs));
  }

  /** The two decoders, each with its own fragmentation, buffers and end of stream: on every stream with
      one audio-stop both succeed with the same samples and leave the same bytes unread. They report the
      same format exactly if no field falls back to zero. */
  lemma DecodersAgree(before: seq<Event>, tail: seq<byte>, hdr: seq<byte>, e1: Ending, e2: Ending, cs: seq<Chance>)
    requires AllSized(before) && CountStops(before) == 0 && |hdr| == LINE_BUFFER
    requires AllChances(cs) && HasMemory(cs)
    requires HostRun(HostEntry(EncodeAll(before) + (Encode(Stop) + tail)), e2, cs).status != Reading
    ensures var stream := EncodeAll(before) + (Encode(Stop) + tail);
            var engine, host := Run(Entry(hdr, stream), e1, 1), HostRun(HostEntry(stream), e2, cs);
            && engine.status == Finished && host.status == Stopped
            && Audio(engine.frames) == host.out == Payloads(before) && engine.rest == host.rest == tail
            && (engine.fmt == host.fmt <==> AllSettled(before))
  {
    hide Run, HostRun, EncodeAll, Encode, Audio, FramesOf, CountStops, FormatAll, AdoptAll, AllSettled, Payloads;
    var stream := EncodeAll(before) + (Encode(Stop) + tail);
    ResponsesDecode(hdr, before, tail, e1, 1);
    ProbeDecodes(HostEntry(stream), before, tail, e2, cs);
    PayloadsAreAudio(before);
    FormatsAgreeIff(before);
    assert [] + Payloads(before) == Payloads(before);
  }

  /** It happens: a chunk that gives the rate as 0 behind a start that gave another. */
  lemma RateFallsBack(f: Format, data: seq<byte>, inline: bool, tail: seq<byte>, hdr: seq<byte>,
                      e1: Ending, e2: Ending, cs: seq<Chance>)
    requires f.rate != 0 && Sized(Start(f)) && Sized(Chunk(f, data, inline)) && |hdr| == LINE_BUFFER
    requires AllChances(cs) && HasMemory(cs)
    requires var before := [Start(f), Chunk(f.(rate := 0), data, inline)];
             AllSized(before)
             && HostRun(HostEntry(EncodeAll(before) + (Encode(Stop) + tail)), e2, cs).status != Reading
    ensures var stream := EncodeAll([Start(f), Chunk(f.(rate := 0), data, inline)]) + (Encode(Stop) + tail);
            Run(Entry(hdr, stream), e1, 1).fmt != HostRun(HostEntry(stream), e2, cs).fmt
  {
    var start, chunk := Start(f), Chunk(f.(rate := 0), data, inline);
    var before := [start, chunk];
    hide Run, HostRun, EncodeAll, Encode;
    assert before[1..] == [chunk] && [chunk][1..] == [];
    assert Formats([chunk]) == [chunk.fmt] + Formats([]) && CountStops([chunk]) == CountStops([]);
    assert Formats(before) == [f, chunk.fmt];
    var rates := Rates(Formats(before));
    assert rates[0] == f.rate && rates[1] == 0 && |rates| == 2;
    DecodersAgree(before, tail, hdr, e1, e2, cs);
  }
}
