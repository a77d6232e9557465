/** The mock server's events as framed messages: the response loop undoes their encoder. */
module Decoding {
  import opened Bytes
  import opened Header
  import opened Events
  import opened Wire
  import opened Response
  import opened Messages

  function FramesOfOne(ev: Event): (fs: seq<Frame>)
  {
    if ev.Chunk? && |ev.data| > 0 then [Frame(ev.fmt, ev.data)] else []
  }

  /** The audio a list of events carries. */
  function FramesOf(evs: seq<Event>): (fs: seq<Frame>)
  {
    if evs == [] then [] else FramesOfOne(evs[0]) + FramesOf(evs[1..])
  }

  function CountStops(evs: seq<Event>): (n: nat)
  {
    if evs == [] then 0 else (if evs[0].Stop? then 1 else 0) + CountStops(evs[1..])
  }

  function FormatAfter(f: Format, ev: Event): (r: Format)
  {
    if ev.Stop? then f else ev.fmt
  }

  function FormatAll(f: Format, evs: seq<Event>): (r: Format)
    decreases |evs|
  {
    if evs == [] then f else FormatAll(FormatAfter(f, evs[0]), evs[1..])
  }

  function FramedOf(ev: Event): (m: Message)
    requires Sized(ev)
  {
    Message(HeaderLine(ev), Block(ev), Payload(ev))
  }

  function FramedAll(evs: seq<Event>): (ms: seq<Message>)
    requires AllSized(evs)
    ensures |ms| == |evs| && forall i | 0 <= i < |evs| :: ms[i] == FramedOf(evs[i])
  {
    seq(|evs|, i requires 0 <= i < |evs| => FramedOf(evs[i]))
  }

  lemma UpdateReads(f: Format, line: seq<byte>, g: Option<Format>)
    requires if g == None then ReadsNoFormat(line) else ReadsFormat(line, g.value)
    ensures Update(f, line) == if g == None then f else g.value
  {
  }

  lemma EventIsEmitted(ev: Event)
    requires Sized(ev)
    ensures Emit(FramedOf(ev)) == Encode(ev)
  {
    hide HeaderLine, DataBlock, Ascii, Sized;
  }

  lemma EventAnnounces(ev: Event)
    requires Sized(ev)
    ensures Announces(HeaderLine(ev), DATA_LENGTH, Block(ev))
    ensures if ev.Stop? then Payload(ev) == [] else Announces(HeaderLine(ev), PAYLOAD_LENGTH, Payload(ev))
  {
    hide HeaderLine, DataBlock, Ascii, FindInt, Dec3, Dec, Contains;
    DataLengthReads(ev);
    PayloadLengthReads(ev);
    if ev.Chunk? && !ev.inline {
      BlockIsCString(ev.fmt);
    }
  }

  lemma EventIsFramed(ev: Event)
    requires Sized(ev)
    ensures WellFramed(FramedOf(ev)) && (IsStop(FramedOf(ev)) <==> ev.Stop?) && Emit(FramedOf(ev)) == Encode(ev)
  {
    hide HeaderLine, Block, Payload, Announces, Emit, Encode, Contains, Sized;
    HeaderIsOneLine(ev);
    HeaderFits(ev);
    StopReads(ev);
    EventAnnounces(ev);
    EventIsEmitted(ev);
  }

  lemma EventFormat(ev: Event, f: Format)
    requires Sized(ev)
    ensures FormatBy(f, FramedOf(ev)) == FormatAfter(f, ev) && FramesBy(f, FramedOf(ev)) == FramesOfOne(ev)
  {
    FormatReads(ev);
    hide HeaderLine, DataBlock, Ascii, FindInt, Update;
    if ev.Chunk? && !ev.inline {
      HeaderFits(ev);
      BlockIsCString(ev.fmt);
      WholeCString(Block(ev));
      BlockReads(ev.fmt);
      UpdateReads(f, Block(ev), Some(ev.fmt));
      UpdateReads(ev.fmt, HeaderLine(ev), FormatIn(ev));
    } else {
      UpdateReads(f, HeaderLine(ev), FormatIn(ev));
    }
  }

  /** What the loop makes of an event's message is what the event says. */
  lemma EventIsMessage(ev: Event, f: Format)
    requires Sized(ev)
    ensures WellFramed(FramedOf(ev)) && (IsStop(FramedOf(ev)) <==> ev.Stop?)
    ensures FormatBy(f, FramedOf(ev)) == FormatAfter(f, ev) && FramesBy(f, FramedOf(ev)) == FramesOfOne(ev)
    ensures Emit(FramedOf(ev)) == Encode(ev)
  {
    hide *;
    EventIsFramed(ev);
    EventFormat(ev, f);
  }

  lemma {:induction false} EventsAreMessages(evs: seq<Event>, f: Format)
    requires AllSized(evs)
    ensures AllFramed(FramedAll(evs)) && Stops(FramedAll(evs)) == CountStops(evs)
    ensures EmitAll(FramedAll(evs)) == EncodeAll(evs)
    ensures FramesFrom(f, FramedAll(evs)) == FramesOf(evs) && FormatFrom(f, FramedAll(evs)) == FormatAll(f, evs)
    decreases |evs|
  {
    hide WellFramed, IsStop, FormatBy, FramesBy, Emit, FormatAfter, FramesOfOne, Encode, FramedOf, Sized;
    forall i | 0 <= i < |evs|
      ensures WellFramed(FramedAll(evs)[i])
    {
      EventIsMessage(evs[i], f);
    }
    if evs != [] {
      EventIsMessage(evs[0], f);
      EventsAreMessages(evs[1..], FormatAfter(f, evs[0]));
      assert FramedAll(evs)[1..] == FramedAll(evs[1..]);
    }
  }

  lemma EncodeCons(evs: seq<Event>, tail: seq<byte>)
    requires AllSized(evs) && evs != []
    ensures EncodeAll(evs) + tail == Encode(evs[0]) + (EncodeAll(evs[1..]) + tail)
  {
  }

  lemma {:induction false} CountAppend(a: seq<Event>, b: seq<Event>)
    ensures CountStops(a + b) == CountStops(a) + CountStops(b)
    ensures FramesOf(a + b) == FramesOf(a) + FramesOf(b)
  {
    if a == [] {
      assert a + b == b;
    } else {
      assert (a + b)[1..] == a[1..] + b;
      CountAppend(a[1..], b);
    }
  }

  lemma {:induction false} EncodeAppend(a: seq<Event>, b: seq<Event>)
    requires AllSized(a) && AllSized(b)
    ensures AllSized(a + b) && EncodeAll(a + b) == EncodeAll(a) + EncodeAll(b)
  {
    hide Encode, Sized;
    if a == [] {
      assert a + b == b;
    } else {
      assert (a + b)[1..] == a[1..] + b;
      EncodeAppend(a[1..], b);
      EncodeCons(a, EncodeAll(b));
    }
  }

  /** Round trip, for responses that are complete: `before` holds every event up to the last
      audio-stop the utterance waits for. The payloads come out in order, nothing of what
      follows is touched, and the loop succeeds. */
  lemma ResponsesDecode(hdr: seq<byte>, before: seq<Event>, tail: seq<byte>, e: Ending, nseg: int)
    requires AllSized(before) && |hdr| == LINE_BUFFER && nseg >= 1 && CountStops(before) == nseg - 1
    ensures var r := Run(Entry(hdr, EncodeAll(before) + (Encode(Stop) + tail)), e, nseg);
            r.status == Finished && r.stops == nseg && r.frames == FramesOf(before) && r.rest == tail
            && r.fmt == FormatAll(NO_FORMAT, before)
  {
    hide *;
    EventsAreMessages(before, NO_FORMAT);
    StopKeepsFormat(FormatAll(NO_FORMAT, before));
    EventIsMessage(Stop, FormatAll(NO_FORMAT, before));
    MessagesDecode(hdr, FramedAll(before), FramedOf(Stop), tail, e, nseg);
  }

  lemma StopKeepsFormat(f: Format)
    ensures FormatAfter(f, Stop) == f && Stop.Stop? && Sized(Stop)
  {
  }

  /** On whole events the loop succeeds exactly when nseg audio-stops arrive. */
  lemma SucceedsIffStopsArrive(hdr: seq<byte>, evs: seq<Event>, e: Ending, nseg: int)
    requires AllSized(evs) && |hdr| == LINE_BUFFER && nseg >= 1
    ensures Run(Entry(hdr, EncodeAll(evs)), e, nseg).status == Finished <==> CountStops(evs) >= nseg
  {
    hide *;
    EventsAreMessages(evs, NO_FORMAT);
    Messages.SucceedsIffStopsArrive(hdr, FramedAll(evs), e, nseg);
  }
}
