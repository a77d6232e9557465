/** Responses as any server may frame them: header lines with whatever fields, data blocks, payloads; and
    what the response loop makes of them (src/nw_engine.c:1106-1172). */
module Messages {
  import opened Bytes
  import opened Header
  import opened Events
  import opened Wire
  import opened Response

  /** One framed event: its header line without the line feed, its data block and its payload. */
  datatype Message = Message(line: seq<byte>, block: seq<byte>, payload: seq<byte>)

  /** The announced length of a part is its length; a missing, zero or negative one announces nothing. */
  predicate Announces(line: seq<byte>, key: seq<byte>, part: seq<byte>)
  {
    var n := IntOr(line, key, 0);
    if n <= 0 then part == [] else |part| == n
  }

  predicate IsStop(m: Message)
  {
    Contains(m.line, AUDIO_STOP)
  }

  /** A header line that is not empty and fits the line buffer, and parts as it announces them. An
      audio-stop has no payload. */
  predicate WellFramed(m: Message)
  {
    && m.line != [] && |m.line| + 1 < LINE_BUFFER && LF !in m.line && NUL !in m.line
    && Announces(m.line, DATA_LENGTH, m.block)
    && if IsStop(m) then m.payload == [] else Announces(m.line, PAYLOAD_LENGTH, m.payload)
  }

  predicate AllFramed(ms: seq<Message>)
  {
    forall i | 0 <= i < |ms| :: WellFramed(ms[i])
  }

  function Emit(m: Message): (s: seq<byte>)
  {
    m.line + [LF] + m.block + m.payload
  }

  function EmitAll(ms: seq<Message>): (s: seq<byte>)
  {
    if ms == [] then [] else Emit(ms[0]) + EmitAll(ms[1..])
  }

  function Stops(ms: seq<Message>): (n: nat)
  {
    if ms == [] then 0 else (if IsStop(ms[0]) then 1 else 0) + Stops(ms[1..])
  }

  /** The format known behind a message: a data block that fits its buffer is mined first, then the header. */
  function FormatBy(f: Format, m: Message): (r: Format)
  {
    Update(if m.block != [] && |m.block| < DATA_BUFFER - 1 then Update(f, CString(m.block)) else f, m.line)
  }

  function FramesBy(f: Format, m: Message): (fs: seq<Frame>)
  {
    if m.payload == [] then [] else [Frame(FormatBy(f, m), m.payload)]
  }

  function FormatFrom(f: Format, ms: seq<Message>): (r: Format)
    decreases |ms|
  {
    if ms == [] then f else FormatFrom(FormatBy(f, ms[0]), ms[1..])
  }

  /** The audio the messages carry, each payload in the format known at that moment. */
  function FramesFrom(f: Format, ms: seq<Message>): (fs: seq<Frame>)
    decreases |ms|
  {
    if ms == [] then [] else FramesBy(f, ms[0]) + FramesFrom(FormatBy(f, ms[0]), ms[1..])
  }

  /** What the line buffer holds behind the messages: the last line, and behind its terminator what longer
      lines before it left. */
  function HdrAfter(hdr: seq<byte>, ms: seq<Message>): (r: seq<byte>)
    requires |hdr| == LINE_BUFFER && AllFramed(ms)
    ensures |r| == LINE_BUFFER
    decreases |ms|
  {
    if ms == [] then hdr
    else
      assert WellFramed(ms[0]);
      HdrAfter(Over(hdr, 0, ms[0].line + [NUL]), ms[1..])
  }

  /** The loop behind these messages, if they do not complete the responses. */
  function Behind(st: Loop, ms: seq<Message>, tail: seq<byte>): (r: Loop)
    requires |st.hdr| == LINE_BUFFER && AllFramed(ms)
  {
    Loop(HdrAfter(st.hdr, ms), FormatFrom(st.fmt, ms), st.stops + Stops(ms), st.frames + FramesFrom(st.fmt, ms),
         tail, Running)
  }

  // ---- one trip ----

  /** The line is read whole. */
  lemma TripLine(st: Loop, line: seq<byte>, rest: seq<byte>, e: Ending, nseg: int)
    requires st.status == Running && |st.hdr| == LINE_BUFFER && |line| + 1 < LINE_BUFFER
    requires line != [] && LF !in line && NUL !in line && st.rest == line + [LF] + rest
    ensures Trip(st, e, nseg) == AfterLine(st.(hdr := Over(st.hdr, 0, line + [NUL]), rest := rest), line, nseg)
  {
    hide AfterLine;
    WholeLine(line, rest, e, st.hdr);
  }

  /** The data block is mined or passed over. */
  lemma BlockRead(st: Loop, m: Message, tail: seq<byte>, nseg: int)
    requires WellFramed(m) && st.rest == m.block + tail
    ensures AfterLine(st, m.line, nseg)
         == AfterBlock(st.(fmt := if m.block != [] && |m.block| < DATA_BUFFER - 1 then Update(st.fmt, CString(m.block))
                                  else st.fmt, rest := tail), m.line, nseg)
  {
    hide AfterBlock, Update, CString;
    if m.block == [] {
      assert st.rest == tail;
    } else {
      assert st.rest[..|m.block|] == m.block && st.rest[|m.block|..] == tail;
    }
  }

  /** Stop, payload or neither. */
  lemma PayloadRead(st: Loop, m: Message, tail: seq<byte>, nseg: int)
    requires WellFramed(m) && st.status == Running && st.rest == m.payload + tail
    ensures AfterBlock(st, m.line, nseg)
         == Loop(st.hdr, Update(st.fmt, m.line), st.stops + (if IsStop(m) then 1 else 0),
                 st.frames + (if m.payload == [] then [] else [Frame(Update(st.fmt, m.line), m.payload)]), tail,
                 if IsStop(m) && st.stops + 1 >= nseg then Finished else Running)
  {
    hide Update;
    if m.payload == [] {
      assert st.rest == tail;
    } else {
      assert st.rest[..|m.payload|] == m.payload && st.rest[|m.payload|..] == tail;
    }
  }

  lemma Regroup(line: seq<byte>, block: seq<byte>, payload: seq<byte>, tail: seq<byte>)
    ensures line + [LF] + block + payload + tail == line + [LF] + (block + (payload + tail))
  {
  }

  /** One trip consumes exactly one message and delivers its payload. */
  lemma MessageTrip(st: Loop, m: Message, tail: seq<byte>, e: Ending, nseg: int)
    requires WellFramed(m) && st.status == Running && |st.hdr| == LINE_BUFFER && st.rest == Emit(m) + tail
    ensures Trip(st, e, nseg)
         == Loop(Over(st.hdr, 0, m.line + [NUL]), FormatBy(st.fmt, m), st.stops + (if IsStop(m) then 1 else 0),
                 st.frames + FramesBy(st.fmt, m), tail, if IsStop(m) && st.stops + 1 >= nseg then Finished else Running)
  {
    var rest := m.block + (m.payload + tail);
    hide AfterLine, AfterBlock, Update, CString, Announces, Trip;
    Regroup(m.line, m.block, m.payload, tail);
    TripLine(st, m.line, rest, e, nseg);
    var read := st.(hdr := Over(st.hdr, 0, m.line + [NUL]), rest := rest);
    BlockRead(read, m, m.payload + tail, nseg);
    PayloadRead(read.(fmt := if m.block != [] && |m.block| < DATA_BUFFER - 1 then Update(st.fmt, CString(m.block))
                             else st.fmt, rest := m.payload + tail), m, tail, nseg);
  }

  // ---- many ----

  lemma EmitCons(ms: seq<Message>, tail: seq<byte>)
    requires ms != []
    ensures EmitAll(ms) + tail == Emit(ms[0]) + (EmitAll(ms[1..]) + tail)
  {
  }

  lemma FramesCons(fs: seq<Frame>, f: Format, ms: seq<Message>)
    requires ms != []
    ensures fs + FramesBy(f, ms[0]) + FramesFrom(FormatBy(f, ms[0]), ms[1..]) == fs + FramesFrom(f, ms)
  {
    hide FramesBy, FormatBy;
  }

  /** Messages that do not yet complete the responses are consumed one by one. */
  lemma {:induction false} MessagesRun(st: Loop, ms: seq<Message>, tail: seq<byte>, e: Ending, nseg: int)
    requires AllFramed(ms) && st.status == Running && |st.hdr| == LINE_BUFFER
    requires st.rest == EmitAll(ms) + tail && st.stops + Stops(ms) < nseg
    ensures Run(st, e, nseg) == Run(Behind(st, ms, tail), e, nseg)
    decreases |ms|
  {
    hide Emit, WellFramed, IsStop, FormatBy, FramesBy, Trip;
    if ms == [] {
      assert st == Behind(st, ms, tail);
    } else {
      var more := EmitAll(ms[1..]) + tail;
      assert WellFramed(ms[0]);
      EmitCons(ms, tail);
      MessageTrip(st, ms[0], more, e, nseg);
      var next := Trip(st, e, nseg);
      FramesCons(st.frames, st.fmt, ms);
      assert Behind(next, ms[1..], tail) == Behind(st, ms, tail);
      MessagesRun(next, ms[1..], tail, e, nseg);
    }
  }

  lemma EndOfStream(st: Loop, e: Ending, nseg: int)
    requires st.status == Running && st.rest == [] && |st.hdr| == LINE_BUFFER
    ensures Run(st, e, nseg) == st.(status := if e == Eof then Closed else Broken)
  {
  }

  /** Responses that are complete: `ms` holds everything up to the last audio-stop the utterance waits
      for. The payloads come out in order, nothing of what follows is touched, and the loop succeeds. */
  lemma MessagesDecode(hdr: seq<byte>, ms: seq<Message>, stop: Message, tail: seq<byte>, e: Ending, nseg: int)
    requires AllFramed(ms) && WellFramed(stop) && IsStop(stop) && |hdr| == LINE_BUFFER
    requires nseg >= 1 && Stops(ms) == nseg - 1
    ensures var r := Run(Entry(hdr, EmitAll(ms) + (Emit(stop) + tail)), e, nseg);
            r.status == Finished && r.stops == nseg && r.frames == FramesFrom(NO_FORMAT, ms) && r.rest == tail
            && r.fmt == FormatBy(FormatFrom(NO_FORMAT, ms), stop)
  {
    var st := Entry(hdr, EmitAll(ms) + (Emit(stop) + tail));
    hide Emit, WellFramed, IsStop, FormatBy, Trip, Stops, EmitAll;
    MessagesRun(st, ms, Emit(stop) + tail, e, nseg);
    var last := Behind(st, ms, Emit(stop) + tail);
    MessageTrip(last, stop, tail, e, nseg);
    NoPayload(stop, last.fmt, last.frames);
    assert Run(last, e, nseg) == Run(Trip(last, e, nseg), e, nseg);
  }

  lemma NoPayload(stop: Message, f: Format, fs: seq<Frame>)
    requires WellFramed(stop) && IsStop(stop)
    ensures fs + FramesBy(f, stop) == fs && [] + fs == fs
  {
  }

  /** With fewer audio-stops than segments the loop delivers everything and then fails. */
  lemma TooFewStops(hdr: seq<byte>, ms: seq<Message>, e: Ending, nseg: int)
    requires AllFramed(ms) && |hdr| == LINE_BUFFER && Stops(ms) < nseg
    ensures var r := Run(Entry(hdr, EmitAll(ms)), e, nseg);
            r.status == (if e == Eof then Closed else Broken)
            && r.stops == Stops(ms) && r.frames == FramesFrom(NO_FORMAT, ms) && r.rest == []
  {
    hide Stops, FramesFrom, FormatFrom;
    var st := Entry(hdr, EmitAll(ms));
    assert EmitAll(ms) + [] == EmitAll(ms);
    assert [] + FramesFrom(NO_FORMAT, ms) == FramesFrom(NO_FORMAT, ms);
    MessagesRun(st, ms, [], e, nseg);
    EndOfStream(Behind(st, ms, []), e, nseg);
  }

  // ---- appending ----

  lemma {:induction false} EmitAppend(a: seq<Message>, b: seq<Message>)
    ensures EmitAll(a + b) == EmitAll(a) + EmitAll(b)
    ensures Stops(a + b) == Stops(a) + Stops(b)
  {
    hide Emit, IsStop;
    if a == [] {
      assert a + b == b;
    } else {
      assert (a + b)[1..] == a[1..] + b;
      EmitAppend(a[1..], b);
    }
  }

  lemma {:induction false} FramesAppend(f: Format, a: seq<Message>, b: seq<Message>)
    ensures FramesFrom(f, a + b) == FramesFrom(f, a) + FramesFrom(FormatFrom(f, a), b)
    ensures FormatFrom(f, a + b) == FormatFrom(FormatFrom(f, a), b)
    decreases |a|
  {
    hide FormatBy, FramesBy;
    if a == [] {
      assert a + b == b;
    } else {
      assert (a + b)[1..] == a[1..] + b;
      FramesAppend(FormatBy(f, a[0]), a[1..], b);
    }
  }

  /** Every message list with enough stops splits at the last one the utterance waits for. */
  lemma {:induction false} SplitAtStop(ms: seq<Message>, n: nat)
    returns (a: seq<Message>, stop: Message, b: seq<Message>)
    requires Stops(ms) > n
    ensures ms == a + [stop] + b && IsStop(stop) && Stops(a) == n
  {
    hide IsStop;
    if IsStop(ms[0]) && n == 0 {
      a, stop, b := [], ms[0], ms[1..];
    } else {
      var a';
      a', stop, b := SplitAtStop(ms[1..], if IsStop(ms[0]) then n - 1 else n);
      a := [ms[0]] + a';
      assert a[1..] == a';
    }
  }

  lemma SplitFramed(a: seq<Message>, stop: Message, b: seq<Message>)
    requires AllFramed(a + [stop] + b)
    ensures AllFramed(a) && WellFramed(stop) && AllFramed(b)
    ensures EmitAll(a + [stop] + b) == EmitAll(a) + (Emit(stop) + EmitAll(b))
  {
    hide WellFramed, Emit;
    var ms := a + [stop] + b;
    assert forall i | 0 <= i < |a| :: a[i] == ms[i];
    assert ms[|a|] == stop;
    assert forall i | 0 <= i < |b| :: b[i] == ms[|a| + 1 + i];
    EmitAppend(a, [stop] + b);
    assert a + ([stop] + b) == ms && ([stop] + b)[1..] == b;
  }

  /** The loop succeeds on a stream of whole messages exactly when nseg audio-stops arrive. */
  lemma SucceedsIffStopsArrive(hdr: seq<byte>, ms: seq<Message>, e: Ending, nseg: int)
    requires AllFramed(ms) && |hdr| == LINE_BUFFER && nseg >= 1
    ensures Run(Entry(hdr, EmitAll(ms)), e, nseg).status == Finished <==> Stops(ms) >= nseg
  {
    hide *;
    if Stops(ms) >= nseg {
      var a, stop, b := SplitAtStop(ms, nseg - 1);
      SplitFramed(a, stop, b);
      MessagesDecode(hdr, a, stop, EmitAll(b), e, nseg);
    } else {
      TooFewStops(hdr, ms, e, nseg);
    }
  }
}
