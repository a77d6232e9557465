/** Responses cut off in the middle: the loop never delivers foreign audio and never leaves a
    byte behind; and exactly when the cut passes for a complete response
    (src/nw_engine.c:677-692, 1106-1171). */
module Truncation {
  import opened Bytes
  import opened Header
  import opened Events
  import opened Wire
  import opened Response
  import opened Messages
  import Decoding

  // ---- an end of file inside a header line ----

  /** The torn line is taken for an audio-stop: with what stood behind it in the line buffer it names one,
      and announces no data block. */
  predicate CountsAsStop(hdr: seq<byte>, cut: seq<byte>)
    requires |hdr| == LINE_BUFFER && |cut| < LINE_BUFFER
  {
    var l := CString(Over(hdr, 0, cut));
    IntOr(l, DATA_LENGTH, 0) <= 0 && Contains(l, AUDIO_STOP)
  }

  /** A line with nothing behind it: no audio comes of it, and it finishes the responses only as their
      last audio-stop. */
  lemma DryLine(st: Loop, line: seq<byte>, nseg: int)
    requires st.status == Running && st.rest == [] && st.stops < nseg
    ensures var r := AfterLine(st, line, nseg);
            r.rest == [] && Audio(r.frames) == Audio(st.frames)
            && (r.status == Finished <==>
                  IntOr(line, DATA_LENGTH, 0) <= 0 && Contains(line, AUDIO_STOP) && st.stops + 1 >= nseg)
  {
    hide IntOr, Contains, Audio;
    OneFrame(st.frames, Frame(Update(st.fmt, line), []));
  }

  lemma DryRun(st: Loop, e: Ending, nseg: int)
    requires st.rest == [] && |st.hdr| == LINE_BUFFER
    ensures var r := Run(st, e, nseg);
            r.rest == [] && r.frames == st.frames && (r.status == Finished <==> st.status == Finished)
  {
    if st.status == Running {
      EndOfStream(st, e, nseg);
    }
  }

  /** What a torn message may leave: nothing unread, and at most its own payload played. */
  predicate Torn(st: Loop, r: Loop, payload: seq<byte>)
  {
    r.rest == [] && Audio(st.frames) <= Audio(r.frames) <= Audio(st.frames) + payload
  }

  /** The last bytes of the stream are the beginning of a header line. */
  lemma TornHeader(st: Loop, cut: seq<byte>, payload: seq<byte>, e: Ending, nseg: int)
    requires st.status == Running && |st.hdr| == LINE_BUFFER && st.rest == cut && st.stops < nseg
    requires cut != [] && LF !in cut && |cut| + 1 < LINE_BUFFER
    ensures Torn(st, Run(st, e, nseg), payload)
    ensures Run(st, e, nseg).status == Finished <==>
              e == Eof && CountsAsStop(st.hdr, cut) && st.stops + 1 >= nseg
  {
    hide AfterLine, IntOr, Contains, Audio, CString, LineFrom;
    CutLine(cut, e, st.hdr);
    var read := st.(hdr := Over(st.hdr, 0, cut), rest := []);
    if e == Eof {
      var t := AfterLine(read, CString(read.hdr), nseg);
      DryLine(read, CString(read.hdr), nseg);
      assert Trip(st, e, nseg) == t;
      DryRun(t, e, nseg);
    } else {
      assert Trip(st, e, nseg) == read.(status := Broken);
    }
  }

  // ---- a cut behind a header line ----

  lemma TornBlock(st: Loop, m: Message, nseg: int)
    requires WellFramed(m) && st.status == Running && |st.rest| < |m.block|
    ensures AfterLine(st, m.line, nseg) == st.(rest := [], status := Broken)
  {
  }

  lemma TornPayload(st: Loop, m: Message, nseg: int)
    requires WellFramed(m) && st.status == Running && |st.rest| < |m.payload|
    ensures var r := AfterBlock(st, m.line, nseg);
            r.status == Broken && r.rest == [] && Audio(r.frames) == Audio(st.frames) + st.rest
  {
    hide Contains, IntOr, Audio;
    OneFrame(st.frames, Frame(Update(st.fmt, m.line), st.rest));
  }

  /** Cut inside the data block or the payload. */
  lemma TornBody(st: Loop, m: Message, body: seq<byte>, nseg: int)
    requires WellFramed(m) && st.status == Running && st.rest == body
    requires body < m.block + m.payload
    ensures var r := AfterLine(st, m.line, nseg);
            r.status == Broken && Torn(st, r, m.payload)
  {
    hide AfterLine, AfterBlock, WellFramed, Audio, Update, CString;
    if |body| < |m.block| {
      TornBlock(st, m, nseg);
    } else {
      var data := body[|m.block|..];
      assert body == m.block + data && data < m.payload;
      BlockRead(st, m, data, nseg);
      var f := if m.block != [] && |m.block| < DATA_BUFFER - 1 then Update(st.fmt, CString(m.block)) else st.fmt;
      TornPayload(st.(fmt := f, rest := data), m, nseg);
    }
  }

  lemma BodyOf(line: seq<byte>, rest: seq<byte>, k: nat)
    requires |line| < k < |line + [LF] + rest|
    ensures (line + [LF] + rest)[..k] == line + [LF] + rest[..k - |line| - 1]
  {
  }

  lemma TornBehindHeader(st: Loop, m: Message, k: nat, e: Ending, nseg: int)
    requires WellFramed(m) && st.status == Running && |st.hdr| == LINE_BUFFER
    requires |m.line| < k < |Emit(m)| && st.rest == Emit(m)[..k]
    ensures Torn(st, Run(st, e, nseg), m.payload) && Run(st, e, nseg).status != Finished
  {
    hide AfterLine, Audio, Trip, Over;
    var body := m.block + m.payload;
    assert Emit(m) == m.line + [LF] + body;
    var part := body[..k - |m.line| - 1];
    BodyOf(m.line, body, k);
    TripLine(st, m.line, part, e, nseg);
    var read := st.(hdr := Over(st.hdr, 0, m.line + [NUL]), rest := part);
    TornBody(read, m, part, nseg);
    var t := AfterLine(read, m.line, nseg);
    DryRun(t, e, nseg);
    assert Run(st, e, nseg) == Run(t, e, nseg);
  }

  /** The stream ends inside one message. */
  lemma TornMessage(st: Loop, m: Message, k: nat, e: Ending, nseg: int)
    requires WellFramed(m) && st.status == Running && |st.hdr| == LINE_BUFFER && st.stops < nseg
    requires k < |Emit(m)| && st.rest == Emit(m)[..k]
    ensures Torn(st, Run(st, e, nseg), m.payload)
    ensures Run(st, e, nseg).status == Finished <==>
              e == Eof && 0 < k <= |m.line| && CountsAsStop(st.hdr, m.line[..k]) && st.stops + 1 >= nseg
  {
    hide CountsAsStop, Audio, Run, Announces, IsStop;
    if k == 0 {
      EndOfStream(st, e, nseg);
    } else if k <= |m.line| {
      assert st.rest == m.line[..k];
      TornHeader(st, m.line[..k], m.payload, e, nseg);
    } else {
      TornBehindHeader(st, m, k, e, nseg);
    }
  }

  // ---- whole responses, cut anywhere ----

  /** Does the loop take the first k bytes of these messages for complete responses? Either the audio-stop
      it waits for is among them, or end of file tears a header line that then counts as that audio-stop. */
  predicate Passes(hdr: seq<byte>, ms: seq<Message>, k: nat, e: Ending, stops: nat, nseg: int)
    requires |hdr| == LINE_BUFFER && AllFramed(ms)
    decreases |ms|
  {
    if ms == [] then false
    else
      var m := ms[0];
      assert WellFramed(m);
      if k < |Emit(m)| then
        e == Eof && 0 < k <= |m.line| && CountsAsStop(hdr, m.line[..k]) && stops + 1 >= nseg
      else
        (IsStop(m) && stops + 1 >= nseg)
        || Passes(Over(hdr, 0, m.line + [NUL]), ms[1..], k - |Emit(m)|, e, stops + (if IsStop(m) then 1 else 0), nseg)
  }

  lemma CutCons(ms: seq<Message>, k: nat)
    requires ms != [] && k <= |EmitAll(ms)|
    ensures k < |Emit(ms[0])| ==> EmitAll(ms)[..k] == Emit(ms[0])[..k]
    ensures k >= |Emit(ms[0])| ==>
              k - |Emit(ms[0])| <= |EmitAll(ms[1..])|
              && EmitAll(ms)[..k] == Emit(ms[0]) + EmitAll(ms[1..])[..k - |Emit(ms[0])|]
  {
    hide Emit;
  }

  /** For every stream of framed messages, cut at any byte: the loop reports success exactly if the cut passes. */
  lemma {:induction false} CutPassesIff(st: Loop, ms: seq<Message>, k: nat, e: Ending, nseg: int)
    requires AllFramed(ms) && st.status == Running && |st.hdr| == LINE_BUFFER && st.stops < nseg
    requires k <= |EmitAll(ms)| && st.rest == EmitAll(ms)[..k]
    ensures Run(st, e, nseg).status == Finished <==> Passes(st.hdr, ms, k, e, st.stops, nseg)
    decreases |ms|
  {
    hide WellFramed, Emit, Trip, IsStop, CountsAsStop, FormatBy, FramesBy, Over;
    if ms == [] {
      EndOfStream(st, e, nseg);
    } else {
      var m, more := ms[0], ms[1..];
      assert WellFramed(m);
      CutCons(ms, k);
      if k < |Emit(m)| {
        TornMessage(st, m, k, e, nseg);
      } else {
        var k' := k - |Emit(m)|;
        MessageTrip(st, m, EmitAll(more)[..k'], e, nseg);
        var next := Trip(st, e, nseg);
        assert Run(st, e, nseg) == Run(next, e, nseg);
        if next.status == Running {
          CutPassesIff(next, more, k', e, nseg);
        } else {
          assert Run(next, e, nseg) == next;
        }
      }
    }
  }

  lemma AudioCons(frames: seq<Frame>, f: Format, ms: seq<Message>)
    requires ms != []
    ensures Audio(frames) + Audio(FramesFrom(f, ms))
         == Audio(frames) + ms[0].payload + Audio(FramesFrom(FormatBy(f, ms[0]), ms[1..]))
    ensures Audio(frames + FramesBy(f, ms[0])) == Audio(frames) + ms[0].payload
  {
    hide Audio, FormatBy;
    AudioAppend(FramesBy(f, ms[0]), FramesFrom(FormatBy(f, ms[0]), ms[1..]));
    OneAudio(f, ms[0]);
    AudioAppend(frames, FramesBy(f, ms[0]));
  }

  lemma OneAudio(f: Format, m: Message)
    ensures Audio(FramesBy(f, m)) == m.payload
  {
    if m.payload != [] {
      assert FramesBy(f, m)[..0] == [];
    }
  }

  lemma {:induction false} StopsLeft(ms: seq<Message>)
    requires ms != [] && IsStop(ms[|ms| - 1])
    ensures Stops(ms) >= 1
  {
    hide IsStop;
    if |ms| > 1 {
      StopsLeft(ms[1..]);
    }
  }

  /** Responses that end in the audio-stop the utterance waits for, cut at any byte: the audio delivered is
      a prefix of theirs and nothing stays unread. */
  lemma {:induction false} CutAudio(st: Loop, ms: seq<Message>, k: nat, e: Ending, nseg: int)
    requires AllFramed(ms) && st.status == Running && |st.hdr| == LINE_BUFFER && st.stops < nseg
    requires k <= |EmitAll(ms)| && st.rest == EmitAll(ms)[..k]
    requires st.stops + Stops(ms) <= nseg && ms != [] && IsStop(ms[|ms| - 1])
    ensures var r := Run(st, e, nseg);
            r.rest == [] && Audio(r.frames) <= Audio(st.frames) + Audio(FramesFrom(st.fmt, ms))
    decreases |ms|
  {
    hide WellFramed, Emit, Trip, IsStop, CountsAsStop, FormatBy, FramesBy, Over, Audio;
    var m, more := ms[0], ms[1..];
    assert WellFramed(m);
    CutCons(ms, k);
    AudioCons(st.frames, st.fmt, ms);
    if k < |Emit(m)| {
      TornMessage(st, m, k, e, nseg);
    } else {
      var k' := k - |Emit(m)|;
      MessageTrip(st, m, EmitAll(more)[..k'], e, nseg);
      var next := Trip(st, e, nseg);
      assert Run(st, e, nseg) == Run(next, e, nseg);
      if more == [] {
        assert next.rest == [];
        DryRun(next, e, nseg);
      } else {
        StopsLeft(more);
        CutAudio(next, more, k', e, nseg);
      }
    }
  }

  lemma {:induction false} PassesWhole(hdr: seq<byte>, ms: seq<Message>, e: Ending, stops: nat, nseg: int)
    requires |hdr| == LINE_BUFFER && AllFramed(ms) && stops < nseg
    ensures Passes(hdr, ms, |EmitAll(ms)|, e, stops, nseg) <==> stops + Stops(ms) >= nseg
    decreases |ms|
  {
    hide Announces, Contains, Emit, CountsAsStop, Over;
    if ms != [] {
      var m := ms[0];
      assert WellFramed(m);
      if !(IsStop(m) && stops + 1 >= nseg) {
        PassesWhole(Over(hdr, 0, m.line + [NUL]), ms[1..], e, stops + (if IsStop(m) then 1 else 0), nseg);
      }
    }
  }

  /** Cut responses, from the start of an utterance: what is delivered, and exactly when the loop takes them
      for complete. */
  lemma CutResponses(hdr: seq<byte>, ms: seq<Message>, k: nat, e: Ending, nseg: int)
    requires AllFramed(ms) && |hdr| == LINE_BUFFER && nseg >= 1 && k <= |EmitAll(ms)|
    requires Stops(ms) == nseg && ms != [] && IsStop(ms[|ms| - 1])
    ensures var r := Run(Entry(hdr, EmitAll(ms)[..k]), e, nseg);
            r.rest == [] && Audio(r.frames) <= Audio(FramesFrom(NO_FORMAT, ms))
            && (r.status == Finished <==> Passes(hdr, ms, k, e, 0, nseg))
  {
    hide AllFramed, Run, FramesFrom, Stops, IsStop, Passes, EmitAll;
    var st := Entry(hdr, EmitAll(ms)[..k]);
    CutPassesIff(st, ms, k, e, nseg);
    CutAudio(st, ms, k, e, nseg);
    assert Audio([]) == [];
  }

  /** The same, message by message: behind whole messages that do not complete the responses, a torn header line
      passes exactly if it counts as the audio-stop that is still missing. */
  lemma TornLinePassesIff(st: Loop, before: seq<Message>, cut: seq<byte>, e: Ending, nseg: int)
    requires AllFramed(before) && st.status == Running && |st.hdr| == LINE_BUFFER
    requires cut != [] && LF !in cut && |cut| + 1 < LINE_BUFFER
    requires st.rest == EmitAll(before) + cut && st.stops + Stops(before) < nseg
    ensures Run(st, e, nseg).status == Finished <==>
              e == Eof && CountsAsStop(HdrAfter(st.hdr, before), cut) && st.stops + Stops(before) + 1 >= nseg
  {
    hide AllFramed, Run, FramesFrom, Stops, EmitAll, CountsAsStop, HdrAfter;
    MessagesRun(st, before, cut, e, nseg);
    TornHeader(Behind(st, before, cut), cut, [], e, nseg);
  }

  // ---- it happens ----

  /** All headers of the mock server begin alike. */
  lemma HeadersBeginAlike(ev: Event)
    requires Sized(ev)
    ensures |HeaderLine(ev)| >= 10 && |HeaderLine(Stop)| >= 10
    ensures HeaderLine(ev)[..10] == HeaderLine(Stop)[..10]
  {
    hide HeaderLine;
    TypeTemplate();
    NameShapes();
    HeaderIsItems(ev);
    HeaderIsItems(Stop);
  }

  /** The beginning of a line read over the whole of it changes nothing. */
  lemma Reread(hdr: seq<byte>, line: seq<byte>, cut: seq<byte>)
    requires |hdr| == LINE_BUFFER && |line| + 1 < LINE_BUFFER && NUL !in line && cut <= line
    ensures CString(Over(Over(hdr, 0, line + [NUL]), 0, cut)) == line
  {
    var b := Over(hdr, 0, line + [NUL]);
    assert Over(b, 0, cut) == b;
    assert b[..|line|] == line;
    CStringAt(b, |line|);
  }

  lemma {:induction false} HdrSnoc(hdr: seq<byte>, ms: seq<Message>, m: Message)
    requires |hdr| == LINE_BUFFER && AllFramed(ms + [m]) && WellFramed(m)
    ensures AllFramed(ms)
    ensures HdrAfter(hdr, ms + [m]) == Over(HdrAfter(hdr, ms), 0, m.line + [NUL])
    decreases |ms|
  {
    assert forall i | 0 <= i < |ms| :: ms[i] == (ms + [m])[i];
    hide WellFramed, Over;
    if ms != [] {
      var next := Over(hdr, 0, ms[0].line + [NUL]);
      assert (ms + [m])[1..] == ms[1..] + [m] && (ms + [m])[0] == ms[0];
      HdrSnoc(next, ms[1..], m);
    }
  }

  /** A torn line that repeats the beginning of an audio-stop line in front of it counts as one more. */
  lemma StaleLineCounts(hdr: seq<byte>, before: seq<Message>, stop: Message, cut: seq<byte>, nseg: int)
    requires AllFramed(before) && WellFramed(stop) && IsStop(stop) && IntOr(stop.line, DATA_LENGTH, 0) <= 0
    requires |hdr| == LINE_BUFFER && cut != [] && cut <= stop.line && Stops(before) == nseg - 2 && nseg >= 2
    ensures Run(Entry(hdr, EmitAll(before) + (Emit(stop) + cut)), Eof, nseg).status == Finished
  {
    hide Run, Contains, IntOr, Announces, Emit, Over, HdrAfter, CString;
    var all := before + [stop];
    EmitAppend(before, [stop]);
    assert [stop][1..] == [] && EmitAll([stop]) == Emit(stop) + EmitAll([]);
    assert Stops([stop]) == 1 + Stops([]);
    HdrSnoc(hdr, before, stop);
    Reread(HdrAfter(hdr, before), stop.line, cut);
    assert EmitAll(before) + (Emit(stop) + cut) == EmitAll(all) + cut;
    TornLinePassesIff(Entry(hdr, EmitAll(all) + cut), all, cut, Eof, nseg);
  }

  lemma StopLineCounts()
    ensures IntOr(HeaderLine(Stop), DATA_LENGTH, 0) <= 0 && Contains(HeaderLine(Stop), AUDIO_STOP)
  {
    DataLengthReads(Stop);
    StopReads(Stop);
  }

  /** When end of file cuts the next header behind one to ten bytes, the stale tail of the
      last audio-stop header completes it: the missing response is counted as finished. */
  lemma StaleStopCounts(hdr: seq<byte>, before: seq<Message>, ev: Event, j: nat, nseg: int)
    requires AllFramed(before) && Sized(ev) && |hdr| == LINE_BUFFER && 1 <= j <= 10
    requires Stops(before) == nseg - 2 && nseg >= 2
    ensures |HeaderLine(ev)| >= 10
    ensures Run(Entry(hdr, EmitAll(before) + (Encode(Stop) + HeaderLine(ev)[..j])), Eof, nseg).status == Finished
  {
    hide *;
    HeadersBeginAlike(ev);
    StopParts();
    Decoding.EventIsFramed(Stop);
    StopLineCounts();
    var cut := HeaderLine(ev)[..j];
    assert cut == HeaderLine(ev)[..10][..j] && cut <= HeaderLine(Stop);
    StaleLineCounts(hdr, before, Decoding.FramedOf(Stop), cut, nseg);
  }

  lemma StopParts()
    ensures Sized(Stop) && Stop.Stop? && Decoding.FramedOf(Stop).line == HeaderLine(Stop)
  {
  }
}
