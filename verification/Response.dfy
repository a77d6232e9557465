/** The response loop as a function of a plain byte stream (src/nw_engine.c:677-725, 1102-1170).
    Session.Receive refines it, for every way recv cuts the bytes. */
module Response {
  import opened Bytes
  import opened Header
  import opened Events
  import opened Wire

  const LINE_BUFFER := 512
  const DATA_BUFFER := 640

  // ---- one header line ----

  /** What read_line returns, leaves in its buffer and leaves in the stream. */
  datatype LineRead = LineRead(n: int, buf: seq<byte>, rest: seq<byte>)

  /** Reads on behind the i characters already stored. At end of file in the middle of a line
      the buffer is returned without a terminator: what stood behind stays. */
  function LineFrom(s: seq<byte>, e: Ending, buf: seq<byte>, i: nat): (r: LineRead)
    requires i < |buf|
    ensures |r.buf| == |buf| && |r.rest| <= |s|
    ensures r.n > i ==> |r.rest| < |s|
    decreases |buf| - i
  {
    if i + 1 >= |buf| then LineRead(i, buf[i := NUL], s)
    else if s == [] then LineRead(if e == Eof then i else -1, buf, s)
    else if s[0] == LF then LineRead(i, buf[i := NUL], s[1..])
    else LineFrom(s[1..], e, buf[i := s[0]], i + 1)
  }

  /** The first |line| bytes of the buffer replaced. */
  function Over(buf: seq<byte>, i: nat, line: seq<byte>): (r: seq<byte>)
    requires i + |line| <= |buf|
    ensures |r| == |buf|
  {
    buf[..i] + line + buf[i + |line|..]
  }

  lemma {:induction false} LineStep(line: seq<byte>, rest: seq<byte>, e: Ending, buf: seq<byte>, i: nat)
    requires LF !in line && i + |line| + 1 < |buf|
    ensures LineFrom(line + rest, e, buf, i) == LineFrom(rest, e, Over(buf, i, line), i + |line|)
    decreases |line|
  {
    if line == [] {
      assert line + rest == rest && Over(buf, i, line) == buf;
    } else {
      assert (line + rest)[0] == line[0] && (line + rest)[1..] == line[1..] + rest;
      LineStep(line[1..], rest, e, buf[i := line[0]], i + 1);
      assert Over(buf[i := line[0]], i + 1, line[1..]) == Over(buf, i, line);
    }
  }

  /** A complete line that fits is read whole and terminated. */
  lemma WholeLine(line: seq<byte>, rest: seq<byte>, e: Ending, buf: seq<byte>)
    requires LF !in line && |line| + 1 < |buf|
    ensures LineFrom(line + [LF] + rest, e, buf, 0)
         == LineRead(|line|, Over(buf, 0, line + [NUL]), rest)
    ensures NUL !in line ==> CString(Over(buf, 0, line + [NUL])) == line
  {
    assert line + [LF] + rest == line + ([LF] + rest);
    LineStep(line, [LF] + rest, e, buf, 0);
    assert ([LF] + rest)[1..] == rest;
    assert Over(buf, 0, line)[|line| := NUL] == Over(buf, 0, line + [NUL]);
    if NUL !in line {
      var full := Over(buf, 0, line + [NUL]);
      assert full[..|line|] == line;
      CStringAt(full, |line|);
    }
  }

  /** A line cut by end of file: its bytes, and behind them whatever the buffer held. */
  lemma CutLine(line: seq<byte>, e: Ending, buf: seq<byte>)
    requires LF !in line && |line| + 1 < |buf|
    ensures LineFrom(line, e, buf, 0) == LineRead(if e == Eof then |line| else -1, Over(buf, 0, line), [])
  {
    assert line + [] == line;
    LineStep(line, [], e, buf, 0);
  }

  /** A header that does not fit is cut; its tail is the next header. */
  lemma LongLineIsCut(line: seq<byte>, rest: seq<byte>, e: Ending, buf: seq<byte>)
    requires LF !in line && |buf| > 1 && |line| + 1 >= |buf|
    ensures LineFrom(line + rest, e, buf, 0)
         == LineRead(|buf| - 1, line[..|buf| - 1] + [NUL], line[|buf| - 1..] + rest)
  {
    var k := |buf| - 2;
    var head, tail := line[..k], line[k..] + rest;
    assert line + rest == head + tail;
    LineStep(head, tail, e, buf, 0);
    var b := Over(buf, 0, head);
    assert tail[0] == line[k] && tail[1..] == line[k + 1..] + rest;
    var c: seq<byte> := b[k := line[k]];
    assert c[k + 1 := NUL] == line[..k + 1] + [NUL];
  }

  // ---- the loop ----

  /** Audio handed to playback, in the format known at that moment. */
  datatype Frame = Frame(fmt: Format, data: seq<byte>)

  /** Finished: enough audio-stops. Closed: read_line returned 0. Broken: a socket error. */
  datatype Status = Running | Finished | Closed | Broken

  datatype Loop = Loop(hdr: seq<byte>, fmt: Format, stops: nat, frames: seq<Frame>, rest: seq<byte>, status: Status)

  /** The three find_int calls over one string. */
  function Update(f: Format, s: seq<byte>): (r: Format)
  {
    Format(IntOr(s, RATE, f.rate), IntOr(s, WIDTH, f.width), IntOr(s, CHANNELS, f.channels))
  }

  function AfterBlock(st: Loop, line: seq<byte>, nseg: int): (r: Loop)
    ensures |r.rest| <= |st.rest| && r.hdr == st.hdr
  {
    var f := Update(st.fmt, line);
    if Contains(line, AUDIO_STOP) then
      st.(fmt := f, stops := st.stops + 1, status := if st.stops + 1 >= nseg then Finished else Running)
    else
      var n := IntOr(line, PAYLOAD_LENGTH, 0);
      if n <= 0 then st.(fmt := f)
      else if n <= |st.rest| then
        st.(fmt := f, frames := st.frames + [Frame(f, st.rest[..n])], rest := st.rest[n..])
      else
        st.(fmt := f, frames := st.frames + [Frame(f, st.rest)], rest := [], status := Broken)
  }

  function AfterLine(st: Loop, line: seq<byte>, nseg: int): (r: Loop)
    ensures |r.rest| <= |st.rest| && r.hdr == st.hdr
  {
    var n := IntOr(line, DATA_LENGTH, 0);
    if n <= 0 then AfterBlock(st, line, nseg)
    else if n > |st.rest| then st.(rest := [], status := Broken)
    else
      var f := if n < DATA_BUFFER - 1 then Update(st.fmt, CString(st.rest[..n])) else st.fmt;
      AfterBlock(st.(fmt := f, rest := st.rest[n..]), line, nseg)
  }

  /** One trip round the loop. */
  function Trip(st: Loop, e: Ending, nseg: int): (r: Loop)
    requires st.status == Running && |st.hdr| > 0
    ensures |r.hdr| == |st.hdr|
    ensures |r.rest| <= |st.rest| && (r.status == Running ==> |r.rest| < |st.rest|)
  {
    var ln := LineFrom(st.rest, e, st.hdr, 0);
    var read := st.(hdr := ln.buf, rest := ln.rest);
    if ln.n < 0 then read.(status := Broken)
    else if ln.n == 0 then read.(status := Closed)
    else AfterLine(read, CString(ln.buf), nseg)
  }

  function Run(st: Loop, e: Ending, nseg: int): (r: Loop)
    requires |st.hdr| > 0
    ensures r.status != Running
    decreases |st.rest|, st.status == Running
  {
    if st.status == Running then Run(Trip(st, e, nseg), e, nseg) else st
  }

  /** An empty header line passes for the end of the connection: the loop stops, with everything
      behind the line unread and the connection kept. */
  lemma EmptyLineIsClose(st: Loop, rest: seq<byte>, e: Ending, nseg: int)
    requires st.status == Running && |st.hdr| > 1 && st.rest == [LF] + rest
    ensures Run(st, e, nseg) == st.(hdr := st.hdr[0 := NUL], rest := rest, status := Closed)
  {
    assert ([LF] + rest)[1..] == rest;
  }

  const NO_FORMAT := Format(0, 0, 0)

  /** The loop's state on entry. The header buffer is an uninitialised local. */
  function Entry(hdr: seq<byte>, s: seq<byte>): (st: Loop)
  {
    Loop(hdr, NO_FORMAT, 0, [], s, Running)
  }

  /** All bytes handed to playback. */
  function Audio(frames: seq<Frame>): (s: seq<byte>)
  {
    if frames == [] then [] else Audio(frames[..|frames| - 1]) + frames[|frames| - 1].data
  }

  lemma OneFrame(frames: seq<Frame>, f: Frame)
    ensures (frames + [f])[|frames|..] == [f]
    ensures Audio(frames + [f]) == Audio(frames) + f.data
  {
    assert (frames + [f])[..|frames|] == frames;
  }

  lemma {:induction false} AudioAppend(a: seq<Frame>, b: seq<Frame>)
    ensures Audio(a + b) == Audio(a) + Audio(b)
    decreases |b|
  {
    if b == [] {
      assert a + b == a;
    } else {
      assert (a + b)[..|a + b| - 1] == a + b[..|b| - 1];
      AudioAppend(a, b[..|b| - 1]);
    }
  }
}
