/** The host side's event reader and the loop of its probe (src/wyoming.c:191-306, src/main.c:74-110). Its
    buffered reader is the engine's, line for line: Readers.Reader stands for both. */
module HostEvents {
  import opened Bytes
  import opened Header
  import opened HostScan
  import opened Events
  import opened Wire
  import opened Response
  import opened Readers

  const HEADER_SIZE := 1024
  const TYPE_MAX := 48
  const CHUNK_BUF := 8192

  /** An event as wyo_read_event reports it. */
  datatype HostEvent = HostEvent(kind: seq<byte>, payload: int, fmt: Format)

  datatype EventRead = EventRead(rc: int, ev: HostEvent, rest: seq<byte>)

  const NO_EVENT := HostEvent([], -1, NO_FORMAT)

  function LongOr(s: seq<byte>, key: seq<byte>, old_: int): (n: int)
  {
    match FindLong(s, key) case None => old_ case Some(v) => v
  }

  function StrOr(s: seq<byte>, key: seq<byte>, old_: seq<byte>): (t: seq<byte>)
  {
    match FindStr(s, key, TYPE_MAX) case None => old_ case Some(t) => t
  }

  /** rate, width and channels, where they are given. */
  function Mine(f: Format, s: seq<byte>): (r: Format)
  {
    Format(LongOr(s, RATE, f.rate), LongOr(s, WIDTH, f.width), LongOr(s, CHANNELS, f.channels))
  }

  function FromHeader(line: seq<byte>): (ev: HostEvent)
  {
    HostEvent(StrOr(line, TYPE, []), LongOr(line, PAYLOAD_LENGTH, -1), Mine(NO_FORMAT, line))
  }

  /** A data block adds what it holds; type and payload length only where the header had none. */
  function WithBlock(ev: HostEvent, data: seq<byte>): (r: HostEvent)
  {
    HostEvent(if ev.kind == [] then StrOr(data, TYPE, []) else ev.kind,
              if ev.payload < 0 then LongOr(data, PAYLOAD_LENGTH, ev.payload) else ev.payload,
              Mine(ev.fmt, data))
  }

  /** The block fills in what the header lacks, and its numbers of the format override the header's. */
  lemma BlockFills(line: seq<byte>, data: seq<byte>)
    ensures var h, r := FromHeader(line), WithBlock(FromHeader(line), data);
            && (h.kind != [] ==> r.kind == h.kind)
            && (h.kind == [] ==>
                  r.kind == match FindStr(data, Ascii("type"), 48) case Some(t) => t case None => [])
            && (h.payload >= 0 ==> r.payload == h.payload)
            && (h.payload < 0 ==>
                  r.payload == match FindLong(data, Ascii("payload_length")) case Some(n) => n case None => h.payload)
            && (FindLong(line, Ascii("payload_length")) == None ==> h.payload == -1)
            && r.fmt.rate == (match FindLong(data, Ascii("rate")) case Some(n) => n case None => h.fmt.rate)
            && r.fmt.width == (match FindLong(data, Ascii("width")) case Some(n) => n case None => h.fmt.width)
            && r.fmt.channels == match FindLong(data, Ascii("channels")) case Some(n) => n case None => h.fmt.channels
  {
    hide Ascii, FindLong, FindStr;
  }

  /** What one call depends on besides the stream: what its header buffer happens to hold, and whether
      there is memory for a data block. */
  datatype Chance = Chance(hdr: seq<byte>, memory: bool)

  /** What follows a header line: the data block, if one is announced. */
  function AfterHeader(line: seq<byte>, rest: seq<byte>, memory: bool): (r: EventRead)
    ensures |r.rest| <= |rest|
  {
    var ev, n := FromHeader(line), LongOr(line, DATA_LENGTH, -1);
    if n <= 0 then EventRead(1, ev, rest)
    else if !memory then EventRead(-1, ev, rest)
    else if n > |rest| then EventRead(-1, ev, [])
    else EventRead(1, WithBlock(ev, CString(rest[..n])), rest[n..])
  }

  /** wyo_read_event over a plain byte stream. */
  function ReadOne(s: seq<byte>, e: Ending, c: Chance): (r: EventRead)
    requires |c.hdr| > 0
    ensures |r.rest| <= |s| && (r.rc > 0 ==> |r.rest| < |s|)
  {
    var ln := LineFrom(s, e, c.hdr, 0);
    if ln.n == 0 then EventRead(0, NO_EVENT, ln.rest)
    else if ln.n < 0 then EventRead(-1, NO_EVENT, ln.rest)
    else AfterHeader(CString(ln.buf), ln.rest, c.memory)
  }

  // ---- the probe's loop ----

  datatype HostStatus = Reading | Stopped | Ended

  datatype HostLoop = HostLoop(fmt: Format, out: seq<byte>, rest: seq<byte>, status: HostStatus)

  /** A field that is not zero overrides. */
  function Pick(old_: int, n: int): (r: int)
  {
    if n != 0 then n else old_
  }

  function Adopt(f: Format, g: Format): (r: Format)
  {
    Format(Pick(f.rate, g.rate), Pick(f.width, g.width), Pick(f.channels, g.channels))
  }

  /** An audio payload is written out in pieces; of a payload cut short, the whole pieces. A chunk without
      a payload length ends the loop like one cut short. */
  function TakeAudio(st: HostLoop, n: int): (r: HostLoop)
    ensures |r.rest| <= |st.rest|
  {
    if n < 0 then st.(status := Ended)
    else if n <= |st.rest| then st.(out := st.out + st.rest[..n], rest := st.rest[n..])
    else st.(out := st.out + st.rest[..|st.rest| - |st.rest| % CHUNK_BUF], rest := [], status := Ended)
  }

  function SkipPayload(st: HostLoop, n: int): (r: HostLoop)
    ensures |r.rest| <= |st.rest|
  {
    if n <= 0 then st else if n <= |st.rest| then st.(rest := st.rest[n..]) else st.(rest := [])
  }

  function OnEvent(st: HostLoop, ev: HostEvent): (r: HostLoop)
    ensures |r.rest| <= |st.rest|
  {
    var st' := st.(fmt := Adopt(st.fmt, ev.fmt));
    if ev.kind == AUDIO_CHUNK then TakeAudio(st', ev.payload)
    else if ev.kind == AUDIO_STOP then st'.(status := Stopped)
    else SkipPayload(st', ev.payload)
  }

  /** Audio is written out, an audio-stop ends the loop, and of any other event the payload is passed over. */
  lemma EventDoes(st: HostLoop, ev: HostEvent)
    ensures var r, n := OnEvent(st, ev), ev.payload;
            && (ev.kind == Ascii("audio-chunk") && 0 <= n <= |st.rest| ==>
                  r.out == st.out + st.rest[..n] && r.rest == st.rest[n..] && r.status == st.status)
            && (ev.kind == Ascii("audio-stop") ==> r.out == st.out && r.rest == st.rest && r.status == Stopped)
            && (ev.kind != Ascii("audio-chunk") && ev.kind != Ascii("audio-stop") ==>
                  r.out == st.out && r.status == st.status
                  && r.rest == if n <= 0 then st.rest else if n <= |st.rest| then st.rest[n..] else [])
  {
    OtherNames();
    hide Ascii;
  }

  lemma OtherNames()
    ensures Ascii("audio-chunk") != Ascii("audio-stop")
  {
    assert |Ascii("audio-chunk")| == 11 && |Ascii("audio-stop")| == 10;
  }

  function HostTrip(st: HostLoop, e: Ending, c: Chance): (r: HostLoop)
    requires st.status == Reading && |c.hdr| > 0
    ensures |r.rest| <= |st.rest| && (r.status == Reading ==> |r.rest| < |st.rest|)
  {
    var ev := ReadOne(st.rest, e, c);
    if ev.rc <= 0 then st.(rest := ev.rest, status := Ended) else OnEvent(st.(rest := ev.rest), ev.ev)
  }

  predicate AllChances(cs: seq<Chance>)
  {
    forall c | c in cs :: |c.hdr| == HEADER_SIZE
  }

  /** One trip for each chance, until the loop ends. */
  function HostRun(st: HostLoop, e: Ending, cs: seq<Chance>): (r: HostLoop)
    requires AllChances(cs)
    decreases |cs|
  {
    if cs == [] || st.status != Reading then st
    else HostRun(HostTrip(st, e, cs[0]), e, cs[1..])
  }

  function HostEntry(s: seq<byte>): (st: HostLoop)
  {
    HostLoop(NO_FORMAT, [], s, Reading)
  }

  // ---- the reader refines it ----

  lemma KeysAreStrings()
    ensures NUL !in TYPE && NUL !in RATE && NUL !in WIDTH && NUL !in CHANNELS
    ensures NUL !in DATA_LENGTH && NUL !in PAYLOAD_LENGTH
  {
    NamesAreSafe();
  }

  method MineFrom(f: Format, s: seq<byte>) returns (r: Format)
    ensures r == Mine(f, s)
  {
    KeysAreStrings();
    var found, rate := JsonFindInt(s, RATE, f.rate);
    var width, channels;
    found, width := JsonFindInt(s, WIDTH, f.width);
    found, channels := JsonFindInt(s, CHANNELS, f.channels);
    r := Format(rate, width, channels);
  }

  method HeaderEvent(line: seq<byte>) returns (ev: HostEvent, data: int)
    ensures ev == FromHeader(line) && data == LongOr(line, DATA_LENGTH, -1)
  {
    KeysAreStrings();
    hide FindLong, FindStr, Ascii;
    var found, kind := JsonFindStr(line, TYPE, [], TYPE_MAX);
    var payload;
    found, payload := JsonFindInt(line, PAYLOAD_LENGTH, -1);
    var fmt := MineFrom(NO_FORMAT, line);
    found, data := JsonFindInt(line, DATA_LENGTH, -1);
    ev := HostEvent(kind, payload, fmt);
  }

  method BlockEvent(ev: HostEvent, data: seq<byte>) returns (r: HostEvent)
    ensures r == WithBlock(ev, data)
  {
    KeysAreStrings();
    hide FindLong, FindStr, Ascii;
    var found, kind, payload := false, ev.kind, ev.payload;
    if ev.kind == [] { found, kind := JsonFindStr(data, TYPE, [], TYPE_MAX); }
    var fmt := MineFrom(ev.fmt, data);
    if ev.payload < 0 { found, payload := JsonFindInt(data, PAYLOAD_LENGTH, ev.payload); }
    r := HostEvent(kind, payload, fmt);
  }

  /** The data block of an event, read and mined. */
  method ReadBlockInto(rd: Reader, memory: bool, ev0: HostEvent, n: nat) returns (rc: int, ev: HostEvent)
    requires rd.Valid() && rd.sock != null && n > 0
    modifies rd`rpos, rd`rlen, rd.rbuf, rd.sock`taken
    ensures rd.Valid() && rd.sock.End() == old(rd.sock.End())
    ensures !memory ==> rc == -1 && ev == ev0 && rd.Unread() == old(rd.Unread())
    ensures memory && n > |old(rd.Unread())| ==> rc == -1 && ev == ev0 && rd.Unread() == []
    ensures memory && n <= |old(rd.Unread())| ==>
              rc == 1 && ev == WithBlock(ev0, CString(old(rd.Unread())[..n])) && rd.Unread() == old(rd.Unread())[n..]
  {
    hide Reader.Valid, Reader.Unread, Socket.End, WithBlock, CString;
    if !memory { return -1, ev0; }
    var block := new byte[n + 1];
    var r := rd.ReadBlock(block, n);
    if r != 0 { return -1, ev0; }
    block[n] := NUL;
    CStringEnds(block[..], n);
    rc := 1;
    ev := BlockEvent(ev0, CString(block[..]));
  }

  /** wyo_read_event, for every way the bytes arrive. */
  method ReadEvent(rd: Reader, memory: bool) returns (rc: int, ev: HostEvent, ghost c: Chance)
    requires rd.Valid() && rd.sock != null
    modifies rd`rpos, rd`rlen, rd.rbuf, rd.sock`taken
    ensures rd.Valid() && rd.sock.End() == old(rd.sock.End()) && |c.hdr| == 1024 && c.memory == memory
    ensures ReadOne(old(rd.Unread()), rd.sock.End(), c) == EventRead(rc, ev, rd.Unread())
  {
    hide Reader.Valid, Reader.Unread, Socket.End, FromHeader, WithBlock, LongOr, Ascii, CString;
    var header := new byte[HEADER_SIZE];
    c := Chance(header[..], memory);
    var ln := rd.ReadLine(header);
    if ln == 0 { return 0, NO_EVENT, c; }
    if ln < 0 { return -1, NO_EVENT, c; }
    var n;
    ev, n := HeaderEvent(CString(header[..]));
    rc := 1;
    if n > 0 { rc, ev := ReadBlockInto(rd, memory, ev, n); }
  }

  lemma WholePieces(n: nat, done: nat, all: nat)
    requires done % CHUNK_BUF == 0 && done <= all && all - done < CHUNK_BUF
    ensures all - all % CHUNK_BUF == done
  {
    var k := done / CHUNK_BUF;
    assert all == k * CHUNK_BUF + (all - done);
    assert all / CHUNK_BUF == k;
  }

  /** Reads a payload through the probe's chunk buffer; got collects what is written out. What is left
      afterwards is negative if the payload was cut short, or had no length in the first place. */
  method ReadPieces(rd: Reader, n: int) returns (left: int, got: seq<byte>)
    requires rd.Valid() && rd.sock != null
    modifies rd`rpos, rd`rlen, rd.rbuf, rd.sock`taken
    ensures rd.Valid() && rd.sock.End() == old(rd.sock.End())
    ensures left < 0 <==> n < 0 || n > |old(rd.Unread())|
    ensures n <= 0 ==> got == [] && rd.Unread() == old(rd.Unread())
    ensures 0 < n <= |old(rd.Unread())| ==> got == old(rd.Unread())[..n] && rd.Unread() == old(rd.Unread())[n..]
    ensures n > |old(rd.Unread())| ==>
              rd.Unread() == [] && got == old(rd.Unread())[..|old(rd.Unread())| - |old(rd.Unread())| % 8192]
  {
    hide Reader.Valid, Reader.Unread, Socket.End;
    ghost var s := rd.Unread();
    var buf := new byte[CHUNK_BUF];
    left := n;
    ghost var done := 0;
    got := [];
    while left > 0
      invariant rd.Valid() && rd.sock.End() == old(rd.sock.End()) && done <= |s|
      invariant n > 0 ==> done + left == n && left >= 0
      invariant n <= 0 ==> left == n && done == 0
      invariant left > 0 ==> done % CHUNK_BUF == 0
      invariant got == s[..done] && rd.Unread() == s[done..]
    {
      var want := if left < CHUNK_BUF then left else CHUNK_BUF;
      var r := rd.ReadBlock(buf, want);
      if r != 0 {
        WholePieces(n, done, |s|);
        return -1, got;
      }
      assert s[..done] + s[done..][..want] == s[..done + want];
      got := got + buf[..want];
      left := left - want;
      done := done + want;
    }
  }

  lemma {:induction false} HostRunSnoc(st: HostLoop, e: Ending, cs: seq<Chance>, c: Chance)
    requires AllChances(cs) && |c.hdr| == HEADER_SIZE
    ensures AllChances(cs + [c])
    ensures var r := HostRun(st, e, cs);
            HostRun(st, e, cs + [c]) == if r.status == Reading then HostTrip(r, e, c) else r
    decreases |cs|
  {
    if cs == [] {
      assert [] + [c] == [c] && [c][1..] == [];
    } else if st.status == Reading {
      assert (cs + [c])[1..] == cs[1..] + [c];
      HostRunSnoc(HostTrip(st, e, cs[0]), e, cs[1..], c);
    }
  }

  /** What one event does: the body of the probe's loop. */
  method HandleEvent(rd: Reader, ev: HostEvent, f: Format, written: seq<byte>)
    returns (fmt: Format, out: seq<byte>, status: HostStatus)
    requires rd.Valid() && rd.sock != null
    modifies rd`rpos, rd`rlen, rd.rbuf, rd.sock`taken
    ensures rd.Valid() && rd.sock.End() == old(rd.sock.End())
    ensures HostLoop(fmt, out, rd.Unread(), status) == OnEvent(HostLoop(f, written, old(rd.Unread()), Reading), ev)
  {
    hide Reader.Valid, Reader.Unread, Socket.End, Ascii;
    fmt, out, status := Adopt(f, ev.fmt), written, Reading;
    if ev.kind == AUDIO_CHUNK {
      var left, got := ReadPieces(rd, ev.payload);
      assert written + [] == written;
      out := written + got;
      if left < 0 { status := Ended; }
    } else if ev.kind == AUDIO_STOP {
      status := Stopped;
    } else if ev.payload > 0 {
      var left, got := ReadPieces(rd, ev.payload);
    }
  }

  /** The probe's loop refines HostRun, for every way the bytes arrive. `memory`: whether the block of the
      n-th event can be allocated. */
  method Probe(rd: Reader, memory: nat -> bool)
    returns (fmt: Format, out: seq<byte>, status: HostStatus, ghost cs: seq<Chance>)
    requires rd.Valid() && rd.sock != null
    modifies rd`rpos, rd`rlen, rd.rbuf, rd.sock`taken
    ensures rd.Valid() && status != Reading && AllChances(cs)
    ensures forall i | 0 <= i < |cs| :: cs[i].memory == memory(i)
    ensures HostRun(HostEntry(old(rd.Unread())), rd.sock.End(), cs) == HostLoop(fmt, out, rd.Unread(), status)
  {
    hide Reader.Valid, Reader.Unread, Socket.End, OnEvent, ReadOne;
    ghost var s, e := rd.Unread(), rd.sock.End();
    fmt, out, status, cs := NO_FORMAT, [], Reading, [];
    var events := 0;
    while status == Reading
      invariant rd.Valid() && rd.sock.End() == e && AllChances(cs) && events == |cs|
      invariant forall i | 0 <= i < |cs| :: cs[i].memory == memory(i)
      invariant HostRun(HostEntry(s), e, cs) == HostLoop(fmt, out, rd.Unread(), status)
      decreases |rd.Unread()|, status == Reading
    {
      ghost var before := HostLoop(fmt, out, rd.Unread(), status);
      var rc, ev, c := ReadEvent(rd, memory(events));
      HostRunSnoc(HostEntry(s), e, cs, c);
      cs := cs + [c];
      events := events + 1;
      if rc <= 0 {
        status := Ended;
      } else {
        fmt, out, status := HandleEvent(rd, ev, fmt, out);
        assert HostLoop(fmt, out, rd.Unread(), status) == HostTrip(before, e, c);
      }
    }
  }
}
