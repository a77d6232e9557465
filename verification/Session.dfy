/** The held connection of the device task: response loop, sending and retrying
    (src/nw_engine.c:711-737, 775-781, 1042-1193). */
module Session {
  import opened Bytes
  import opened Header
  import opened Events
  import opened Wire
  import opened Response
  import opened Messages
  import opened Readers
  import opened Request
  import opened Segments
  import opened Pipeline
  import opened Pairing
  import opened Sounds
  import opened Exchanges
  import opened Counting
  import Truncation
  import Player
  import Wav

  /** How the server behind each endpoint answers. */
  type Servers = (seq<byte>, int) -> Answerer

  ghost predicate AllPolite(servers: Servers)
  {
    forall host, port :: Polite(servers(host, port))
  }

  /** A new connection: how many bytes it carries from the server, how it then ends, and which sends it takes. */
  datatype Route = Route(limit: nat, ending: Ending, accepts: nat -> bool)

  /** Which calls of gethostbyname and connect succeed, in order, and what the connections then made are like. */
  datatype Net = Net(answers: nat -> bool, routes: nat -> Route)

  /** Every name resolves, every host answers, and no link ever refuses a send. */
  ghost predicate Reliable(net: Net)
  {
    AllGranted(net.answers) && forall k: nat :: AllGranted(net.routes(k).accepts)
  }

  /** Every attempt got a connection. */
  predicate AllConnected(ts: seq<Try>)
  {
    forall t | t in ts :: t.r != NWERR_RESOLVE && t.r != NWERR_CONNECT
  }

  class Session {
    const servers: Servers
    const net: Net
    const rd: Reader
    const player: Player.Player
    var chost: seq<byte>
    var cport: int
    var asked: nat               // calls of gethostbyname and connect so far
    var made: nat                // connections so far

    constructor (servers: Servers, net: Net, mode: int, capture: bool, ahi: nat -> bool, dos: nat -> bool)
      ensures Valid() && Clean() && rd.sock == null && this.servers == servers && this.net == net
      ensures asked == 0 && made == 0 && player.ahiMode == mode && player.ahi == ahi
      ensures player.tap.dos == dos && player.tap.enabled == capture
      ensures player.fed == [] && player.State() == Voice(Shut, false, [], [], [])
      ensures fresh(rd) && fresh(rd.rbuf) && fresh(player.Repr())
    {
      this.servers, this.net, asked, made := servers, net, 0, 0;
      rd := new Reader();
      player := new Player.Player(mode, capture, ahi, dos);
      chost, cport := [], -1;
    }

    /** A held connection on which nothing is left over from earlier utterances. */
    ghost predicate Clean()
      requires Valid()
      reads this, rd, rd.rbuf, rd.sock, player, player.tap, player.tap.fh, player.ahiBuf
    {
      rd.sock != null ==> Partial(rd.sock.sent) == [] && rd.sock.Pending() == []
    }

    ghost predicate Valid(): (v: bool)
      reads this, rd, rd.rbuf, rd.sock, player, player.tap, player.tap.fh, player.ahiBuf
      ensures v ==> rd.Valid() && player.ahiBuf != rd.rbuf
    {
      && rd.Valid() && player.Valid() && player.ahiBuf != rd.rbuf
      && (rd.sock != null ==> rd.sock.server == ServerOf(servers(chost, cport)))
      && (rd.sock != null && Reliable(net) ==> AllGranted(rd.sock.accepts))
    }

    /** How many names did not resolve and hosts did not answer. */
    ghost function Refused(): (n: nat)
      reads `asked
    {
      Refusals(net.answers, asked)
    }

    /** A gethostbyname or a connect. */
    method Ask() returns (granted: bool)
      modifies `asked
      ensures asked == old(asked) + 1 && granted == net.answers(old(asked))
      ensures Refused() == old(Refused()) + if granted then 0 else 1
    {
      granted := net.answers(asked);
      asked := asked + 1;
    }

    /** What playback did since the voice was v, the samples fed were `fed` and `refused` calls had failed. */
    ghost predicate Handed(v: Voice, fed: seq<byte>, refused: nat, frames: seq<Frame>, p: Playing)
      reads player
    {
      player.Refused() >= refused
      && Delivered(v, player.State(), fed, player.fed, player.Refused() == refused, frames, p)
    }

    /** One piece of a payload: whatever is buffered, up to what is still wanted. */
    method PlayPiece(want: nat) returns (take: int, ghost piece: seq<byte>)
      requires Valid() && rd.sock != null && (player.ahiOpened ==> player.prerolled) && want > 0
      modifies rd`rpos, rd`rlen, rd.rbuf, rd.sock`taken, player`asked
      modifies player`ahiLen, player`ahiPlayStarted, player`pieces, player`fed, player.ahiBuf, player.tap, player.tap.fh
      ensures Valid() && rd.sock.End() == old(rd.sock.End()) && player.Refused() >= old(player.Refused())
      ensures player.tap.fh == old(player.tap.fh) || fresh(player.tap.fh)
      ensures old(rd.Unread()) == [] <==> take <= 0
      ensures take <= 0 ==> rd.Unread() == [] && player.fed == old(player.fed) && player.pieces == old(player.pieces)
      ensures take > 0 ==> take <= want && take <= |old(rd.Unread())|
                           && piece == old(rd.Unread())[..take] && rd.Unread() == old(rd.Unread())[take..]
                           && player.fed == old(player.fed) + (if player.ahiOpened then piece else [])
                           && player.pieces == old(player.pieces) + (if player.ahiOpened then [piece] else [])
    {
      hide Player.Player.Refused, Reader.Valid, Reader.Unread, Player.Player.Valid, Socket.End;
      take := rd.NextPiece(want);
      piece := [];
      if take <= 0 { return; }
      piece := rd.rbuf[rd.rpos..rd.rpos + take];
      if player.ahiOpened { player.WritePcm(rd.rbuf[rd.rpos..rd.rpos + take]); }
      rd.Skip(take);
    }

    /** play_payload: hands the payload on piece by piece, as recv cut it. */
    method PlayPayload(len: nat) returns (got: int, ghost pieces: seq<seq<byte>>)
      requires Valid() && rd.sock != null && (player.ahiOpened ==> player.prerolled)
      modifies rd`rpos, rd`rlen, rd.rbuf, rd.sock`taken, player`asked
      modifies player`ahiLen, player`ahiPlayStarted, player`pieces, player`fed, player.ahiBuf, player.tap, player.tap.fh
      ensures Valid() && rd.sock.End() == old(rd.sock.End()) && player.Refused() >= old(player.Refused())
      ensures player.tap.fh == old(player.tap.fh) || fresh(player.tap.fh)
      ensures len <= |old(rd.Unread())| ==>
                got == len && Concat(pieces) == old(rd.Unread())[..len] && rd.Unread() == old(rd.Unread())[len..]
      ensures len > |old(rd.Unread())| ==> got == -1 && Concat(pieces) == old(rd.Unread()) && rd.Unread() == []
      ensures player.fed == old(player.fed) + (if player.ahiOpened then Concat(pieces) else [])
      ensures player.pieces == old(player.pieces) + (if player.ahiOpened then pieces else [])
    {
      hide Player.Player.Refused, Valid, Reader.Unread, Socket.End, Concat;
      ghost var s0 := rd.Unread();
      got, pieces := 0, [];
      NoPieces();
      var left: nat := len;
      while left > 0
        invariant got + left == len && 0 <= got <= |s0|
        invariant Valid() && rd.sock.End() == old(rd.sock.End()) && player.Refused() >= old(player.Refused())
        invariant player.tap.fh == old(player.tap.fh) || fresh(player.tap.fh)
        invariant rd.Unread() == s0[got..] && Concat(pieces) == s0[..got]
        invariant player.fed == old(player.fed) + (if player.ahiOpened then Concat(pieces) else [])
        invariant player.pieces == old(player.pieces) + (if player.ahiOpened then pieces else [])
        decreases left
      {
        var take;
        ghost var piece;
        take, piece := PlayPiece(left);
        if take <= 0 {
          got := -1;
          return;
        }
        ConcatSnoc(pieces, piece);
        pieces := pieces + [piece];
        left := left - take;
        got := got + take;
      }
    }

    /** The three find_int calls over one string. */
    method UpdateFormat(f: Format, line: seq<byte>) returns (r: Format)
      ensures r == Update(f, line)
    {
      NamesAreSafe();
      var found, rate, width, channels;
      found, rate := FindInteger(line, RATE, f.rate);
      found, width := FindInteger(line, WIDTH, f.width);
      found, channels := FindInteger(line, CHANNELS, f.channels);
      return Format(rate, width, channels);
    }

    /** The data block of an event: read and mined, or skipped when it is too long. */
    method ReadData(line: seq<byte>, f: Format) returns (ok: bool, r: Format)
      requires rd.Valid() && rd.sock != null
      modifies rd`rpos, rd`rlen, rd.rbuf, rd.sock`taken
      ensures rd.Valid() && rd.sock.End() == old(rd.sock.End())
      ensures IntOr(line, DATA_LENGTH, 0) <= 0 ==> ok && r == f && rd.Unread() == old(rd.Unread())
      ensures IntOr(line, DATA_LENGTH, 0) > |old(rd.Unread())| ==> !ok && r == f && rd.Unread() == []
      ensures 0 < IntOr(line, DATA_LENGTH, 0) <= |old(rd.Unread())| ==>
                ok && rd.Unread() == old(rd.Unread())[IntOr(line, DATA_LENGTH, 0)..]
                && r == if IntOr(line, DATA_LENGTH, 0) < 639
                        then Update(f, CString(old(rd.Unread())[..IntOr(line, DATA_LENGTH, 0)])) else f
    {
      hide Reader.Valid, Reader.Unread, Socket.End, IntOr, Update, CString;
      NamesAreSafe();
      var found, n := FindInteger(line, DATA_LENGTH, 0);
      if !found { NotFoundIsZero(line, DATA_LENGTH); }
      if !found || n <= 0 { return true, f; }
      if n < DATA_BUFFER - 1 {
        var dbuf := new byte[DATA_BUFFER];
        var e := rd.ReadBlock(dbuf, n);
        if e != 0 { return false, f; }
        dbuf[n] := NUL;
        CStringEnds(dbuf[..], n);
        r := UpdateFormat(f, CString(dbuf[..]));
        ok := true;
      } else {
        var e := rd.SkipBlock(n);
        ok, r := e == 0, f;
      }
    }

    /** The audio device is made ready, if it can be. */
    method Prepare(g: Format)
      requires Valid()
      modifies player, player.ahiBuf
      ensures Valid() && Steady() && rd.Unread() == old(rd.Unread())
      ensures player.fed == old(player.fed) && player.Refused() >= old(player.Refused())
      ensures player.ahiOpened ==> player.prerolled
      ensures player.Refused() == old(player.Refused()) ==> player.State() == Prepared(old(player.State()), g)
    {
      hide Player.Player.Refused, Reader.Valid, Reader.Unread, Player.Player.Valid, Prepared;
      player.Prepare(g.rate, g.width, g.channels);
    }

    /** A payload: the audio device is made ready for its format, if it can be, and gets the bytes. */
    method PlayFrame(g: Format, len: nat) returns (played: int, ghost data: seq<byte>, ghost p: Playing)
      requires Valid() && rd.sock != null && len > 0
      modifies rd`rpos, rd`rlen, rd.rbuf, rd.sock`taken, player, player.ahiBuf, player.tap, player.tap.fh
      ensures Valid() && rd.sock.End() == old(rd.sock.End()) && Steady()
      ensures var n := Min(len, |old(rd.Unread())|);
              data == old(rd.Unread())[..n] && rd.Unread() == old(rd.Unread())[n..]
      ensures played == if len <= |old(rd.Unread())| then len else -1
      ensures Handed(old(player.State()), old(player.fed), old(player.Refused()), [Frame(g, data)], p)
    {
      hide Player.Player.Refused, Valid, Reader.Unread, Socket.End, Delivered, Prepared, Concat;
      ghost var v, fed, refused := player.State(), player.fed, player.Refused();
      Prepare(g);
      ghost var ready := player.State();
      ghost var pieces;
      played, pieces := PlayPayload(len);
      data := Concat(pieces);
      p := Playing([player.ahiOpened], [pieces]);
      assert player.State() == Fed(ready, pieces);
      OneDelivered(v, player.State(), fed, player.fed, player.Refused() == refused, Frame(g, data),
                   player.ahiOpened, pieces);
    }

    /** Stop, payload or neither: the second half of a trip round the loop. */
    method AfterData(line: seq<byte>, f: Format, stops: nat, nseg: int, ghost st: Loop)
      returns (status: Status, g: Format, n: nat, got: nat, ghost end: Loop, ghost p: Playing)
      requires Valid() && rd.sock != null
      requires st == Loop(st.hdr, f, stops, st.frames, rd.Unread(), Running)
      modifies rd`rpos, rd`rlen, rd.rbuf, rd.sock`taken, player, player.ahiBuf, player.tap, player.tap.fh
      ensures Valid() && rd.sock.End() == old(rd.sock.End()) && Steady()
      ensures end == AfterBlock(st, line, nseg)
      ensures status == end.status && g == end.fmt && n == end.stops && rd.Unread() == end.rest
      ensures st.frames <= end.frames
      ensures Handed(old(player.State()), old(player.fed), old(player.Refused()), end.frames[|st.frames|..], p)
      ensures status != Broken ==> |Audio(end.frames)| == |Audio(st.frames)| + got
    {
      hide Player.Player.Refused, Valid, Reader.Unread, Socket.End;
      hide Contains, IntOr, Update, Delivered, Audio;
      NothingDelivered(player.State(), player.fed, true, st.frames);
      NamesAreSafe();
      g := UpdateFormat(f, line);
      n, got, p := stops, 0, SILENCE;
      var stop := ContainsSub(line, AUDIO_STOP);
      if stop {
        n := n + 1;
        status := if n >= nseg then Finished else Running;
        end := AfterBlock(st, line, nseg);
        return;
      }
      var found, len := FindInteger(line, PAYLOAD_LENGTH, 0);
      if !found { NotFoundIsZero(line, PAYLOAD_LENGTH); }
      end := AfterBlock(st, line, nseg);
      if !found || len <= 0 {
        status := Running;
        return;
      }
      var played;
      ghost var data;
      played, data, p := PlayFrame(g, len);
      OneFrame(st.frames, Frame(g, data));
      assert st.rest[..|st.rest|] == st.rest;
      assert end.frames == st.frames + [Frame(g, data)];
      if played < 0 {
        status := Broken;
      } else {
        status, got := Running, played;
      }
    }

    /** A trip round the loop behind its header line. */
    method OneEvent(line: seq<byte>, f: Format, stops: nat, nseg: int, ghost st: Loop)
      returns (status: Status, g: Format, n: nat, got: nat, ghost end: Loop, ghost p: Playing)
      requires Valid() && rd.sock != null
      requires st == Loop(st.hdr, f, stops, st.frames, rd.Unread(), Running)
      modifies rd`rpos, rd`rlen, rd.rbuf, rd.sock`taken, player, player.ahiBuf, player.tap, player.tap.fh
      ensures Valid() && rd.sock.End() == old(rd.sock.End()) && Steady()
      ensures end == AfterLine(st, line, nseg)
      ensures status == end.status && g == end.fmt && n == end.stops && rd.Unread() == end.rest
      ensures st.frames <= end.frames
      ensures Handed(old(player.State()), old(player.fed), old(player.Refused()), end.frames[|st.frames|..], p)
      ensures status != Broken ==> |Audio(end.frames)| == |Audio(st.frames)| + got
    {
      hide Player.Player.Refused, Reader.Valid, Reader.Unread, Player.Player.Valid, Socket.End;
      hide IntOr, Update, Delivered, Audio, AfterBlock;
      NothingDelivered(player.State(), player.fed, true, st.frames);
      var ok;
      ok, g := ReadData(line, f);
      if !ok {
        status, n, got, p := Broken, stops, 0, SILENCE;
        end := st.(rest := [], status := Broken);
        return;
      }
      status, g, n, got, end, p := AfterData(line, g, stops, nseg, st.(fmt := g, rest := rd.Unread()));
    }

    /** read_line into a buffer of the caller. */
    method NextLine(hdr: array<byte>) returns (n: int)
      requires Valid() && rd.sock != null && hdr != rd.rbuf && hdr != player.ahiBuf && hdr.Length > 0
      modifies rd`rpos, rd`rlen, rd.rbuf, rd.sock`taken, hdr
      ensures Valid() && rd.sock.End() == old(rd.sock.End())
      ensures LineFrom(old(rd.Unread()), rd.sock.End(), old(hdr[..]), 0) == LineRead(n, hdr[..], rd.Unread())
    {
      hide Player.Player.Refused, Reader.Valid, Reader.Unread, Player.Player.Valid, Socket.End, LineFrom;
      n := rd.ReadLine(hdr);
    }

    /** A trip round the loop: a header line and what it announces, or the end of the loop. */
    method OneTrip(hdr: array<byte>, f: Format, stops: nat, nseg: int, ghost st: Loop)
      returns (status: Status, g: Format, n: nat, got: nat, ghost end: Loop, ghost p: Playing)
      requires Valid() && rd.sock != null && hdr != rd.rbuf && hdr != player.ahiBuf && hdr.Length > 0
      requires st == Loop(hdr[..], f, stops, st.frames, rd.Unread(), Running) && stops < nseg
      modifies rd`rpos, rd`rlen, rd.rbuf, rd.sock`taken, hdr
      modifies player, player.ahiBuf, player.tap, player.tap.fh
      ensures Valid() && rd.sock.End() == old(rd.sock.End()) && Steady()
      ensures end == Trip(st, rd.sock.End(), nseg)
      ensures end == Loop(hdr[..], g, n, end.frames, rd.Unread(), status) && (n >= nseg <==> status == Finished)
      ensures st.frames <= end.frames
      ensures Handed(old(player.State()), old(player.fed), old(player.Refused()), end.frames[|st.frames|..], p)
      ensures status != Broken ==> |Audio(end.frames)| == |Audio(st.frames)| + got
    {
      hide Player.Player.Refused, Valid, Reader.Unread, Socket.End, Delivered, Audio, LineFrom, AfterLine, CString;
      NothingDelivered(player.State(), player.fed, true, st.frames);
      g, n, got, p := f, stops, 0, SILENCE;
      var k := NextLine(hdr);
      end := st.(hdr := hdr[..], rest := rd.Unread());
      if k <= 0 {
        status := if k < 0 then Broken else Closed;
        end := end.(status := status);
      } else {
        StopsFinish(end, CString(hdr[..]), nseg);
        status, g, n, got, end, p := OneEvent(CString(hdr[..]), f, stops, nseg, end);
      }
    }

    /** The response loop (from the first read_line to its last break) refines Run over the byte
        stream, for every way recv cuts it; and playback gets its frames, in the pieces recv made. */
    method Receive(nseg: int)
      returns (r: int, sockerr: bool, ghost hdr0: seq<byte>, ghost end: Loop, ghost p: Playing)
      requires Valid() && rd.sock != null && nseg >= 1
      modifies rd`rpos, rd`rlen, rd.rbuf, rd.sock`taken, player, player.ahiBuf, player.tap, player.tap.fh
      ensures Valid() && Steady() && |hdr0| == 512
      // from no format, no audio-stop and no audio on
      ensures end == Run(Loop(hdr0, Format(0, 0, 0), 0, [], old(rd.Unread()), Running), old(rd.sock.End()), nseg)
      ensures rd.Unread() == end.rest && (sockerr <==> end.status == Broken)
      ensures r == if end.status == Finished then |Audio(end.frames)| else NWERR_PROTO
      ensures Handed(old(player.State()), old(player.fed), old(player.Refused()), end.frames, p)
    {
      hide Player.Player.Refused, Valid, Reader.Unread, Socket.End, Delivered, Audio, Trip;
      var hdr := new byte[LINE_BUFFER];
      hdr0 := hdr[..];
      var total, stops: nat, fmt := 0, 0, NO_FORMAT;
      var status := Running;
      end, p := Entry(hdr0, rd.Unread()), SILENCE;
      ghost var v, fed, refused := player.State(), player.fed, player.Refused();
      NothingDelivered(v, fed, true, []);
      NoAudio();
      ghost var e, whole := rd.sock.End(), Run(end, rd.sock.End(), nseg);
      while status == Running
        invariant Valid() && Steady() && rd.sock.End() == e && (player.ahiBuf != null ==> player.ahiBuf != hdr)
        invariant end == Loop(hdr[..], fmt, stops, end.frames, rd.Unread(), status)
        invariant Run(end, e, nseg) == whole && (stops >= nseg <==> status == Finished)
        invariant status != Broken ==> total == |Audio(end.frames)|
        invariant Handed(v, fed, refused, end.frames, p)
        decreases |rd.Unread()|, status == Running
      {
        var got;
        ghost var q;
        ghost var before, v1, fed1, refused1 := end, player.State(), player.fed, player.Refused();
        status, fmt, stops, got, end, q := OneTrip(hdr, fmt, stops, nseg, end);
        total := total + got;
        MoreHanded(v, v1, fed, fed1, refused, refused1, before.frames, end.frames, p, q);
        p := Followed(p, q);
      }
      sockerr := status == Broken;
      r := if stops >= nseg then total else NWERR_PROTO;
    }

    lemma MoreHanded(v: Voice, v1: Voice, fed: seq<byte>, fed1: seq<byte>, refused: nat, refused1: nat,
                     a: seq<Frame>, b: seq<Frame>, p: Playing, q: Playing)
      requires a <= b && refused1 >= refused
      requires Delivered(v, v1, fed, fed1, refused1 == refused, a, p) && Handed(v1, fed1, refused1, b[|a|..], q)
      ensures Handed(v, fed, refused, b, Followed(p, q))
    {
      assert b == a + b[|a|..];
      DeliveredAppend(v, v1, player.State(), fed, fed1, player.fed, refused1 == refused, player.Refused() == refused1,
                      a, b[|a|..], p, q);
    }

    /** session_send_one: builds and sends one request. A failed send closes the connection. */
    method SendOne(text: seq<byte>, voice: seq<byte>, memory: bool) returns (r: int)
      requires rd.Valid() && rd.sock != null
      modifies rd, rd.sock`sent, rd.sock`sends
      ensures rd.Valid() && old(rd.sock).Valid()
      ensures !memory ==> r == NWERR_NOMEM && rd.sock == old(rd.sock) && rd.sock.sent == old(rd.sock.sent)
      ensures memory ==> r == 0 || r == NWERR_SEND
      ensures r == 0 ==> rd.sock == old(rd.sock) && rd.sock.sent == old(rd.sock.sent) + RequestLine(text, voice)
      ensures r != NWERR_SEND ==> rd.rpos == old(rd.rpos) && rd.rlen == old(rd.rlen)
      ensures r == NWERR_SEND ==> rd.sock == null
      ensures r == NWERR_SEND <==> old(rd.sock).Refused() != old(rd.sock.Refused())
      ensures old(rd.sock).Refused() >= old(rd.sock.Refused())
      ensures r == NWERR_SEND ==> old(rd.sock.sent) <= old(rd.sock).sent < old(rd.sock.sent) + RequestLine(text, voice)
    {
      hide RequestLine;
      if !memory { return NWERR_NOMEM; }
      var req, n := BuildRequest(text, voice);
      var e := WriteAll(rd.sock, req, n);
      if e != 0 {
        rd.Disconnect();
        return NWERR_SEND;
      }
      return 0;
    }

    /** The segments of a text, in two tables. */
    method Tables(text: seq<byte>, splitWords: int, off: array<int>, len: array<int>)
      returns (nseg: int, ghost ends: seq<nat>, ghost texts: seq<seq<byte>>)
      requires off != len && off.Length == len.Length == 32
      modifies off, len
      ensures 1 <= nseg == |texts| <= 32 && Segmented(text, splitWords, texts)
      ensures Partition(text, ends) && texts == Slices(text, ends) && Records(off[..], len[..], ends)
    {
      hide Greedy, Partition, Slices, Segments.Ends;
      ghost var cuts;
      nseg, cuts := Split(text, splitWords, off, len, NW_MAXSEG);
      GreedyPartitions(text, cuts, splitWords, NW_MAXSEG);
      ends := Segments.Ends(text, cuts);
      texts := Slices(text, ends);
    }

    /** The sending half of session_send_recv. `memory` is how many buffers can be allocated. */
    method SendRequests(text: seq<byte>, voice: seq<byte>, splitWords: int, memory: nat)
      returns (r: int, nseg: int, ghost texts: seq<seq<byte>>, ghost sent: nat)
      requires rd.Valid() && rd.sock != null && rd.sock.Valid()
      modifies rd, rd.sock`sent, rd.sock`sends
      ensures rd.Valid() && old(rd.sock).Valid() && nseg == |texts| >= 1 && sent <= nseg
      ensures Segmented(text, splitWords, texts)
      ensures r == 0 ==> sent == nseg && memory >= nseg
      ensures r == 0 || r == NWERR_NOMEM || r == NWERR_SEND
      ensures r == NWERR_NOMEM ==> sent == memory < nseg <= NW_MAXSEG
      ensures r == NWERR_SEND ==> rd.sock == null
      ensures r == NWERR_SEND <==> old(rd.sock).Refused() != old(rd.sock.Refused())
      ensures old(rd.sock).Refused() >= old(rd.sock.Refused())
      ensures r != NWERR_SEND ==>
                rd.sock == old(rd.sock) && rd.sock.sent == old(rd.sock.sent) + RequestBytes(texts[..sent], voice)
      ensures r != NWERR_SEND ==> rd.rpos == old(rd.rpos) && rd.rlen == old(rd.rlen)
      ensures r == NWERR_SEND ==>
                sent < nseg && old(rd.sock.sent) + RequestBytes(texts[..sent], voice) <= old(rd.sock).sent
                && old(rd.sock).sent < old(rd.sock.sent) + RequestBytes(texts[..sent + 1], voice)
    {
      hide Greedy, Segmented, Partition, Slices, RequestLine, RequestBytes, Records;
      hide Reader.Valid, Segments.Ends, Socket.Refused;
      var off, len := new int[NW_MAXSEG], new int[NW_MAXSEG];
      ghost var ends;
      nseg, ends, texts := Tables(text, splitWords, off, len);
      sent := 0;
      var k: nat := 0;
      assert texts[..0] == [];
      NothingSent(rd.sock.sent, voice);
      while k < nseg
        invariant k <= nseg == |texts| && sent == k <= memory && rd.Valid()
        invariant Records(off[..], len[..], ends)
        invariant rd.sock != null && rd.sock == old(rd.sock) && rd.sock.Valid()
        invariant rd.sock.Refused() == old(rd.sock.Refused())
        invariant rd.rpos == old(rd.rpos) && rd.rlen == old(rd.rlen)
        invariant rd.sock.sent == old(rd.sock.sent) + RequestBytes(texts[..k], voice)
      {
        SliceOf(text, ends, off[..], len[..], k);
        r := SendOne(text[off[k]..off[k] + len[k]], voice, k < memory);
        assert texts[..k + 1] == texts[..k] + [texts[k]];
        OneMoreRequest(old(rd.sock.sent), texts[..k], texts[k], voice);
        if r != 0 { return; }
        k := k + 1;
        sent := k;
      }
      assert texts[..nseg] == texts;
      r := 0;
    }

    /** A link that refused a send is none that takes them all. */
    lemma RefusedSome(sock: Socket)
      ensures AllGranted(sock.accepts) ==> sock.Refused() == 0
    {
      if AllGranted(sock.accepts) { NothingRefused(sock.accepts, sock.sends); }
    }

    /** The sending half, behind the reset of the reader's buffer. */
    method SendPhase(u: Utterance, memory: nat) returns (r: int, nseg: int, ghost x: Exchange)
      requires rd.Valid() && rd.sock != null
      modifies rd, rd.sock`sent, rd.sock`sends
      ensures rd.Valid() && nseg == |x.texts| >= 1 && (r == 0 || r == NWERR_NOMEM || r == NWERR_SEND)
      ensures Segmented(u.text, u.splitWords, x.texts) && Nothing(x) && x.end.status == Running
      ensures x.sock == old(rd.sock) && (r == NWERR_SEND ==> CutShort(u, x))
      ensures x.wire0 == old(rd.sock.sent) && x.from == old(rd.sock.taken)
      ensures r == 0 ==> x.sent == nseg
      ensures r == NWERR_NOMEM ==> x.sent == memory < nseg <= NW_MAXSEG
      ensures r == NWERR_SEND ==> rd.sock == null
      ensures r == NWERR_SEND <==> x.sock.Refused() != old(rd.sock.Refused())
      ensures r == NWERR_SEND ==> !AllGranted(x.sock.accepts)
      ensures r != NWERR_SEND ==>
                rd.sock == x.sock && rd.sock.sent == x.wire && Sent(u, x) && rd.sock.End() == x.ending
                && rd.Unread() == rd.sock.Pending() == x.stream == x.end.rest
    {
      hide Segmented, RequestBytes, Carried, EndBehind;
      rd.DropBuffered();
      x := NO_EXCHANGE.(sock := rd.sock, wire0 := rd.sock.sent, from := rd.sock.taken);
      ghost var texts, sent;
      r, nseg, texts, sent := SendRequests(u.text, u.voice, u.splitWords, memory);
      RefusedSome(x.sock);
      x := x.(texts := texts, sent := sent, wire := x.sock.sent);
      if r != NWERR_SEND {
        assert rd.rbuf[rd.rpos..rd.rlen] == [];
        x := x.(stream := rd.sock.Pending(), ending := rd.sock.End(),
                end := Entry([], rd.sock.Pending()));
      }
    }

    /** The receiving half of session_send_recv: the responses are played out, and a socket
        error closes the connection. */
    method ReceiveAndDrain(nseg: int, ghost x0: Exchange) returns (r: int, ghost x: Exchange)
      requires Valid() && rd.sock != null && nseg == |x0.texts| >= 1
      requires x0.stream == rd.Unread() && x0.ending == rd.sock.End()
      modifies rd, rd.rbuf, rd.sock`taken, player, player.ahiBuf, player.tap, player.tap.fh
      ensures Valid() && Steady() && !player.prerolled && player.ahiLen == 0
      ensures x == x0.(hdr := x.hdr, end := x.end, play := x.play) && Looped(x) && r == ResultOf(x)
      ensures if x.end.status == Broken then rd.sock == null
              else rd.sock == old(rd.sock) && rd.Unread() == x.end.rest
      ensures player.Refused() >= old(player.Refused())
      ensures Performed(old(player.State()), player.State(), old(player.fed), player.fed,
                        player.Refused() == old(player.Refused()), x)
    {
      hide Player.Player.Refused, Reader.Valid, Reader.Unread, Player.Player.Valid, Socket.End;
      hide KeptAudio, Audio, Run, Plays, Reached;
      var sockerr;
      ghost var hdr0, end, p;
      r, sockerr, hdr0, end, p := Receive(nseg);
      x := x0.(hdr := hdr0, end := end, play := p);
      player.Drain();
      if sockerr { rd.Disconnect(); }
    }

    /** session_send_recv: one attempt at an utterance, on the held connection. */
    method SendRecv(u: Utterance, memory: nat) returns (r: int, ghost x: Exchange)
      requires Valid() && rd.sock != null
      modifies rd, rd.rbuf, rd.sock, player, player.ahiBuf, player.tap, player.tap.fh
      ensures Valid() && Steady() && player.Refused() >= old(player.Refused())
      // it segments the text, sends the requests and reads what this connection carries behind them
      ensures Tried(u, ServerOf(servers(chost, cport)), memory, Try(r, x)) && r != NWERR_RESOLVE && r != NWERR_CONNECT
      ensures x.sock == old(rd.sock) && x.wire0 == old(rd.sock.sent) && x.from == old(rd.sock.taken)
      ensures r == NWERR_SEND <==> x.sock.Refused() != old(rd.sock.Refused())
      // a failed send closes the connection; a failed allocation keeps it, with the responses unread
      ensures r == NWERR_SEND ==> rd.sock == null
      ensures r == NWERR_NOMEM ==> memory < NW_MAXSEG && rd.sock == x.sock && rd.sock.Pending() == x.stream
      ensures rd.sock != null ==> rd.sock == x.sock && rd.sock.sent == x.wire && !Dropped(Try(r, x))
      ensures Received(r) ==> (rd.sock == null <==> x.end.status == Broken)
      ensures r != NWERR_SEND && rd.sock != null ==> rd.Unread() == x.end.rest
      // playback is untouched, or performs the utterance
      ensures NothingPlayed(r) ==> Silent()
      ensures !NothingPlayed(r) ==>
                Performed(old(player.State()), player.State(), old(player.fed), player.fed,
                          player.Refused() == old(player.Refused()), x)
    {
      hide Segmented, RequestBytes, Player.Player.Valid, KeptAudio, Audio, Run, Plays, Reached;
      hide Carried, EndBehind, Reader.Unread, ServerOf, Socket.End;
      var nseg;
      r, nseg, x := SendPhase(u, memory);
      if r != 0 { return; }
      r, x := ReceiveAndDrain(nseg, x);
      ResultIsNoError(x);
    }

    /** One attempt on a clean connection to a polite server: only its own answers are played, and the
        connection is left clean; behind a failed allocation, exactly if nothing was sent, or nothing comes back. */
    method SendRecvPaired(u: Utterance, memory: nat) returns (r: int, ghost x: Exchange, ghost own: seq<Message>)
      requires Valid() && rd.sock != null
      modifies rd, rd.rbuf, rd.sock, player, player.ahiBuf, player.tap, player.tap.fh
      ensures Valid() && Steady() && player.Refused() >= old(player.Refused())
      ensures Tried(u, ServerOf(servers(chost, cport)), memory, Try(r, x)) && r != NWERR_RESOLVE && r != NWERR_CONNECT
      ensures x.sock == old(rd.sock) && x.wire0 == old(rd.sock.sent) && x.from == old(rd.sock.taken)
      ensures r == NWERR_SEND ==> rd.sock == null
      ensures r == NWERR_NOMEM ==> memory < NW_MAXSEG && rd.sock == x.sock
      ensures rd.sock != null ==>
                rd.sock == x.sock && rd.sock.sent == x.wire && ReadTo(x) <= rd.sock.taken && !Dropped(Try(r, x))
      ensures NothingPlayed(r) ==> Silent()
      ensures !NothingPlayed(r) ==>
                Performed(old(player.State()), player.State(), old(player.fed), player.fed,
                          player.Refused() == old(player.Refused()), x)
      ensures Received(r) ==> own == OwnMessages(servers(chost, cport), Lines(x.wire0), Requests(u, x))
      ensures old(Clean()) && Polite(servers(chost, cport)) && Received(r) ==> Answered(r, x, own)
      ensures old(Clean()) && Polite(servers(chost, cport)) && r != NWERR_NOMEM ==> Clean()
      ensures old(Clean()) && Polite(servers(chost, cport)) && r == NWERR_NOMEM ==>
                (Clean() <==> memory == 0 || x.sock.limit <= |Answers(x.sock.server, Lines(x.wire0))|)
    {
      hide Segmented, RequestBytes, Player.Player.Valid, KeptAudio, Audio, Plays, Reached, Performed, Looped;
      hide EndBehind, Lines, Answers, OwnMessages, Polite, Bodies;
      ghost var s, clean, answer := rd.sock, Clean() && Polite(servers(chost, cport)), servers(chost, cport);
      r, x := SendRecv(u, memory);
      own := [];
      if r != NWERR_SEND {
        own := OwnMessages(answer, Lines(x.wire0), Requests(u, x));
        if rd.sock != null { ReadSoFar(u, x); }
        if clean { PairedAttempt(u, answer, memory, Try(r, x), own); }
      }
    }

    /** What the reader has not handed out is at the end of what the link carries. */
    lemma ReadSoFar(u: Utterance, x: Exchange)
      requires rd.Valid() && rd.sock != null && rd.sock == x.sock && rd.sock.sent == x.wire && Sent(u, x)
      requires rd.Unread() == x.end.rest
      ensures ReadTo(x) <= rd.sock.taken && (x.end.rest == [] ==> rd.sock.Pending() == [])
    {
      hide Carried, RequestBytes, EndBehind;
      assert |rd.sock.Incoming()| == x.from + |x.stream|;
    }

    /** A new connection. */
    method Dial(host: seq<byte>, port: int) returns (r: int)
      requires Valid() && rd.sock == null && |host| <= 127
      modifies rd`sock, this`chost, this`cport, this`asked, this`made
      ensures Valid() && (r == 0 || r == NWERR_RESOLVE || r == NWERR_CONNECT)
      ensures r == 0 <==> rd.sock != null
      ensures r == NWERR_RESOLVE <==> !net.answers(old(asked))
      ensures r == NWERR_CONNECT <==> net.answers(old(asked)) && !net.answers(old(asked) + 1)
      ensures asked == old(asked) + (if r == NWERR_RESOLVE then 1 else 2)
      ensures r == 0 ==>
                && fresh(rd.sock) && rd.sock.sent == [] && rd.sock.taken == 0
                && rd.sock.Valid() && rd.sock.Pending() == []
                && made == old(made) + 1 && chost == host && cport == port
                && rd.sock.limit == net.routes(old(made)).limit && rd.sock.ending == net.routes(old(made)).ending
                && rd.sock.accepts == net.routes(old(made)).accepts
      ensures Refused() == old(Refused()) + if r == 0 then 0 else 1
    {
      hide Player.Player.Valid, Socket.Pending, Socket.Incoming, ServerOf, AllGranted, Refused;
      var resolved := Ask();
      if !resolved { return NWERR_RESOLVE; }
      var connected := Ask();
      if !connected { return NWERR_CONNECT; }
      var route := net.routes(made);
      made := made + 1;
      var s := new Socket(ServerOf(servers(host, port)), route.limit, route.ending, route.accepts);
      chost, cport := host[..Min(|host|, 127)], port;
      assert chost == host;
      rd.Attach(s);
      return 0;
    }

    /** session_connect: reuses the held connection exactly for the endpoint it was made to, or makes a new one, if
        the name resolves and the host answers. A host name fits the 128 bytes the preferences have for it. */
    method Connect(host: seq<byte>, port: int) returns (r: int)
      requires Valid() && |host| <= 127
      modifies rd, this`chost, this`cport, this`asked, this`made
      ensures Valid() && (r == 0 || r == NWERR_RESOLVE || r == NWERR_CONNECT)
      ensures r != 0 ==> rd.sock == null
      ensures r == 0 ==> rd.sock != null && chost == host && cport == port
      // the held connection, without asking anybody
      ensures r == 0 ==> (rd.sock == old(rd.sock) <==> old(rd.sock) != null && old(chost) == host && old(cport) == port)
      ensures old(rd.sock) != null && old(chost) == host && old(cport) == port ==>
                r == 0 && asked == old(asked) && made == old(made)
      // else as the two calls go
      ensures old(rd.sock) == null || old(chost) != host || old(cport) != port ==>
                && (r == NWERR_RESOLVE <==> !net.answers(old(asked)))
                && (r == NWERR_CONNECT <==> net.answers(old(asked)) && !net.answers(old(asked) + 1))
                && asked == old(asked) + (if r == NWERR_RESOLVE then 1 else 2)
      ensures r == 0 && rd.sock != old(rd.sock) ==>
                && fresh(rd.sock) && rd.sock.sent == [] && rd.sock.taken == 0 && made == old(made) + 1
                && rd.sock.limit == net.routes(old(made)).limit && rd.sock.ending == net.routes(old(made)).ending
                && rd.sock.accepts == net.routes(old(made)).accepts
      ensures Refused() == old(Refused()) + if r == 0 then 0 else 1
      ensures old(Clean()) ==> Clean()
    {
      hide Player.Player.Valid, Socket.Pending, Socket.Incoming, ServerOf, AllGranted, Refused, Reliable;
      if rd.sock != null {
        var same := cport == port && host == chost;
        if same { return 0; }
        rd.Disconnect();
      }
      cport := -1;
      r := Dial(host, port);
    }

    /** One pass of nw_session_say's loop: connect and try. */
    method Attempt(u: Utterance, memory: nat) returns (r: int, ghost x: Exchange)
      requires Valid() && |u.host| <= 127
      modifies rd, rd.rbuf, rd.sock, this`chost, this`cport, this`asked, this`made
      modifies player, player.ahiBuf, player.tap, player.tap.fh
      ensures Valid() && Steady() && player.Refused() >= old(player.Refused())
      ensures Tried(u, ServerOf(servers(u.host, u.port)), memory, Try(r, x))
      // on the held connection if it leads there, else on a new one
      ensures x.sock != null ==>
                if x.sock == old(rd.sock) then x.wire0 == old(rd.sock.sent) && x.from == old(rd.sock.taken)
                else fresh(x.sock) && x.wire0 == [] && x.from == 0
      ensures old(rd.sock) != null && old(chost) == u.host && old(cport) == u.port ==> x.sock == old(rd.sock)
      ensures rd.sock != null ==>
                rd.sock == x.sock && rd.sock.sent == x.wire && ReadTo(x) <= rd.sock.taken && !Dropped(Try(r, x))
      ensures x.sock != null && x.sock != old(rd.sock) ==> x.sock.limit == net.routes(old(made)).limit
      // no connection exactly if the name does not resolve or the host does not answer
      ensures Refused() >= old(Refused()) && (r == NWERR_RESOLVE || r == NWERR_CONNECT <==> Refused() != old(Refused()))
      ensures Reliable(net) ==> r != NWERR_RESOLVE && r != NWERR_CONNECT && r != NWERR_SEND
      ensures NothingPlayed(r) ==> Silent() && (r != NWERR_NOMEM ==> rd.sock == null)
      ensures r == NWERR_NOMEM ==> memory < NW_MAXSEG
      ensures !NothingPlayed(r) ==>
                Performed(old(player.State()), player.State(), old(player.fed), player.fed,
                          player.Refused() == old(player.Refused()), x)
      ensures old(Clean()) && Polite(servers(u.host, u.port)) && r != NWERR_NOMEM ==> Clean()
      ensures old(Clean()) && Polite(servers(u.host, u.port)) && !NothingPlayed(r) ==>
                Answered(r, x, OwnMessages(servers(u.host, u.port), Lines(x.wire0), Requests(u, x)))
    {
      hide Player.Player.Valid, Reader.Valid, Polite, Clean, Answered, OwnMessages, Lines, Bodies, Performed;
      hide Segmented, Sent, Looped, ServerOf, Partial, Session.Refused;
      x := NO_EXCHANGE;
      r := Connect(u.host, u.port);
      NeverRefused();
      if r != 0 { return; }
      ghost var own;
      r, x, own := SendRecvPaired(u, memory);
    }

    /** nw_session_say: at most two attempts, a second one only behind a failed send, which leaves playback
        untouched and the connection closed. What an utterance adds to playback is what its last attempt read from
        its one connection. */
    method Say(u: Utterance, memory: nat) returns (r: int, ghost ts: seq<Try>)
      requires Valid() && |u.host| <= 127
      modifies rd, rd.rbuf, rd.sock, this`chost, this`cport, this`asked, this`made
      modifies player, player.ahiBuf, player.tap, player.tap.fh
      ensures Valid() && Steady() && player.Refused() >= old(player.Refused())
      ensures Attempts(u, ServerOf(servers(u.host, u.port)), memory, ts) && ts[|ts| - 1].r == r
      // the first attempt is made on the held connection if it leads there, every other on a new one
      ensures forall k | 0 <= k < |ts| :: ts[k].x.sock != null ==>
                if k == 0 && ts[k].x.sock == old(rd.sock)
                then ts[k].x.wire0 == old(rd.sock.sent) && ts[k].x.from == old(rd.sock.taken)
                else fresh(ts[k].x.sock) && ts[k].x.wire0 == [] && ts[k].x.from == 0
      ensures old(rd.sock) != null && old(chost) == u.host && old(cport) == u.port ==> ts[0].x.sock == old(rd.sock)
      ensures rd.sock != null ==>
                var x := ts[|ts| - 1].x;
                rd.sock == x.sock && rd.sock.sent == x.wire && ReadTo(x) <= rd.sock.taken
                && !Dropped(Try(r, x))
      // an attempt finds no connection exactly if the network refuses one; on reliable links one attempt will do
      ensures Refused() >= old(Refused()) && (Refused() == old(Refused()) <==> AllConnected(ts))
      ensures Reliable(net) ==> |ts| == 1 && r != NWERR_RESOLVE && r != NWERR_CONNECT && r != NWERR_SEND
      ensures NothingPlayed(r) ==> Silent() && (r != NWERR_NOMEM ==> rd.sock == null)
      ensures r == NWERR_NOMEM ==> memory < NW_MAXSEG
      ensures !NothingPlayed(r) ==>
                Performed(old(player.State()), player.State(), old(player.fed), player.fed,
                          player.Refused() == old(player.Refused()), ts[|ts| - 1].x)
      ensures old(Clean()) && Polite(servers(u.host, u.port)) && r != NWERR_NOMEM ==> Clean()
      ensures old(Clean()) && Polite(servers(u.host, u.port)) && !NothingPlayed(r) ==>
                var x := ts[|ts| - 1].x;
                Answered(r, x, OwnMessages(servers(u.host, u.port), Lines(x.wire0), Requests(u, x)))
    {
      hide Player.Player.Valid, Reader.Valid, Polite, Clean, Answered, OwnMessages, Lines, Bodies, Performed;
      hide Segmented, Sent, Looped, ServerOf, Partial, Tried;
      var attempt := 0;
      r, ts := NWERR_SEND, [];
      while attempt < 2
        invariant Valid() && attempt == |ts| <= 2 && Silent() && r == NWERR_SEND
        invariant Refused() >= old(Refused()) && (Refused() == old(Refused()) <==> AllConnected(ts))
        invariant Reliable(net) ==> attempt == 0
        invariant forall t | t in ts :: Tried(u, ServerOf(servers(u.host, u.port)), memory, t)
        invariant attempt > 0 ==> rd.sock == null && ts[attempt - 1].r == NWERR_SEND
        invariant attempt == 0 ==> rd.sock == old(rd.sock) && chost == old(chost) && cport == old(cport)
        invariant attempt == 0 && rd.sock != null ==> unchanged(rd.sock)
        invariant attempt == 2 ==> ts[0].r == NWERR_SEND && OwnLink(ts[0].x, ts[1].x)
        invariant forall k | 0 <= k < |ts| :: ts[k].x.sock != null ==>
                    if k == 0 && ts[k].x.sock == old(rd.sock)
                    then ts[k].x.wire0 == old(rd.sock.sent) && ts[k].x.from == old(rd.sock.taken)
                    else fresh(ts[k].x.sock) && ts[k].x.wire0 == [] && ts[k].x.from == 0
        invariant attempt > 0 && old(rd.sock) != null && old(chost) == u.host && old(cport) == u.port ==>
                    ts[0].x.sock == old(rd.sock)
        invariant old(Clean()) && Polite(servers(u.host, u.port)) ==> Clean()
        decreases 2 - attempt
      {
        attempt := attempt + 1;
        ghost var x;
        r, x := Attempt(u, memory);
        assert |ts| == 1 ==> OwnLink(ts[0].x, x);
        ts := ts + [Try(r, x)];
        if r != NWERR_SEND { return; }
      }
    }

    /** On a reliable network nothing is ever refused. */
    lemma NeverRefused()
      ensures Reliable(net) ==> Refused() == 0
    {
      if Reliable(net) { NothingRefused(net.answers, asked); }
    }

    /** session_close: what is still in the buffer is played out, the capture file is finished and the connection
        given up. */
    method Close() returns (file: Wav.File?)
      requires Valid()
      modifies rd, player, player.ahiBuf, player.tap, player.tap.fh
      ensures rd.Valid() && rd.sock == null && player.fed == old(player.fed)
      ensures player.Refused() >= old(player.Refused())
      ensures player.Refused() == old(player.Refused()) ==> player.State() == ShutDown(old(player.State()))
      ensures file == old(player.tap.fh) && player.tap.captured == old(player.tap.captured)
      ensures file != null ==> Wav.IsCapture(file.bytes, player.tap.captured)
      // the last of the samples that fitted the buffer; all of them, if the file could be opened at once
      ensures file != null ==>
                |player.tap.captured| <= |Stored(player.State())|
                && Stored(player.State())[|Stored(player.State())| - |player.tap.captured|..] == player.tap.captured
      ensures player.tap.enabled && AllGranted(player.tap.dos) ==>
                Stored(player.State()) == if file == null then [] else player.tap.captured
    {
      hide Reader.Valid, Player.Player.Refused, Stored, AllGranted;
      player.Close();
      file := player.tap.Finalize();
      rd.Disconnect();
    }

    /** Playback, its buffer head and the capture tap are as they were. */
    twostate predicate Silent()
      reads this, player, player.tap
    {
      unchanged(player) && unchanged(player.tap)
    }

    /** Objects the player may allocate while it works stay apart from the reader's buffer. */
    twostate predicate Steady()
      reads this, rd, player, player.tap
    {
      && (player.ahiBuf == old(player.ahiBuf) || player.ahiBuf == null || fresh(player.ahiBuf))
      && (player.tap.fh == old(player.tap.fh) || fresh(player.tap.fh))
    }
  }

  lemma ResultIsNoError(x: Exchange)
    ensures !NothingPlayed(ResultOf(x)) && Received(ResultOf(x))
  {
  }

  lemma NoAudio()
    ensures Audio([]) == []
  {
  }

  lemma NoPieces()
    ensures Concat([]) == []
  {
  }

  lemma StopsFinish(st: Loop, line: seq<byte>, nseg: int)
    requires st.status == Running && st.stops < nseg
    ensures AfterLine(st, line, nseg).stops >= nseg <==> AfterLine(st, line, nseg).status == Finished
  {
    hide Contains, IntOr, Update, CString;
  }

  lemma NothingSent(s: seq<byte>, voice: seq<byte>)
    ensures s + RequestBytes([], voice) == s
  {
  }

  lemma OneMoreRequest(s: seq<byte>, texts: seq<seq<byte>>, text: seq<byte>, voice: seq<byte>)
    ensures s + RequestBytes(texts + [text], voice) == s + RequestBytes(texts, voice) + RequestLine(text, voice)
  {
    hide RequestLine;
    assert (texts + [text])[..|texts|] == texts;
  }

  lemma SliceOf(text: seq<byte>, ends: seq<nat>, off: seq<int>, len: seq<int>, k: nat)
    requires Partition(text, ends) && Records(off, len, ends) && k < |ends|
    ensures 0 <= off[k] <= off[k] + len[k] <= |text|
    ensures text[off[k]..off[k] + len[k]] == Slices(text, ends)[k]
  {
    assert EndAt(text, ends, k) && RecordAt(off, len, ends, k);
  }

  lemma NotFoundIsZero(line: seq<byte>, key: seq<byte>)
    requires FindInt(line, key) == None
    ensures IntOr(line, key, 0) == 0
  {
  }
}
