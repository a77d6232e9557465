/** What a failed allocation leaves behind (src/nw_engine.c:1096-1100): requests that went out before it are
    answered, and every later utterance on the connection gets the answers of an earlier one. */
module Leftovers {
  import opened Bytes
  import opened Events
  import opened Wire
  import opened Response
  import opened Messages
  import opened Segments
  import opened Request
  import opened Pipeline
  import opened Pairing
  import opened Sounds
  import opened Exchanges

  lemma {:induction false} OwnAppend(answer: Answerer, before: seq<seq<byte>>, a: seq<seq<byte>>, b: seq<seq<byte>>)
    ensures OwnMessages(answer, before, a + b) == OwnMessages(answer, before, a) + OwnMessages(answer, before + a, b)
    decreases |b|
  {
    if b == [] {
      assert a + b == a;
    } else {
      var init := b[..|b| - 1];
      assert (a + b)[..|a + b| - 1] == a + init && before + (a + b) == before + a + b;
      OwnAppend(answer, before, a, init);
    }
  }

  /** The loop over the answers to some requests, behind which more are to be read: it stops right in front of
      these. */
  lemma AnswersInTurn(hdr: seq<byte>, answer: Answerer, before: seq<seq<byte>>, now: seq<seq<byte>>,
                      later: seq<seq<byte>>, e: Ending)
    requires Polite(answer) && |hdr| == LINE_BUFFER && now != []
    ensures var r := Run(Entry(hdr, EmitAll(OwnMessages(answer, before, now + later))), e, |now|);
            r.status == Finished && r.frames == FramesFrom(NO_FORMAT, OwnMessages(answer, before, now))
            && r.rest == EmitAll(OwnMessages(answer, before + now, later))
  {
    hide *;
    var ms, rest := OwnMessages(answer, before, now), OwnMessages(answer, before + now, later);
    OwnAppend(answer, before, now, later);
    EmitAppend(ms, rest);
    OwnMessagesShape(answer, before, now);
    WholeResponses(ms);
    var n := |ms| - 1;
    Joined(EmitAll(ms[..n]), Emit(ms[n]), EmitAll(rest));
    MessagesDecode(hdr, ms[..n], ms[n], EmitAll(rest), e, |now|);
  }

  lemma Joined(a: seq<byte>, b: seq<byte>, c: seq<byte>)
    ensures a + (b + []) + c == a + (b + c)
  {
  }

  /** All requests a connection has carried behind an attempt. */
  function Carrying(u: Utterance, x: Exchange): (all: seq<seq<byte>>)
  {
    Lines(x.wire0) + Requests(u, x)
  }

  /** An attempt on a link that holds, when the answers to only the first n requests have been read: it plays the
      answers to the next ones, as many as it has segments, and leaves as many unread as there were. */
  lemma AnswersOfEarlier(u: Utterance, answer: Answerer, memory: nat, t: Try, n: nat)
    requires Tried(u, ServerOf(answer), memory, t) && Received(t.r) && t.x.sock != null && Polite(answer)
    requires Partial(t.x.wire0) == [] && n <= |Lines(t.x.wire0)|
    requires t.x.from == |Answers(ServerOf(answer), Lines(t.x.wire0)[..n])|
    requires |Answers(ServerOf(answer), Lines(t.x.wire))| <= t.x.sock.limit
    ensures var all, m := Carrying(u, t.x), n + |t.x.texts|;
            Partial(t.x.wire) == [] && Lines(t.x.wire) == all && n < m <= |all|
            && t.x.end.status == Finished
            && t.x.end.frames == FramesFrom(NO_FORMAT, OwnMessages(answer, all[..n], all[n..m]))
            && t.x.end.rest == EmitAll(OwnMessages(answer, all[..m], all[m..]))
            && ReadTo(t.x) == |Answers(ServerOf(answer), all[..m])|
  {
    var x, all, m := t.x, Carrying(u, t.x), n + |t.x.texts|;
    hide Lines, Partial, Answers, OwnMessages, Polite, Bodies, RequestBytes, Segmented, Run, Emit, EmitAll;
    hide Audio, FramesFrom, ServerOf, CutsOf;
    SegmentsAreSome(u, x.texts);
    assert x.texts[..x.sent] == x.texts;
    PipelineLines(x.wire0, x.texts, u.voice);
    assert all[..n] + all[n..] == all && all[..n] == Lines(x.wire0)[..n];
    AnswersAreOwn(answer, all[..n], all[n..]);
    assert all[n..] == all[n..m] + all[m..] && all[..n] + all[n..m] == all[..m];
    assert x.stream == EmitAll(OwnMessages(answer, all[..n], all[n..]));
    AnswersInTurn(x.hdr, answer, all[..n], all[n..m], all[m..], x.ending);
    assert all[..m] + all[m..] == all;
    AnswersAreOwn(answer, all[..m], all[m..]);
  }

  /** If one attempt ran out of memory behind k requests, the next one, of k segments, plays their answers and
      leaves all of its own unread. */
  lemma NextPlaysThese(u: Utterance, v: Utterance, answer: Answerer, memory: nat, more: nat, t: Try, next: Try)
    requires Tried(u, ServerOf(answer), memory, t) && t.r == NWERR_NOMEM && t.x.sock != null && Polite(answer)
    requires Partial(t.x.wire0) == [] && t.x.from == |Answers(ServerOf(answer), Lines(t.x.wire0))|
    requires Tried(v, ServerOf(answer), more, next) && Received(next.r) && next.x.sock == t.x.sock
    requires next.x.wire0 == t.x.wire && next.x.from == t.x.from && |next.x.texts| == t.x.sent
    requires |Answers(ServerOf(answer), Lines(next.x.wire))| <= t.x.sock.limit
    ensures next.x.end.status == Finished
    ensures next.x.end.frames == FramesFrom(NO_FORMAT, OwnMessages(answer, Lines(t.x.wire0), Requests(u, t.x)))
    ensures next.x.end.rest == EmitAll(OwnMessages(answer, Lines(t.x.wire), Requests(v, next.x)))
  {
    hide Lines, Partial, Answers, OwnMessages, Polite, Bodies, RequestBytes, Segmented, Run, Emit, EmitAll;
    hide Audio, FramesFrom, ServerOf, CutsOf, Carried, EndBehind;
    PipelineLines(t.x.wire0, t.x.texts[..t.x.sent], u.voice);
    var past, now, later := Lines(t.x.wire0), Requests(u, t.x), Requests(v, next.x);
    assert Lines(t.x.wire) == past + now && Partial(t.x.wire) == [];
    var n, all := |past|, Carrying(v, next.x);
    assert Lines(next.x.wire0)[..n] == past;
    AnswersOfEarlier(v, answer, more, next, n);
    assert all[..n] == past && all[n..n + t.x.sent] == now;
    assert all[..n + t.x.sent] == past + now && all[n + t.x.sent..] == later;
  }

  // ---- it happens ----

  const DOT: seq<byte> := [46]
  const TWO: seq<byte> := [46, SPACE, 46]
  const SECOND: seq<byte> := [SPACE, 46]

  lemma DotSegments()
    ensures Segmented(DOT, 0, [DOT])
  {
    assert Greedy(DOT, [], 0, NW_MAXSEG);
    var ends := Segments.Ends(DOT, []);
    assert ends == [1];
    assert EndAt(DOT, ends, 0);
    assert DOT[0..1] == DOT && Slices(DOT, ends)[0] == DOT[Segments.Start(ends, 0)..ends[0]];
  }

  lemma TwoCuts()
    ensures Greedy(TWO, [1, 3], 1, NW_MAXSEG)
  {
    var ok := CutRule(TWO, 1);
    assert WordEndAt(TWO, 1) && WordEndAt(TWO, 3);
    assert Peeled(TWO, 0, 0) == 0 && Peeled(TWO, 1, 2) == 2;
    assert ok(0, 1) && ok(1, 3) && !WordEndAt(TWO, 2);
    assert NoCutIn(ok, 0, 0) && NoCutIn(ok, 1, 2);
    assert CutAt(ok, [1, 3], 0) && CutAt(ok, [1, 3], 1);
    assert NoCutIn(ok, 3, 3);
  }

  lemma TwoSegments()
    ensures Segmented(TWO, 1, [DOT, SECOND])
  {
    TwoCuts();
    var ends := Segments.Ends(TWO, [1, 3]);
    assert ends == [1, 3];
    assert EndAt(TWO, ends, 0) && EndAt(TWO, ends, 1);
    assert TWO[0..1] == DOT && Slices(TWO, ends)[0] == TWO[Segments.Start(ends, 0)..ends[0]];
    assert TWO[1..3] == SECOND && Slices(TWO, ends)[1] == TWO[Segments.Start(ends, 1)..ends[1]];
  }

  /** A text of two segments with memory for one request, on a new connection. */
  function SaysTwo(host: seq<byte>, port: int): (u: Utterance)
  {
    Utterance(host, port, TWO, [], 1)
  }

  function SaysOne(host: seq<byte>, port: int): (u: Utterance)
  {
    Utterance(host, port, DOT, [], 0)
  }

  /** The attempt at the first: one request goes out, and its answer stays unread. */
  lemma CutOffAttempt(host: seq<byte>, port: int, sock: Socket) returns (t: Try)
    ensures Tried(SaysTwo(host, port), sock.server, 1, t) && t.r == NWERR_NOMEM && t.x.sock == sock && t.x.sent == 1
    ensures t.x.wire0 == [] && t.x.from == 0 && t.x.texts[..1] == [DOT] && |t.x.texts| == 2
    ensures t.x.wire == RequestBytes([DOT], [])
  {
    TwoSegments();
    hide RequestBytes, Segmented, Carried, EndBehind;
    var wire := RequestBytes([DOT], []);
    var stream := Carried(sock.server, sock.limit, wire);
    assert [] + wire == wire && stream[0..] == stream && [DOT, SECOND][..1] == [DOT];
    t := Try(NWERR_NOMEM, Exchange(sock, [], 0, [DOT, SECOND], 1, wire, stream,
                                   EndBehind(sock.server, sock.limit, sock.ending, wire),
                                   [], Entry([], stream), SILENCE));
  }

  /** The attempt at the next utterance. */
  lemma NextAttempt(host: seq<byte>, port: int, sock: Socket, wire0: seq<byte>, hdr: seq<byte>) returns (t: Try)
    requires |hdr| == LINE_BUFFER
    ensures Tried(SaysOne(host, port), sock.server, 1, t) && Received(t.r) && !NothingPlayed(t.r) && t.x.sock == sock
    ensures t.x.wire0 == wire0 && t.x.from == 0 && t.x.texts == [DOT] && t.x.sent == 1
    ensures t.x.wire == wire0 + RequestBytes([DOT], []) && t.r == ResultOf(t.x)
  {
    DotSegments();
    hide RequestBytes, Segmented, Carried, EndBehind, Run, Audio;
    var wire := wire0 + RequestBytes([DOT], []);
    var stream := Carried(sock.server, sock.limit, wire);
    var ending := EndBehind(sock.server, sock.limit, sock.ending, wire);
    var end := Run(Entry(hdr, stream), ending, 1);
    var play := WholePieces(end.frames);
    assert stream[0..] == stream && [DOT][..1] == [DOT];
    var x := Exchange(sock, wire0, 0, [DOT], 1, wire, stream, ending, hdr, end, play);
    t := Try(ResultOf(x), x);
  }

  /** Every payload in one piece. */
  lemma WholePieces(frames: seq<Frame>) returns (p: Playing)
    ensures CutsOf(frames, p.cuts) && |p.kept| == |frames|
  {
    var cuts := seq(|frames|, i requires 0 <= i < |frames| => [frames[i].data]);
    p := Playing(seq(|frames|, _ => true), cuts);
    forall i | 0 <= i < |frames|
      ensures Concat(cuts[i]) == frames[i].data
    {
      ConcatSnoc([], frames[i].data);
      assert [] + [frames[i].data] == cuts[i] && Concat([]) + frames[i].data == frames[i].data;
    }
  }

  /** Any server, any link that holds: the second utterance is reported as said and plays the answer to the first
      one's request; the answer to its own stays unread. */
  lemma ForeignAnswer(answer: Answerer, host: seq<byte>, port: int, sock: Socket, hdr: seq<byte>)
    returns (t: Try, next: Try)
    requires Polite(answer) && sock.server == ServerOf(answer) && |hdr| == LINE_BUFFER
    requires var two := RequestBytes([DOT], []) + RequestBytes([DOT], []);
             |Answers(ServerOf(answer), Lines(two))| <= sock.limit
    ensures Tried(SaysTwo(host, port), sock.server, 1, t) && t.r == NWERR_NOMEM && t.x.sock == sock
    ensures Tried(SaysOne(host, port), sock.server, 1, next) && next.x.sock == sock && next.x.wire0 == t.x.wire
    ensures next.x.from == t.x.from == 0 && next.r == |Audio(next.x.end.frames)|
    ensures next.x.end.frames == FramesFrom(NO_FORMAT, OwnMessages(answer, [], Bodies([DOT], [])))
    ensures next.x.end.rest == EmitAll(OwnMessages(answer, Lines(t.x.wire), Bodies([DOT], [])))
  {
    hide RequestBytes, Tried, Run, Audio, Lines, Partial, Answers, OwnMessages, Bodies, ServerOf;
    hide FramesFrom, EmitAll, Polite, DOT;
    t := CutOffAttempt(host, port, sock);
    next := NextAttempt(host, port, sock, t.x.wire, hdr);
    NothingAsked(ServerOf(answer));
    assert next.x.texts[..1] == [DOT];
    NextPlaysThese(SaysTwo(host, port), SaysOne(host, port), answer, 1, 1, t, next);
  }

  lemma NothingAsked(server: Server)
    ensures Lines([]) == [] && Partial([]) == [] && Answers(server, Lines([])) == []
  {
  }
}
