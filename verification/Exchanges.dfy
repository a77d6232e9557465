/** What one attempt at an utterance does on the wire and to playback, as a record, and what the record of a
    correct attempt looks like (src/nw_engine.c:1086-1193). */
module Exchanges {
  import opened Bytes
  import opened Counting
  import opened Events
  import opened Wire
  import opened Response
  import opened Messages
  import opened Truncation
  import opened Segments
  import opened Request
  import opened Pipeline
  import opened Pairing
  import opened Playback
  import opened Sounds

  const NWERR_NOMEM := -101
  const NWERR_RESOLVE := -102
  const NWERR_CONNECT := -103
  const NWERR_SEND := -104
  const NWERR_PROTO := -105

  const NW_MAXSEG := 32

  datatype Utterance = Utterance(host: seq<byte>, port: int, text: seq<byte>, voice: seq<byte>, splitWords: int)

  /** Neither the sending nor an allocation failed: the response loop ran. */
  predicate Received(r: int)
  {
    r != NWERR_SEND && r != NWERR_NOMEM
  }

  /** Results of an attempt that never reached its response loop. */
  predicate NothingPlayed(r: int)
  {
    r == NWERR_SEND || r == NWERR_NOMEM || r == NWERR_RESOLVE || r == NWERR_CONNECT
  }

  /** Which frames found an open audio device, and the pieces they were handed over in. */
  datatype Playing = Playing(kept: seq<bool>, cuts: Cuts)

  const SILENCE := Playing([], [])

  /** The connection an attempt used, if one was made, and what it had carried before; its segments and how many
      requests went out; what the connection had carried then; the stream that was there to read, how it ends,
      and the response loop from entry to end. */
  datatype Exchange = Exchange(sock: Socket?, wire0: seq<byte>, from: nat, texts: seq<seq<byte>>, sent: nat,
                               wire: seq<byte>, stream: seq<byte>, ending: Ending,
                               hdr: seq<byte>, end: Loop, play: Playing)

  const NO_EXCHANGE := Exchange(null, [], 0, [], 0, [], [], Failed, [], Entry([], []), SILENCE)

  datatype Try = Try(r: int, x: Exchange)

  // ---- a correct attempt ----

  /** The segments of a text: there is exactly one such list. */
  ghost predicate Segmented(text: seq<byte>, splitWords: int, texts: seq<seq<byte>>)
  {
    exists cuts :: Greedy(text, cuts, splitWords, 32) && Partition(text, Ends(text, cuts))
                   && texts == Slices(text, Ends(text, cuts))
  }

  lemma SegmentedOnce(text: seq<byte>, splitWords: int, a: seq<seq<byte>>, b: seq<seq<byte>>)
    requires Segmented(text, splitWords, a) && Segmented(text, splitWords, b)
    ensures a == b && Concat(a) == text && 1 <= |a| <= NW_MAXSEG
  {
    var ca :| Greedy(text, ca, splitWords, NW_MAXSEG) && Partition(text, Ends(text, ca))
              && a == Slices(text, Ends(text, ca));
    var cb :| Greedy(text, cb, splitWords, NW_MAXSEG) && Partition(text, Ends(text, cb))
              && b == Slices(text, Ends(text, cb));
    hide Greedy, Partition, Slices, Ends;
    GreedyIsUnique(text, ca, cb, splitWords, NW_MAXSEG);
    GreedyPartitions(text, ca, splitWords, NW_MAXSEG);
    SlicesConcat(text, Ends(text, ca));
  }

  /** Nothing was played. */
  predicate Nothing(x: Exchange)
  {
    x.end.frames == [] && x.play == SILENCE
  }

  /** The result of an attempt whose response loop ran. */
  function ResultOf(x: Exchange): (r: int)
  {
    if x.end.status == Finished then |Audio(x.end.frames)| else NWERR_PROTO
  }

  /** The requests that went out, and the stream that was then there to read on this connection. */
  ghost predicate Sent(u: Utterance, x: Exchange)
    requires x.sock != null
  {
    && x.sent <= |x.texts| && x.wire == x.wire0 + RequestBytes(x.texts[..x.sent], u.voice)
    && x.from <= |Carried(x.sock.server, x.sock.limit, x.wire)|
    && x.stream == Carried(x.sock.server, x.sock.limit, x.wire)[x.from..]
    && x.ending == EndBehind(x.sock.server, x.sock.limit, x.sock.ending, x.wire)
  }

  /** A send failed: what went out behind the whole requests is a proper part of the next one. */
  ghost predicate CutShort(u: Utterance, x: Exchange)
  {
    && x.sent < |x.texts| && x.wire0 + RequestBytes(x.texts[..x.sent], u.voice) <= x.wire
    && x.wire < x.wire0 + RequestBytes(x.texts[..x.sent + 1], u.voice)
  }

  /** The connection was closed behind the attempt. */
  predicate Dropped(t: Try)
  {
    t.r == NWERR_SEND || t.x.end.status == Broken
  }

  /** The response loop ran over exactly that stream. */
  ghost predicate Looped(x: Exchange)
  {
    && |x.hdr| == LINE_BUFFER && x.end == Run(Entry(x.hdr, x.stream), x.ending, |x.texts|)
    && CutsOf(x.end.frames, x.play.cuts) && |x.play.kept| == |x.end.frames|
  }

  ghost predicate Tried(u: Utterance, server: Server, memory: nat, t: Try)
  {
    var r, x := t.r, t.x;
    if r == NWERR_RESOLVE || r == NWERR_CONNECT then x.sock == null && Nothing(x)
    else
      && x.sock != null && x.sock.server == server && Segmented(u.text, u.splitWords, x.texts)
      && if r == NWERR_SEND then Nothing(x) && CutShort(u, x) && !AllGranted(x.sock.accepts)
         else Sent(u, x)
              && if r == NWERR_NOMEM then x.sent == memory < |x.texts| && Nothing(x)
                 else x.sent == |x.texts| && Looped(x) && r == ResultOf(x)
  }

  /** An attempt got these messages, and nothing else, in answer. */
  ghost predicate Answered(r: int, x: Exchange, own: seq<Message>)
  {
    && AllFramed(own) && x.stream <= EmitAll(own)
    // only answers to its own requests are played, and nothing stays unread
    && Audio(x.end.frames) <= Audio(FramesFrom(NO_FORMAT, own))
    && (Received(r) ==> x.end.rest == [] && |x.hdr| == LINE_BUFFER)
    // all of them, if the link carries so much
    && (x.sock != null && |Answers(x.sock.server, Lines(x.wire))| <= x.sock.limit ==> x.stream == EmitAll(own))
    // success exactly if they arrived, or were cut where it cannot be told
    && (Received(r) && |x.hdr| == LINE_BUFFER ==>
          (r != NWERR_PROTO <==> Passes(x.hdr, own, |x.stream|, x.ending, 0, |x.texts|)))
    // everything arrived: all of their audio
    && (Received(r) && x.stream == EmitAll(own) ==>
          x.end.frames == FramesFrom(NO_FORMAT, own) && r == |Audio(x.end.frames)|)
  }

  /** What answers an attempt's requests on a connection that had nothing left to read. */
  lemma OwnStream(answer: Answerer, wire0: seq<byte>, wire: seq<byte>, texts: seq<seq<byte>>, voice: seq<byte>,
                  limit: nat, from: nat, stream: seq<byte>)
    requires Polite(answer) && Partial(wire0) == [] && wire == wire0 + RequestBytes(texts, voice)
    requires from == |Carried(ServerOf(answer), limit, wire0)|
    requires from <= |Carried(ServerOf(answer), limit, wire)|
    requires stream == Carried(ServerOf(answer), limit, wire)[from..]
    ensures var own := OwnMessages(answer, Lines(wire0), Bodies(texts, voice));
            AllFramed(own) && Stops(own) == |texts| && stream <= EmitAll(own)
            && (texts != [] ==> own != [] && IsStop(own[|own| - 1]))
    ensures Partial(wire) == []
    ensures |Answers(ServerOf(answer), Lines(wire))| <= limit ==>
              stream == EmitAll(OwnMessages(answer, Lines(wire0), Bodies(texts, voice)))
    ensures stream == [] <==> texts == [] || limit <= |Answers(ServerOf(answer), Lines(wire0))|
  {
    hide Lines, Partial, Emit, EmitAll, RequestBytes, Answers, OwnMessages, ServerOf, Stops, WellFramed, IsStop;
    PipelineLines(wire0, texts, voice);
    OwnMessagesShape(answer, Lines(wire0), Bodies(texts, voice));
    AnswersAreOwn(answer, Lines(wire0), Bodies(texts, voice));
    var own := OwnMessages(answer, Lines(wire0), Bodies(texts, voice));
    LinkCarriesOwn(Answers(ServerOf(answer), Lines(wire0)), EmitAll(own), limit);
    if texts == [] {
      NoRequests(answer, Lines(wire0), voice);
    } else {
      MessagesTakeBytes(own);
    }
  }

  lemma NoRequests(answer: Answerer, before: seq<seq<byte>>, voice: seq<byte>)
    ensures OwnMessages(answer, before, Bodies([], voice)) == [] && EmitAll([]) == []
  {
  }

  lemma MessagesTakeBytes(ms: seq<Message>)
    requires ms != []
    ensures EmitAll(ms) != []
  {
    assert Emit(ms[0])[|ms[0].line|] == LF;
  }

  // ---- playback ----

  /** The audio that found an open device. */
  function KeptAudio(frames: seq<Frame>, open: seq<bool>): (s: seq<byte>)
    requires |frames| == |open|
  {
    if frames == [] then []
    else
      var n := |frames| - 1;
      KeptAudio(frames[..n], open[..n]) + if open[n] then frames[n].data else []
  }

  /** From voice v and the samples fed so far to v' and fed': these frames were handed over; and if nothing was
      refused, the device was opened for each as it should be. */
  ghost predicate Delivered(v: Voice, v': Voice, fed: seq<byte>, fed': seq<byte>, granted: bool,
                            frames: seq<Frame>, p: Playing)
  {
    && |p.kept| == |frames| && CutsOf(frames, p.cuts) && fed' == fed + KeptAudio(frames, p.kept)
    && (granted ==> v' == Plays(v, frames, p.cuts) && p.kept == Reached(v, frames, p.cuts))
  }

  function Followed(p: Playing, q: Playing): (r: Playing)
  {
    Playing(p.kept + q.kept, p.cuts + q.cuts)
  }

  lemma NothingDelivered(v: Voice, fed: seq<byte>, granted: bool, frames: seq<Frame>)
    ensures Delivered(v, v, fed, fed, granted, [], SILENCE) && frames[|frames|..] == []
  {
    assert fed + [] == fed;
  }

  lemma OneDelivered(v: Voice, v': Voice, fed: seq<byte>, fed': seq<byte>, granted: bool, f: Frame,
                     open: bool, pieces: seq<seq<byte>>)
    requires Concat(pieces) == f.data && fed' == fed + (if open then f.data else [])
    requires granted ==> v' == Fed(Prepared(v, f.fmt), pieces) && open == Prepared(v, f.fmt).dev.Open?
    ensures Delivered(v, v', fed, fed', granted, [f], Playing([open], [pieces]))
  {
    hide Prepared, Fed;
    assert [f][..0] == [] && [open][..0] == [] && [pieces][..0] == [] && [f][0] == f;
    assert Plays(v, [], []) == v && Reached(v, [], []) == [] && KeptAudio([], []) == [];
    assert [] + [open] == [open];
  }

  lemma {:induction false} KeptAudioAppend(a: seq<Frame>, b: seq<Frame>, x: seq<bool>, y: seq<bool>)
    requires |x| == |a| && |y| == |b|
    ensures KeptAudio(a + b, x + y) == KeptAudio(a, x) + KeptAudio(b, y)
    decreases |b|
  {
    if b == [] {
      assert a + b == a && x + y == x;
    } else {
      var n := |b| - 1;
      assert (a + b)[..|a| + n] == a + b[..n] && (x + y)[..|a| + n] == x + y[..n];
      KeptAudioAppend(a, b[..n], x, y[..n]);
    }
  }

  lemma DeliveredAppend(v0: Voice, v1: Voice, v2: Voice, fed0: seq<byte>, fed1: seq<byte>, fed2: seq<byte>,
                        g1: bool, g2: bool, a: seq<Frame>, b: seq<Frame>, p: Playing, q: Playing)
    requires Delivered(v0, v1, fed0, fed1, g1, a, p) && Delivered(v1, v2, fed1, fed2, g2, b, q)
    ensures Delivered(v0, v2, fed0, fed2, g1 && g2, a + b, Followed(p, q))
  {
    hide Plays, Reached, KeptAudio;
    KeptAudioAppend(a, b, p.kept, q.kept);
    PlaysAppend(v0, a, b, p.cuts, q.cuts);
  }

  /** A whole utterance: its frames were handed over, and then the buffer was drained. */
  ghost predicate Performed(v: Voice, v': Voice, fed: seq<byte>, fed': seq<byte>, granted: bool, x: Exchange)
  {
    && |x.play.kept| == |x.end.frames| && CutsOf(x.end.frames, x.play.cuts)
    && fed' == fed + KeptAudio(x.end.frames, x.play.kept)
    && (granted ==> v' == Drained(Plays(v, x.end.frames, x.play.cuts))
                    && x.play.kept == Reached(v, x.end.frames, x.play.cuts))
  }

  /** How far into the server's words an attempt has read. */
  function ReadTo(x: Exchange): (n: int)
  {
    x.from + |x.stream| - |x.end.rest|
  }

  /** The requests of an attempt as the server sees them. */
  function Requests(u: Utterance, x: Exchange): (ls: seq<seq<byte>>)
  {
    Bodies(x.texts[..Min(x.sent, |x.texts|)], u.voice)
  }

  /** An attempt on a connection that had nothing left to read, to a polite server. */
  lemma PairedAttempt(u: Utterance, answer: Answerer, memory: nat, t: Try, own: seq<Message>)
    requires Tried(u, ServerOf(answer), memory, t) && (Received(t.r) ==> !NothingPlayed(t.r)) && t.r != NWERR_SEND
    requires Polite(answer) && Partial(t.x.wire0) == []
    requires t.x.sock != null && t.x.from == |Carried(t.x.sock.server, t.x.sock.limit, t.x.wire0)|
    requires t.x.sent <= |t.x.texts| && own == OwnMessages(answer, Lines(t.x.wire0), Requests(u, t.x))
    ensures Partial(t.x.wire) == []
    ensures Received(t.r) ==> Answered(t.r, t.x, own)
    ensures t.r == NWERR_NOMEM ==>
              (t.x.stream == [] <==>
                 memory == 0 || t.x.sock.limit <= |Answers(ServerOf(answer), Lines(t.x.wire0))|)
  {
    var r, x := t.r, t.x;
    hide Carried, Lines, Partial, Answers, OwnMessages, Polite, Bodies, RequestBytes, Segmented, EndBehind, Run;
    hide Audio, AllFramed, EmitAll, Stops, IsStop, FramesFrom, Passes, CutsOf, ServerOf;
    OwnStream(answer, x.wire0, x.wire, x.texts[..x.sent], u.voice, x.sock.limit, x.from, x.stream);
    if Received(r) {
      assert x.texts[..x.sent] == x.texts;
      SegmentsAreSome(u, x.texts);
      OwnResponses(x.hdr, own, x.stream, x.ending, |x.texts|);
      AudioIsNoError(x);
    }
  }

  lemma SegmentsAreSome(u: Utterance, texts: seq<seq<byte>>)
    requires Segmented(u.text, u.splitWords, texts)
    ensures |texts| >= 1
  {
    SegmentedOnce(u.text, u.splitWords, texts, texts);
  }

  lemma AudioIsNoError(x: Exchange)
    ensures ResultOf(x) != NWERR_PROTO <==> x.end.status == Finished
  {
  }

  /** The second attempt has a connection of its own, if any, with nothing sent or read before. */
  predicate OwnLink(x: Exchange, y: Exchange)
  {
    y.sock != null ==> y.sock != x.sock && y.wire0 == [] && y.from == 0
  }

  /** The attempts at one utterance: each as it should be, a second one only behind a failed send, which played
      nothing; and on a connection of its own, from its first byte on. */
  ghost predicate Attempts(u: Utterance, server: Server, memory: nat, ts: seq<Try>)
  {
    && 1 <= |ts| <= 2 && (forall t | t in ts :: Tried(u, server, memory, t))
    && (|ts| == 2 ==> ts[0].r == NWERR_SEND && OwnLink(ts[0].x, ts[1].x))
    && (ts[|ts| - 1].r == NWERR_SEND ==> |ts| == 2)
  }
}
