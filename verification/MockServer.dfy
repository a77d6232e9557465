/** The mock server's answer to one request (tests/mock_wyoming_server.py:49-69), and the engine
    reading the very samples out of it. */
module MockServer {
  import opened Bytes
  import opened Events
  import opened Wire
  import opened Response
  import opened Messages
  import opened Decoding
  import opened Pairing

  /** The three uneven parts of the fixture. */
  function Chunks(pcm: seq<byte>): (cs: seq<seq<byte>>)
    ensures Concat(cs) == pcm && |cs| == 3
  {
    var a, b := |pcm| / 5, |pcm| / 5 + |pcm| / 2;
    assert Concat([pcm[..a], pcm[a..b], pcm[b..]]) == pcm by {
      assert Concat([pcm[b..]]) == pcm[b..] + Concat([]);
      assert [pcm[a..b], pcm[b..]][1..] == [pcm[b..]];
      assert [pcm[..a], pcm[a..b], pcm[b..]][1..] == [pcm[a..b], pcm[b..]];
    }
    [pcm[..a], pcm[a..b], pcm[b..]]
  }

  /** The chunks that are not empty, in alternating header shapes; i counts the empty ones, too. */
  function ChunkEvents(f: Format, cs: seq<seq<byte>>, i: nat): (evs: seq<Event>)
  {
    if cs == [] then []
    else if cs[0] == [] then ChunkEvents(f, cs[1..], i + 1)
    else [Chunk(f, cs[0], i % 2 == 0)] + ChunkEvents(f, cs[1..], i + 1)
  }

  /** The answer up to its audio-stop. */
  function Body(f: Format, pcm: seq<byte>): (evs: seq<Event>)
  {
    [Start(f)] + ChunkEvents(f, Chunks(pcm), 0)
  }

  function Reply(f: Format, pcm: seq<byte>): (evs: seq<Event>)
  {
    Body(f, pcm) + [Stop]
  }

  function PartOf(f: Format, pcm: seq<byte>, inline: bool): (evs: seq<Event>)
  {
    if pcm == [] then [] else [Chunk(f, pcm, inline)]
  }

  /** Event by event: a fifth of the fixture, half of it and the rest, the one in the middle with its format in a
      block of its own; nothing for an empty part. */
  lemma ReplyIs(f: Format, pcm: seq<byte>)
    ensures var a, b := |pcm| / 5, |pcm| / 5 + |pcm| / 2;
            Reply(f, pcm) == [Start(f)] + PartOf(f, pcm[..a], true) + PartOf(f, pcm[a..b], false)
                             + PartOf(f, pcm[b..], true) + [Stop]
  {
    var a, b := |pcm| / 5, |pcm| / 5 + |pcm| / 2;
    var c1, c2, c3 := pcm[..a], pcm[a..b], pcm[b..];
    assert Chunks(pcm) == [c1, c2, c3];
    assert [c1, c2, c3][1..] == [c2, c3] && [c2, c3][1..] == [c3];
    assert ChunkEvents(f, [c3], 2) == PartOf(f, c3, true);
    assert ChunkEvents(f, [c2, c3], 1) == PartOf(f, c2, false) + PartOf(f, c3, true);
    assert ChunkEvents(f, [c1, c2, c3], 0) == PartOf(f, c1, true) + (PartOf(f, c2, false) + PartOf(f, c3, true));
  }

  predicate Fits(f: Format, pcm: seq<byte>)
  {
    InLong(f.rate) && InLong(f.width) && InLong(f.channels) && InLong(|pcm|)
  }

  lemma {:induction false} ChunkEventsCarry(f: Format, cs: seq<seq<byte>>, i: nat)
    requires Fits(f, Concat(cs))
    ensures AllSized(ChunkEvents(f, cs, i)) && CountStops(ChunkEvents(f, cs, i)) == 0
    ensures Audio(FramesOf(ChunkEvents(f, cs, i))) == Concat(cs)
    decreases |cs|
  {
    if cs != [] {
      var rest := ChunkEvents(f, cs[1..], i + 1);
      ChunkEventsCarry(f, cs[1..], i + 1);
      if cs[0] != [] {
        var ev := Chunk(f, cs[0], i % 2 == 0);
        assert ([ev] + rest)[1..] == rest;
        AudioAppend([Frame(f, cs[0])], FramesOf(rest));
        assert [Frame(f, cs[0])][..0] == [];
      }
    }
  }

  lemma StartShape(f: Format, evs: seq<Event>)
    requires AllSized(evs) && InLong(f.rate) && InLong(f.width) && InLong(f.channels)
    ensures AllSized([Start(f)] + evs) && CountStops([Start(f)] + evs) == CountStops(evs)
    ensures FramesOf([Start(f)] + evs) == FramesOf(evs)
  {
    assert ([Start(f)] + evs)[1..] == evs;
  }

  lemma BodyShape(f: Format, pcm: seq<byte>)
    requires Fits(f, pcm)
    ensures AllSized(Body(f, pcm)) && CountStops(Body(f, pcm)) == 0 && Audio(FramesOf(Body(f, pcm))) == pcm
  {
    hide Chunks, ChunkEvents, CountStops, FramesOf, Audio;
    ChunkEventsCarry(f, Chunks(pcm), 0);
    StartShape(f, ChunkEvents(f, Chunks(pcm), 0));
  }

  lemma ReplyShape(f: Format, pcm: seq<byte>)
    requires Fits(f, pcm)
    ensures AllSized(Reply(f, pcm)) && IsResponse(FramedAll(Reply(f, pcm)))
    ensures Audio(FramesFrom(NO_FORMAT, FramedAll(Reply(f, pcm)))) == pcm
  {
    hide Body, WellFramed, IsStop, FramesFrom, EmitAll, FramedOf, Audio;
    BodyShape(f, pcm);
    CountAppend(Body(f, pcm), [Stop]);
    assert [Stop][1..] == [] && FramesOf([Stop]) == [];
    assert FramesOf(Body(f, pcm)) + [] == FramesOf(Body(f, pcm));
    EventsAreMessages(Reply(f, pcm), NO_FORMAT);
    EventIsMessage(Stop, NO_FORMAT);
  }

  /** One step of the server's loop: what is still to be sent. */
  lemma SendNext(f: Format, cs: seq<seq<byte>>, i: nat)
    requires cs != [] && Fits(f, Concat(cs))
    ensures Fits(f, Concat(cs[1..])) && AllSized(ChunkEvents(f, cs, i)) && AllSized(ChunkEvents(f, cs[1..], i + 1))
    ensures cs[0] == [] ==> ChunkEvents(f, cs, i) == ChunkEvents(f, cs[1..], i + 1)
    ensures cs[0] != [] ==> Sized(Chunk(f, cs[0], i % 2 == 0))
                            && EncodeAll(ChunkEvents(f, cs, i))
                            == Encode(Chunk(f, cs[0], i % 2 == 0)) + EncodeAll(ChunkEvents(f, cs[1..], i + 1))
  {
    hide Encode;
    ChunkEventsCarry(f, cs, i);
    ChunkEventsCarry(f, cs[1..], i + 1);
    if cs[0] != [] {
      assert ChunkEvents(f, cs, i)[1..] == ChunkEvents(f, cs[1..], i + 1);
      assert Sized(ChunkEvents(f, cs, i)[0]);
    }
  }

  lemma ReplyEncoding(f: Format, pcm: seq<byte>)
    requires Fits(f, pcm)
    ensures AllSized(Reply(f, pcm)) && AllSized(Body(f, pcm)) && AllSized(ChunkEvents(f, Chunks(pcm), 0))
    ensures Fits(f, Concat(Chunks(pcm)))
    ensures Sized(Stop) && Sized(Start(f)) && EncodeAll(Reply(f, pcm)) == EncodeAll(Body(f, pcm)) + Encode(Stop)
    ensures EncodeAll(Body(f, pcm)) == Encode(Start(f)) + EncodeAll(ChunkEvents(f, Chunks(pcm), 0))
  {
    hide Encode, Chunks, ChunkEvents;
    BodyShape(f, pcm);
    ChunkEventsCarry(f, Chunks(pcm), 0);
    EncodeAppend(Body(f, pcm), [Stop]);
    assert EncodeAll([Stop]) == Encode(Stop) + EncodeAll([Stop][1..]);
    assert Body(f, pcm)[1..] == ChunkEvents(f, Chunks(pcm), 0);
  }

  /** chunk_header. */
  function ChunkHeader(f: Format, n: nat, inline: bool): (s: seq<byte>)
    requires f.rate >= 0 && f.width >= 0 && f.channels >= 0
  {
    ChunkLine(f, n, inline) + [LF] + if inline then [] else DataBlock(f)
  }

  lemma ChunkEncoding(f: Format, c: seq<byte>, inline: bool)
    requires Sized(Chunk(f, c, inline))
    ensures f.rate >= 0 && f.width >= 0 && f.channels >= 0
    ensures Encode(Chunk(f, c, inline)) == ChunkHeader(f, |c|, inline) + c
  {
    hide ChunkLine, DataBlock;
  }

  /** respond_once: headers and samples go out one after the other. */
  method RespondOnce(f: Format, pcm: seq<byte>) returns (sent: seq<byte>)
    requires Fits(f, pcm)
    ensures AllSized(Reply(f, pcm)) && sent == EncodeAll(Reply(f, pcm))
  {
    hide *;
    ReplyEncoding(f, pcm);
    sent := Encode(Start(f));
    var cs, i := Chunks(pcm), 0;
    while i < |cs|
      invariant i <= |cs| && Fits(f, Concat(cs[i..])) && AllSized(ChunkEvents(f, cs[i..], i))
      invariant sent + EncodeAll(ChunkEvents(f, cs[i..], i)) == EncodeAll(Body(f, pcm))
    {
      var c := cs[i];
      SendNext(f, cs[i..], i);
      assert cs[i..][1..] == cs[i + 1..];
      if c != [] {
        ChunkEncoding(f, c, i % 2 == 0);
        sent := sent + (ChunkHeader(f, |c|, i % 2 == 0) + c);
      }
      i := i + 1;
    }
    NothingLeft(f, i, cs[i..]);
    sent := sent + Encode(Stop);
  }

  lemma NothingLeft(f: Format, i: nat, cs: seq<seq<byte>>)
    requires cs == []
    ensures EncodeAll(ChunkEvents(f, cs, i)) == []
  {
  }

  /** The server as the other end of a held connection: the same fixture for every request. */
  function Fixture(f: Format, pcm: seq<byte>): (answer: Answerer)
    requires AllSized(Reply(f, pcm))
  {
    h => FramedAll(Reply(f, pcm))
  }

  /** It answers each request with one complete response, as the pairing theorem asks ... */
  lemma FixtureIsPolite(f: Format, pcm: seq<byte>)
    requires Fits(f, pcm)
    ensures AllSized(Reply(f, pcm)) && Polite(Fixture(f, pcm))
  {
    hide IsResponse, Reply;
    ReplyShape(f, pcm);
  }

  /** ... and the engine takes exactly the fixture's samples out of every answer. */
  lemma FixtureDecodes(f: Format, pcm: seq<byte>, hdr: seq<byte>, tail: seq<byte>, e: Ending)
    requires Fits(f, pcm) && |hdr| == LINE_BUFFER
    ensures AllSized(Reply(f, pcm))
    ensures var r := Run(Entry(hdr, EncodeAll(Reply(f, pcm)) + tail), e, 1);
            r.status == Finished && Audio(r.frames) == pcm && r.rest == tail
  {
    hide *;
    ReplyEncoding(f, pcm);
    BodyShape(f, pcm);
    ResponsesDecode(hdr, Body(f, pcm), tail, e, 1);
    var b := EncodeAll(Body(f, pcm));
    assert b + Encode(Stop) + tail == b + (Encode(Stop) + tail);
  }
}
