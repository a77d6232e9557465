/** Requests and responses on a held connection: what the link carries after an utterance's
    requests are exactly their own answers (src/nw_engine.c:1086-1171). */
module Pairing {
  import opened Bytes
  import opened Wire
  import opened Response
  import opened Messages
  import opened Truncation

  /** The messages a server answers the last of a history of request lines with. */
  type Answerer = seq<seq<byte>> -> seq<Message>

  function ServerOf(answer: Answerer): (s: Server)
  {
    h => EmitAll(answer(h))
  }

  /** One audio-stop per request, and nothing behind it; no empty header line, and none that is too long. */
  predicate IsResponse(ms: seq<Message>)
  {
    AllFramed(ms) && ms != [] && IsStop(ms[|ms| - 1]) && Stops(ms) == 1
  }

  ghost predicate Polite(answer: Answerer)
  {
    forall h :: IsResponse(answer(h))
  }

  /** The messages that answer the requests behind a history, in order. */
  function OwnMessages(answer: Answerer, before: seq<seq<byte>>, own: seq<seq<byte>>): (ms: seq<Message>)
  {
    if own == [] then []
    else OwnMessages(answer, before, own[..|own| - 1]) + answer(before + own)
  }

  lemma {:induction false} OwnMessagesShape(answer: Answerer, before: seq<seq<byte>>, own: seq<seq<byte>>)
    requires Polite(answer)
    ensures var ms := OwnMessages(answer, before, own);
            AllFramed(ms) && Stops(ms) == |own| && (own != [] ==> ms != [] && IsStop(ms[|ms| - 1]))
  {
    hide IsResponse, Stops, IsStop, WellFramed;
    if own != [] {
      var init := own[..|own| - 1];
      OwnMessagesShape(answer, before, init);
      assert IsResponse(answer(before + own));
      OneMoreResponse(OwnMessages(answer, before, init), answer(before + own));
    } else {
      NoMessages();
    }
  }

  lemma NoMessages()
    ensures Stops([]) == 0 && EmitAll([]) == []
  {
  }

  lemma OneMoreResponse(ms: seq<Message>, more: seq<Message>)
    requires AllFramed(ms) && IsResponse(more)
    ensures AllFramed(ms + more) && Stops(ms + more) == Stops(ms) + 1
    ensures ms + more != [] && IsStop((ms + more)[|ms + more| - 1])
  {
    hide IsStop, WellFramed, Stops;
    EmitAppend(ms, more);
  }

  /** What the server says in answer to an utterance's requests is, behind what it said before, the encoding
      of the answers to exactly these. */
  lemma {:induction false} AnswersAreOwn(answer: Answerer, before: seq<seq<byte>>, own: seq<seq<byte>>)
    ensures Answers(ServerOf(answer), before + own)
         == Answers(ServerOf(answer), before) + EmitAll(OwnMessages(answer, before, own))
    decreases |own|
  {
    hide Emit, EmitAll;
    if own == [] {
      assert before + own == before;
      NoMessages();
    } else {
      var all, init := before + own, own[..|own| - 1];
      assert all[..|all| - 1] == before + init;
      AnswersAreOwn(answer, before, init);
      EmitAppend(OwnMessages(answer, before, init), answer(all));
      JoinAnswers(Answers(ServerOf(answer), before), EmitAll(OwnMessages(answer, before, init)), EmitAll(answer(all)));
    }
  }

  lemma JoinAnswers(a: seq<byte>, b: seq<byte>, c: seq<byte>)
    ensures a + b + c == a + (b + c)
  {
  }

  /** After a clean start the link carries a prefix of this utterance's own answers: all of
      them unless it was cut. */
  lemma LinkCarriesOwn(a: seq<byte>, own: seq<byte>, limit: nat)
    ensures var before, after := a[..Min(limit, |a|)], (a + own)[..Min(limit, |a + own|)];
            |before| <= |after| && after[|before|..] <= own
            && (after[|before|..] == own <==> limit >= |a| + |own| || own == [])
            && (own != [] ==> (after[|before|..] == [] <==> limit <= |a|))
  {
    var before, after := a[..Min(limit, |a|)], (a + own)[..Min(limit, |a + own|)];
    if limit > |a| {
      assert after == a + own[..Min(limit, |a + own|) - |a|];
      assert after[|before|..] == own[..Min(limit, |a + own|) - |a|];
    } else {
      assert after == before;
    }
  }

  /** The response loop over a prefix of an utterance's own answers: nothing stays unread, the audio is a
      prefix of theirs, all of it when nothing was cut; and it succeeds exactly if the prefix passes. */
  lemma OwnResponses(hdr: seq<byte>, ms: seq<Message>, stream: seq<byte>, e: Ending, nseg: int)
    requires AllFramed(ms) && |hdr| == LINE_BUFFER && nseg >= 1 && Stops(ms) == nseg
    requires ms != [] && IsStop(ms[|ms| - 1]) && stream <= EmitAll(ms)
    ensures var r := Run(Entry(hdr, stream), e, nseg);
            r.rest == [] && Audio(r.frames) <= Audio(FramesFrom(NO_FORMAT, ms))
            && (r.status == Finished <==> Passes(hdr, ms, |stream|, e, 0, nseg))
    ensures stream == EmitAll(ms) ==>
              Run(Entry(hdr, stream), e, nseg).status == Finished
              && Run(Entry(hdr, stream), e, nseg).frames == FramesFrom(NO_FORMAT, ms)
  {
    hide *;
    assert stream == EmitAll(ms)[..|stream|];
    CutResponses(hdr, ms, |stream|, e, nseg);
    if stream == EmitAll(ms) {
      WholeResponses(ms);
      var n := |ms| - 1;
      MessagesDecode(hdr, ms[..n], ms[n], [], e, nseg);
    }
  }

  lemma WholeResponses(ms: seq<Message>)
    requires AllFramed(ms) && ms != [] && IsStop(ms[|ms| - 1])
    ensures var init, last := ms[..|ms| - 1], ms[|ms| - 1];
            AllFramed(init) && WellFramed(last) && EmitAll(ms) == EmitAll(init) + (Emit(last) + [])
            && Stops(ms) == Stops(init) + 1 && FramesFrom(NO_FORMAT, ms) == FramesFrom(NO_FORMAT, init)
  {
    var init, last := ms[..|ms| - 1], ms[|ms| - 1];
    assert ms == init + [last] && WellFramed(last);
    hide Emit, Announces, FormatBy, FramesBy;
    EmitAppend(init, [last]);
    FramesAppend(NO_FORMAT, init, [last]);
    assert [last][1..] == [];
    var f := FormatFrom(NO_FORMAT, init);
    assert FramesFrom(f, [last]) == FramesBy(f, last) + FramesFrom(FormatBy(f, last), []);
    NoPayload(last, f, FramesFrom(NO_FORMAT, init));
  }
}
