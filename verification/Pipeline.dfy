/** What the far side reads out of all the pipelined requests of one utterance
    (src/nw_engine.c:979-1100). */
module Pipeline {
  import opened Bytes
  import opened Utf8
  import opened Segments
  import opened Request
  import opened Wire

  /** The request lines of some texts, in order. */
  function RequestBytes(texts: seq<seq<byte>>, voice: seq<byte>): (r: seq<byte>)
  {
    if texts == [] then [] else RequestBytes(texts[..|texts| - 1], voice) + RequestLine(texts[|texts| - 1], voice)
  }

  function Bodies(texts: seq<seq<byte>>, voice: seq<byte>): (r: seq<seq<byte>>)
    ensures |r| == |texts|
  {
    seq(|texts|, k requires 0 <= k < |texts| => LineBody(texts[k], voice))
  }

  lemma BodiesInit(texts: seq<seq<byte>>, voice: seq<byte>)
    requires texts != []
    ensures Bodies(texts, voice) == Bodies(texts[..|texts| - 1], voice) + [LineBody(texts[|texts| - 1], voice)]
  {
    hide LineBody;
  }

  /** The pipelined bytes are the request bodies, one a line. */
  lemma {:induction false} RequestsAreLines(texts: seq<seq<byte>>, voice: seq<byte>)
    ensures RequestBytes(texts, voice) == Join(Bodies(texts, voice))
  {
    if texts != [] {
      hide RequestLine, LineBody, Bodies;
      var n := |texts| - 1;
      RequestsAreLines(texts[..n], voice);
      LineShape(texts[n], voice);
      BodiesInit(texts, voice);
    }
  }

  /** The far side splits the pipelined bytes into exactly the requests that were sent. */
  lemma PipelineLines(sent: seq<byte>, texts: seq<seq<byte>>, voice: seq<byte>)
    requires Partial(sent) == []
    ensures Lines(sent + RequestBytes(texts, voice)) == Lines(sent) + Bodies(texts, voice)
    ensures Partial(sent + RequestBytes(texts, voice)) == []
  {
    RequestsAreLines(texts, voice);
    hide LineBody;
    forall l | l in Bodies(texts, voice)
      ensures LF !in l
    {
      var k :| 0 <= k < |texts| && l == LineBody(texts[k], voice);
      LineBodyIsOneLine(texts[k], voice);
    }
    JoinSplitsBehind(sent, Bodies(texts, voice));
  }

  function CleanAll(texts: seq<seq<byte>>): (r: seq<seq<byte>>)
    ensures |r| == |texts|
  {
    seq(|texts|, k requires 0 <= k < |texts| => Clean(texts[k]))
  }

  lemma {:induction false} CleanConcat(texts: seq<seq<byte>>)
    ensures Concat(CleanAll(texts)) == Clean(Concat(texts))
  {
    if texts != [] {
      CleanConcat(texts[1..]);
      assert CleanAll(texts)[1..] == CleanAll(texts[1..]);
    }
  }

  /** The texts of requests that all parse. */
  ghost predicate AllParseTo(lines: seq<seq<byte>>, texts: seq<seq<byte>>, voice: Option<seq<byte>>)
  {
    && |lines| == |texts|
    && forall k: nat | k < |lines| :: ParseRequest(lines[k]) == Some(Synthesize(texts[k], voice))
  }

  /** End to end: one request per segment; the texts read by the far side concatenate to the
      original with every control byte other than LF and CR replaced by a space. */
  lemma TextSurvives(t: seq<byte>, voice: seq<byte>, cuts: seq<nat>, maxWords: int, maxSeg: int)
    requires Greedy(t, cuts, maxWords, maxSeg)
    ensures Partition(t, Ends(t, cuts))
    ensures var wire := RequestBytes(Slices(t, Ends(t, cuts)), voice);
            AllParseTo(Lines(wire), CleanAll(Slices(t, Ends(t, cuts))), RequestOf([], voice).voice)
    ensures Concat(CleanAll(Slices(t, Ends(t, cuts)))) == Clean(t)
  {
    GreedyPartitions(t, cuts, maxWords, maxSeg);
    var texts := Slices(t, Ends(t, cuts));
    var wire := RequestBytes(texts, voice);
    PipelineLines([], texts, voice);
    assert [] + wire == wire;
    assert Lines([]) + Bodies(texts, voice) == Bodies(texts, voice);
    forall k: nat | k < |texts|
      ensures ParseRequest(Lines(wire)[k]) == Some(Synthesize(CleanAll(texts)[k], RequestOf([], voice).voice))
    {
      RequestReadsBack(texts[k], voice);
    }
    SlicesConcat(t, Ends(t, cuts));
    CleanConcat(texts);
  }

  /** Valid UTF-8 stays valid in every segment and in every escaped request text. */
  lemma Utf8Survives(t: seq<byte>, cuts: seq<nat>, maxWords: int, maxSeg: int, k: nat)
    requires Greedy(t, cuts, maxWords, maxSeg) && IsUtf8(t) && k < |Ends(t, cuts)|
    ensures Partition(t, Ends(t, cuts))
    ensures IsUtf8(Slices(t, Ends(t, cuts))[k])
    ensures IsUtf8(EscapeText(Slices(t, Ends(t, cuts))[k]))
  {
    GreedyPartitions(t, cuts, maxWords, maxSeg);
    SlicesAreUtf8(t, Ends(t, cuts), k);
    EscapeKeepsUtf8(Slices(t, Ends(t, cuts))[k]);
  }
}
