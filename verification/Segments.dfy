/** Splitting the text into pipelined requests (nw_split, src/nw_engine.c:979-1020). */
module Segments {
  import opened Bytes
  import opened Utf8
  import Marks

  predicate IsSpace(b: byte)
  {
    b == SPACE || b == TAB || b == LF || b == CR
  }

  // " ' ) ] }
  predicate IsCloser(b: byte)
  {
    b == QUOTE || b == 39 || b == 41 || b == 93 || b == 125
  }

  // . ! ?
  predicate IsSentenceMark(b: byte)
  {
    b == 46 || b == 33 || b == 63
  }

  // , ; :
  predicate IsClauseMark(b: byte)
  {
    b == 44 || b == 59 || b == COLON
  }

  /** A word ends just before position p. */
  predicate WordEndAt(t: seq<byte>, p: nat)
  {
    0 < p <= |t| && !IsSpace(t[p - 1]) && (p == |t| || IsSpace(t[p]))
  }

  /** The number of words that end in (a, b]. */
  function WordEnds(t: seq<byte>, a: nat, b: nat): (n: nat)
    requires a <= b <= |t|
  {
    if a == b then 0 else WordEnds(t, a, b - 1) + if WordEndAt(t, b) then 1 else 0
  }

  /** Where the last character of a segment is, once closing quotes and brackets are peeled. */
  function Peeled(t: seq<byte>, lo: nat, e: nat): (r: nat)
    requires lo <= e < |t|
    ensures lo <= r <= e
    decreases e
  {
    if e > lo && IsCloser(t[e]) then Peeled(t, lo, e - 1) else e
  }

  /** May the segment that starts at `start` end at p? */
  predicate Eligible(t: seq<byte>, start: nat, p: nat, maxWords: int)
  {
    && start < p
    && WordEndAt(t, p)
    && var last := t[Peeled(t, start, p - 1)];
       (IsSentenceMark(last) || (IsClauseMark(last) && WordEnds(t, start, p) >= maxWords))
  }

  /** A cut rule says where a segment that starts at the first position may end. */
  type Rule = (nat, nat) -> bool

  function CutRule(t: seq<byte>, maxWords: int): (ok: Rule)
  {
    (start: nat, p: nat) => Eligible(t, start, p, maxWords)
  }

  ghost predicate NoCutIn(ok: Rule, start: nat, b: int)
  {
    forall p: nat | start < p <= b :: !ok(start, p)
  }

  /** c is the first position where the segment that starts at `start` may end. */
  ghost predicate FirstCut(ok: Rule, start: nat, c: nat)
  {
    start < c && ok(start, c) && NoCutIn(ok, start, c - 1)
  }

  /** Where the k-th segment starts, given where segments end. */
  function Start(ends: seq<nat>, k: nat): (s: nat)
    requires k <= |ends|
  {
    if k == 0 then 0 else ends[k - 1]
  }

  ghost predicate CutAt(ok: Rule, cuts: seq<nat>, k: nat)
    requires k < |cuts|
  {
    FirstCut(ok, Start(cuts, k), cuts[k])
  }

  ghost predicate GreedySoFar(ok: Rule, cuts: seq<nat>)
  {
    forall k: nat | k < |cuts| :: CutAt(ok, cuts, k)
  }

  /** Greedy cuts of n bytes that stop only when no eligible cut or no room is left. */
  ghost predicate GreedyRun(ok: Rule, n: nat, cuts: seq<nat>, room: nat)
  {
    && |cuts| <= room
    && GreedySoFar(ok, cuts)
    && (|cuts| < room ==> NoCutIn(ok, Start(cuts, |cuts|), n))
  }

  /** The inner cuts the design asks for: each is the first eligible one. */
  ghost predicate Greedy(t: seq<byte>, cuts: seq<nat>, maxWords: int, maxSeg: int)
  {
    if maxWords <= 0 || maxSeg <= 1 then cuts == []
    else GreedyRun(CutRule(t, maxWords), |t|, cuts, maxSeg - 1)
  }

  // ---- the rule, byte by byte ----

  lemma {:induction false} WordEndsAreWords(t: seq<byte>, a: nat, b: nat)
    requires a <= b <= |t|
    ensures WordEnds(t, a, b) == Marks.WordsIn(t, a, b)
    decreases b
  {
    if a == b {
      Marks.NoWordsIn(t, a);
    } else {
      WordEndsAreWords(t, a, b - 1);
      Marks.WordsInStep(t, a, b);
    }
  }

  lemma {:induction false} PeeledIsLast(t: seq<byte>, lo: nat, e: nat)
    requires lo <= e < |t|
    ensures Marks.LastAt(t, lo, e + 1, Peeled(t, lo, e))
    decreases e
  {
    if e > lo && IsCloser(t[e]) {
      PeeledIsLast(t, lo, e - 1);
    }
  }

  lemma EligibleIff(t: seq<byte>, start: nat, p: nat, maxWords: int)
    ensures Eligible(t, start, p, maxWords) <==> Marks.MayEnd(t, start, p, maxWords)
  {
    if start < p && WordEndAt(t, p) {
      PeeledIsLast(t, start, p - 1);
      WordEndsAreWords(t, start, p);
      var e := Peeled(t, start, p - 1);
      forall f | Marks.LastAt(t, start, p, f)
        ensures f == e
      {
        Marks.OneLast(t, start, p, e, f);
      }
    }
  }

  /** Greedy cuts stand at the marks the design names, the first ones there are. */
  lemma GreedyCutsAtMarks(t: seq<byte>, cuts: seq<nat>, maxWords: int, maxSeg: int)
    requires Greedy(t, cuts, maxWords, maxSeg)
    ensures Marks.CutAtMarks(t, cuts, maxWords, maxSeg)
  {
    var ok := CutRule(t, maxWords);
    forall start: nat, p: nat
      ensures ok(start, p) <==> Marks.MayEnd(t, start, p, maxWords)
    {
      EligibleIff(t, start, p, maxWords);
    }
    hide Eligible, Marks.MayEnd;
    if maxWords > 0 && maxSeg > 1 {
      forall k: nat | k < |cuts|
        ensures Marks.FirstEnd(t, cuts, k, maxWords)
      {
        assert CutAt(ok, cuts, k);
        FirstEnds(ok, t, cuts, k, maxWords);
      }
      if |cuts| < maxSeg - 1 {
        forall p: nat
          ensures !Marks.MayEnd(t, Marks.From(cuts, |cuts|), p, maxWords)
        {
          EndsInText(t, Start(cuts, |cuts|), p, maxWords);
        }
      }
    }
  }

  lemma EndsInText(t: seq<byte>, start: nat, p: nat, maxWords: int)
    ensures Marks.MayEnd(t, start, p, maxWords) ==> start < p <= |t|
  {
  }

  lemma FirstEnds(ok: Rule, t: seq<byte>, cuts: seq<nat>, k: nat, maxWords: int)
    requires k < |cuts| && CutAt(ok, cuts, k)
    requires forall start: nat, p: nat :: ok(start, p) <==> Marks.MayEnd(t, start, p, maxWords)
    ensures Marks.FirstEnd(t, cuts, k, maxWords)
  {
    forall p: nat | p < cuts[k]
      ensures !Marks.MayEnd(t, Start(cuts, k), p, maxWords)
    {
      EndsInText(t, Start(cuts, k), p, maxWords);
    }
  }

  lemma {:induction false} GreedyAgree(ok: Rule, a: seq<nat>, b: seq<nat>, n: nat)
    requires n <= |a| && n <= |b|
    requires GreedySoFar(ok, a) && GreedySoFar(ok, b)
    ensures forall k: nat | k < n :: a[k] == b[k]
  {
    if n > 0 {
      GreedyAgree(ok, a, b, n - 1);
      assert Start(a, n - 1) == Start(b, n - 1);
      assert CutAt(ok, a, n - 1);
      assert CutAt(ok, b, n - 1);
    }
  }

  lemma CutFollows(ok: Rule, cuts: seq<nat>, n: nat, b: nat)
    requires n < |cuts| && GreedySoFar(ok, cuts) && cuts[n] <= b
    ensures !NoCutIn(ok, Start(cuts, n), b)
  {
    assert CutAt(ok, cuts, n);
  }

  lemma CutsInText(t: seq<byte>, cuts: seq<nat>, maxWords: int, k: nat)
    requires GreedySoFar(CutRule(t, maxWords), cuts) && k < |cuts|
    ensures Start(cuts, k) < cuts[k] <= |t| && (cuts[k] == |t| || IsSpace(t[cuts[k]]))
  {
    assert CutAt(CutRule(t, maxWords), cuts, k);
  }

  lemma GreedyNotLonger(t: seq<byte>, a: seq<nat>, b: seq<nat>, maxWords: int, maxSeg: int)
    requires maxWords > 0 && maxSeg > 1
    requires Greedy(t, a, maxWords, maxSeg) && Greedy(t, b, maxWords, maxSeg)
    ensures |b| <= |a|
  {
    if |a| < |b| {
      var ok := CutRule(t, maxWords);
      GreedyAgree(ok, a, b, |a|);
      CutsInText(t, b, maxWords, |a|);
      CutFollows(ok, b, |a|, |t|);
    }
  }

  /** Greedy determines the cuts. */
  lemma GreedyIsUnique(t: seq<byte>, a: seq<nat>, b: seq<nat>, maxWords: int, maxSeg: int)
    requires Greedy(t, a, maxWords, maxSeg) && Greedy(t, b, maxWords, maxSeg)
    ensures a == b
  {
    if maxWords > 0 && maxSeg > 1 {
      GreedyNotLonger(t, a, b, maxWords, maxSeg);
      GreedyNotLonger(t, b, a, maxWords, maxSeg);
      GreedyAgree(CutRule(t, maxWords), a, b, |a|);
    }
  }

  /** Segment ends: the inner cuts, then the end of the text unless the last cut is there. */
  function Ends(t: seq<byte>, cuts: seq<nat>): (ends: seq<nat>)
  {
    if cuts == [] || cuts[|cuts| - 1] < |t| then cuts + [|t|] else cuts
  }

  /** The k-th end closes a slice of t, in front of white space or at the end of the text. */
  ghost predicate EndAt(t: seq<byte>, ends: seq<nat>, k: nat)
    requires k < |ends|
  {
    Start(ends, k) <= ends[k] <= |t| && (ends[k] == |t| || IsSpace(t[ends[k]]))
  }

  /** Ends cut the text into adjacent pieces, each cut in front of white space or at the end. */
  ghost predicate Partition(t: seq<byte>, ends: seq<nat>)
  {
    && ends != [] && ends[|ends| - 1] == |t|
    && forall k: nat | k < |ends| :: EndAt(t, ends, k)
  }

  /** The segments themselves. */
  ghost function Slices(t: seq<byte>, ends: seq<nat>): (ss: seq<seq<byte>>)
    requires Partition(t, ends)
    ensures |ss| == |ends|
  {
    seq(|ends|, k requires 0 <= k < |ends| => assert EndAt(t, ends, k); t[Start(ends, k)..ends[k]])
  }

  lemma EndInText(t: seq<byte>, cuts: seq<nat>, maxWords: int, k: nat)
    requires GreedySoFar(CutRule(t, maxWords), cuts) && k < |Ends(t, cuts)|
    ensures EndAt(t, Ends(t, cuts), k)
  {
    assert k < |cuts| ==> Start(Ends(t, cuts), k) == Start(cuts, k);
    if k < |cuts| {
      CutsInText(t, cuts, maxWords, k);
    } else if k > 0 {
      CutsInText(t, cuts, maxWords, k - 1);
    }
  }

  lemma CutsPartition(t: seq<byte>, cuts: seq<nat>, maxWords: int)
    requires GreedySoFar(CutRule(t, maxWords), cuts)
    ensures Partition(t, Ends(t, cuts))
  {
    forall k: nat | k < |Ends(t, cuts)|
      ensures EndAt(t, Ends(t, cuts), k)
    {
      EndInText(t, cuts, maxWords, k);
    }
    if cuts != [] {
      CutsInText(t, cuts, maxWords, |cuts| - 1);
    }
  }

  /** The split is a partition into at least one and at most maxSeg segments. */
  lemma GreedyPartitions(t: seq<byte>, cuts: seq<nat>, maxWords: int, maxSeg: int)
    requires Greedy(t, cuts, maxWords, maxSeg)
    ensures Partition(t, Ends(t, cuts))
    ensures 1 <= |Ends(t, cuts)| && (maxSeg >= 1 ==> |Ends(t, cuts)| <= maxSeg)
    // the cuts, and the end of the text unless it is one of them: no segment of a text is empty
    ensures Ends(t, cuts) == cuts || Ends(t, cuts) == cuts + [|t|]
    ensures t != [] ==> forall k: nat | k < |Ends(t, cuts)| :: Start(Ends(t, cuts), k) < Ends(t, cuts)[k]
  {
    if cuts == [] {
      assert Ends(t, cuts) == [|t|];
    } else {
      CutsPartition(t, cuts, maxWords);
      forall k: nat | k < |Ends(t, cuts)|
        ensures Start(Ends(t, cuts), k) < Ends(t, cuts)[k]
      {
        assert Start(Ends(t, cuts), k) == Start(cuts, k);
        if k < |cuts| { CutsInText(t, cuts, maxWords, k); }
      }
    }
  }

  /** No byte of the text is lost, repeated or moved by the split. */
  lemma SlicesConcat(t: seq<byte>, ends: seq<nat>)
    requires Partition(t, ends)
    ensures Concat(Slices(t, ends)) == t
  {
    SlicesPrefix(t, ends, |ends|);
    assert Slices(t, ends)[..|ends|] == Slices(t, ends);
    assert t[..|t|] == t;
  }

  lemma {:induction false} SlicesPrefix(t: seq<byte>, ends: seq<nat>, n: nat)
    requires Partition(t, ends) && n <= |ends|
    ensures Start(ends, n) <= |t| && Concat(Slices(t, ends)[..n]) == t[..Start(ends, n)]
  {
    if n > 0 {
      var ss := Slices(t, ends);
      SlicesPrefix(t, ends, n - 1);
      assert ss[..n] == ss[..n - 1] + [ss[n - 1]];
      ConcatSnoc(ss[..n - 1], ss[n - 1]);
      assert EndAt(t, ends, n - 1);
      assert t[..Start(ends, n - 1)] + t[Start(ends, n - 1)..ends[n - 1]] == t[..ends[n - 1]];
    }
  }

  /** Splitting valid UTF-8 gives valid UTF-8 segments. */
  lemma SlicesAreUtf8(t: seq<byte>, ends: seq<nat>, k: nat)
    requires Partition(t, ends) && IsUtf8(t) && k < |ends|
    ensures IsUtf8(Slices(t, ends)[k])
  {
    var a, b := Start(ends, k), ends[k];
    assert EndAt(t, ends, k) && (k > 0 ==> EndAt(t, ends, k - 1));
    CutBeforeAscii(t, b);
    if a < b {
      assert k > 0 ==> IsSpace(t[a]);
      assert k == 0 || t[..b][a] < 0x80;
      if k == 0 {
        assert t[a..b] == t[..b];
      } else {
        CutBeforeAscii(t[..b], a);
        assert t[..b][a..] == t[a..b];
      }
    }
  }

  lemma NoCutWithoutMarks(t: seq<byte>, maxWords: int, b: nat)
    requires forall i | 0 <= i < |t| :: !IsSentenceMark(t[i]) && !IsClauseMark(t[i])
    ensures NoCutIn(CutRule(t, maxWords), 0, b)
  {
  }

  /** A text without sentence or clause marks is one request: there is no fall-back cut at a
      word boundary, whatever the word target says. */
  lemma NoMarksNoCut(t: seq<byte>, cuts: seq<nat>, maxWords: int, maxSeg: int)
    requires Greedy(t, cuts, maxWords, maxSeg)
    requires forall i | 0 <= i < |t| :: !IsSentenceMark(t[i]) && !IsClauseMark(t[i])
    ensures Ends(t, cuts) == [|t|]
  {
    if cuts != [] {
      CutsInText(t, cuts, maxWords, 0);
      CutFollows(CutRule(t, maxWords), cuts, 0, |t|);
      NoCutWithoutMarks(t, maxWords, |t|);
    }
  }

  ghost predicate NoWordEndIn(t: seq<byte>, a: nat, b: int)
  {
    forall p: nat | a < p <= b :: !WordEndAt(t, p)
  }

  lemma {:induction false} NoWordEndNoCut(t: seq<byte>, start: nat, a: nat, b: nat, maxWords: int)
    requires start <= a <= b <= |t| && NoWordEndIn(t, a, b)
    ensures WordEnds(t, start, b) == WordEnds(t, start, a)
    ensures NoCutIn(CutRule(t, maxWords), start, a) ==> NoCutIn(CutRule(t, maxWords), start, b)
  {
    if a < b {
      NoWordEndNoCut(t, start, a, b - 1, maxWords);
      assert !WordEndAt(t, b);
    }
  }

  method SkipSpaces(t: seq<byte>, start: nat) returns (i: nat)
    requires start <= |t|
    ensures start <= i <= |t| && NoWordEndIn(t, start, i)
    ensures i < |t| ==> !IsSpace(t[i])
  {
    i := start;
    while i < |t| && IsSpace(t[i])
      invariant start <= i <= |t| && NoWordEndIn(t, start, i)
    {
      i := i + 1;
    }
  }

  method SkipWord(t: seq<byte>, start: nat) returns (we: nat)
    requires start < |t| && !IsSpace(t[start])
    ensures start < we <= |t| && NoWordEndIn(t, start, we - 1) && WordEndAt(t, we)
  {
    we := start;
    while we < |t| && !IsSpace(t[we])
      invariant start <= we <= |t| && NoWordEndIn(t, start, we - 1)
      invariant we == start || !IsSpace(t[we - 1])
    {
      we := we + 1;
    }
  }

  /** The character a word is classified by. */
  method LastChar(t: seq<byte>, segStart: nat, we: nat) returns (last: byte)
    requires segStart < we <= |t|
    ensures last == t[Peeled(t, segStart, we - 1)]
  {
    var e := we - 1;
    while e > segStart && IsCloser(t[e])
      invariant segStart <= e < we
      invariant Peeled(t, segStart, we - 1) == Peeled(t, segStart, e)
    {
      e := e - 1;
    }
    return t[e];
  }

  /** One pass of the loop over words: the next word end, or None past the last word. */
  method NextWord(t: seq<byte>, segStart: nat, i: nat, words: nat, maxWords: int)
    returns (end: Option<nat>, brk: bool)
    requires segStart <= i <= |t| && words == WordEnds(t, segStart, i)
    ensures end == None ==> NoWordEndIn(t, i, |t|)
    ensures end.Some? ==> i < end.value <= |t| && NoWordEndIn(t, i, end.value - 1) && WordEndAt(t, end.value)
    ensures end.Some? ==> brk == Eligible(t, segStart, end.value, maxWords)
    ensures end.Some? ==> (brk <==> Marks.MayEnd(t, segStart, end.value, maxWords))
  {
    var j := SkipSpaces(t, i);
    if j >= |t| { return None, false; }
    var we := SkipWord(t, j);
    var last := LastChar(t, segStart, we);
    brk := false;
    NoWordEndNoCut(t, segStart, i, we - 1, maxWords);
    if IsSentenceMark(last) { brk := true; }
    else if IsClauseMark(last) && words + 1 >= maxWords { brk := true; }
    end := Some(we);
    EligibleIff(t, segStart, we, maxWords);
  }

  lemma NewCut(ok: Rule, cuts: seq<nat>, c: nat)
    requires GreedySoFar(ok, cuts) && FirstCut(ok, Start(cuts, |cuts|), c)
    ensures GreedySoFar(ok, cuts + [c])
  {
    var more := cuts + [c];
    forall k: nat | k < |more|
      ensures CutAt(ok, more, k)
    {
      assert Start(more, k) == Start(cuts, k);
      if k < |cuts| {
        assert CutAt(ok, cuts, k);
      }
    }
  }

  lemma NotHere(ok: Rule, start: nat, c: nat)
    requires NoCutIn(ok, start, c - 1) && !ok(start, c)
    ensures NoCutIn(ok, start, c)
  {
  }

  ghost predicate RecordAt(off: seq<int>, len: seq<int>, ends: seq<nat>, k: nat)
    requires k < |ends| && k < |off| && k < |len|
  {
    off[k] == Start(ends, k) && len[k] == ends[k] - Start(ends, k)
  }

  /** The offset and length tables describe the segments with these ends. */
  ghost predicate Records(off: seq<int>, len: seq<int>, ends: seq<nat>)
  {
    && |off| >= |ends| && |len| >= |ends|
    && forall k: nat | k < |ends| :: RecordAt(off, len, ends, k)
  }

  lemma RecordsOneMore(off: seq<int>, len: seq<int>, ends: seq<nat>, e: nat)
    requires Records(off, len, ends) && |off| > |ends| && |len| > |ends|
    ensures Records(off[|ends| := Start(ends, |ends|)], len[|ends| := e - Start(ends, |ends|)], ends + [e])
  {
    var n := |ends|;
    var o, l, more := off[n := Start(ends, n)], len[n := e - Start(ends, n)], ends + [e];
    forall k: nat | k <= n
      ensures RecordAt(o, l, more, k)
    {
      assert k < n ==> RecordAt(off, len, ends, k);
      assert Start(more, k) == Start(ends, k);
    }
  }

  /** Store one more segment in the tables. */
  method Store(off: array<int>, len: array<int>, nseg: int, ghost ends: seq<nat>, start: nat, e: nat)
    requires off != len && 0 <= nseg == |ends| < off.Length && nseg < len.Length
    requires start == Start(ends, |ends|) && Records(off[..], len[..], ends)
    modifies off, len
    ensures Records(off[..], len[..], ends + [e])
  {
    ghost var o, l := off[..], len[..];
    off[nseg], len[nseg] := start, e - start;
    assert off[..] == o[nseg := start] && len[..] == l[nseg := e - start];
    RecordsOneMore(o, l, ends, e);
  }

  /** nw_split: fills off and len with the segments of the greedy cuts and returns their number. */
  method Split(t: seq<byte>, maxWords: int, off: array<int>, len: array<int>, maxSeg: int)
    returns (nseg: int, ghost cuts: seq<nat>)
    requires off != len && off.Length >= maxSeg && len.Length >= maxSeg
    requires off.Length >= 1 && len.Length >= 1
    modifies off, len
    ensures Greedy(t, cuts, maxWords, maxSeg) && Marks.CutAtMarks(t, cuts, maxWords, maxSeg)
    ensures nseg == |Ends(t, cuts)|
    ensures Records(off[..], len[..], Ends(t, cuts))
  {
    nseg, cuts := 0, [];
    if maxWords <= 0 || maxSeg <= 1 {
      Store(off, len, 0, [], 0, |t|);
      nseg := 1;
      GreedyCutsAtMarks(t, cuts, maxWords, maxSeg);
      return;
    }
    ghost var ok := CutRule(t, maxWords);
    var i, segStart, words := 0, 0, 0;
    while i < |t|
      invariant 0 <= segStart <= i <= |t|
      invariant 0 <= nseg == |cuts| <= maxSeg - 1
      invariant segStart == Start(cuts, |cuts|)
      invariant words == WordEnds(t, segStart, i)
      invariant GreedySoFar(ok, cuts)
      invariant nseg < maxSeg - 1 ==> NoCutIn(ok, segStart, i)
      invariant Records(off[..], len[..], cuts)
      decreases |t| - i
    {
      var end, brk := NextWord(t, segStart, i, words, maxWords);
      if end == None {
        NoWordEndNoCut(t, segStart, i, |t|, maxWords);
        i := |t|;
        break;
      }
      NoWordEndNoCut(t, segStart, i, end.value - 1, maxWords);
      i, words := end.value, words + 1;
      if brk && nseg < maxSeg - 1 {
        assert FirstCut(ok, segStart, i);
        Store(off, len, nseg, cuts, segStart, i);
        NewCut(ok, cuts, i);
        nseg, cuts := nseg + 1, cuts + [i];
        segStart, words := i, 0;
      } else if nseg < maxSeg - 1 {
        NotHere(ok, segStart, i);
      }
    }
    assert GreedyRun(ok, |t|, cuts, maxSeg - 1);
    GreedyCutsAtMarks(t, cuts, maxWords, maxSeg);
    if segStart < |t| {
      Store(off, len, nseg, cuts, segStart, |t|);
      nseg := nseg + 1;
    }
    if nseg == 0 {
      Store(off, len, 0, cuts, 0, |t|);
      nseg := 1;
    }
  }
}
