/** Where a text may be cut, byte by byte (src/nw_engine.c:985-1016). */
module Marks {
  import opened Bytes

  // space, tab, line feed, carriage return
  predicate Blank(b: byte)
  {
    b == 32 || b == 9 || b == 10 || b == 13
  }

  // " ' ) ] }
  predicate Closing(b: byte)
  {
    b == 34 || b == 39 || b == 41 || b == 93 || b == 125
  }

  predicate EndOfWord(t: seq<byte>, p: nat)
  {
    0 < p <= |t| && !Blank(t[p - 1]) && (p == |t| || Blank(t[p]))
  }

  /** The number of words that end in (a, b]. */
  ghost function WordsIn(t: seq<byte>, a: nat, b: nat): (n: nat)
  {
    |set p: nat | a < p <= b && EndOfWord(t, p)|
  }

  /** The last byte in front of p that is no closing quote or bracket, or the first of the segment. */
  ghost predicate LastAt(t: seq<byte>, start: nat, p: nat, e: nat)
  {
    && start <= e < p <= |t| && (e > start ==> !Closing(t[e]))
    && forall i | e < i < p :: Closing(t[i])
  }

  /** . ! ? always, and , ; : once the segment has maxWords words. */
  ghost predicate MarkAt(t: seq<byte>, start: nat, p: nat, e: nat, maxWords: int)
    requires e < |t|
  {
    || t[e] == 46 || t[e] == 33 || t[e] == 63
    || ((t[e] == 44 || t[e] == 59 || t[e] == 58) && WordsIn(t, start, p) >= maxWords)
  }

  /** A segment that starts at `start` may end at p. */
  ghost predicate MayEnd(t: seq<byte>, start: nat, p: nat, maxWords: int)
  {
    start < p && EndOfWord(t, p) && exists e :: LastAt(t, start, p, e) && MarkAt(t, start, p, e, maxWords)
  }

  lemma OneLast(t: seq<byte>, start: nat, p: nat, e: nat, f: nat)
    requires LastAt(t, start, p, e) && LastAt(t, start, p, f)
    ensures e == f
  {
  }

  lemma WordsInStep(t: seq<byte>, a: nat, b: nat)
    requires a < b
    ensures WordsIn(t, a, b) == WordsIn(t, a, b - 1) + if EndOfWord(t, b) then 1 else 0
  {
    var s, s' := set p: nat | a < p <= b - 1 && EndOfWord(t, p), set p: nat | a < p <= b && EndOfWord(t, p);
    if EndOfWord(t, b) {
      assert s' == s + {b};
    } else {
      assert s' == s;
    }
  }

  lemma NoWordsIn(t: seq<byte>, a: nat)
    ensures WordsIn(t, a, a) == 0
  {
    assert (set p: nat | a < p <= a && EndOfWord(t, p)) == {};
  }

  function From(cuts: seq<nat>, k: nat): (s: nat)
    requires k <= |cuts|
  {
    if k == 0 then 0 else cuts[k - 1]
  }

  /** The k-th cut stands where its segment may end, for the first time. */
  ghost predicate FirstEnd(t: seq<byte>, cuts: seq<nat>, k: nat, maxWords: int)
    requires k < |cuts|
  {
    MayEnd(t, From(cuts, k), cuts[k], maxWords)
    && forall p: nat | p < cuts[k] :: !MayEnd(t, From(cuts, k), p, maxWords)
  }

  /** The cuts of a text: none without a word target or room, else every one at the first place where its segment
      may end, and no such place behind the last unless there is no more room. */
  ghost predicate CutAtMarks(t: seq<byte>, cuts: seq<nat>, maxWords: int, maxSeg: int)
  {
    if maxWords <= 0 || maxSeg <= 1 then cuts == []
    else
      && |cuts| <= maxSeg - 1
      && (forall k: nat | k < |cuts| :: FirstEnd(t, cuts, k, maxWords))
      && (|cuts| < maxSeg - 1 ==> forall p: nat :: !MayEnd(t, From(cuts, |cuts|), p, maxWords))
  }
}
