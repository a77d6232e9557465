/** Playback over whole runs: many utterances in one format, each of any number of chunks that arrive in
    any pieces (src/nw_engine.c:572-641, 711-725, 1139-1171). */
module PlayerRuns {
  import opened Bytes
  import opened Events
  import opened Playback
  import opened Sounds
  import opened Player

  lemma FlatSnoc(cuts: Cuts, from: nat, k: nat)
    requires from <= k < |cuts|
    ensures Flat(cuts[from..k + 1]) == Flat(cuts[from..k]) + cuts[k]
  {
    assert cuts[from..k + 1][..k - from] == cuts[from..k];
  }

  lemma FlatNothing(cuts: Cuts, k: nat)
    requires k <= |cuts|
    ensures cuts[k..k] == [] && Flat([]) == []
  {
  }

  /** From whichever chunk on it is written, the utterance loses no sample: so it is with even pieces. */
  ghost predicate Intact(rate: int, cuts: Cuts)
  {
    forall i | 0 <= i <= |cuts| :: Unharmed(PreRoll(rate), Flat(cuts[i..]))
  }

  ghost predicate Even(cuts: Cuts)
  {
    forall c | c in cuts :: EvenPieces(c)
  }

  lemma {:induction false} FlatEven(cuts: Cuts)
    requires Even(cuts)
    ensures EvenPieces(Flat(cuts))
  {
    if cuts != [] {
      var init := cuts[..|cuts| - 1];
      assert cuts == init + [cuts[|cuts| - 1]];
      FlatEven(init);
      assert cuts[|cuts| - 1] in cuts;
    }
  }

  lemma EvenIsIntact(rate: int, cuts: Cuts)
    requires Even(cuts)
    ensures Intact(rate, cuts)
  {
    forall i | 0 <= i <= |cuts|
      ensures Unharmed(PreRoll(rate), Flat(cuts[i..]))
    {
      assert forall c | c in cuts[i..] :: c in cuts;
      FlatEven(cuts[i..]);
      EvenIsHarmless(PreRoll(rate), Flat(cuts[i..]));
    }
  }

  /** One chunk, piece by piece. */
  method PlayChunk(p: Player, c: seq<seq<byte>>)
    requires p.Valid() && p.ahiOpened && p.prerolled
    modifies p`ahiLen, p`ahiPlayStarted, p`pieces, p`fed, p`asked, p.ahiBuf, p.tap, p.tap.fh
    ensures p.Valid() && p.pieces == old(p.pieces) + c && (p.tap.fh == old(p.tap.fh) || fresh(p.tap.fh))
    ensures p.Refused() >= old(p.Refused())
  {
    hide Player.Valid;
    for i := 0 to |c|
      invariant p.Valid() && p.pieces == old(p.pieces) + c[..i] && p.Refused() >= old(p.Refused())
      invariant p.tap.fh == old(p.tap.fh) || fresh(p.tap.fh)
    {
      p.WritePcm(c[i]);
      assert c[..i + 1] == c[..i] + [c[i]];
    }
    assert c[..|c|] == c;
  }

  /** The drain behind an utterance. */
  method Finish(p: Player, rate: int, ghost any: bool, ghost pieces: seq<seq<byte>>) returns (ghost heard: bool)
    requires p.Valid() && Unharmed(PreRoll(rate), pieces) && p.prerolled == any
    requires any ==> p.pieces == pieces && p.rate == rate && p.ahiOpened
    modifies p`ahiLen, p`prerolled, p`ahiPlayStarted, p`pieces, p`spoken, p`waits, p`stored, p`asked, p.ahiBuf
    ensures p.Valid() && p.ahiLen == 0 && !p.prerolled && p.Refused() >= old(p.Refused())
    ensures p.ahiBuf != null ==> forall i | 0 <= i < CAPACITY :: p.ahiBuf[i] == 0
    ensures p.spoken == old(p.spoken) + (if heard then [Sound(rate, Concat(pieces))] else [])
    ensures p.Refused() == old(p.Refused()) ==> (heard <==> any && !(PreRoll(rate) == 0 && Concat(pieces) == []))
  {
    hide Player.Valid, Sound, Fill, Unharmed, Script;
    ghost var before := p.spoken;
    DrainedSound(rate, pieces);
    NothingWritten();
    p.Drain();
    heard := p.spoken != before;
    assert before + [] == before;
  }

  /** One utterance: it is heard as its samples from the first chunk that found an open device, or not at all;
      nothing is left of it in the buffer. If nothing is refused it is heard from its first chunk on, unless
      there is not a byte to play. */
  method PlayUtterance(p: Player, rate: int, channels: int, cuts: Cuts)
    returns (ghost heard: bool, ghost from: nat)
    requires p.Valid() && p.ahiLen == 0 && !p.prerolled && Intact(rate, cuts)
    modifies p, p.ahiBuf, p.tap, p.tap.fh
    ensures p.Valid() && p.ahiLen == 0 && !p.prerolled && from <= |cuts| && p.Refused() >= old(p.Refused())
    ensures p.ahiBuf != null ==> forall i | 0 <= i < CAPACITY :: p.ahiBuf[i] == 0
    ensures p.spoken == old(p.spoken) + (if heard then [Sound(rate, Concat(Flat(cuts[from..])))] else [])
    ensures p.Refused() == old(p.Refused()) && rate != 0 && channels != 0 ==>
              from == 0 && (heard <==> Audible(rate, cuts))
    ensures p.tap.fh == old(p.tap.fh) || fresh(p.tap.fh)
    ensures p.ahiBuf == null || p.ahiBuf == old(p.ahiBuf) || fresh(p.ahiBuf)
  {
    hide Player.Valid, Flat, Sound, Unharmed;
    from := 0;
    ghost var any := false;
    for k := 0 to |cuts|
      invariant p.Valid() && p.spoken == old(p.spoken) && from <= k && p.Refused() >= old(p.Refused())
      invariant p.tap.fh == old(p.tap.fh) || fresh(p.tap.fh)
      invariant p.ahiBuf == null || p.ahiBuf == old(p.ahiBuf) || fresh(p.ahiBuf)
      invariant any ==> p.Matches(rate, channels) && p.prerolled && p.pieces == Flat(cuts[from..k])
      invariant !any ==> p.ahiLen == 0 && !p.prerolled && from == k
      invariant p.Refused() == old(p.Refused()) && rate != 0 && channels != 0 ==> from == 0 && (any <==> k > 0)
    {
      p.Prepare(rate, 2, channels);
      if p.ahiOpened {
        if !any {
          from, any := k, true;
          FlatNothing(cuts, k);
        }
        PlayChunk(p, cuts[k]);
        FlatSnoc(cuts, from, k);
      } else {
        from := k + 1;
      }
    }
    assert cuts[from..|cuts|] == cuts[from..] && cuts[0..] == cuts;
    heard := Finish(p, rate, any, Flat(cuts[from..]));
  }

  /** There is a byte to play: a sample, or the pre-roll in front of a chunk. */
  predicate Audible(rate: int, cuts: Cuts)
  {
    cuts != [] && !(PreRoll(rate) == 0 && Concat(Flat(cuts)) == [])
  }

  /** The sounds of the utterances that were heard, in order. */
  function HeardSounds(rate: int, us: seq<Cuts>, heard: seq<bool>, from: seq<nat>): (s: seq<seq<byte>>)
    requires |us| == |heard| == |from| && forall i | 0 <= i < |us| :: from[i] <= |us[i]|
  {
    if us == [] then []
    else
      var n := |us| - 1;
      HeardSounds(rate, us[..n], heard[..n], from[..n])
      + if heard[n] then [Sound(rate, Concat(Flat(us[n][from[n]..])))] else []
  }

  lemma NoSounds(rate: int)
    ensures HeardSounds(rate, [], [], []) == []
  {
  }

  lemma SoundsMore(rate: int, us: seq<Cuts>, i: nat, heard: seq<bool>, from: seq<nat>, h: bool, f: nat)
    requires |heard| == |from| == i < |us| && f <= |us[i]| && forall j | 0 <= j < i :: from[j] <= |us[j]|
    ensures HeardSounds(rate, us[..i + 1], heard + [h], from + [f])
         == HeardSounds(rate, us[..i], heard, from) + if h then [Sound(rate, Concat(Flat(us[i][f..])))] else []
  {
    hide Sound, Flat;
    assert us[..i + 1][..i] == us[..i] && (heard + [h])[..i] == heard && (from + [f])[..i] == from;
  }

  /** Any number of utterances in one format: what is played is, utterance by utterance, each one's own samples
      between two silences; nothing of one is left for the next. If nothing is refused all of them are heard,
      whole. */
  method PlayAll(p: Player, rate: int, channels: int, us: seq<Cuts>)
    returns (ghost heard: seq<bool>, ghost from: seq<nat>)
    requires p.Valid() && p.ahiLen == 0 && !p.prerolled && forall u | u in us :: Intact(rate, u)
    modifies p, p.ahiBuf, p.tap, p.tap.fh
    ensures p.Valid() && p.ahiLen == 0 && !p.prerolled && |heard| == |from| == |us| && p.Refused() >= old(p.Refused())
    ensures forall i | 0 <= i < |us| :: from[i] <= |us[i]|
    ensures p.spoken == old(p.spoken) + HeardSounds(rate, us, heard, from)
    ensures p.Refused() == old(p.Refused()) && rate != 0 && channels != 0 ==>
              forall i | 0 <= i < |us| :: from[i] == 0 && (heard[i] <==> Audible(rate, us[i]))
  {
    hide Player.Valid, Sound, Flat, Audible, Intact, HeardSounds;
    heard, from := [], [];
    NoSounds(rate);
    for i := 0 to |us|
      invariant p.Valid() && p.ahiLen == 0 && !p.prerolled && |heard| == |from| == i && p.Refused() >= old(p.Refused())
      invariant p.tap.fh == old(p.tap.fh) || fresh(p.tap.fh)
      invariant p.ahiBuf == null || p.ahiBuf == old(p.ahiBuf) || fresh(p.ahiBuf)
      invariant forall j | 0 <= j < i :: from[j] <= |us[j]|
      invariant p.spoken == old(p.spoken) + HeardSounds(rate, us[..i], heard, from)
      invariant p.Refused() == old(p.Refused()) && rate != 0 && channels != 0 ==>
                  forall j | 0 <= j < i :: from[j] == 0 && (heard[j] <==> Audible(rate, us[j]))
    {
      ghost var h, f;
      h, f := PlayUtterance(p, rate, channels, us[i]);
      SoundsMore(rate, us, i, heard, from, h, f);
      heard, from := heard + [h], from + [f];
    }
    assert us[..|us|] == us;
  }
}
