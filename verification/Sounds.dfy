/** What is heard: the device, the utterance being written and everything played so far, as a function of the
    audio that arrives, when AHI refuses nothing (src/nw_engine.c:483-658, 1139-1170). */
module Sounds {
  import opened Bytes
  import opened Events
  import opened Response
  import opened Playback

  /** Bytes of silence in front of an utterance (and behind it): about 64 ms. */
  function PreRoll(rate: int): (n: nat)
    ensures n % 2 == 0
  {
    if rate >= 0 then rate / 16 * 2 else 0
  }

  datatype Device = Shut | Open(rate: int, stereo: bool)

  /** `lead`: the pre-roll of the utterance is written. `pieces`: the samples behind it. `spoken`: the buffer,
      up to the head, each time playback was waited for. `stored`: the samples of earlier utterances that fitted
      the buffer. */
  datatype Voice = Voice(dev: Device, lead: bool, pieces: seq<seq<byte>>, spoken: seq<seq<byte>>, stored: seq<byte>)

  /** The pieces in which the connection hands over each frame. */
  type Cuts = seq<seq<seq<byte>>>

  function DeviceFor(f: Format): (d: Device)
  {
    Open(f.rate, f.channels >= 2)
  }

  /** The writes of the utterance so far. */
  function Writes(v: Voice): (ops: seq<Op>)
  {
    if v.dev.Open? && v.lead then Script(PreRoll(v.dev.rate), v.pieces) else []
  }

  /** The samples that fit the buffer behind a pre-roll of this length. */
  function Fit(lead: nat, pcm: seq<byte>): (s: seq<byte>)
  {
    pcm[..Min(|pcm|, CAPACITY - Min(lead, CAPACITY))]
  }

  /** All samples that fitted, in order: the capture file gets exactly these. */
  function Stored(v: Voice): (s: seq<byte>)
  {
    if v.dev.Open? && v.lead then v.stored + Fit(PreRoll(v.dev.rate), Concat(v.pieces)) else v.stored
  }

  /** ahi_drain: what was written is played with its trailing silence. */
  function Drained(v: Voice): (r: Voice)
  {
    v.(lead := false, pieces := [],
       spoken := if v.dev.Open? && Fill(Writes(v)) != []
                 then v.spoken + [Fill(Writes(v) + [Quiet(PreRoll(v.dev.rate))])] else v.spoken,
       stored := Stored(v))
  }

  /** ahi_close. */
  function ShutDown(v: Voice): (r: Voice)
  {
    Voice(Shut, false, [], Drained(v).spoken, Stored(v))
  }

  /** Closed on a changed format, opened if that can be. */
  function Reopened(v: Voice, f: Format): (r: Voice)
  {
    var w := if v.dev.Open? && v.dev != DeviceFor(f) then ShutDown(v) else v;
    if w.dev.Shut? && f.rate != 0 && f.width == 2 && f.channels != 0
    then Voice(DeviceFor(f), false, [], w.spoken, w.stored) else w
  }

  /** In front of a payload: that, and one pre-roll an utterance. */
  function Prepared(v: Voice, f: Format): (r: Voice)
  {
    var x := Reopened(v, f);
    if x.dev.Open? && !x.lead then x.(lead := true, pieces := []) else x
  }

  /** The pieces of a payload go to an open device. */
  function Fed(v: Voice, pieces: seq<seq<byte>>): (r: Voice)
  {
    if v.dev.Open? then v.(pieces := v.pieces + pieces) else v
  }

  function Plays(v: Voice, frames: seq<Frame>, cuts: Cuts): (r: Voice)
    requires |frames| == |cuts|
  {
    if frames == [] then v
    else
      var n := |frames| - 1;
      Fed(Prepared(Plays(v, frames[..n], cuts[..n]), frames[n].fmt), cuts[n])
  }

  /** Which frames find an open device. */
  function Reached(v: Voice, frames: seq<Frame>, cuts: Cuts): (open: seq<bool>)
    requires |frames| == |cuts|
    ensures |open| == |frames|
  {
    if frames == [] then []
    else
      var n := |frames| - 1;
      Reached(v, frames[..n], cuts[..n]) + [Prepared(Plays(v, frames[..n], cuts[..n]), frames[n].fmt).dev.Open?]
  }

  lemma {:induction false} PlaysAppend(v: Voice, a: seq<Frame>, b: seq<Frame>, c: Cuts, d: Cuts)
    requires |a| == |c| && |b| == |d|
    ensures Plays(v, a + b, c + d) == Plays(Plays(v, a, c), b, d)
    ensures Reached(v, a + b, c + d) == Reached(v, a, c) + Reached(Plays(v, a, c), b, d)
    decreases |b|
  {
    hide Prepared, Fed;
    if b == [] {
      assert a + b == a && c + d == c;
    } else {
      var n := |b| - 1;
      assert (a + b)[..|a| + n] == a + b[..n] && (c + d)[..|a| + n] == c + d[..n];
      PlaysAppend(v, a, b[..n], c, d[..n]);
    }
  }

  /** Every frame in a format that can be played reaches the device. */
  lemma {:induction false} PlayableIsReached(v: Voice, frames: seq<Frame>, cuts: Cuts, i: nat)
    requires |frames| == |cuts| && i < |frames|
    requires frames[i].fmt.rate != 0 && frames[i].fmt.width == 2 && frames[i].fmt.channels != 0
    ensures Reached(v, frames, cuts)[i]
  {
    var n := |frames| - 1;
    if i < n {
      PlayableIsReached(v, frames[..n], cuts[..n], i);
    }
  }

  // ---- what is stored ----

  lemma AddedLength(p: seq<byte>, used: nat)
    requires used <= CAPACITY
    ensures |Added(Pcm(p), used)| == Min(|p|, CAPACITY - used)
  {
  }

  lemma FilledFirst(lead: nat)
    ensures |Fill(Script(lead, []))| == Min(CAPACITY, lead + |Concat([])|)
  {
    hide Fill, Script;
    JustPreRoll(lead);
  }

  lemma {:induction false} Filled(lead: nat, pieces: seq<seq<byte>>)
    ensures |Fill(Script(lead, pieces))| == Min(CAPACITY, lead + |Concat(pieces)|)
  {
    hide Fill, Script, Concat, Added, CAPACITY;
    if pieces == [] {
      FilledFirst(lead);
    } else {
      var init, last := pieces[..|pieces| - 1], pieces[|pieces| - 1];
      assert pieces == init + [last];
      Filled(lead, init);
      ScriptSnoc(lead, init, last);
      FillSnoc(Script(lead, init), Pcm(last));
      AddedLength(last, |Fill(Script(lead, init))|);
      ConcatSnoc(init, last);
    }
  }

  lemma PrefixSnoc(s: seq<byte>, p: seq<byte>, room: nat)
    ensures (s + p)[..Min(|s + p|, room)] == s[..Min(|s|, room)] + p[..Min(|p|, room - Min(|s|, room))]
  {
  }

  /** One more piece: what fits of it is stored. */
  lemma FitSnoc(lead: nat, pieces: seq<seq<byte>>, p: seq<byte>)
    ensures Fit(lead, Concat(pieces + [p]))
         == Fit(lead, Concat(pieces)) + p[..Min(|p|, CAPACITY - |Fill(Script(lead, pieces))|)]
  {
    hide Fill, Script, Concat, CAPACITY;
    Filled(lead, pieces);
    ConcatSnoc(pieces, p);
    var room := CAPACITY - Min(lead, CAPACITY);
    PrefixSnoc(Concat(pieces), p, room);
    assert room - Min(|Concat(pieces)|, room) == CAPACITY - |Fill(Script(lead, pieces))|;
  }

  lemma StoredSnoc(v: Voice, p: seq<byte>)
    requires v.dev.Open? && v.lead
    ensures var fits := p[..Min(|p|, CAPACITY - |Fill(Writes(v))|)];
            Stored(Fed(v, [p])) == Stored(v) + fits && (fits == [] ==> Stored(Fed(v, [p])) == Stored(v))
  {
    hide Fit, Fill, Script, Concat, CAPACITY;
    FitSnoc(PreRoll(v.dev.rate), v.pieces, p);
  }

  lemma NoPiecesStored(v: Voice)
    requires v.pieces == []
    ensures Stored(v) == v.stored
  {
    assert v.stored + [] == v.stored;
  }

  /** In an empty buffer nothing was stored. */
  lemma NothingFits(lead: nat, pieces: seq<seq<byte>>)
    requires Fill(Script(lead, pieces)) == []
    ensures Fit(lead, Concat(pieces)) == []
  {
    Filled(lead, pieces);
  }

  // ---- an utterance in one format ----

  function Flat(cuts: Cuts): (pieces: seq<seq<byte>>)
  {
    if cuts == [] then [] else Flat(cuts[..|cuts| - 1]) + cuts[|cuts| - 1]
  }

  /** The pieces of each frame are its data. */
  ghost predicate CutsOf(frames: seq<Frame>, cuts: Cuts)
  {
    |frames| == |cuts| && forall i | 0 <= i < |frames| :: Concat(cuts[i]) == frames[i].data
  }

  lemma {:induction false} FlatIsAudio(frames: seq<Frame>, cuts: Cuts)
    requires CutsOf(frames, cuts)
    ensures Concat(Flat(cuts)) == Audio(frames)
  {
    if frames != [] {
      var n := |frames| - 1;
      FlatIsAudio(frames[..n], cuts[..n]);
      ConcatAppend(Flat(cuts[..n]), cuts[n]);
    }
  }

  /** What an utterance sounds like: silence, its samples in AHI's byte order, silence; cut at capacity. */
  function Sound(rate: int, pcm: seq<byte>): (s: seq<byte>)
  {
    Cut(Zeros(PreRoll(rate)) + Swapped(pcm) + Zeros(PreRoll(rate)))
  }

  lemma CutTwice(s: seq<byte>, z: seq<byte>)
    ensures Cut(s) + z[..Min(|z|, CAPACITY - |Cut(s)|)] == Cut(s + z)
  {
  }

  /** The drained buffer depends on the samples alone, as long as the cuts do no harm. */
  lemma DrainedSound(rate: int, pieces: seq<seq<byte>>)
    requires Unharmed(PreRoll(rate), pieces)
    ensures Fill(Script(PreRoll(rate), pieces) + [Quiet(PreRoll(rate))]) == Sound(rate, Concat(pieces))
    ensures Fill(Script(PreRoll(rate), pieces)) == [] <==> PreRoll(rate) == 0 && Concat(pieces) == []
  {
    var lead := PreRoll(rate);
    var s, z := Zeros(lead) + Swapped(Concat(pieces)), Zeros(lead);
    HarmlessContent(lead, pieces);
    FillSnoc(Script(lead, pieces), Quiet(lead));
    CutTwice(s, z);
    hide Fill, Script, Swapped, Unharmed;
    assert z[..Min(|z|, CAPACITY - |Cut(s)|)] == Zeros(Min(lead, CAPACITY - |Cut(s)|));
    assert |s| == lead + |Concat(pieces)|;
  }

  ghost predicate InFormat(frames: seq<Frame>, f: Format)
  {
    forall i | 0 <= i < |frames| :: frames[i].fmt == f
  }

  lemma {:induction false} OneFormat(v: Voice, frames: seq<Frame>, cuts: Cuts, f: Format)
    requires |frames| == |cuts| && InFormat(frames, f) && !v.lead
    requires f.rate != 0 && f.width == 2 && f.channels != 0
    ensures var r := Plays(v, frames, cuts);
            r.spoken == v.spoken && r.stored == v.stored
            && (frames != [] ==> r.dev == DeviceFor(f) && r.lead && r.pieces == Flat(cuts))
            && (frames == [] ==> r == v)
  {
    hide Fill;
    if frames != [] {
      var n := |frames| - 1;
      OneFormat(v, frames[..n], cuts[..n], f);
      NothingWritten();
    }
  }

  lemma NothingWritten()
    ensures Fill([]) == []
  {
  }

  /** An utterance in one format is heard as its samples between two silences, once, whatever was played before
      and however the connection cut it, if no cut did harm. */
  lemma UtteranceIsHeard(v: Voice, frames: seq<Frame>, cuts: Cuts, f: Format)
    requires CutsOf(frames, cuts) && InFormat(frames, f) && !v.lead
    requires f.rate != 0 && f.width == 2 && f.channels != 0
    requires Unharmed(PreRoll(f.rate), Flat(cuts))
    ensures var r := Drained(Plays(v, frames, cuts));
            !r.lead
            && r.spoken == v.spoken + (if frames == [] || (PreRoll(f.rate) == 0 && Audio(frames) == []) then []
                                       else [Sound(f.rate, Audio(frames))])
            && r.stored == v.stored + Fit(PreRoll(f.rate), Audio(frames))
  {
    hide Fill, Script, Sound, Plays, Flat, Unharmed, Fit;
    NothingFit(PreRoll(f.rate));
    OneFormat(v, frames, cuts, f);
    FlatIsAudio(frames, cuts);
    DrainedSound(f.rate, Flat(cuts));
    NothingWritten();
    assert v.spoken + [] == v.spoken && v.stored + [] == v.stored;
  }

  lemma NothingFit(lead: nat)
    ensures Fit(lead, []) == []
  {
  }

  // ---- an utterance that changes its format ----

  ghost predicate Differ(f: Format, g: Format)
  {
    f.rate != g.rate || (f.channels >= 2) != (g.channels >= 2)
  }

  /** On another rate or another number of channels what was written is played out first. */
  lemma {:induction false} ChangeCloses(v: Voice, frames: seq<Frame>, cuts: Cuts, f: Format, g: Format)
    requires |frames| == |cuts| && frames != [] && InFormat(frames, g) && Differ(f, g) && v.dev == DeviceFor(f)
    ensures Plays(v, frames, cuts) == Plays(ShutDown(v), frames, cuts)
  {
    hide Fill, Script, Stored;
    var n := |frames| - 1;
    if n > 0 {
      ChangeCloses(v, frames[..n], cuts[..n], f, g);
    } else {
      assert frames[..0] == [] && cuts[..0] == [];
      NothingWritten();
    }
  }

  /** An utterance that changes its format in the middle is heard as two, one behind the other, each with its own
      silences; no sample is dropped at the change. */
  lemma BothAreHeard(v: Voice, a: seq<Frame>, b: seq<Frame>, c: Cuts, d: Cuts, f: Format, g: Format)
    requires CutsOf(a, c) && CutsOf(b, d) && InFormat(a, f) && InFormat(b, g) && a != [] && b != [] && !v.lead
    requires f.rate != 0 && f.width == 2 && f.channels != 0 && g.rate != 0 && g.width == 2 && g.channels != 0
    requires Differ(f, g) && Unharmed(PreRoll(f.rate), Flat(c)) && Unharmed(PreRoll(g.rate), Flat(d))
    requires Audio(a) != [] && Audio(b) != []
    ensures Drained(Plays(v, a + b, c + d)).spoken == v.spoken + [Sound(f.rate, Audio(a))] + [Sound(g.rate, Audio(b))]
    ensures Drained(Plays(v, a + b, c + d)).stored
         == v.stored + Fit(PreRoll(f.rate), Audio(a)) + Fit(PreRoll(g.rate), Audio(b))
  {
    hide Fill, Script, Sound, Plays, Flat, Unharmed, Audio, Fit;
    var w := Plays(v, a, c);
    PlaysAppend(v, a, b, c, d);
    OneFormat(v, a, c, f);
    UtteranceIsHeard(v, a, c, f);
    ChangeCloses(w, b, d, f, g);
    UtteranceIsHeard(ShutDown(w), b, d, g);
  }

  // ---- the bytes ----

  /** A sound byte by byte: a sixteenth of a second of zero samples, the samples with their bytes exchanged, as
      many zeros again; nothing behind 512 KB. */
  lemma SoundIs(rate: nat, pcm: seq<byte>, i: nat)
    ensures |Sound(rate, pcm)| == Min(512 * 1024, rate / 16 * 2 + |pcm| + rate / 16 * 2)
    ensures i < |Sound(rate, pcm)| ==>
              var k := i - rate / 16 * 2;
              Sound(rate, pcm)[i]
              == if k < 0 || k >= |pcm| then 0
                 else if k % 2 == 1 then pcm[k - 1] else if k + 1 < |pcm| then pcm[k + 1] else 0
  {
  }

  /** Audio before any format is known is not played: a shut device stays shut. */
  lemma {:induction false} UnknownIsSilent(v: Voice, frames: seq<Frame>, cuts: Cuts)
    requires |frames| == |cuts| && InFormat(frames, Format(0, 0, 0)) && v.dev.Shut?
    ensures Plays(v, frames, cuts) == v
  {
    if frames != [] {
      var n := |frames| - 1;
      UnknownIsSilent(v, frames[..n], cuts[..n]);
    }
  }
}
