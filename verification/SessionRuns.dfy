/** Whole runs of the device task's session: any number of utterances on a held connection that may
    break and be made again in between (src/nw_engine.c:1086-1193, 1328-1341). */
module SessionRuns {
  import opened Bytes
  import opened Events
  import opened Wire
  import opened Response
  import opened Messages
  import opened Truncation
  import opened Readers
  import opened Request
  import opened Pipeline
  import opened Pairing
  import opened Playback
  import opened Sounds
  import opened Exchanges
  import opened Session

  /** What came of an utterance: its result and its attempts. */
  datatype Outcome = Outcome(r: int, ts: seq<Try>)

  function LastOf(o: Outcome): (x: Exchange)
    requires o.ts != []
  {
    o.ts[|o.ts| - 1].x
  }

  /** The answers to the requests the last attempt made, on the connection it used. */
  function OwnOf(servers: Servers, u: Utterance, x: Exchange): (ms: seq<Message>)
  {
    OwnMessages(servers(u.host, u.port), Lines(x.wire0), Requests(u, x))
  }

  /** Every attempt sent the segments of this utterance's text to this utterance's server and read what its
      connection carried behind them; nothing was played but, in the last one, answers to these requests. */
  ghost predicate Served(servers: Servers, u: Utterance, memory: nat, o: Outcome)
  {
    && Attempts(u, ServerOf(servers(u.host, u.port)), memory, o.ts) && o.ts[|o.ts| - 1].r == o.r
    && o.r != NWERR_NOMEM
    && (!NothingPlayed(o.r) ==> Answered(o.r, LastOf(o), OwnOf(servers, u, LastOf(o))))
  }

  /** All attempts of a run, in order. */
  function History(os: seq<Outcome>): (ts: seq<Try>)
  {
    if os == [] then [] else History(os[..|os| - 1]) + os[|os| - 1].ts
  }

  /** On one connection the requests of a later attempt come behind those of an earlier one, and it reads on
      where that one stopped, or further on; a closed one is never used again. */
  predicate Follows(t: Try, y: Exchange)
  {
    t.x.sock != null && t.x.sock == y.sock ==> !Dropped(t) && t.x.wire <= y.wire0 && ReadTo(t.x) <= y.from
  }

  predicate InOrder(ts: seq<Try>)
  {
    forall i, j | 0 <= i < j < |ts| :: Follows(ts[i], ts[j].x)
  }

  // ---- what is played ----

  /** The lists of an outcome fit each other. */
  ghost predicate Fitting(o: Outcome)
  {
    o.ts != [] && CutsOf(LastOf(o).end.frames, LastOf(o).play.cuts) && |LastOf(o).play.kept| == |LastOf(o).end.frames|
  }

  ghost predicate AllFitting(os: seq<Outcome>)
  {
    forall o | o in os :: Fitting(o)
  }

  lemma FittingParts(os: seq<Outcome>, n: nat)
    requires AllFitting(os) && n <= |os|
    ensures AllFitting(os[..n]) && (n < |os| ==> Fitting(os[n]))
  {
    assert forall o | o in os[..n] :: o in os;
    assert n < |os| ==> os[n] in os;
  }

  /** What is played over a run, when nothing is refused. */
  ghost function VoiceAfter(v: Voice, os: seq<Outcome>): (r: Voice)
    requires AllFitting(os)
  {
    if os == [] then v
    else
      var n := |os| - 1;
      FittingParts(os, n);
      VoiceBehind(VoiceAfter(v, os[..n]), os[n])
  }

  ghost function VoiceBehind(v: Voice, o: Outcome): (r: Voice)
    requires Fitting(o)
  {
    if NothingPlayed(o.r) then v else Drained(Plays(v, LastOf(o).end.frames, LastOf(o).play.cuts))
  }

  /** The samples that found an open audio device, utterance by utterance. */
  ghost function Heard(os: seq<Outcome>): (s: seq<byte>)
    requires AllFitting(os)
  {
    if os == [] then []
    else
      var n := |os| - 1;
      FittingParts(os, n);
      Heard(os[..n]) + KeptAudio(LastOf(os[n]).end.frames, LastOf(os[n]).play.kept)
  }

  /** The frames of the i-th utterance found the device as the utterances before it had left it. */
  ghost predicate Reaches(v: Voice, os: seq<Outcome>, i: nat)
    requires AllFitting(os) && i < |os|
  {
    FittingParts(os, i);
    var x := LastOf(os[i]);
    !NothingPlayed(os[i].r) ==> x.play.kept == Reached(VoiceAfter(v, os[..i]), x.end.frames, x.play.cuts)
  }

  /** From voice v and the samples fed so far to v' and fed', over a run. */
  ghost predicate Performance(v: Voice, v': Voice, fed: seq<byte>, fed': seq<byte>, granted: bool, os: seq<Outcome>)
    requires AllFitting(os)
  {
    && fed' == fed + Heard(os)
    && (granted ==> v' == VoiceAfter(v, os) && forall i | 0 <= i < |os| :: Reaches(v, os, i))
  }

  lemma NothingPerformed(v: Voice, fed: seq<byte>)
    ensures AllFitting([]) && Performance(v, v, fed, fed, true, [])
  {
    assert fed + [] == fed;
  }

  /** One more utterance: it was performed, or nothing of it was played. */
  lemma OneMorePerformed(v: Voice, v1: Voice, v2: Voice, fed: seq<byte>, fed1: seq<byte>, fed2: seq<byte>,
                         g1: bool, g2: bool, os: seq<Outcome>, o: Outcome)
    requires AllFitting(os) && Performance(v, v1, fed, fed1, g1, os) && o.ts != []
    requires if NothingPlayed(o.r) then v2 == v1 && fed2 == fed1 && Nothing(LastOf(o))
             else Performed(v1, v2, fed1, fed2, g2, LastOf(o))
    ensures AllFitting(os + [o]) && Performance(v, v2, fed, fed2, g1 && g2, os + [o])
  {
    hide Plays, Reached, Drained, KeptAudio;
    var all := os + [o];
    assert all[..|os|] == os && Fitting(o);
    NothingKept();
    assert fed + (Heard(os) + []) == fed + Heard(os);
    if g1 && g2 {
      forall i | 0 <= i < |all|
        ensures Reaches(v, all, i)
      {
        assert i < |os| ==> Reaches(v, os, i) && all[..i] == os[..i];
      }
    }
  }

  lemma NothingKept()
    ensures KeptAudio([], []) == []
  {
  }

  // ---- attempts on a connection ----

  /** A connection, the bytes it was sent and how many it has handed out. */
  datatype Link = Link(sock: Socket?, sent: seq<byte>, taken: int)

  const NO_LINK := Link(null, [], 0)

  ghost function Held(sock: Socket?): (link: Link)
    reads sock
  {
    if sock == null then NO_LINK else Link(sock, sock.sent, sock.taken)
  }

  /** What a connection has carried behind these attempts, from the connection held at the start on. */
  ghost function LinkAfter(start: Link, ts: seq<Try>, sock: Socket): (link: Link)
  {
    if ts == [] then if sock == start.sock then start else Link(sock, [], 0)
    else
      var x := ts[|ts| - 1].x;
      if x.sock == sock then Link(sock, x.wire, ReadTo(x)) else LinkAfter(start, ts[..|ts| - 1], sock)
  }

  /** An attempt takes up its connection where the attempts before it left it. */
  ghost predicate TakesUp(start: Link, ts: seq<Try>, x: Exchange)
  {
    x.sock != null ==> LinkAfter(start, ts, x.sock) == Link(x.sock, x.wire0, x.from)
  }

  ghost predicate Chained(start: Link, ts: seq<Try>)
  {
    forall j | 0 <= j < |ts| :: TakesUp(start, ts[..j], ts[j].x)
  }

  /** These attempts were made one behind the other, and the connection held now is as they left it. */
  ghost predicate Tracked(start: Link, ts: seq<Try>, link: Link)
  {
    && InOrder(ts) && Chained(start, ts)
    && (link.sock != null ==>
          LinkAfter(start, ts, link.sock) == link
          && forall t | t in ts && t.x.sock == link.sock ::
               !Dropped(t) && t.x.wire <= link.sent && ReadTo(t.x) <= link.taken)
  }

  /** An attempt on the held connection, or on one that was never used before. */
  ghost predicate Continues(start: Link, ts: seq<Try>, link: Link, x: Exchange)
  {
    x.sock != null ==>
      if x.sock == link.sock then x.wire0 == link.sent && x.from == link.taken
      else x.wire0 == [] && x.from == 0 && x.sock != start.sock && forall t | t in ts :: t.x.sock != x.sock
  }

  lemma {:induction false} NeverUsed(start: Link, ts: seq<Try>, sock: Socket)
    requires sock != start.sock && forall t | t in ts :: t.x.sock != sock
    ensures LinkAfter(start, ts, sock) == Link(sock, [], 0)
  {
    if ts != [] {
      var n := |ts| - 1;
      assert ts[n] in ts && forall t | t in ts[..n] :: t in ts;
      NeverUsed(start, ts[..n], sock);
    }
  }

  lemma OneMoreAttempt(start: Link, ts: seq<Try>, link: Link, t: Try)
    requires Tracked(start, ts, link) && Continues(start, ts, link, t.x)
    ensures Tracked(start, ts + [t], NO_LINK)
    ensures t.x.wire0 <= t.x.wire && t.x.from <= ReadTo(t.x) && !Dropped(t) ==>
              Tracked(start, ts + [t], Link(t.x.sock, t.x.wire, ReadTo(t.x)))
  {
    var all := ts + [t];
    assert all[..|ts|] == ts;
    if t.x.sock != null && t.x.sock != link.sock { NeverUsed(start, ts, t.x.sock); }
    forall j | 0 <= j < |all|
      ensures TakesUp(start, all[..j], all[j].x)
    {
      assert j < |ts| ==> TakesUp(start, ts[..j], ts[j].x) && all[..j] == ts[..j];
    }
  }

  /** The attempts at one more utterance: the first on the held connection or on a new one, a second one on a
      new one. */
  lemma MoreAttempts(start: Link, ts: seq<Try>, link: Link, more: seq<Try>, link': Link)
    requires Tracked(start, ts, link) && 1 <= |more| <= 2 && Continues(start, ts, link, more[0].x)
    requires |more| == 2 ==> Continues(start, ts, NO_LINK, more[1].x) && OwnLink(more[0].x, more[1].x)
    requires var x := more[|more| - 1].x;
             link'.sock != null ==>
               link' == Link(x.sock, x.wire, ReadTo(x)) && x.wire0 <= x.wire && x.from <= ReadTo(x)
               && !Dropped(more[|more| - 1])
    ensures Tracked(start, ts + more, link')
  {
    OneMoreAttempt(start, ts, link, more[0]);
    if |more| == 1 {
      assert more == [more[0]];
    } else {
      var ts1 := ts + [more[0]];
      assert ts1 + [more[1]] == ts + more;
      assert Continues(start, ts1, NO_LINK, more[1].x);
      OneMoreAttempt(start, ts1, NO_LINK, more[1]);
    }
  }

  /** What a served attempt sent and read lies behind where it began; one that failed played nothing. */
  lemma ServedMovesOn(u: Utterance, server: Server, memory: nat, t: Try, own: seq<Message>)
    requires Tried(u, server, memory, t) && (!NothingPlayed(t.r) ==> Answered(t.r, t.x, own))
    ensures NothingPlayed(t.r) ==> Nothing(t.x)
    ensures t.x.sock != null && !NothingPlayed(t.r) ==> t.x.wire0 <= t.x.wire && t.x.from <= ReadTo(t.x)
  {
    hide Carried, RequestBytes, EndBehind, Segmented, Passes, EmitAll, FramesFrom, Run, AllFramed, Audio;
  }

  /** On a clean connection a served attempt has read all there is. */
  lemma AllRead(s: Session, u: Utterance, server: Server, memory: nat, t: Try, own: seq<Message>)
    requires s.Valid() && s.Clean() && s.rd.sock != null && s.rd.sock == t.x.sock && s.rd.sock.sent == t.x.wire
    requires Tried(u, server, memory, t) && !NothingPlayed(t.r) && Answered(t.r, t.x, own)
    ensures Held(s.rd.sock) == Link(t.x.sock, t.x.wire, ReadTo(t.x))
  {
    hide Carried, RequestBytes, EndBehind, Segmented, Passes, EmitAll, FramesFrom, Run, AllFramed, Audio;
    hide Player.Player.Valid, Lines, Partial;
    assert |s.rd.sock.Incoming()| == t.x.from + |t.x.stream|;
  }

  lemma NothingTried(sock: Socket?)
    ensures Tracked(Held(sock), History([]), Held(sock))
  {
  }

  /** The first attempt found a connection and sent everything. */
  predicate AtOnce(o: Outcome)
  {
    |o.ts| == 1 && !NothingPlayed(o.r)
  }

  /** Every attempt finds a connection exactly if the network refuses none meanwhile; on a reliable one the first
      attempt will do. */
  ghost predicate Connections(refused: nat, refused': nat, reliable: bool, os: seq<Outcome>)
  {
    && refused' >= refused && (refused' == refused <==> forall o | o in os :: AllConnected(o.ts))
    && (reliable ==> forall o | o in os :: AtOnce(o))
  }

  lemma NoneConnected(refused: nat, reliable: bool)
    ensures Connections(refused, refused, reliable, [])
  {
  }

  lemma OneMoreConnected(r: nat, r1: nat, r2: nat, reliable: bool, os: seq<Outcome>, o: Outcome)
    requires Connections(r, r1, reliable, os) && r2 >= r1 && (r2 == r1 <==> AllConnected(o.ts))
    requires reliable ==> AtOnce(o)
    ensures Connections(r, r2, reliable, os + [o])
  {
    hide AllConnected, AtOnce;
    assert o in os + [o] && forall x | x in os :: x in os + [o];
  }

  /** One more utterance of a run. */
  method SayNext(s: Session, u: Utterance, memory: nat, ghost start: Link, ghost ts: seq<Try>)
    returns (ghost o: Outcome)
    requires s.Valid() && s.Clean() && Polite(s.servers(u.host, u.port)) && memory >= NW_MAXSEG && |u.host| <= 127
    requires Tracked(start, ts, Held(s.rd.sock))
    modifies s`chost, s`cport, s`asked, s`made, s.rd, s.rd.rbuf, s.rd.sock
    modifies s.player, s.player.ahiBuf, s.player.tap, s.player.tap.fh
    ensures s.Valid() && s.Clean() && s.Steady() && s.player.Refused() >= old(s.player.Refused())
    ensures s.rd.sock == null || s.rd.sock == old(s.rd.sock) || fresh(s.rd.sock)
    ensures s.Refused() >= old(s.Refused()) && (s.Refused() == old(s.Refused()) <==> AllConnected(o.ts))
    ensures Reliable(s.net) ==> AtOnce(o)
    ensures Served(s.servers, u, memory, o) && o.ts != [] && Tracked(start, ts + o.ts, Held(s.rd.sock))
    ensures if NothingPlayed(o.r)
            then s.player.State() == old(s.player.State()) && s.player.fed == old(s.player.fed) && Nothing(LastOf(o))
            else Performed(old(s.player.State()), s.player.State(), old(s.player.fed), s.player.fed,
                           s.player.Refused() == old(s.player.Refused()), LastOf(o))
  {
    hide Session.Valid, Session.Clean, Polite, Tried, Answered, OwnMessages, Lines, Performed, Tracked, ServerOf;
    hide AllConnected, Reliable, Session.Refused;
    ghost var link := Held(s.rd.sock);
    var r;
    ghost var more;
    r, more := s.Say(u, memory);
    o := Outcome(r, more);
    ghost var server, last := ServerOf(s.servers(u.host, u.port)), more[|more| - 1];
    ghost var own := OwnOf(s.servers, u, LastOf(o));
    ServedMovesOn(u, server, memory, last, own);
    if s.rd.sock != null { AllRead(s, u, server, memory, last, own); }
    MoreAttempts(start, ts, link, more, Held(s.rd.sock));
  }

  /** Any number of utterances to polite servers, with memory for a request per segment: each is served; on each
      connection its requests and the bytes it reads come right behind those of the utterances before it, so no
      audio of one utterance is ever heard in another; and playback performs them one after the other. */
  method SayAll(s: Session, us: seq<Utterance>, memory: nat) returns (ghost os: seq<Outcome>)
    requires s.Valid() && s.Clean() && AllPolite(s.servers) && memory >= NW_MAXSEG
    requires forall u | u in us :: |u.host| <= 127
    modifies s`chost, s`cport, s`asked, s`made, s.rd, s.rd.rbuf, s.rd.sock
    modifies s.player, s.player.ahiBuf, s.player.tap, s.player.tap.fh
    ensures s.Valid() && s.Clean() && s.Steady() && |os| == |us| && s.player.Refused() >= old(s.player.Refused())
    ensures forall i | 0 <= i < |us| :: Served(s.servers, us[i], memory, os[i])
    ensures Connections(old(s.Refused()), s.Refused(), Reliable(s.net), os)
    ensures Tracked(old(Held(s.rd.sock)), History(os), Held(s.rd.sock)) && AllFitting(os)
    ensures Performance(old(s.player.State()), s.player.State(), old(s.player.fed), s.player.fed,
                        s.player.Refused() == old(s.player.Refused()), os)
  {
    hide Session.Valid, Session.Clean, Polite, Served, Performed, Performance, Tracked, Held, AllFitting;
    hide AllConnected, Reliable, AtOnce, Session.Refused, Connections;
    os := [];
    NothingPerformed(s.player.State(), s.player.fed);
    NothingTried(s.rd.sock);
    NoneConnected(s.Refused(), Reliable(s.net));
    for i := 0 to |us|
      invariant s.Valid() && s.Clean() && s.Steady() && |os| == i && s.player.Refused() >= old(s.player.Refused())
      invariant s.rd.sock == null || s.rd.sock == old(s.rd.sock) || fresh(s.rd.sock)
      invariant forall j | 0 <= j < i :: Served(s.servers, us[j], memory, os[j])
      invariant Connections(old(s.Refused()), s.Refused(), Reliable(s.net), os)
      invariant Tracked(old(Held(s.rd.sock)), History(os), Held(s.rd.sock)) && AllFitting(os)
      invariant Performance(old(s.player.State()), s.player.State(), old(s.player.fed), s.player.fed,
                            s.player.Refused() == old(s.player.Refused()), os)
    {
      ghost var v, fed, refused, lost := s.player.State(), s.player.fed, s.player.Refused(), s.Refused();
      ghost var o := SayNext(s, us[i], memory, old(Held(s.rd.sock)), History(os));
      OneMorePerformed(old(s.player.State()), v, s.player.State(), old(s.player.fed), fed, s.player.fed,
                       refused == old(s.player.Refused()), s.player.Refused() == refused, os, o);
      OneMoreConnected(old(s.Refused()), lost, s.Refused(), Reliable(s.net), os, o);
      assert (os + [o])[..i] == os;
      os := os + [o];
    }
  }

  // ---- from the server's words to what is heard ----

  /** The audio of the answers to an utterance's own requests. */
  function OwnFrames(servers: Servers, u: Utterance, o: Outcome): (fs: seq<Frame>)
    requires o.ts != []
  {
    FramesFrom(NO_FORMAT, OwnOf(servers, u, LastOf(o)))
  }

  function PlayedFrames(o: Outcome): (fs: seq<Frame>)
    requires o.ts != []
  {
    if NothingPlayed(o.r) then [] else LastOf(o).end.frames
  }

  /** All the answers arrived. */
  ghost predicate Whole(servers: Servers, u: Utterance, o: Outcome)
    requires o.ts != []
  {
    !NothingPlayed(o.r) && LastOf(o).stream == EmitAll(OwnOf(servers, u, LastOf(o)))
  }

  /** What was played of an utterance was audio in the one format f, in pieces that do no harm. */
  ghost predicate InOneFormat(o: Outcome, f: Format)
  {
    && Fitting(o)
    && (!NothingPlayed(o.r) ==>
          InFormat(LastOf(o).end.frames, f) && f.rate != 0 && f.width == 2 && f.channels != 0
          && Unharmed(PreRoll(f.rate), Flat(LastOf(o).play.cuts)))
  }

  /** An utterance sounds as its samples between two silences, unless there is not a byte to play. */
  function SoundOf(fs: seq<Frame>, f: Format): (s: seq<seq<byte>>)
  {
    if fs == [] || (PreRoll(f.rate) == 0 && Audio(fs) == []) then [] else [Sound(f.rate, Audio(fs))]
  }

  ghost function SoundsOf(os: seq<Outcome>, fs: seq<Format>): (s: seq<seq<byte>>)
    requires AllFitting(os) && |os| == |fs|
  {
    if os == [] then []
    else
      var n := |os| - 1;
      FittingParts(os, n);
      SoundsOf(os[..n], fs[..n]) + SoundOf(PlayedFrames(os[n]), fs[n])
  }

  /** What of it fits the playback buffer. */
  ghost function StoredOf(os: seq<Outcome>, fs: seq<Format>): (s: seq<byte>)
    requires AllFitting(os) && |os| == |fs|
  {
    if os == [] then []
    else
      var n := |os| - 1;
      FittingParts(os, n);
      StoredOf(os[..n], fs[..n]) + Fit(PreRoll(fs[n].rate), Audio(PlayedFrames(os[n])))
  }

  ghost function AudioOf(os: seq<Outcome>): (s: seq<byte>)
    requires AllFitting(os)
  {
    if os == [] then []
    else
      var n := |os| - 1;
      FittingParts(os, n);
      AudioOf(os[..n]) + Audio(PlayedFrames(os[n]))
  }

  /** Every byte in a format that can be played finds an open device. */
  lemma {:induction false} AllKept(v: Voice, frames: seq<Frame>, cuts: Cuts, f: Format)
    requires |frames| == |cuts| && InFormat(frames, f) && f.rate != 0 && f.width == 2 && f.channels != 0
    ensures KeptAudio(frames, Reached(v, frames, cuts)) == Audio(frames)
  {
    hide Prepared;
    if frames != [] {
      var n := |frames| - 1;
      AllKept(v, frames[..n], cuts[..n], f);
      PlayableIsReached(v, frames, cuts, n);
    }
  }

  /** What is played of an utterance is of its own answers: a prefix of them, or all of them if they arrived. */
  ghost predicate PlaysOwn(servers: Servers, u: Utterance, o: Outcome)
  {
    && o.ts != [] && Audio(PlayedFrames(o)) <= Audio(OwnFrames(servers, u, o))
    && (Whole(servers, u, o) ==> PlayedFrames(o) == OwnFrames(servers, u, o))
  }

  lemma PlayedIsOwn(servers: Servers, u: Utterance, memory: nat, o: Outcome)
    requires Served(servers, u, memory, o)
    ensures PlaysOwn(servers, u, o)
  {
    hide Tried, Passes, EmitAll, FramesFrom, Audio, AllFramed, OwnMessages;
    NoFrames();
  }

  /** If the link carries so much, all the answers arrive, and the utterance's result is the length of their
      audio. */
  lemma LinkHoldsIsWhole(servers: Servers, u: Utterance, memory: nat, o: Outcome)
    requires Served(servers, u, memory, o) && !NothingPlayed(o.r)
    requires var x := LastOf(o); x.sock != null && |Answers(x.sock.server, Lines(x.wire))| <= x.sock.limit
    ensures Whole(servers, u, o) && o.r == |Audio(OwnFrames(servers, u, o))|
  {
    hide Tried, Passes, EmitAll, FramesFrom, Audio, AllFramed, OwnMessages, Answers, Lines;
    assert Received(o.r);
  }

  lemma NoFrames()
    ensures Audio([]) == [] && KeptAudio([], []) == []
  {
  }

  /** One utterance in one format, behind whatever was played before. */
  lemma OneIsHeard(o: Outcome, v: Voice, f: Format)
    requires InOneFormat(o, f) && !v.lead
    requires NothingPlayed(o.r) ==> Nothing(LastOf(o))
    requires var x := LastOf(o); !NothingPlayed(o.r) ==> x.play.kept == Reached(v, x.end.frames, x.play.cuts)
    ensures !VoiceBehind(v, o).lead && VoiceBehind(v, o).spoken == v.spoken + SoundOf(PlayedFrames(o), f)
    ensures VoiceBehind(v, o).stored == v.stored + Fit(PreRoll(f.rate), Audio(PlayedFrames(o)))
    ensures KeptAudio(LastOf(o).end.frames, LastOf(o).play.kept) == Audio(PlayedFrames(o))
  {
    NothingFit(PreRoll(f.rate));
    hide Fit, Audio, Plays, Reached, KeptAudio, Drained, Unharmed, Sound;
    NoFrames();
    var x := LastOf(o);
    if NothingPlayed(o.r) {
      assert v.spoken + [] == v.spoken && v.stored + [] == v.stored;
    } else {
      UtteranceIsHeard(v, x.end.frames, x.play.cuts, f);
      AllKept(v, x.end.frames, x.play.cuts, f);
    }
  }

  lemma ServedNothing(servers: Servers, u: Utterance, memory: nat, o: Outcome)
    requires Served(servers, u, memory, o) && NothingPlayed(o.r)
    ensures Nothing(LastOf(o))
  {
    hide Segmented, Sent, Looped, Answered;
    assert o.ts[|o.ts| - 1] in o.ts;
  }

  /** What was heard, stored and fed over a run is what its utterances make, in order. */
  ghost predicate HeardInOrder(v: Voice, os: seq<Outcome>, fs: seq<Format>)
  {
    && AllFitting(os) && |os| == |fs|
    && !VoiceAfter(v, os).lead && VoiceAfter(v, os).spoken == v.spoken + SoundsOf(os, fs)
    && VoiceAfter(v, os).stored == v.stored + StoredOf(os, fs) && Heard(os) == AudioOf(os)
  }

  lemma OneMoreHeard(v: Voice, os: seq<Outcome>, fs: seq<Format>)
    requires AllFitting(os) && |os| == |fs| && os != [] && HeardInOrder(v, os[..|os| - 1], fs[..|os| - 1])
    requires var n := |os| - 1;
             InOneFormat(os[n], fs[n]) && Reaches(v, os, n) && (NothingPlayed(os[n].r) ==> Nothing(LastOf(os[n])))
    ensures HeardInOrder(v, os, fs)
  {
    hide InOneFormat, VoiceBehind, KeptAudio, Reached, SoundOf, PlayedFrames, Audio, Fit;
    var n := |os| - 1;
    OneIsHeard(os[n], VoiceAfter(v, os[..n]), fs[n]);
  }

  /** A run of utterances, each in one format. */
  lemma {:induction false} AllAreHeard(servers: Servers, us: seq<Utterance>, memory: nat, os: seq<Outcome>,
                                       fs: seq<Format>, v: Voice)
    requires |us| == |os| == |fs| && AllFitting(os) && !v.lead
    requires forall i | 0 <= i < |us| :: Served(servers, us[i], memory, os[i]) && InOneFormat(os[i], fs[i])
    requires forall i | 0 <= i < |os| :: Reaches(v, os, i)
    ensures HeardInOrder(v, os, fs)
  {
    if us == [] {
      assert v.spoken + [] == v.spoken && v.stored + [] == v.stored;
    } else {
      hide Served, InOneFormat, HeardInOrder, Reached, AllFitting;
      var n := |us| - 1;
      FittingParts(os, n);
      forall i | 0 <= i < n
        ensures Reaches(v, os[..n], i)
      {
        assert Reaches(v, os, i) && os[..n][..i] == os[..i];
      }
      AllAreHeard(servers, us[..n], memory, os[..n], fs[..n], v);
      if NothingPlayed(os[n].r) { ServedNothing(servers, us[n], memory, os[n]); }
      OneMoreHeard(v, os, fs);
    }
  }

  /** From the server to the loudspeaker: over a run of utterances, each in one format, what is heard is each
      utterance once and in order, as samples of the answers to its own requests between two silences, and as
      all of them if they arrived; and the audio device gets every byte of them. */
  lemma RunIsHeard(servers: Servers, us: seq<Utterance>, memory: nat, os: seq<Outcome>, fs: seq<Format>, v: Voice)
    requires |us| == |os| == |fs| && AllFitting(os) && !v.lead
    requires forall i | 0 <= i < |us| :: Served(servers, us[i], memory, os[i]) && InOneFormat(os[i], fs[i])
    requires forall i | 0 <= i < |os| :: Reaches(v, os, i)
    ensures !VoiceAfter(v, os).lead && VoiceAfter(v, os).spoken == v.spoken + SoundsOf(os, fs)
    ensures VoiceAfter(v, os).stored == v.stored + StoredOf(os, fs) && Heard(os) == AudioOf(os)
    ensures forall i | 0 <= i < |us| :: PlaysOwn(servers, us[i], os[i])
  {
    hide Served, InOneFormat, VoiceAfter, SoundsOf, StoredOf, Heard, AudioOf, PlaysOwn, Reaches, AllFitting;
    AllAreHeard(servers, us, memory, os, fs, v);
    forall i | 0 <= i < |us|
      ensures PlaysOwn(servers, us[i], os[i])
    {
      PlayedIsOwn(servers, us[i], memory, os[i]);
    }
  }
}
