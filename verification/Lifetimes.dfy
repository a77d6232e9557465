/** A session from its creation to its end, and what is left of it: what was heard and the capture file
    (src/nw_engine.c:741-795, 1086-1193, 1328-1341). */
module Lifetimes {
  import opened Bytes
  import opened Events
  import opened Counting
  import opened Wire
  import opened Response
  import opened Playback
  import opened Sounds
  import opened Exchanges
  import opened Session
  import opened SessionRuns
  import Wav

  /** Utterance by utterance one format. */
  ghost predicate InFormats(os: seq<Outcome>, fs: seq<Format>)
  {
    |os| == |fs| && forall i | 0 <= i < |os| :: InOneFormat(os[i], fs[i])
  }

  /** With every utterance in one format: each is heard once, in order, as samples of the answers to its own
      requests; the device got every byte of them; and the capture, what fitted the buffer. */
  ghost predicate AllHeard(os: seq<Outcome>, fs: seq<Format>, spoken: seq<seq<byte>>, fed: seq<byte>, stored: seq<byte>)
  {
    && AllFitting(os) && |os| == |fs|
    && spoken == SoundsOf(os, fs) && fed == AudioOf(os) && stored == StoredOf(os, fs)
  }

  lemma FromNothing(servers: Servers, us: seq<Utterance>, memory: nat, os: seq<Outcome>, fs: seq<Format>,
                    v: Voice, fed: seq<byte>)
    requires |os| == |us| && AllFitting(os) && InFormats(os, fs)
    requires forall i | 0 <= i < |us| :: Served(servers, us[i], memory, os[i])
    requires Performance(Voice(Shut, false, [], [], []), v, [], fed, true, os)
    ensures var w := ShutDown(v); AllHeard(os, fs, w.spoken, fed, Stored(w))
  {
    var start := Voice(Shut, false, [], [], []);
    hide Served, InOneFormat, AllFitting, VoiceAfter, Reaches, SoundsOf, AudioOf, StoredOf, Heard, PlaysOwn;
    RunIsHeard(servers, us, memory, os, fs, start);
    NothingWritten();
    assert [] + SoundsOf(os, fs) == SoundsOf(os, fs) && [] + StoredOf(os, fs) == StoredOf(os, fs);
    assert [] + AudioOf(os) == AudioOf(os);
  }

  /** Where the link carries all the answers they arrive, and the result is the length of their audio. */
  ghost predicate SaidWhole(servers: Servers, u: Utterance, o: Outcome)
    requires o.ts != []
  {
    var x := LastOf(o);
    x.sock != null
    && (|Answers(x.sock.server, Lines(x.wire))| <= x.sock.limit ==>
          Whole(servers, u, o) && o.r == |Audio(OwnFrames(servers, u, o))|)
  }

  lemma AtOnceIsWhole(servers: Servers, u: Utterance, memory: nat, o: Outcome)
    requires Served(servers, u, memory, o) && AtOnce(o)
    ensures SaidWhole(servers, u, o)
  {
    hide Answers, Lines, Audio, Answered, Segmented, Sent, Looped, Whole, OwnFrames;
    var x := LastOf(o);
    assert o.ts[0] in o.ts;
    if |Answers(x.sock.server, Lines(x.wire))| <= x.sock.limit { LinkHoldsIsWhole(servers, u, memory, o); }
  }

  lemma Untied(start: Link, ts: seq<Try>, link: Link)
    requires Tracked(start, ts, link)
    ensures Tracked(start, ts, NO_LINK)
  {
  }

  /** A session is made, says any number of utterances and is closed, with memory for every request, polite
      servers, and an AHI that refuses nothing. */
  method Live(servers: Servers, net: Net, mode: int, capture: bool, ahi: nat -> bool, dos: nat -> bool,
              us: seq<Utterance>, memory: nat)
    returns (s: Session, file: Wav.File?, ghost os: seq<Outcome>)
    requires AllPolite(servers) && memory >= NW_MAXSEG && AllGranted(ahi) && forall u | u in us :: |u.host| <= 127
    ensures fresh(s) && |os| == |us| && AllFitting(os) && s.rd.sock == null
    ensures forall i | 0 <= i < |us| :: Served(servers, us[i], memory, os[i]) && PlaysOwn(servers, us[i], os[i])
    ensures Tracked(NO_LINK, History(os), NO_LINK)
    // on a reliable network every utterance is said at once, and completely where the link carries so much
    ensures Reliable(net) ==> forall i | 0 <= i < |us| :: AtOnce(os[i]) && SaidWhole(servers, us[i], os[i])
    ensures forall fs | InFormats(os, fs) ::
              AllHeard(os, fs, s.player.spoken, s.player.fed, Stored(s.player.State()))
    // the capture file, if one was asked for and could be opened at once
    ensures capture && AllGranted(dos) ==>
              if file == null then Stored(s.player.State()) == []
              else Wav.IsCapture(file.bytes, Stored(s.player.State()))
  {
    hide Session.Valid, Session.Clean, AllPolite, Served, Performance, Tracked, InFormats, AllHeard, PlaysOwn;
    hide AllGranted, Stored, AllFitting, ShutDown;
    s := new Session(servers, net, mode, capture, ahi, dos);
    os := SayAll(s, us, memory);
    Untied(NO_LINK, History(os), Held(s.rd.sock));
    ghost var v, fed := s.player.State(), s.player.fed;
    file := s.Close();
    NothingRefused(ahi, s.player.asked);
    forall i | 0 <= i < |us|
      ensures PlaysOwn(servers, us[i], os[i])
    {
      PlayedIsOwn(servers, us[i], memory, os[i]);
    }
    if Reliable(net) {
      forall i | 0 <= i < |us|
        ensures AtOnce(os[i]) && SaidWhole(servers, us[i], os[i])
      {
        assert os[i] in os;
        AtOnceIsWhole(servers, us[i], memory, os[i]);
      }
    }
    forall fs | InFormats(os, fs)
      ensures AllHeard(os, fs, s.player.spoken, s.player.fed, Stored(s.player.State()))
    {
      FromNothing(servers, us, memory, os, fs, v, fed);
    }
  }
}
