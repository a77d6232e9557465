/** The engine's side of AHI: opening, the live buffer, draining and closing
    (src/nw_engine.c:483-658, 1150-1162). */
module Player {
  import opened Bytes
  import opened Events
  import opened Playback
  import opened Sounds
  import opened Counting
  import Wav

  /** The playback fields of the session. AHI's own answers are given. */
  class Player {
    const ahiMode: int
    const tap: Wav.Tap
    var ahiBuf: array?<byte>
    var ahiLen: nat
    var ahiOpened: bool
    var ahiAlloced: bool
    var ahiLoaded: bool
    var ahiPlayStarted: bool
    var prerolled: bool
    var rate: int
    var stereo: bool
    var ahiModeOpen: int
    ghost var pieces: seq<seq<byte>>   // PCM written since the pre-roll of this utterance
    ghost var fed: seq<byte>           // all PCM ever handed over
    ghost var spoken: seq<seq<byte>>   // the buffer, up to the head, each time playback was waited for
    ghost var waits: seq<nat>          // the ticks it was waited
    ghost var stored: seq<byte>        // the PCM of earlier utterances that fitted the buffer
    const ahi: nat -> bool             // whether the n-th call of memory, devices and AHI succeeds
    var asked: nat

    constructor (mode: int, capture: bool, ahi: nat -> bool, dos: nat -> bool)
      ensures Valid() && fed == [] && State() == Voice(Shut, false, [], [], [])
      ensures ahiMode == mode && this.ahi == ahi && tap.dos == dos && tap.enabled == capture
      ensures ahiLen == 0 && !prerolled && tap.fh == null && fresh(Repr())
    {
      ahiMode, ahiModeOpen := mode, 0;
      tap := new Wav.Tap(capture, dos);
      ahiBuf, ahiLen := null, 0;
      ahiOpened, ahiAlloced, ahiLoaded, ahiPlayStarted, prerolled := false, false, false, false, false;
      rate, stereo := 0, false;
      pieces, fed, spoken, waits, stored := [], [], [], [], [];
      this.ahi, asked := ahi, 0;
    }

    /** The player as Sounds sees it. */
    ghost function State(): (v: Voice)
      reads `ahiOpened, `rate, `stereo, `prerolled, `pieces, `spoken, `stored
    {
      if ahiOpened then Voice(Device.Open(rate, stereo), prerolled, pieces, spoken, stored)
      else Voice(Shut, false, [], spoken, stored)
    }

    /** How many calls have failed. */
    ghost function Refused(): (n: nat)
      reads `asked
    {
      Refusals(ahi, asked)
    }

    /** A call that may fail. */
    method Ask() returns (granted: bool)
      modifies `asked
      ensures granted == ahi(old(asked))
      ensures Refused() == if granted then old(Refused()) else old(Refused()) + 1
    {
      granted := ahi(asked);
      asked := asked + 1;
    }

    ghost function Repr(): (r: set<object>)
      reads this, tap
    {
      {this, tap} + (if ahiBuf == null then {} else {ahiBuf}) + (if tap.fh == null then {} else {tap.fh})
    }

    /** The buffer is what these writes leave: their bytes up to the head, zeros behind it. */
    ghost predicate Holds(ops: seq<Op>): (h: bool)
      reads `ahiBuf, `ahiLen, ahiBuf
      ensures h ==> ahiBuf != null && ahiLen == |Fill(ops)|
    {
      && ahiBuf != null && ahiBuf.Length == CAPACITY && ahiLen <= CAPACITY
      && ahiBuf[..ahiLen] == Fill(ops)
      && forall i | ahiLen <= i < CAPACITY :: ahiBuf[i] == 0
    }

    lemma HoldsAs(ops: seq<Op>, same: seq<Op>)
      requires Holds(ops) && Fill(same) == Fill(ops)
      ensures Holds(same)
    {
    }

    /** The writes of the utterance so far. */
    ghost function Ops(): (ops: seq<Op>)
      reads this
    {
      if prerolled then Script(PreRoll(rate), pieces) else []
    }

    ghost predicate Valid()
      reads this, tap, tap.fh, ahiBuf
    {
      && tap.Valid() && tap.Got(Stored(State()))
      && (ahiOpened ==> ahiAlloced && ahiLoaded && rate != 0 && ahiModeOpen == ahiMode && Holds(Ops()))
      && (!ahiOpened ==> ahiBuf == null && !ahiAlloced && !ahiLoaded && ahiLen == 0)
      && (!prerolled ==> pieces == [])
      && Sane()
    }

    /** What a failed ahi_open may leave behind: nothing written, nothing playing. */
    ghost predicate PartlyOpen()
      reads this, tap, tap.fh
    {
      tap.Valid() && tap.Got(Stored(State())) && ahiLen == 0 && !ahiPlayStarted
      && (!prerolled ==> pieces == []) && (ahiOpened ==> !prerolled)
    }

    /** copy_swap16: exchanges the bytes of every whole sample, in place. */
    method CopySwap16(buf: array<byte>, at: nat, src: seq<byte>)
      requires at + |src| <= buf.Length
      modifies buf
      ensures buf[..at] == old(buf[..at])
      ensures forall i | at + |src| <= i < buf.Length :: buf[i] == old(buf[i])
      ensures forall i | 0 <= i < |src| :: buf[at + i]
                == if i % 2 == 1 then src[i - 1] else if i + 1 < |src| then src[i + 1] else old(buf[at + i])
    {
      var n := |src| / 2;
      for k := 0 to n
        invariant forall i | 0 <= i < buf.Length && !(at <= i < at + 2 * k) :: buf[i] == old(buf[i])
        invariant forall i | 0 <= i < 2 * k :: buf[at + i] == if i % 2 == 1 then src[i - 1] else src[i + 1]
      {
        buf[at + 2 * k] := src[2 * k + 1];
        buf[at + 2 * k + 1] := src[2 * k];
      }
    }

    /** Playback is running only when there is something to play. */
    ghost predicate Sane()
      reads this
    {
      ahiPlayStarted ==> ahiLen > 0
    }

    /** Playback starts once 32 KB are written, if AHI lets it, and not before. */
    ghost predicate StartsAt32K(started: bool, refused: nat)
      reads `ahiPlayStarted, `ahiLoaded, `ahiLen, `asked
    {
      && (ahiLoaded && ahiLen >= 32 * 1024 && Refused() == refused ==> ahiPlayStarted)
      && (!started && ahiLen < 32 * 1024 ==> !ahiPlayStarted)
    }

    method StartPlay()
      modifies `ahiPlayStarted, `asked
      ensures Refused() >= old(Refused()) && (old(ahiPlayStarted) ==> ahiPlayStarted)
      ensures ahiPlayStarted ==> old(ahiPlayStarted) || ahiLoaded
      ensures Refused() == old(Refused()) && ahiLoaded ==> ahiPlayStarted
    {
      if ahiPlayStarted || !ahiLoaded { return; }
      var accepted := Ask();
      if accepted { ahiPlayStarted := true; }
    }

    /** The head moves; a long enough head start kicks playback off. */
    method Advance(len: nat)
      requires Sane()
      modifies `ahiLen, `ahiPlayStarted, `asked
      ensures ahiLen == old(ahiLen) + len && Refused() >= old(Refused())
      ensures Sane() && StartsAt32K(old(ahiPlayStarted), old(Refused()))
    {
      ahiLen := ahiLen + len;
      if !ahiPlayStarted && ahiLen >= HEADSTART {
        StartPlay();
      }
    }

    /** ahi_write without data: the head moves over bytes that are zero already. */
    method WriteSilence(n: int, ghost ops: seq<Op>)
      requires Holds(ops) && Sane()
      modifies `ahiLen, `ahiPlayStarted, `asked
      ensures Holds(ops + [Quiet(if n > 0 then n else 0)]) && Refused() >= old(Refused())
      ensures Sane() && (ahiLen > old(ahiLen) ==> StartsAt32K(old(ahiPlayStarted), old(Refused())))
      ensures ahiLen >= old(ahiLen)
    {
      hide Refused, Fill;
      ghost var m := if n > 0 then n else 0;
      FillSnoc(ops, Quiet(m));
      var len := n;
      if ahiLen + len > CAPACITY { len := CAPACITY - ahiLen; }
      if len <= 0 {
        assert Added(Quiet(m), ahiLen) == [];
        return;
      }
      ghost var before := ahiLen;
      Advance(len);
      assert ahiBuf[..ahiLen] == ahiBuf[..before] + Zeros(len);
    }

    /** The capture calls of ahi_write. */
    method Capture(data: seq<byte>, ghost s: seq<byte>)
      requires tap.Valid() && tap.Got(s) && data != []
      modifies tap, tap.fh
      ensures tap.Valid() && (tap.fh == old(tap.fh) || fresh(tap.fh))
      ensures old(tap.fh) != null ==> tap.fh == old(tap.fh) && tap.captured == old(tap.captured) + data
      ensures old(tap.fh) == null && tap.fh != null ==> tap.captured == data
      ensures old(tap.fh) == null && tap.enabled && tap.dos(old(tap.asked)) ==> tap.fh != null
      ensures tap.Got(s + data)
    {
      tap.Open(rate % 0x1_0000_0000, stereo);
      tap.Write(data);
    }

    /** The store of ahi_write: the samples land swapped behind the head. */
    method Append(data: seq<byte>, ghost ops: seq<Op>)
      requires Holds(ops) && Sane() && ahiLen + |data| <= CAPACITY
      modifies `ahiLen, `ahiPlayStarted, `asked, ahiBuf
      ensures Holds(ops + [Pcm(data)]) && Refused() >= old(Refused())
      ensures Sane() && StartsAt32K(old(ahiPlayStarted), old(Refused()))
    {
      hide Fill, Swapped, Refused;
      ghost var b0, was := ahiBuf[..], ahiLen;
      assert b0[..was] == Fill(ops);
      CopySwap16(ahiBuf, ahiLen, data);
      Appended(b0, ahiBuf[..], was, data);
      FitsWhole(ops, data);
      Advance(|data|);
      assert ahiBuf[..ahiLen] == ahiBuf[..][..ahiLen];
    }

    /** What is left of a piece goes to the buffer and to the capture tap. */
    method Put(data: seq<byte>, ghost ops: seq<Op>, ghost s: seq<byte>)
      requires Holds(ops) && Sane() && ahiLen + |data| <= CAPACITY && tap.Valid() && tap.Got(s)
      modifies `ahiLen, `ahiPlayStarted, `asked, ahiBuf, tap, tap.fh
      ensures Holds(ops + [Pcm(data)]) && Refused() >= old(Refused()) && Sane()
      ensures data != [] ==> StartsAt32K(old(ahiPlayStarted), old(Refused()))
      ensures tap.Valid() && tap.Got(s + data) && (tap.fh == old(tap.fh) || fresh(tap.fh))
      ensures old(tap.fh) != null ==> tap.fh == old(tap.fh) && tap.captured == old(tap.captured) + data
      ensures old(tap.fh) == null && tap.fh != null ==> tap.captured == data
      ensures old(tap.fh) == null && tap.enabled && tap.dos(old(tap.asked)) && data != [] ==> tap.fh != null
    {
      hide Fill, Swapped, Wav.Tap.Valid, Wav.Tap.Got, Refused;
      if |data| > 0 {
        Append(data, ops);
        Capture(data, s);
      } else {
        FillSnoc(ops, Pcm(data));
        NothingSwapped();
        assert s + data == s && tap.captured + data == tap.captured;
      }
    }

    /** ahi_write with data, which also feeds the capture tap. */
    method WritePcm(data: seq<byte>)
      requires Valid() && ahiOpened && prerolled
      modifies `ahiLen, `ahiPlayStarted, `pieces, `fed, `asked, ahiBuf, tap, tap.fh
      ensures Refused() >= old(Refused()) && State() == Fed(old(State()), [data])
      ensures Valid() && (tap.fh == old(tap.fh) || fresh(tap.fh))
      ensures pieces == old(pieces) + [data] && fed == old(fed) + data
      ensures data != [] && old(ahiLen) < 512 * 1024 ==> StartsAt32K(old(ahiPlayStarted), old(Refused()))
      ensures old(tap.fh) != null ==>
                tap.fh == old(tap.fh)
                && tap.captured == old(tap.captured) + data[..Min(|data|, CAPACITY - old(ahiLen))]
      ensures old(tap.fh) == null && tap.fh != null ==> tap.captured == data[..Min(|data|, CAPACITY - old(ahiLen))]
      ensures old(tap.fh) == null && tap.enabled && tap.dos(old(tap.asked)) && data != [] && old(ahiLen) < CAPACITY ==>
                tap.fh != null
    {
      hide Fill, Script, Wav.Tap.Valid, Wav.Tap.Got, Refused, Stored, Holds;
      ghost var ops, v := Ops(), State();
      StoredSnoc(v, data);
      var len := |data|;
      if ahiLen + len > CAPACITY { len := CAPACITY - ahiLen; }
      CutPiece(ops, data, ahiLen);
      Put(data[..len], ops, Stored(v));
      HoldsAs(ops + [Pcm(data[..len])], ops + [Pcm(data)]);
      pieces, fed := pieces + [data], fed + data;
      ScriptSnoc(PreRoll(rate), old(pieces), data);
      assert State() == Fed(v, [data]) && Ops() == ops + [Pcm(data)];
    }

    /** The device, mode and sound of ahi_open. */
    method OpenAudio() returns (ok: bool)
      modifies `ahiOpened, `ahiAlloced, `ahiLoaded, `ahiModeOpen, `asked
      ensures ok ==> ahiOpened && ahiAlloced && ahiLoaded && ahiModeOpen == ahiMode && Refused() == old(Refused())
      ensures !ok ==> Refused() > old(Refused())
    {
      ok := Ask();                              // message port, request and OpenDevice
      if !ok { return; }
      ahiOpened := true;
      ok := Ask();                              // dos.library
      if !ok { return; }
      ok := Ask();                              // AHI_AllocAudio
      if !ok { return; }
      ahiAlloced := true;
      ahiModeOpen := ahiMode;
      ok := Ask();                              // AHI_LoadSound
      if !ok { return; }
      ahiLoaded := true;
    }

    /** The fields ahi_open sets before it acquires anything, and its zeroed buffer. */
    method Reset(newRate: int, channels: int) returns (memory: bool)
      modifies `rate, `stereo, `ahiLen, `ahiPlayStarted, `ahiLoaded, `prerolled, `pieces, `ahiBuf, `asked
      ensures rate == newRate && stereo == (channels >= 2) && ahiLen == 0 && pieces == []
      ensures !ahiPlayStarted && !ahiLoaded && !prerolled
      ensures if memory then Holds([]) && fresh(ahiBuf) && ahiBuf.Length == 512 * 1024 && Refused() == old(Refused())
              else ahiBuf == old(ahiBuf) && Refused() > old(Refused())
    {
      NothingWritten();
      rate, stereo := newRate, channels >= 2;
      ahiLen, ahiPlayStarted, ahiLoaded, prerolled := 0, false, false, false;
      pieces := [];
      memory := Ask();
      if !memory { return; }
      ahiBuf := new byte[CAPACITY](_ => 0);
    }

    /** ahi_open: every step may fail and leaves what was acquired so far. */
    method Open(newRate: int, width: int, channels: int) returns (ok: bool)
      requires Valid() && !ahiOpened && newRate != 0
      modifies this
      ensures ok ==> Valid() && ahiOpened && !prerolled && fresh(ahiBuf)
                     && rate == newRate && stereo == (channels >= 2) && ahiModeOpen == ahiMode && pieces == []
      ensures Refused() >= old(Refused()) && (Refused() == old(Refused()) && width == 2 ==> ok)
      ensures !ok ==> PartlyOpen() && (ahiBuf != null ==> fresh(ahiBuf))
      ensures (width != 2 ==> !ok && unchanged(this)) && (old(prerolled) || !prerolled)
      ensures Stored(State()) == old(Stored(State()))
      ensures fed == old(fed) && spoken == old(spoken) && (pieces == old(pieces) || pieces == [])
    {
      hide Fill, Swapped, Script, Wav.Tap.Valid, Reopened, Refused;
      NothingWritten();
      if width != 2 { return false; }
      ok := Reset(newRate, channels);
      if !ok { return; }
      ok := OpenAudio();
    }

    /** The clearing loop at the end of ahi_drain. */
    method ClearWritten()
      requires ahiBuf != null && ahiLen <= ahiBuf.Length == CAPACITY
      requires forall i | ahiLen <= i < CAPACITY :: ahiBuf[i] == 0
      modifies ahiBuf
      ensures forall i | 0 <= i < CAPACITY :: ahiBuf[i] == 0
    {
      for k := 0 to ahiLen
        invariant forall i | 0 <= i < k :: ahiBuf[i] == 0
        invariant forall i | ahiLen <= i < CAPACITY :: ahiBuf[i] == 0
      {
        ahiBuf[k] := 0;
      }
    }

    /** One more wait: of as many ticks, a fiftieth of a second each, as these bytes of 16-bit samples last, and
        half a second. */
    ghost predicate Waited(before: seq<nat>, bytes: nat)
      reads `waits, `rate
    {
      && |waits| == |before| + 1 && waits[..|before|] == before
      && var t := waits[|before|];
         (rate > 0 ==> bytes / 2 * 50 + 24 * rate < t * rate <= bytes / 2 * 50 + 25 * rate)
         && (rate < 0 ==> t == 25)
    }

    /** Playback is started if it was not, and waited for. */
    method PlayOut()
      requires ahiBuf != null && ahiLen <= ahiBuf.Length && rate != 0
      modifies `ahiPlayStarted, `spoken, `waits, `asked
      ensures spoken == old(spoken) || spoken == old(spoken) + [ahiBuf[..ahiLen]]
      ensures spoken != old(spoken) ==> Waited(old(waits), ahiLen)
      ensures Refused() >= old(Refused())
      ensures Refused() == old(Refused()) && ahiLoaded ==> spoken == old(spoken) + [ahiBuf[..ahiLen]]
    {
      if !ahiPlayStarted { StartPlay(); }
      if ahiPlayStarted {
        var ticks := Ticks(ahiLen, rate);       // Delay(ticks)
        WaitCoversAudio(ahiLen, rate);
        spoken, waits := spoken + [ahiBuf[..ahiLen]], waits + [ticks];
      }
    }

    /** The part of ahi_drain that finds something written. */
    method Finish(ghost ops: seq<Op>)
      requires ahiAlloced && ahiLoaded && rate != 0 && ahiLen > 0 && prerolled && Holds(ops) && Sane()
      modifies `ahiLen, `prerolled, `ahiPlayStarted, `pieces, `spoken, `waits, `stored, `asked, ahiBuf
      ensures stored == old(stored) + Fit(PreRoll(rate), Concat(old(pieces)))
      ensures ahiLen == 0 && !prerolled && !ahiPlayStarted && pieces == [] && Refused() >= old(Refused())
      ensures ahiBuf != null && Holds([])
      ensures spoken == old(spoken) || spoken == old(spoken) + [Fill(ops + [Quiet(PreRoll(rate))])]
      ensures spoken != old(spoken) ==> Waited(old(waits), |spoken[|spoken| - 1]|)
      ensures Refused() == old(Refused()) ==> spoken == old(spoken) + [Fill(ops + [Quiet(PreRoll(rate))])]
    {
      hide Fill, Refused, Waited, StartsAt32K;
      NothingWritten();
      if prerolled { WriteSilence(rate / 16 * 2, ops); }
      PlayOut();
      ClearWritten();
      ahiLen, prerolled, ahiPlayStarted := 0, false, false;
      stored, pieces := stored + Fit(PreRoll(rate), Concat(pieces)), [];
    }

    /** ahi_drain: plays out what was written and leaves an all-zero buffer for the next utterance. */
    method Drain()
      requires Valid()
      modifies `ahiLen, `prerolled, `ahiPlayStarted, `pieces, `spoken, `waits, `stored, `asked, ahiBuf
      ensures Refused() >= old(Refused()) && (Refused() == old(Refused()) ==> State() == Drained(old(State())))
      ensures Valid() && ahiLen == 0 && !prerolled && !ahiPlayStarted && Stored(State()) == old(Stored(State()))
      ensures ahiBuf != null ==> forall i | 0 <= i < CAPACITY :: ahiBuf[i] == 0
      ensures spoken == old(spoken)
           || (old(prerolled) && spoken == old(spoken) + [Fill(old(Ops()) + [Quiet(PreRoll(rate))])])
      // nothing is reported as played before it has been heard
      ensures spoken != old(spoken) ==> Waited(old(waits), |spoken[|spoken| - 1]|)
    {
      hide Fill, Script, Wav.Tap.Valid, Refused;
      NothingWritten();
      if !ahiAlloced || ahiLen <= 0 {
        if ahiOpened && prerolled { NothingFits(PreRoll(rate), pieces); }
        prerolled, pieces := false, [];
        return;
      }
      Finish(Ops());
    }

    /** An open device with an empty buffer has stored nothing of this utterance. */
    lemma NoneStored()
      requires (Valid() || PartlyOpen()) && ahiLen == 0
      ensures Stored(State()) == stored
    {
      hide Fill, Script, Fit, Wav.Tap.Got, Wav.Tap.Valid;
      if ahiOpened && prerolled { NothingFits(PreRoll(rate), pieces); }
    }

    /** The frees of ahi_close. */
    method Release()
      requires tap.Valid() && tap.Got(stored) && ahiLen == 0 && (!prerolled ==> pieces == []) && Sane()
      modifies `ahiLoaded, `ahiAlloced, `ahiOpened, `ahiBuf, `ahiModeOpen
      ensures Valid() && ahiBuf == null && State() == Voice(Shut, false, [], spoken, stored)
    {
      ahiLoaded, ahiAlloced, ahiOpened := false, false, false;
      ahiBuf := null;
      ahiModeOpen := 0;
    }

    /** ahi_close: unwinds a session, also one that was opened only in part. */
    method Close()
      requires Valid() || PartlyOpen()
      modifies this, ahiBuf
      ensures Valid() && !ahiOpened && fed == old(fed) && (pieces == old(pieces) || pieces == [])
      ensures Stored(State()) == old(Stored(State()))
      ensures old(prerolled) || !prerolled
      ensures old(ahiLen) == 0 ==> spoken == old(spoken)
      ensures Refused() >= old(Refused())
      ensures old(Valid()) && Refused() == old(Refused()) ==> State() == ShutDown(old(State()))
    {
      hide Fill, Script, Wav.Tap.Valid, Refused, Fit, Wav.Tap.Got, Holds;
      if ahiLen > 0 { Drain(); }
      NoneStored();
      Release();
    }

    /** The device is open in this format and in the mode asked for. */
    ghost predicate Matches(newRate: int, channels: int)
      reads `ahiOpened, `ahiModeOpen, `rate, `stereo
    {
      ahiOpened && ahiModeOpen == ahiMode && rate == newRate && stereo == (channels >= 2)
    }

    /** Close on a changed format or mode, and open if needed. */
    method EnsureOpen(newRate: int, width: int, channels: int)
      requires Valid()
      modifies this, ahiBuf
      ensures Valid() && (ahiBuf != null ==> ahiBuf == old(ahiBuf) || fresh(ahiBuf))
      ensures ahiOpened ==> rate == newRate && stereo == (channels >= 2) && ahiModeOpen == ahiMode
      ensures fed == old(fed) && (pieces == old(pieces) || pieces == [])
      ensures old(ahiLen) == 0 ==> spoken == old(spoken)
      ensures old(Matches(newRate, channels)) ==> Matches(newRate, channels) && unchanged(this) && ahiLen == old(ahiLen)
      ensures Refused() >= old(Refused())
      ensures Refused() == old(Refused()) ==> State() == Reopened(old(State()), Format(newRate, width, channels))
      ensures !old(Matches(newRate, channels)) ==> !prerolled || !ahiOpened
      ensures old(prerolled) || !prerolled
      ensures Refused() == old(Refused()) && newRate != 0 && width == 2 && channels != 0 ==> ahiOpened
      ensures old(!ahiOpened) && (newRate == 0 || width != 2 || channels == 0) ==> !ahiOpened
    {
      hide Fill, Wav.WavHeader, Refused;
      if ahiOpened {
        if ahiModeOpen != ahiMode || rate != newRate || stereo != (channels >= 2) {
          Close();
        }
      }
      if !ahiOpened && newRate != 0 && width != 0 && channels != 0 {
        var ok := Open(newRate, width, channels);
        if !ok { Close(); }
      }
    }

    /** The silence in front of an utterance. */
    method PutPreRoll()
      requires Valid() && ahiOpened && !prerolled
      modifies `ahiLen, `ahiPlayStarted, `prerolled, `asked
      ensures Valid() && prerolled && Refused() >= old(Refused()) && State() == old(State()).(lead := true)
      ensures Stored(State()) == old(Stored(State()))
    {
      hide Fill, Script, Refused, Holds, Stored, Wav.Tap.Valid, Wav.Tap.Got;
      NoPiecesStored(State());
      WriteSilence(rate / 16 * 2, []);
      prerolled := true;
      NoPiecesStored(State());
      PreRollScript(rate);
    }

    /** What the response loop does in front of a payload: reopen on a changed format or mode,
        open if needed, and put the pre-roll in front of an utterance. */
    method Prepare(newRate: int, width: int, channels: int)
      requires Valid()
      modifies this, ahiBuf
      ensures Valid() && (ahiBuf != null ==> ahiBuf == old(ahiBuf) || fresh(ahiBuf))
      ensures ahiOpened ==> prerolled && rate == newRate && stereo == (channels >= 2) && ahiModeOpen == ahiMode
      ensures fed == old(fed) && (pieces == old(pieces) || pieces == [])
      ensures old(ahiLen) == 0 ==> spoken == old(spoken)
      ensures Refused() >= old(Refused())
      ensures Refused() == old(Refused()) ==> State() == Prepared(old(State()), Format(newRate, width, channels))
      // 16-bit samples with a rate and channels find an open device; without one of these a shut one stays shut
      ensures Refused() == old(Refused()) && newRate != 0 && width == 2 && channels != 0 ==> ahiOpened && prerolled
      ensures old(!ahiOpened) && (newRate == 0 || width != 2 || channels == 0) ==> !ahiOpened
      // chunks of one utterance in one format follow each other without a new pre-roll
      ensures old(Matches(newRate, channels) && prerolled) ==> unchanged(this)
      ensures ahiOpened && !old(Matches(newRate, channels) && prerolled) ==> pieces == []
      ensures !ahiOpened ==> ahiLen == 0 && (old(prerolled) || !prerolled)
    {
      hide Fill, Script, Refused, Holds, Stored, Wav.Tap.Valid, Wav.Tap.Got, Reopened;
      EnsureOpen(newRate, width, channels);
      if ahiOpened && !prerolled { PutPreRoll(); }
    }
  }

  lemma NothingSwapped()
    ensures Swapped([]) == []
  {
  }

  lemma FitsWhole(ops: seq<Op>, data: seq<byte>)
    requires |Fill(ops)| + |data| <= CAPACITY
    ensures Fill(ops + [Pcm(data)]) == Fill(ops) + Swapped(data)
  {
    FillSnoc(ops, Pcm(data));
    assert data[..|data|] == data;
  }

  lemma PreRollScript(rate: int)
    ensures [] + [Quiet(PreRoll(rate))] == Script(PreRoll(rate), [])
  {
  }

  /** Only the part of a piece that fits is written. */
  lemma CutPiece(ops: seq<Op>, data: seq<byte>, len: nat)
    requires len == |Fill(ops)|
    ensures var fits := data[..Min(|data|, CAPACITY - len)];
            Fill(ops + [Pcm(data)]) == Fill(ops + [Pcm(fits)]) && (fits == [] ==> Fill(ops + [Pcm(data)]) == Fill(ops))
  {
    var fits := data[..Min(|data|, CAPACITY - len)];
    FillSnoc(ops, Pcm(data));
    FillSnoc(ops, Pcm(fits));
    assert fits[..|fits|] == fits;
  }

  lemma Appended(b0: seq<byte>, b1: seq<byte>, at: nat, src: seq<byte>)
    requires |b0| == |b1| && at + |src| <= |b0| && b1[..at] == b0[..at]
    requires forall i | at <= i < |b0| :: b0[i] == 0
    requires forall i | 0 <= i < |src| :: b1[at + i]
               == if i % 2 == 1 then src[i - 1] else if i + 1 < |src| then src[i + 1] else b0[at + i]
    ensures b1[..at + |src|] == b0[..at] + Swapped(src)
  {
    assert b1[at..at + |src|] == Swapped(src);
    assert b1[..at + |src|] == b1[..at] + b1[at..at + |src|];
  }
}
