/** What the playback buffer holds: silence and byte-swapped samples, cut at its capacity
    (src/nw_engine.c:362-379, 564-641). */
module Playback {
  import opened Bytes

  /** AHIBUFSZ: bytes of the playback buffer. */
  const CAPACITY: nat := 512 * 1024
  const HEADSTART: nat := 32 * 1024

  function Zeros(n: nat): (z: seq<byte>)
    ensures |z| == n
  {
    seq(n, _ => 0)
  }

  /** What copy_swap16 makes of a piece in a zeroed buffer: every sample with its bytes
      exchanged; the last byte of an odd piece is dropped and its place stays zero. */
  function Swapped(p: seq<byte>): (r: seq<byte>)
    ensures |r| == |p|
  {
    seq(|p|, i requires 0 <= i < |p| =>
      if i % 2 == 1 then p[i - 1] else if i + 1 < |p| then p[i + 1] else 0)
  }

  /** One ahi_write: silence, or samples as they came. */
  datatype Op = Quiet(n: nat) | Pcm(data: seq<byte>)

  /** The bytes one write adds when `used` bytes are taken. */
  function Added(op: Op, used: nat): (r: seq<byte>)
    requires used <= CAPACITY
    ensures used + |r| <= CAPACITY
  {
    var room := CAPACITY - used;
    match op
    case Quiet(n) => Zeros(Min(n, room))
    case Pcm(d) => Swapped(d[..Min(|d|, room)])
  }

  /** The buffer up to the write head, after these writes. */
  function Fill(ops: seq<Op>): (r: seq<byte>)
    ensures |r| <= CAPACITY
  {
    if ops == [] then []
    else
      var before := Fill(ops[..|ops| - 1]);
      before + Added(ops[|ops| - 1], |before|)
  }

  lemma FillSnoc(ops: seq<Op>, op: Op)
    ensures Fill(ops + [op]) == Fill(ops) + Added(op, |Fill(ops)|)
  {
    assert (ops + [op])[..|ops|] == ops;
  }

  // ---- the content of an utterance ----

  function Pcms(pieces: seq<seq<byte>>): (ops: seq<Op>)
    ensures |ops| == |pieces|
  {
    seq(|pieces|, i requires 0 <= i < |pieces| => Pcm(pieces[i]))
  }

  /** The writes of one utterance: its pre-roll, then the pieces. */
  function Script(lead: nat, pieces: seq<seq<byte>>): (ops: seq<Op>)
  {
    [Quiet(lead)] + Pcms(pieces)
  }

  function Cut(s: seq<byte>): (r: seq<byte>)
    ensures |r| <= CAPACITY
  {
    s[..Min(|s|, CAPACITY)]
  }

  lemma SwappedAppend(a: seq<byte>, b: seq<byte>)
    requires |a| % 2 == 0
    ensures Swapped(a + b) == Swapped(a) + Swapped(b)
  {
  }

  lemma SwappedPrefix(a: seq<byte>, n: nat)
    requires n <= |a| && n % 2 == 0
    ensures Swapped(a[..n]) == Swapped(a)[..n]
  {
    assert a == a[..n] + a[n..];
    SwappedAppend(a[..n], a[n..]);
  }

  lemma CutAppend(s: seq<byte>, p: seq<byte>)
    ensures Cut(s) + p[..Min(|p|, CAPACITY - |Cut(s)|)] == Cut(s + p)
  {
  }

  lemma JustPreRoll(lead: nat)
    ensures Fill(Script(lead, [])) == Cut(Zeros(lead) + Swapped([]))
  {
    assert Script(lead, []) == [] + [Quiet(lead)];
    FillSnoc([], Quiet(lead));
    assert Cut(Zeros(lead) + Swapped([])) == Zeros(Min(lead, CAPACITY));
  }

  lemma ScriptSnoc(lead: nat, init: seq<seq<byte>>, last: seq<byte>)
    ensures Script(lead, init + [last]) == Script(lead, init) + [Pcm(last)]
  {
  }

  // ---- when cuts do not matter ----

  function Total(lens: seq<nat>): (n: nat)
  {
    if lens == [] then 0 else lens[0] + Total(lens[1..])
  }

  /** A byte string cut into pieces of these lengths. */
  function CutInto(s: seq<byte>, lens: seq<nat>): (pieces: seq<seq<byte>>)
    requires |s| == Total(lens)
  {
    if lens == [] then [] else [s[..lens[0]]] + CutInto(s[lens[0]..], lens[1..])
  }

  /** Written from position `at` on, no odd piece that has bytes behind it ends below the capacity. */
  predicate Harmless(lens: seq<nat>, at: nat)
  {
    lens == []
    || ((lens[0] % 2 == 0 || Total(lens[1..]) == 0 || at + lens[0] >= CAPACITY)
        && Harmless(lens[1..], at + lens[0]))
  }

  /** The buffer behind more pieces. */
  function Pour(b: seq<byte>, pieces: seq<seq<byte>>): (r: seq<byte>)
    requires |b| <= CAPACITY
    ensures b <= r && |r| <= CAPACITY
    decreases |pieces|
  {
    if pieces == [] then b else Pour(b + Added(Pcm(pieces[0]), |b|), pieces[1..])
  }

  lemma {:induction false} PourSnoc(b: seq<byte>, pieces: seq<seq<byte>>, last: seq<byte>)
    requires |b| <= CAPACITY
    ensures var r := Pour(b, pieces); Pour(b, pieces + [last]) == r + Added(Pcm(last), |r|)
    decreases |pieces|
  {
    hide Added;
    if pieces == [] {
      assert [] + [last] == [last] && [last][1..] == [];
    } else {
      assert (pieces + [last])[1..] == pieces[1..] + [last];
      PourSnoc(b + Added(Pcm(pieces[0]), |b|), pieces[1..], last);
    }
  }

  lemma {:induction false} FillPours(lead: nat, pieces: seq<seq<byte>>)
    ensures Fill(Script(lead, pieces)) == Pour(Cut(Zeros(lead)), pieces)
  {
    hide Added, Fill, Script, Pour, Cut;
    if pieces == [] {
      JustPreRoll(lead);
      SwappedNothing([]);
      NoPour(Cut(Zeros(lead)));
      assert Zeros(lead) + Swapped([]) == Zeros(lead);
    } else {
      var n := |pieces| - 1;
      var init, last := pieces[..n], pieces[n];
      assert pieces == init + [last];
      FillPours(lead, init);
      ScriptSnoc(lead, init, last);
      FillSnoc(Script(lead, init), Pcm(last));
      PourSnoc(Cut(Zeros(lead)), init, last);
    }
  }

  lemma NoPour(b: seq<byte>)
    requires |b| <= CAPACITY
    ensures Pour(b, []) == b
  {
  }

  lemma SwappedNothing(s: seq<byte>)
    ensures Swapped([]) == [] && Swapped(s) + [] == Swapped(s) && (s == [] ==> Swapped(s) == [])
  {
  }

  lemma {:induction false} FullStaysFull(b: seq<byte>, pieces: seq<seq<byte>>)
    requires |b| == CAPACITY
    ensures Pour(b, pieces) == b
    decreases |pieces|
  {
    if pieces != [] {
      assert Added(Pcm(pieces[0]), |b|) == [];
      assert b + [] == b;
      FullStaysFull(b, pieces[1..]);
    }
  }

  lemma {:induction false} NothingMore(b: seq<byte>, s: seq<byte>, lens: seq<nat>)
    requires |b| <= CAPACITY && s == [] && Total(lens) == 0
    ensures Pour(b, CutInto(s, lens)) == b
    decreases |lens|
  {
    if lens != [] {
      var pieces := CutInto(s, lens);
      assert pieces[0] == [] && s[lens[0]..] == [] && pieces[1..] == CutInto([], lens[1..]);
      assert Added(Pcm([]), |b|) == [] && b + [] == b;
      NothingMore(b, [], lens[1..]);
    }
  }

  /** A piece at an even place, whatever its length: the buffer is cut the same as all of it would be. */
  lemma OddPieceLast(z: seq<byte>, p: seq<byte>)
    requires |z| % 2 == 0
    ensures Cut(z) + Added(Pcm(p), |Cut(z)|) == Cut(z + Swapped(p))
  {
    var n := Min(|p|, CAPACITY - |Cut(z)|);
    if n == |p| {
      assert p[..n] == p;
    } else {
      assert n % 2 == 0;
      SwappedPrefix(p, n);
    }
    CutAppend(z, Swapped(p));
  }

  /** Only the first CAPACITY bytes count, and they know nothing of what is behind an even cut. */
  lemma CutBehind(z: seq<byte>, a: seq<byte>, b: seq<byte>)
    requires |z| % 2 == 0 && |z| + |a| >= CAPACITY
    ensures Cut(z + Swapped(a + b)) == Cut(z + Swapped(a))
  {
    if |z| < CAPACITY {
      var n := CAPACITY - |z|;
      SwappedPrefix(a + b, n);
      SwappedPrefix(a, n);
      assert (a + b)[..n] == a[..n];
      assert Cut(z + Swapped(a + b)) == z + Swapped(a + b)[..n];
      assert Cut(z + Swapped(a)) == z + Swapped(a)[..n];
    } else {
      assert Cut(z + Swapped(a + b)) == z[..CAPACITY] == Cut(z + Swapped(a));
    }
  }

  lemma CutParts(s: seq<byte>, lens: seq<nat>)
    requires |s| == Total(lens) && lens != []
    ensures var pieces := CutInto(s, lens);
            pieces != [] && pieces[0] == s[..lens[0]] && pieces[1..] == CutInto(s[lens[0]..], lens[1..])
    ensures s == s[..lens[0]] + s[lens[0]..]
  {
  }

  lemma {:induction false} HarmlessCuts(z: seq<byte>, s: seq<byte>, lens: seq<nat>)
    requires |s| == Total(lens) && |z| % 2 == 0 && Harmless(lens, |z|)
    ensures Pour(Cut(z), CutInto(s, lens)) == Cut(z + Swapped(s))
    decreases |lens|
  {
    hide Swapped, Cut, Added, CutInto;
    if lens == [] {
      SwappedNothing(s);
      NothingMore(Cut(z), s, lens);
      assert z + [] == z;
    } else {
      var a, b := s[..lens[0]], s[lens[0]..];
      CutParts(s, lens);
      OddPieceLast(z, a);
      if lens[0] % 2 == 0 {
        HarmlessCuts(z + Swapped(a), b, lens[1..]);
        SwappedAppend(a, b);
        assert z + Swapped(a) + Swapped(b) == z + (Swapped(a) + Swapped(b));
      } else if b == [] {
        assert a == s;
        NothingMore(Cut(z + Swapped(a)), b, lens[1..]);
      } else {
        FullWhenLong(z + Swapped(a));
        FullStaysFull(Cut(z + Swapped(a)), CutInto(b, lens[1..]));
        CutBehind(z, a, b);
      }
    }
  }

  lemma FullWhenLong(s: seq<byte>)
    requires |s| >= CAPACITY
    ensures |Cut(s)| == CAPACITY
  {
  }

  function Ones(n: nat): (s: seq<byte>)
    ensures |s| == n
  {
    seq(n, _ => 1)
  }

  /** The byte an odd piece drops is missed when there are bytes behind it. */
  lemma OddCutShows(z: seq<byte>, n: nat, m: nat, r: seq<byte>)
    requires |z| % 2 == 0 && n % 2 == 1 && m > 0 && |z| + n < CAPACITY
    requires Cut(z + Swapped(Ones(n))) <= r
    ensures r != Cut(z + Swapped(Ones(n + m)))
  {
    var k := |z| + n - 1;
    assert Cut(z + Swapped(Ones(n)))[k] == 0;
    assert Cut(z + Swapped(Ones(n + m)))[k] == 1;
  }

  lemma OnesParts(n: nat, m: nat)
    ensures Ones(n + m)[..n] == Ones(n) && Ones(n + m)[n..] == Ones(m) && Ones(n + m) == Ones(n) + Ones(m)
  {
  }

  lemma {:induction false} HarmfulCuts(z: seq<byte>, lens: seq<nat>)
    requires |z| % 2 == 0 && !Harmless(lens, |z|)
    ensures Pour(Cut(z), CutInto(Ones(Total(lens)), lens)) != Cut(z + Swapped(Ones(Total(lens))))
    decreases |lens|
  {
    hide Swapped, Cut, Added, CutInto, Ones, Zeros;
    var n, m := lens[0], Total(lens[1..]);
    var s := Ones(n + m);
    OnesParts(n, m);
    CutParts(s, lens);
    OddPieceLast(z, Ones(n));
    if n % 2 == 0 {
      HarmfulCuts(z + Swapped(Ones(n)), lens[1..]);
      SwappedAppend(Ones(n), Ones(m));
      assert z + Swapped(Ones(n)) + Swapped(Ones(m)) == z + (Swapped(Ones(n)) + Swapped(Ones(m)));
    } else if m == 0 {
      EmptyIsHarmless(lens[1..], |z| + n);
    } else if |z| + n >= CAPACITY {
      LateIsHarmless(lens[1..], |z| + n);
    } else {
      OddCutShows(z, n, m, Pour(Cut(z + Swapped(Ones(n))), CutInto(Ones(m), lens[1..])));
    }
  }

  lemma {:induction false} EmptyIsHarmless(lens: seq<nat>, at: nat)
    requires Total(lens) == 0
    ensures Harmless(lens, at)
  {
    if lens != [] {
      EmptyIsHarmless(lens[1..], at);
    }
  }

  lemma {:induction false} LateIsHarmless(lens: seq<nat>, at: nat)
    requires at >= CAPACITY
    ensures Harmless(lens, at)
    decreases |lens|
  {
    if lens != [] {
      LateIsHarmless(lens[1..], at + lens[0]);
    }
  }

  /** Cutting PCM into pieces of these lengths leaves the buffer as if it had come in one piece, for every
      PCM of that length, exactly if no odd piece with bytes behind it ends below the capacity. */
  lemma {:induction false} CutsHarmlessIff(lead: nat, lens: seq<nat>)
    requires lead % 2 == 0
    ensures Harmless(lens, lead) <==>
            forall s: seq<byte> | |s| == Total(lens) ::
              Fill(Script(lead, CutInto(s, lens))) == Cut(Zeros(lead) + Swapped(s))
  {
    hide Fill, Script, Cut, Swapped, Pour, Harmless, CutInto;
    if Harmless(lens, lead) {
      forall s: seq<byte> | |s| == Total(lens)
        ensures Fill(Script(lead, CutInto(s, lens))) == Cut(Zeros(lead) + Swapped(s))
      {
        FillPours(lead, CutInto(s, lens));
        HarmlessCuts(Zeros(lead), s, lens);
      }
    } else {
      var s := Ones(Total(lens));
      FillPours(lead, CutInto(s, lens));
      HarmfulCuts(Zeros(lead), lens);
    }
  }

  // ---- the same, of pieces ----

  function Lengths(pieces: seq<seq<byte>>): (lens: seq<nat>)
    ensures |lens| == |pieces|
  {
    seq(|pieces|, i requires 0 <= i < |pieces| => |pieces[i]|)
  }

  lemma {:induction false} PiecesAreCuts(pieces: seq<seq<byte>>)
    ensures Total(Lengths(pieces)) == |Concat(pieces)|
    ensures CutInto(Concat(pieces), Lengths(pieces)) == pieces
  {
    if pieces != [] {
      var rest := pieces[1..];
      PiecesAreCuts(rest);
      assert Lengths(pieces)[1..] == Lengths(rest);
      assert Concat(pieces)[..|pieces[0]|] == pieces[0] && Concat(pieces)[|pieces[0]|..] == Concat(rest);
    }
  }

  /** Behind a pre-roll of this length, these pieces lose no sample. */
  predicate Unharmed(lead: nat, pieces: seq<seq<byte>>)
  {
    Harmless(Lengths(pieces), lead)
  }

  /** The buffer behind harmless pieces is the pre-roll and the swapped PCM, cut at capacity: it does not
      depend on how the PCM was cut. */
  lemma HarmlessContent(lead: nat, pieces: seq<seq<byte>>)
    requires lead % 2 == 0 && Unharmed(lead, pieces)
    ensures Fill(Script(lead, pieces)) == Cut(Zeros(lead) + Swapped(Concat(pieces)))
  {
    hide Fill, Script, Cut, Swapped, CutInto, Harmless;
    PiecesAreCuts(pieces);
    CutsHarmlessIff(lead, Lengths(pieces));
  }

  predicate EvenPieces(pieces: seq<seq<byte>>)
  {
    forall p | p in pieces :: |p| % 2 == 0
  }

  /** Even pieces are harmless wherever they are written. */
  lemma {:induction false} EvenIsHarmless(lead: nat, pieces: seq<seq<byte>>)
    requires EvenPieces(pieces)
    ensures Unharmed(lead, pieces)
    decreases |pieces|
  {
    if pieces != [] {
      assert pieces == [pieces[0]] + pieces[1..];
      assert |pieces[0]| % 2 == 0;
      EvenIsHarmless(lead + |pieces[0]|, pieces[1..]);
      assert Lengths(pieces)[1..] == Lengths(pieces[1..]);
    }
  }

  // ---- the time playback is waited for ----

  /** Ticks (1/50 s) ahi_drain waits. A negative rate is a huge unsigned divisor. */
  function Ticks(len: nat, rate: int): (t: nat)
    requires rate != 0
  {
    if rate > 0 then len / 2 * 50 / rate + 25 else 25
  }

  /** The wait covers the whole utterance, with half a second to spare. */
  lemma WaitCoversAudio(len: nat, rate: int)
    requires rate != 0
    ensures rate > 0 ==> len / 2 * 50 + 24 * rate < Ticks(len, rate) * rate <= len / 2 * 50 + 25 * rate
    ensures rate < 0 ==> Ticks(len, rate) == 25
  {
    if rate > 0 {
      var x := len / 2 * 50;
      assert x / rate * rate + x % rate == x;
      assert (x / rate + 25) * rate == x / rate * rate + 25 * rate;
    }
  }
}
