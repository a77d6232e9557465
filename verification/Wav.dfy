/** The WAV tap of the engine (src/nw_engine.c:390-472) and the chunk walker that reads such
    files back (tests/check_audio_wav.py:35-67). */
module Wav {
  import opened Bytes
  import opened Counting

  // ---- little-endian numbers ----

  /** put_u16_le: the low 16 bits. */
  function U16(v: nat): (b: seq<byte>)
    ensures |b| == 2
  {
    [v % 256, v / 256 % 256]
  }

  /** put_u32_le: the low 32 bits. */
  function U32(v: nat): (b: seq<byte>)
    ensures |b| == 4
  {
    [v % 256, v / 256 % 256, v / 65536 % 256, v / 16777216 % 256]
  }

  function Get16(b: seq<byte>): (v: nat)
    requires |b| == 2
  {
    b[0] as nat + 256 * b[1] as nat
  }

  function Get32(b: seq<byte>): (v: nat)
    requires |b| == 4
  {
    b[0] as nat + 256 * b[1] as nat + 65536 * b[2] as nat + 16777216 * b[3] as nat
  }

  lemma Low16(v: nat)
    requires v < 0x1_0000
    ensures Get16(U16(v)) == v
  {
  }

  lemma Low32(v: nat)
    requires v < 0x1_0000_0000
    ensures Get32(U32(v)) == v
  {
    var q, r := v / 65536, v % 65536;
    assert v / 16777216 == q / 256 && q < 65536;
    assert v / 256 % 256 == r / 256 && v % 256 == r % 256;
  }

  // ---- the writer ----

  /** The fmt chunk's body: 16-bit PCM. */
  function FmtBody(rate: nat, ch: nat): (b: seq<byte>)
    ensures |b| == 16
  {
    U16(1) + U16(ch) + U32(rate) + U32(rate * ch * 2) + U16(ch * 2) + U16(16)
  }

  const RIFF: seq<byte> := [82, 73, 70, 70]
  const WAVE: seq<byte> := [87, 65, 86, 69]
  const FMT: seq<byte> := [102, 109, 116, 32]
  const DATA: seq<byte> := [100, 97, 116, 97]

  /** The 44 bytes in front of the samples. */
  function WavHeader(rate: nat, ch: nat, riffSize: nat, dataSize: nat): (h: seq<byte>)
    ensures |h| == 44
  {
    RIFF + U32(riffSize) + WAVE + FMT + U32(16) + FmtBody(rate, ch) + DATA + U32(dataSize)
  }

  /** The finished file. */
  function CaptureFile(rate: nat, ch: nat, pcm: seq<byte>): (f: seq<byte>)
  {
    WavHeader(rate, ch, 36 + |pcm|, |pcm|) + pcm
  }

  ghost predicate IsCapture(bytes: seq<byte>, pcm: seq<byte>)
  {
    exists rate: nat, ch: nat | rate < 0x1_0000_0000 && 1 <= ch <= 2 :: bytes == CaptureFile(rate, ch, pcm)
  }

  /** An open AmigaDOS file. */
  class File {
    var bytes: seq<byte>
    var pos: nat

    constructor ()
      ensures bytes == [] && pos == 0
    {
      bytes, pos := [], 0;
    }

    method Write(b: seq<byte>)
      requires pos <= |bytes|
      modifies this
      ensures pos == old(pos) + |b| && pos <= |bytes|
      ensures bytes == old(bytes)[..old(pos)] + b
                       + if old(pos) + |b| <= |old(bytes)| then old(bytes)[old(pos) + |b|..] else []
    {
      bytes := bytes[..pos] + b + if pos + |b| <= |bytes| then bytes[pos + |b|..] else [];
      pos := pos + |b|;
    }

    method Seek(to: nat)
      requires to <= |bytes|
      modifies this`pos
      ensures pos == to
    {
      pos := to;
    }
  }

  /** The capture tap of one device session. */
  class Tap {
    const enabled: bool          // a capture path is set
    var fh: File?                // captureFh
    var count: nat               // captureBytes
    ghost var rate: nat          // of the session when the file was opened
    ghost var ch: nat
    ghost var captured: seq<byte>
    const dos: nat -> bool       // whether the n-th attempt at opening the file succeeds
    var asked: nat

    constructor (enabled: bool, dos: nat -> bool)
      ensures Valid() && fh == null && this.enabled == enabled && this.dos == dos && captured == [] && Got([])
    {
      this.enabled, this.dos, asked := enabled, dos, 0;
      fh, count, captured := null, 0, [];
      rate, ch := 0, 1;
    }

    ghost predicate Valid()
      reads this, fh
    {
      fh != null ==>
        count == |captured| && fh.pos == |fh.bytes| && rate < 0x1_0000_0000 && 1 <= ch <= 2
        && fh.bytes == WavHeader(rate, ch, 36, 0) + captured
    }

    /** The file has got the last of these samples; all of them, if it could be opened at once. */
    ghost predicate Got(s: seq<byte>)
      reads this
    {
      && (fh != null ==> |captured| <= |s| && s[|s| - |captured|..] == captured)
      && (enabled && AllGranted(dos) ==> s == if fh == null then [] else captured)
    }

    /** capture_open: the file and its header skeleton, on the first samples only. */
    method Open(sessionRate: nat, stereo: bool)
      requires Valid() && sessionRate < 0x1_0000_0000
      modifies this
      ensures Valid()
      ensures old(fh) != null || !enabled ==>
                fh == old(fh) && count == old(count) && captured == old(captured) && rate == old(rate) && ch == old(ch)
                && asked == old(asked)
      ensures old(fh) == null && fh != null ==>
                fresh(fh) && captured == [] && rate == sessionRate && ch == (if stereo then 2 else 1)
      ensures old(fh) == null && fh == null ==> captured == old(captured)
      ensures enabled && old(fh) == null ==> asked == old(asked) + 1 && (fh != null <==> dos(old(asked)))
    {
      hide FmtBody, U32;
      if !enabled || fh != null { return; }
      var granted := dos(asked);                // dos.library or Open() may fail
      asked := asked + 1;
      if !granted { return; }
      var f := new File();
      var c := if stereo then 2 else 1;
      f.Write(WavHeader(sessionRate, c, 36, 0));
      fh, count := f, 0;
      rate, ch, captured := sessionRate, c, [];
      assert fh.bytes == WavHeader(rate, ch, 36, 0);
    }

    /** capture_write */
    method Write(data: seq<byte>)
      requires Valid()
      modifies `count, `captured, fh
      ensures Valid() && fh == old(fh) && rate == old(rate) && ch == old(ch)
      ensures captured == old(captured) + if fh != null then data else []
    {
      if fh == null || |data| == 0 { return; }
      fh.Write(data);
      count := count + |data|;
      captured := captured + data;
      assert fh.bytes == WavHeader(rate, ch, 36, 0) + captured;
    }

    /** capture_finalize: patches both sizes and closes; hands the finished file back. */
    method Finalize() returns (done: File?)
      requires Valid()
      modifies this`fh, fh
      ensures fh == null && done == old(fh) && captured == old(captured)
      ensures done != null ==> rate < 0x1_0000_0000 && 1 <= ch <= 2
      ensures done != null ==> done.bytes == CaptureFile(rate, ch, captured)
    {
      done := fh;
      if fh == null { return; }
      ghost var b0 := fh.bytes;
      fh.Seek(4);
      fh.Write(U32(36 + count));
      ghost var b1 := fh.bytes;
      fh.Seek(40);
      fh.Write(U32(count));
      PatchedSizes(b0, b1, fh.bytes, rate, ch, captured);
      fh := null;
    }
  }

  lemma PatchedSizes(b0: seq<byte>, b1: seq<byte>, b2: seq<byte>, rate: nat, ch: nat, data: seq<byte>)
    requires b0 == WavHeader(rate, ch, 36, 0) + data
    requires b1 == b0[..4] + U32(36 + |data|) + b0[8..]
    requires |b1| >= 44 && b2 == b1[..40] + U32(|data|) + b1[44..]
    ensures b2 == WavHeader(rate, ch, 36 + |data|, |data|) + data
  {
    var mid := WAVE + FMT + U32(16) + FmtBody(rate, ch) + DATA;
    assert |mid| == 32;
    hide FmtBody, U32;
    SplitHeader(RIFF, U32(36), WAVE, FMT, U32(16), FmtBody(rate, ch), DATA, U32(0));
    SplitHeader(RIFF, U32(36 + |data|), WAVE, FMT, U32(16), FmtBody(rate, ch), DATA, U32(|data|));
    Patch(RIFF, U32(36), mid, U32(0), data, U32(36 + |data|), U32(|data|), b0, b1, b2);
  }

  lemma SplitHeader(a: seq<byte>, b: seq<byte>, c: seq<byte>, d: seq<byte>, e: seq<byte>, f: seq<byte>, g: seq<byte>,
                    h: seq<byte>)
    ensures a + b + c + d + e + f + g + h == a + b + (c + d + e + f + g) + h
  {
  }

  lemma Patch(a: seq<byte>, s: seq<byte>, mid: seq<byte>, t: seq<byte>, data: seq<byte>, s': seq<byte>, t': seq<byte>,
              b0: seq<byte>, b1: seq<byte>, b2: seq<byte>)
    requires |a| == |s| == |t| == |s'| == |t'| == 4 && |mid| == 32
    requires b0 == a + s + mid + t + data
    requires b1 == b0[..4] + s' + b0[8..] && b2 == b1[..40] + t' + b1[44..]
    ensures b2 == a + s' + mid + t' + data
  {
    assert b0[..4] == a && b0[8..] == mid + t + data;
    assert b1[..40] == a + s' + mid && b1[44..] == data;
  }

  // ---- the reader ----

  datatype Wav = Wav(isFloat: bool, channels: nat, rate: nat, bits: nat, pcm: seq<byte>)

  /** Python slicing: bounds are clipped. */
  function Slice(s: seq<byte>, a: nat, b: nat): (r: seq<byte>)
  {
    var hi := Min(b, |s|);
    if a < hi then s[a..hi] else []
  }

  datatype Chunks = Chunks(fmt: Option<seq<byte>>, pcm: Option<seq<byte>>)

  /** The chunks the walker keeps: the last fmt body and the last data body. */
  function Walk(data: seq<byte>, pos: nat, c: Chunks): (r: Chunks)
    decreases |data| - pos
  {
    if pos + 8 > |data| then c
    else
      var id := data[pos..pos + 4];
      var size := Get32(data[pos + 4..pos + 8]);
      var body := Slice(data, pos + 8, pos + 8 + size);
      var c' := if id == FMT then c.(fmt := Some(body)) else if id == DATA then c.(pcm := Some(body)) else c;
      Walk(data, pos + 8 + size + size % 2, c')
  }

  /** Decoding the fmt body; None stands for the exceptions the reader raises. */
  function Interpret(c: Chunks): (r: Option<Wav>)
  {
    if c.fmt == None || c.pcm == None || |c.fmt.value| < 16 then None
    else
      var f := c.fmt.value;
      var format := Get16(f[..2]);
      var isFloat := if format == 0xFFFE && |f| >= 40 then f[24..28] == U32(3) else format == 3;
      Some(Wav(isFloat, Get16(f[2..4]), Get32(f[4..8]), Get16(f[14..16]), c.pcm.value))
  }

  function ReadWavSpec(data: seq<byte>): (r: Option<Wav>)
  {
    if Slice(data, 0, 4) != RIFF || Slice(data, 8, 12) != WAVE then None
    else Interpret(Walk(data, 12, Chunks(None, None)))
  }

  /** read_wav_float */
  method ReadWav(data: seq<byte>) returns (r: Option<Wav>)
    ensures r == ReadWavSpec(data)
  {
    if Slice(data, 0, 4) != RIFF || Slice(data, 8, 12) != WAVE { return None; }
    var pos := 12;
    var fmt: Option<seq<byte>>, pcm: Option<seq<byte>> := None, None;
    while pos + 8 <= |data|
      invariant Walk(data, 12, Chunks(None, None)) == Walk(data, pos, Chunks(fmt, pcm))
      decreases |data| - pos
    {
      var cid := data[pos..pos + 4];
      var csize := Get32(data[pos + 4..pos + 8]);
      var body := Slice(data, pos + 8, pos + 8 + csize);
      if cid == FMT {
        fmt := Some(body);
      } else if cid == DATA {
        pcm := Some(body);
      }
      pos := pos + 8 + csize + csize % 2;
    }
    return Interpret(Chunks(fmt, pcm));
  }

  // ---- the round trip ----

  lemma FmtBodyReads(rate: nat, ch: nat, pcm: seq<byte>)
    requires rate < 0x1_0000_0000 && ch < 0x8000
    ensures Interpret(Chunks(Some(FmtBody(rate, ch)), Some(pcm))) == Some(Wav(false, ch, rate, 16, pcm))
  {
    var f := FmtBody(rate, ch);
    assert f[..2] == U16(1) && f[2..4] == U16(ch) && f[4..8] == U32(rate) && f[14..16] == U16(16);
    Low16(1);
    Low16(ch);
    Low16(16);
    Low32(rate);
  }

  /** A part of known length behind a prefix of known length. */
  lemma Part(a: seq<byte>, p: seq<byte>, z: seq<byte>)
    ensures (a + p + z)[|a|..|a| + |p|] == p && (a + p + z)[|a| + |p|..] == z
  {
  }

  lemma Regroup(a: seq<byte>, b: seq<byte>, c: seq<byte>, d: seq<byte>, e: seq<byte>, f: seq<byte>, g: seq<byte>,
                h: seq<byte>, z: seq<byte>)
    ensures var s := a + b + c + d + e + f + g + h + z;
            s == [] + a + (b + c + d + e + f + g + h + z)
            && s == (a + b) + c + (d + e + f + g + h + z)
            && s == (a + b + c) + d + (e + f + g + h + z)
            && s == (a + b + c + d) + e + (f + g + h + z)
            && s == (a + b + c + d + e) + f + (g + h + z)
            && s == (a + b + c + d + e + f) + g + (h + z)
            && s == (a + b + c + d + e + f + g) + h + z
  {
  }

  lemma WavSlices(rate: nat, ch: nat, riff: nat, size: nat, pcm: seq<byte>)
    ensures var d := WavHeader(rate, ch, riff, size) + pcm;
            d[..4] == RIFF && d[8..12] == WAVE && d[12..16] == FMT && d[16..20] == U32(16)
            && d[20..36] == FmtBody(rate, ch) && d[36..40] == DATA && d[40..44] == U32(size) && d[44..] == pcm
  {
    hide U32, FmtBody;
    var a, b, c, d, e := RIFF, U32(riff), WAVE, FMT, U32(16);
    var f, g, h := FmtBody(rate, ch), DATA, U32(size);
    Regroup(a, b, c, d, e, f, g, h, pcm);
    Part([], a, b + c + d + e + f + g + h + pcm);
    Part(a + b, c, d + e + f + g + h + pcm);
    Part(a + b + c, d, e + f + g + h + pcm);
    Part(a + b + c + d, e, f + g + h + pcm);
    Part(a + b + c + d + e, f, g + h + pcm);
    Part(a + b + c + d + e + f, g, h + pcm);
    Part(a + b + c + d + e + f + g, h, pcm);
  }

  lemma SmallCaptureReadsBack(rate: nat, ch: nat, pcm: seq<byte>)
    requires rate < 0x1_0000_0000 && ch < 0x8000 && |pcm| < 0x1_0000_0000
    ensures ReadWavSpec(CaptureFile(rate, ch, pcm)) == Some(Wav(false, ch, rate, 16, pcm))
  {
    var d := WavHeader(rate, ch, 36 + |pcm|, |pcm|) + pcm;
    WavSlices(rate, ch, 36 + |pcm|, |pcm|, pcm);
    Low32(16);
    Low32(|pcm|);
    hide WavHeader, U32;
    var c0 := Chunks(None, None);
    var c1 := Chunks(Some(FmtBody(rate, ch)), None);
    var c2 := Chunks(Some(FmtBody(rate, ch)), Some(pcm));
    assert Slice(d, 44, 44 + |pcm|) == pcm;
    assert Walk(d, 12, c0) == Walk(d, 36, c1);
    assert Walk(d, 36, c1) == Walk(d, 44 + |pcm| + |pcm| % 2, c2);
    FmtBodyReads(rate, ch, pcm);
  }

  lemma {:induction false} BodiesAreShort(data: seq<byte>, pos: nat, c: Chunks)
    requires c.pcm.Some? ==> |c.pcm.value| < 0x1_0000_0000
    ensures var r := Walk(data, pos, c); r.pcm.Some? ==> |r.pcm.value| < 0x1_0000_0000
    decreases |data| - pos
  {
    if pos + 8 <= |data| {
      var id := data[pos..pos + 4];
      var size := Get32(data[pos + 4..pos + 8]);
      var body := Slice(data, pos + 8, pos + 8 + size);
      var c' := if id == FMT then c.(fmt := Some(body)) else if id == DATA then c.(pcm := Some(body)) else c;
      BodiesAreShort(data, pos + 8 + size + size % 2, c');
    }
  }

  /** What was captured comes back with its rate and channels, byte for byte, exactly as long
      as its length fits the 32-bit size field. */
  lemma CaptureReadsBack(rate: nat, ch: nat, pcm: seq<byte>)
    requires rate < 0x1_0000_0000 && ch < 0x8000
    ensures ReadWavSpec(CaptureFile(rate, ch, pcm)) == Some(Wav(false, ch, rate, 16, pcm))
       <==> |pcm| < 0x1_0000_0000
  {
    if |pcm| < 0x1_0000_0000 {
      SmallCaptureReadsBack(rate, ch, pcm);
    } else {
      hide WavHeader, Walk;
      BodiesAreShort(WavHeader(rate, ch, 36 + |pcm|, |pcm|) + pcm, 12, Chunks(None, None));
    }
  }

  /** The bytes at this position are the low 16 or 32 bits of v, least significant first. */
  predicate Low16At(f: seq<byte>, at: nat, v: nat)
  {
    at + 2 <= |f| && f[at] as int == v % 256 && f[at + 1] as int == v / 256 % 256
  }

  predicate Low32At(f: seq<byte>, at: nat, v: nat)
  {
    at + 4 <= |f| && Low16At(f, at, v) && f[at + 2] as int == v / 65536 % 256 && f[at + 3] as int == v / 16777216 % 256
  }

  /** Every field of a finished file: PCM, channels, rate, bytes a second, bytes a frame, bits a sample. */
  lemma CaptureFields(rate: nat, ch: nat, pcm: seq<byte>)
    ensures var f := CaptureFile(rate, ch, pcm);
            |f| == 44 + |pcm| && f[44..] == pcm
            && f[..4] == [82, 73, 70, 70] && Low32At(f, 4, 36 + |pcm|) && f[8..12] == [87, 65, 86, 69]
            && f[12..16] == [102, 109, 116, 32] && Low32At(f, 16, 16) && Low16At(f, 20, 1) && Low16At(f, 22, ch)
            && Low32At(f, 24, rate) && Low32At(f, 28, rate * ch * 2) && Low16At(f, 32, ch * 2) && Low16At(f, 34, 16)
            && f[36..40] == [100, 97, 116, 97] && Low32At(f, 40, |pcm|)
  {
    var f := CaptureFile(rate, ch, pcm);
    WavSlices(rate, ch, 36 + |pcm|, |pcm|, pcm);
    RiffSize(rate, ch, 36 + |pcm|, |pcm|, pcm);
    FmtFields(f, rate, ch, rate * ch * 2);
    hide WavHeader, FmtBody;
    assert f[4..8] == U32(36 + |pcm|) && f[16..20] == U32(16) && f[40..44] == U32(|pcm|);
    Low32Of(f, 4, 36 + |pcm|);
    Low32Of(f, 16, 16);
    Low32Of(f, 40, |pcm|);
  }

  lemma RiffSize(rate: nat, ch: nat, riff: nat, size: nat, pcm: seq<byte>)
    ensures (WavHeader(rate, ch, riff, size) + pcm)[4..8] == U32(riff)
  {
    hide U32, FmtBody;
    Regroup(RIFF, U32(riff), WAVE, FMT, U32(16), FmtBody(rate, ch), DATA, U32(size), pcm);
  }

  lemma Low32Of(f: seq<byte>, at: nat, v: nat)
    requires at + 4 <= |f| && f[at..at + 4] == U32(v)
    ensures Low32At(f, at, v)
  {
    var b := f[at..at + 4];
    assert b[0] == f[at] && b[1] == f[at + 1] && b[2] == f[at + 2] && b[3] == f[at + 3];
  }

  lemma Low16Of(f: seq<byte>, at: nat, v: nat)
    requires at + 2 <= |f| && f[at..at + 2] == U16(v)
    ensures Low16At(f, at, v)
  {
    var b := f[at..at + 2];
    assert b[0] == f[at] && b[1] == f[at + 1];
  }

  lemma FmtParts(rate: nat, ch: nat)
    ensures var b := FmtBody(rate, ch);
            b[0..2] == U16(1) && b[2..4] == U16(ch) && b[4..8] == U32(rate) && b[8..12] == U32(rate * ch * 2)
            && b[12..14] == U16(ch * 2) && b[14..16] == U16(16)
  {
    hide U16, U32;
  }

  lemma Within(f: seq<byte>, a: nat, b: nat)
    requires |f| >= 44 && a <= b <= 16
    ensures f[20..36][a..b] == f[20 + a..20 + b]
  {
    var x, y := f[20..36][a..b], f[20 + a..20 + b];
    forall i | 0 <= i < b - a
      ensures x[i] == y[i]
    {
    }
    assert |x| == |y|;
  }

  lemma FmtFields(f: seq<byte>, rate: nat, ch: nat, bytesPerSecond: nat)
    requires |f| >= 44 && f[20..36] == FmtBody(rate, ch) && bytesPerSecond == rate * ch * 2
    ensures Low16At(f, 20, 1) && Low16At(f, 22, ch) && Low32At(f, 24, rate) && Low32At(f, 28, bytesPerSecond)
    ensures Low16At(f, 32, ch * 2) && Low16At(f, 34, 16)
  {
    FmtParts(rate, ch);
    hide FmtBody, Low16At, Low32At, U16, U32;
    var b := f[20..36];
    Within(f, 0, 2);
    Within(f, 2, 4);
    Within(f, 4, 8);
    Within(f, 8, 12);
    Within(f, 12, 14);
    Within(f, 14, 16);
    Low16Of(f, 20, 1);
    Low16Of(f, 22, ch);
    Low32Of(f, 24, rate);
    Low32Of(f, 28, bytesPerSecond);
    Low16Of(f, 32, ch * 2);
    Low16Of(f, 34, 16);
  }

  /** It is a finished capture file, which reads back as its samples. */
  lemma CaptureIsRead(bytes: seq<byte>, pcm: seq<byte>)
    requires IsCapture(bytes, pcm)
    ensures |pcm| < 0x1_0000_0000 ==>
              var r := ReadWavSpec(bytes);
              r.Some? && r.value.pcm == pcm && r.value.bits == 16 && !r.value.isFloat
  {
    hide WavHeader, ReadWavSpec;
    var rate: nat, ch: nat :| rate < 0x1_0000_0000 && 1 <= ch <= 2 && bytes == CaptureFile(rate, ch, pcm);
    CaptureReadsBack(rate, ch, pcm);
  }

  // ---- any RIFF file ----

  datatype Chunk = Chunk(id: seq<byte>, body: seq<byte>)

  predicate WellFormed(cs: seq<Chunk>)
  {
    forall i | 0 <= i < |cs| :: |cs[i].id| == 4 && |cs[i].body| < 0x1_0000_0000
  }

  /** A chunk in a file: its name, its size, its body, and a byte more if that is odd. */
  function ChunkBytes(c: Chunk): (s: seq<byte>)
  {
    c.id + U32(|c.body|) + c.body + if |c.body| % 2 == 1 then [0] else []
  }

  function FileBytes(cs: seq<Chunk>): (s: seq<byte>)
  {
    if cs == [] then [] else ChunkBytes(cs[0]) + FileBytes(cs[1..])
  }

  /** The last fmt and the last data chunk. */
  function Collected(cs: seq<Chunk>, c: Chunks): (r: Chunks)
    decreases |cs|
  {
    if cs == [] then c
    else
      Collected(cs[1..], if cs[0].id == [102, 109, 116, 32] then c.(fmt := Some(cs[0].body))
                         else if cs[0].id == [100, 97, 116, 97] then c.(pcm := Some(cs[0].body)) else c)
  }

  lemma FourParts(a: seq<byte>, i: seq<byte>, n: seq<byte>, b: seq<byte>, p: seq<byte>, z: seq<byte>)
    ensures var d := a + (i + n + b + p) + z;
            d == a + i + (n + b + p + z) && d == (a + i) + n + (b + p + z) && d == (a + i + n) + b + (p + z)
  {
  }

  lemma ChunkAt(before: seq<byte>, c: Chunk, rest: seq<byte>)
    requires |c.id| == 4 && |c.body| < 0x1_0000_0000
    ensures var d := before + ChunkBytes(c) + rest;
            var p := |before|;
            p + 8 <= |d| && d[p..p + 4] == c.id && Get32(d[p + 4..p + 8]) == |c.body|
            && Slice(d, p + 8, p + 8 + |c.body|) == c.body
            && p + 8 + |c.body| + |c.body| % 2 == |before + ChunkBytes(c)|
  {
    var pad: seq<byte> := if |c.body| % 2 == 1 then [0] else [];
    var n := U32(|c.body|);
    Low32(|c.body|);
    hide U32, Get32;
    FourParts(before, c.id, n, c.body, pad, rest);
    Part(before, c.id, n + c.body + pad + rest);
    Part(before + c.id, n, c.body + pad + rest);
    Part(before + c.id + n, c.body, pad + rest);
  }

  function Taking(c: Chunks, k: Chunk): (r: Chunks)
  {
    if k.id == FMT then c.(fmt := Some(k.body)) else if k.id == DATA then c.(pcm := Some(k.body)) else c
  }

  lemma WalkStep(d: seq<byte>, p: nat, c: Chunks, k: Chunk)
    requires p + 8 <= |d| && d[p..p + 4] == k.id && Get32(d[p + 4..p + 8]) == |k.body|
    requires Slice(d, p + 8, p + 8 + |k.body|) == k.body
    ensures Walk(d, p, c) == Walk(d, p + 8 + |k.body| + |k.body| % 2, Taking(c, k))
  {
    hide Slice, Get32;
  }

  lemma WalkEnd(d: seq<byte>, c: Chunks)
    ensures Walk(d, |d|, c) == c
  {
  }

  /** The walker finds the chunks of any file, whatever they are called and however long they are. */
  lemma {:induction false} WalkFinds(before: seq<byte>, cs: seq<Chunk>, c: Chunks)
    requires WellFormed(cs)
    ensures Walk(before + FileBytes(cs), |before|, c) == Collected(cs, c)
    decreases |cs|
  {
    hide Walk, U32, Get32, ChunkBytes, Slice;
    if cs == [] {
      assert before + [] == before;
      WalkEnd(before, c);
    } else {
      var d := before + FileBytes(cs);
      var next := before + ChunkBytes(cs[0]);
      assert d == next + FileBytes(cs[1..]);
      ChunkAt(before, cs[0], FileBytes(cs[1..]));
      WalkStep(d, |before|, c, cs[0]);
      WalkFinds(next, cs[1..], Taking(c, cs[0]));
    }
  }

  /** Reading any RIFF file of chunks: the fields of its last fmt chunk, and its last data chunk. */
  lemma FileReads(size: seq<byte>, cs: seq<Chunk>)
    requires WellFormed(cs) && |size| == 4
    ensures var c := Collected(cs, Chunks(None, None));
            var r := ReadWavSpec([82, 73, 70, 70] + size + [87, 65, 86, 69] + FileBytes(cs));
            if c.fmt == None || c.pcm == None || |c.fmt.value| < 16 then r == None
            else
              var f := c.fmt.value;
              r.Some? && r.value.pcm == c.pcm.value
              && Low16At(f, 2, r.value.channels) && Low32At(f, 4, r.value.rate) && Low16At(f, 14, r.value.bits)
              && r.value.channels < 0x1_0000 && r.value.rate < 0x1_0000_0000 && r.value.bits < 0x1_0000
              && (r.value.isFloat <==>
                    f[..2] == [3, 0] || (f[..2] == [0xFE, 0xFF] && |f| >= 40 && f[24..28] == [3, 0, 0, 0]))
  {
    var head := [82, 73, 70, 70] + size + [87, 65, 86, 69];
    WalkFinds(head, cs, Chunks(None, None));
    var d := head + FileBytes(cs);
    assert d[..4] == [82, 73, 70, 70] && d[8..12] == [87, 65, 86, 69];
    var c := Collected(cs, Chunks(None, None));
    if c.fmt.Some? && c.pcm.Some? && |c.fmt.value| >= 16 { FieldsRead(c); }
  }

  lemma FieldsRead(c: Chunks)
    requires c.fmt.Some? && c.pcm.Some? && |c.fmt.value| >= 16
    ensures var r, f := Interpret(c), c.fmt.value;
            r.Some? && r.value.pcm == c.pcm.value
            && Low16At(f, 2, r.value.channels) && Low32At(f, 4, r.value.rate) && Low16At(f, 14, r.value.bits)
            && r.value.channels < 0x1_0000 && r.value.rate < 0x1_0000_0000 && r.value.bits < 0x1_0000
            && (r.value.isFloat <==>
                  f[..2] == [3, 0] || (f[..2] == [0xFE, 0xFF] && |f| >= 40 && f[24..28] == [3, 0, 0, 0]))
  {
    var f := c.fmt.value;
    Get16Is(f, 2);
    Get16Is(f, 14);
    Get16Is(f, 0);
    Get32Is(f, 4);
    hide Low16At, Low32At, Get16, Get32;
    assert f[0..2] == f[..2];
  }

  lemma Get16Is(f: seq<byte>, at: nat)
    requires at + 2 <= |f|
    ensures var v := Get16(f[at..at + 2]); Low16At(f, at, v) && v < 0x1_0000
    ensures forall a: byte, b: byte :: Get16(f[at..at + 2]) == a as nat + 256 * b as nat <==> f[at..at + 2] == [a, b]
  {
  }

  lemma LowByte(a: byte, q: nat)
    ensures (a as nat + 256 * q) % 256 == a as nat && (a as nat + 256 * q) / 256 == q
  {
  }

  lemma FourBytes(a: byte, b: byte, c: byte, d: byte)
    ensures var v := a as nat + 256 * (b as nat + 256 * (c as nat + 256 * d as nat));
            v % 256 == a as nat && v / 256 % 256 == b as nat && v / 65536 % 256 == c as nat
            && v / 16777216 % 256 == d as nat && v < 0x1_0000_0000
  {
    var z: nat := d as nat;
    var y: nat := c as nat + 256 * z;
    var x: nat := b as nat + 256 * y;
    LowByte(c, z);
    LowByte(b, y);
    LowByte(a, x);
    var v := a as nat + 256 * x;
    assert v / 65536 == v / 256 / 256 && v / 16777216 == v / 256 / 256 / 256;
  }

  lemma Get32Is(f: seq<byte>, at: nat)
    requires at + 4 <= |f|
    ensures var v := Get32(f[at..at + 4]); Low32At(f, at, v) && v < 0x1_0000_0000
  {
    var b := f[at..at + 4];
    FourBytes(b[0], b[1], b[2], b[3]);
    assert Get32(b) == b[0] as nat + 256 * (b[1] as nat + 256 * (b[2] as nat + 256 * b[3] as nat));
  }
}
