/**
 * The browser-side recorder of `createRecorder`: while running, every captured
 * frame is buffered; on each tick of its interval the buffered frames are joined,
 * resampled to 16 kHz and converted to 16-bit little-endian PCM, and that buffer
 * is handed to `onChunk`. Samples are real numbers: the rounding of 32-bit floats
 * is not modelled, the rest of the arithmetic is.
 */
module Recorder {
  import opened Wrappers
  import opened Protocol

  type Sample = real

  /** The samples of one `onaudioprocess` event (the copied channel data). */
  type Frame = seq<Sample>

  const TargetSampleRate: nat := 16000
  const DefaultIntervalMs: int := 200
  const MinIntervalMs: int := 50

  /** `Math.max(50, intervalMs || 200)`: 0 asks for the default, anything below
      the minimum is raised to it. */
  function FlushPeriod(intervalMs: int): (p: int)
    ensures p >= MinIntervalMs
    ensures intervalMs == 0 ==> p == DefaultIntervalMs
    ensures intervalMs >= MinIntervalMs ==> p == intervalMs
    ensures intervalMs != 0 && intervalMs < MinIntervalMs ==> p == MinIntervalMs
  {
    var requested := if intervalMs == 0 then DefaultIntervalMs else intervalMs;
    if requested < MinIntervalMs then MinIntervalMs else requested
  }

  // ---- concatFloat32

  /** The frames one after another, in the order they were pushed. */
  function Joined(frames: seq<Frame>): seq<Sample>
    decreases |frames|
  {
    if frames == [] then [] else Joined(frames[..|frames| - 1]) + frames[|frames| - 1]
  }

  /** The sum of the frame lengths: the first loop of `concatFloat32`. */
  function TotalLength(frames: seq<Frame>): nat
    decreases |frames|
  {
    if frames == [] then 0 else TotalLength(frames[..|frames| - 1]) + |frames[|frames| - 1]|
  }

  lemma JoinedSnoc(frames: seq<Frame>, f: Frame)
    ensures Joined(frames + [f]) == Joined(frames) + f
    ensures TotalLength(frames + [f]) == TotalLength(frames) + |f|
  {
    assert (frames + [f])[..|frames|] == frames;
  }

  /** The output length that `concatFloat32` allocates is exactly the length of
      the joined samples. */
  lemma {:induction false} JoinedLength(frames: seq<Frame>)
    ensures |Joined(frames)| == TotalLength(frames)
    decreases |frames|
  {
    if frames != [] {
      JoinedLength(frames[..|frames| - 1]);
    }
  }

  /** Joining distributes over splitting the frame list. */
  lemma {:induction false} JoinedConcat(a: seq<Frame>, b: seq<Frame>)
    ensures Joined(a + b) == Joined(a) + Joined(b)
    decreases |b|
  {
    if b == [] {
      assert a + b == a;
    } else {
      var b' := b[..|b| - 1];
      var f := b[|b| - 1];
      assert a + b == (a + b') + [f];
      assert b == b' + [f];
      JoinedSnoc(a + b', f);
      JoinedSnoc(b', f);
      JoinedConcat(a, b');
      AppendAssoc(Joined(a), Joined(b'), f);
    }
  }

  /** A prefix of the frames joins to no more samples than all of them. */
  lemma JoinedPrefix(frames: seq<Frame>, i: nat)
    requires i <= |frames|
    ensures |Joined(frames[..i])| <= |Joined(frames)|
  {
    JoinedConcat(frames[..i], frames[i..]);
    assert frames[..i] + frames[i..] == frames;
  }

  /** One more frame: the prefix of the frame list grows by `frames[i]`, and stays
      within the whole. */
  lemma PrefixStep(frames: seq<Frame>, i: nat)
    requires i < |frames|
    ensures Joined(frames[..i + 1]) == Joined(frames[..i]) + frames[i]
    ensures TotalLength(frames[..i + 1]) == TotalLength(frames[..i]) + |frames[i]|
    ensures |Joined(frames[..i + 1])| <= |Joined(frames)|
  {
    assert frames[..i + 1] == frames[..i] + [frames[i]];
    JoinedSnoc(frames[..i], frames[i]);
    JoinedPrefix(frames, i + 1);
  }

  /** `out.set(c, offset)`: `c` copied into `out` from `offset` on, the rest kept. */
  method SetAt(out: array<Sample>, c: Frame, offset: nat)
    requires offset + |c| <= out.Length
    modifies out
    ensures out[..offset + |c|] == old(out[..offset]) + c
    ensures out[offset + |c|..] == old(out[offset + |c|..])
  {
    forall j | 0 <= j < |c| {
      out[offset + j] := c[j];
    }
    assert out[..offset + |c|] == old(out[..offset]) + c;
  }

  /** `concatFloat32(chunks)`: the total length first, then each frame copied in
      at the running offset. */
  method ConcatFloat32(chunks: seq<Frame>) returns (out: array<Sample>)
    ensures out.Length == TotalLength(chunks)
    ensures out[..] == Joined(chunks)
  {
    var total := 0;
    for i := 0 to |chunks|
      invariant total == TotalLength(chunks[..i])
    {
      PrefixStep(chunks, i);
      total := total + |chunks[i]|;
    }
    assert chunks[..|chunks|] == chunks;
    JoinedLength(chunks);
    out := new Sample[total];
    var offset := 0;
    for i := 0 to |chunks|
      invariant offset == |Joined(chunks[..i])| <= total
      invariant out[..offset] == Joined(chunks[..i])
    {
      var c := chunks[i];
      PrefixStep(chunks, i);
      SetAt(out, c, offset);
      offset := offset + |c|;
    }
  }

  // ---- floatTo16BitPCM

  /** `Math.max(-1, Math.min(1, x))`. */
  function Clamp(x: real): (r: real)
    ensures -1.0 <= r <= 1.0
    ensures -1.0 <= x <= 1.0 ==> r == x
    ensures x > 1.0 ==> r == 1.0
    ensures x < -1.0 ==> r == -1.0
  {
    if x < -1.0 then -1.0 else if x > 1.0 then 1.0 else x
  }

  /** The conversion of a number to an integer that `setInt16` applies: the
      fraction is dropped, toward zero. */
  function Truncate(x: real): (n: int)
    ensures x >= 0.0 ==> 0.0 <= n as real <= x < n as real + 1.0
    ensures x < 0.0 ==> n as real - 1.0 < x <= n as real <= 0.0
  {
    if x < 0.0 then -((-x).Floor) else x.Floor
  }

  /** The 16-bit value stored for one sample: negative samples scaled by 0x8000,
      the others by 0x7fff, after clamping. */
  function Quantize(x: real): (v: int)
    ensures -0x8000 <= v <= 0x7fff
  {
    var s := Clamp(x);
    if s < 0.0 then Truncate(s * 32768.0) else Truncate(s * 32767.0)
  }

  /** Full scale maps to the ends of the 16-bit range, silence to zero, and
      anything beyond full scale is clamped first. Samples closer to zero than
      one step of their scale truncate to zero, on either side; the others keep
      their sign. */
  lemma QuantizeEnds(x: real)
    ensures Quantize(1.0) == 0x7fff && Quantize(-1.0) == -0x8000 && Quantize(0.0) == 0
    ensures x >= 1.0 ==> Quantize(x) == 0x7fff
    ensures x <= -1.0 ==> Quantize(x) == -0x8000
    ensures (x < 0.0 <==> Quantize(x) < 0) || (-1.0 / 32768.0 < x < 0.0 && Quantize(x) == 0)
    ensures -1.0 / 32768.0 < x < 1.0 / 32767.0 ==> Quantize(x) == 0
    ensures x <= -1.0 / 32768.0 ==> Quantize(x) < 0
    ensures x >= 1.0 / 32767.0 ==> Quantize(x) > 0
  {
  }

  /** The two bytes of `setInt16(offset, v, true)`: the value taken modulo 2^16,
      low byte first. */
  function Int16LE(v: int): (b: seq<byte>)
    ensures |b| == 2
  {
    var u := v % 0x10000;
    [(u % 0x100) as byte, (u / 0x100) as byte]
  }

  /** `getInt16(offset, true)`: the signed value of two little-endian bytes. */
  function ReadInt16LE(lo: byte, hi: byte): (v: int)
    ensures -0x8000 <= v <= 0x7fff
  {
    var u := lo as int + 0x100 * hi as int;
    if u >= 0x8000 then u - 0x10000 else u
  }

  /** Reading a slot back gives the value written, for every 16-bit value. */
  lemma Int16RoundTrip(v: int)
    requires -0x8000 <= v <= 0x7fff
    ensures ReadInt16LE(Int16LE(v)[0], Int16LE(v)[1]) == v
  {
  }

  /** The PCM buffer for `samples`: one two-byte slot per sample, in order. */
  function Pcm(samples: seq<Sample>): (r: seq<byte>)
    ensures |r| == 2 * |samples|
    decreases |samples|
  {
    if samples == [] then []
    else Pcm(samples[..|samples| - 1]) + Int16LE(Quantize(samples[|samples| - 1]))
  }

  /** Slot `i` of the buffer holds the quantized sample `i`. */
  lemma {:induction false} PcmSlot(samples: seq<Sample>, i: nat)
    requires i < |samples|
    ensures ReadInt16LE(Pcm(samples)[2 * i], Pcm(samples)[2 * i + 1]) == Quantize(samples[i])
    decreases |samples|
  {
    var n := |samples| - 1;
    var init := Pcm(samples[..n]);
    assert Pcm(samples) == init + Int16LE(Quantize(samples[n]));
    if i < n {
      PcmSlot(samples[..n], i);
      assert samples[..n][i] == samples[i];
    } else {
      Int16RoundTrip(Quantize(samples[n]));
    }
  }

  /** `floatTo16BitPCM(float32)`: a buffer of two bytes per sample, each sample
      clamped, scaled and stored as a little-endian 16-bit integer. */
  method FloatTo16BitPCM(float32: array<Sample>) returns (buffer: array<byte>)
    ensures buffer.Length == 2 * float32.Length
    ensures buffer[..] == Pcm(float32[..])
  {
    buffer := new byte[2 * float32.Length];
    var offset := 0;
    for i := 0 to float32.Length
      invariant offset == 2 * i
      invariant buffer[..offset] == Pcm(float32[..i])
    {
      var s := Clamp(float32[i]);
      var v := if s < 0.0 then Truncate(s * 32768.0) else Truncate(s * 32767.0);
      var slot := Int16LE(v);
      ghost var before := buffer[..offset];
      buffer[offset] := slot[0];
      buffer[offset + 1] := slot[1];
      assert buffer[..offset + 2] == before + slot;
      assert float32[..i + 1][..i] == float32[..i];
      offset := offset + 2;
    }
    assert float32[..float32.Length] == float32[..];
  }

  // ---- resampleTo16k

  /** `Math.round`: the nearest integer, halves rounded up. */
  function Round(x: real): (n: int)
    ensures x - 0.5 < n as real <= x + 0.5
  {
    (x + 0.5).Floor
  }

  /** `fromRate / toRate`. */
  function Ratio(fromRate: nat, toRate: nat): (r: real)
    requires fromRate > 0 && toRate > 0
    ensures r > 0.0
  {
    fromRate as real / toRate as real
  }

  /** `Math.round(input.length / ratio)`. */
  function ResampledLength(n: nat, ratio: real): (m: nat)
    requires ratio > 0.0
    ensures n as real / ratio - 0.5 < m as real <= n as real / ratio + 0.5
  {
    var r := Round(n as real / ratio);
    assert n as real / ratio >= 0.0;
    r
  }

  /** Output position `i` reads inside the input: `left` and `right` are valid indices. */
  lemma InterpolationInBounds(n: nat, ratio: real, i: nat)
    requires ratio > 0.0 && i < ResampledLength(n, ratio)
    ensures 0 <= (i as real * ratio).Floor < n
  {
    var m := ResampledLength(n, ratio);
    assert i as real <= n as real / ratio - 0.5;
    assert i as real * ratio <= (n as real / ratio - 0.5) * ratio;
    assert (n as real / ratio) * ratio == n as real;
  }

  /** Output sample `i`: linear interpolation between the two input samples
      around position `i * ratio`. */
  function Interpolate(input: seq<Sample>, ratio: real, i: nat): Sample
    requires ratio > 0.0 && i < ResampledLength(|input|, ratio)
  {
    InterpolationInBounds(|input|, ratio, i);
    var nextPos := i as real * ratio;
    var left := nextPos.Floor;
    var right := if left + 1 < |input| - 1 then left + 1 else |input| - 1;
    var interp := nextPos - left as real;
    input[left] * (1.0 - interp) + input[right] * interp
  }

  /** `resampleTo16k(input, fromRate, toRate)`: the input itself when the rates
      are equal, otherwise `Math.round(n / ratio)` interpolated samples. */
  function Resampled(input: seq<Sample>, fromRate: nat, toRate: nat): seq<Sample>
    requires fromRate > 0 && toRate > 0
  {
    if fromRate == toRate then input
    else
      var ratio := Ratio(fromRate, toRate);
      seq(ResampledLength(|input|, ratio), i requires 0 <= i < ResampledLength(|input|, ratio) => Interpolate(input, ratio, i))
  }

  /** The shortcut for equal rates changes nothing: interpolating at ratio 1
      reproduces the input sample for sample. */
  lemma RatioOneIsIdentity(input: seq<Sample>)
    ensures ResampledLength(|input|, 1.0) == |input|
    ensures forall i :: 0 <= i < |input| ==> Interpolate(input, 1.0, i) == input[i]
  {
    assert ResampledLength(|input|, 1.0) == |input|;
  }

  /** Downsampling by a whole factor `k` (48 kHz to 16 kHz is `k == 3`) keeps
      every `k`-th input sample and interpolates nothing. */
  lemma WholeFactorDecimates(input: seq<Sample>, k: nat, i: nat)
    requires k >= 1 && i < ResampledLength(|input|, k as real)
    ensures k * i < |input|
    ensures Interpolate(input, k as real, i) == input[k * i]
  {
    WholePosition(k, i);
    InterpolationInBounds(|input|, k as real, i);
    InterpolateExact(input, k as real, i, k * i);
  }

  /** An output position that falls exactly on input sample `j` copies it. */
  lemma InterpolateExact(input: seq<Sample>, ratio: real, i: nat, j: nat)
    requires ratio > 0.0 && i < ResampledLength(|input|, ratio)
    requires i as real * ratio == j as real && j < |input|
    ensures Interpolate(input, ratio, i) == input[j]
  {
    var right := if j + 1 < |input| - 1 then j + 1 else |input| - 1;
    assert (i as real * ratio).Floor == j;
    assert Interpolate(input, ratio, i) == input[j] * (1.0 - 0.0) + input[right] * 0.0;
  }

  /** Position `i * k` of a whole factor lands exactly on an input sample. */
  lemma WholePosition(k: nat, i: nat)
    ensures i as real * k as real == (k * i) as real
    ensures (i as real * k as real).Floor == k * i
  {
  }

  /** 48 kHz input yields a third as many samples, rounded. */
  lemma From48k(input: seq<Sample>)
    ensures Ratio(48000, TargetSampleRate) == 3.0
    ensures |Resampled(input, 48000, TargetSampleRate)| == Round(|input| as real / 3.0)
  {
  }

  /** The interpolation loop of `resampleTo16k`, or the input array itself. */
  method ResampleTo16k(input: array<Sample>, fromRate: nat, toRate: nat) returns (output: array<Sample>)
    requires fromRate > 0 && toRate > 0
    ensures fromRate == toRate ==> output == input
    ensures output[..] == Resampled(input[..], fromRate, toRate)
  {
    if fromRate == toRate {
      return input;
    }
    var ratio := fromRate as real / toRate as real;
    var newLength := Round(input.Length as real / ratio);
    assert newLength == ResampledLength(input.Length, ratio);
    output := new Sample[newLength];
    var index := 0;
    for i := 0 to newLength
      invariant index == i
      invariant forall k :: 0 <= k < i ==> output[k] == Interpolate(input[..], ratio, k)
    {
      output[index] := Interpolate(input[..], ratio, i);
      index := index + 1;
    }
  }

  /** The recorder object and the closure state behind it. */
  class Recorder {
    /** `audioContext.sampleRate`. */
    const inputSampleRate: nat
    var isRunning: bool
    var floatBuffer: seq<Frame>
    /** The period of the flush interval while one is scheduled. */
    var flushTimer: Option<int>
    /** `stop` has disconnected the graph and closed the audio context. */
    var closed: bool
    /** Every buffer handed to `onChunk`, in order. */
    var sent: seq<Bytes>

    /** A flush interval is scheduled exactly while the recorder runs. */
    ghost predicate Valid()
      reads this
    {
      inputSampleRate > 0 && (isRunning <==> flushTimer.Some?)
    }

    constructor (sampleRate: nat)
      requires sampleRate > 0
      ensures Valid() && inputSampleRate == sampleRate
      ensures !isRunning && floatBuffer == [] && flushTimer == None && !closed && sent == []
    {
      inputSampleRate := sampleRate;
      isRunning := false;
      floatBuffer := [];
      flushTimer := None;
      closed := false;
      sent := [];
    }

    /** `onaudioprocess`: the frame is buffered only while running. */
    method OnAudioProcess(input: Frame)
      modifies this
      ensures floatBuffer == old(floatBuffer) + (if isRunning then [input] else [])
      ensures isRunning == old(isRunning) && flushTimer == old(flushTimer)
      ensures closed == old(closed) && sent == old(sent)
    {
      if !isRunning {
        return;
      }
      floatBuffer := floatBuffer + [input];
    }

    /** `start(intervalMs)`: nothing when already running; otherwise running, an
        empty buffer, and a fresh interval of `FlushPeriod(intervalMs)`. */
    method Start(intervalMs: int)
      requires Valid()
      modifies this
      ensures Valid() && isRunning
      ensures old(isRunning) ==> floatBuffer == old(floatBuffer) && flushTimer == old(flushTimer)
      ensures !old(isRunning) ==> floatBuffer == [] && flushTimer == Some(FlushPeriod(intervalMs))
      ensures closed == old(closed) && sent == old(sent)
    {
      if isRunning {
        return;
      }
      isRunning := true;
      floatBuffer := [];
      flushTimer := Some(FlushPeriod(intervalMs));
    }

    /** One tick of the flush interval: nothing when no interval is scheduled or
        nothing is buffered; otherwise every buffered frame, joined in push order,
        resampled to 16 kHz and converted to PCM, goes out as one chunk, and the
        buffer is emptied. */
    method Tick()
      requires Valid()
      modifies this
      ensures Valid()
      ensures old(flushTimer).None? || old(floatBuffer) == [] ==>
        floatBuffer == old(floatBuffer) && sent == old(sent)
      ensures old(flushTimer).Some? && old(floatBuffer) != [] ==>
        && floatBuffer == []
        && sent == old(sent) + [Pcm(Resampled(Joined(old(floatBuffer)), inputSampleRate, TargetSampleRate))]
      ensures isRunning == old(isRunning) && flushTimer == old(flushTimer) && closed == old(closed)
    {
      if flushTimer.None? || floatBuffer == [] {
        return;
      }
      var floats := ConcatFloat32(floatBuffer);
      floatBuffer := [];
      var resampled := ResampleTo16k(floats, inputSampleRate, TargetSampleRate);
      var pcm := FloatTo16BitPCM(resampled);
      sent := sent + [pcm[..]];
    }

    /** `stop()`: not running, the interval cleared, the graph disconnected and
        the context closed (each failure swallowed). The buffer is left as it is. */
    method Stop()
      requires Valid()
      modifies this
      ensures Valid()
      ensures !isRunning && flushTimer == None && closed
      ensures floatBuffer == old(floatBuffer) && sent == old(sent)
    {
      isRunning := false;
      if flushTimer.Some? {
        flushTimer := None;
      }
      closed := true;
    }
  }
}
