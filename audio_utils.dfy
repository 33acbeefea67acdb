/**
  PCM16 helpers of src/utils/audio_utils.py: the root-mean-square loudness of a
  block of samples and the serialiser that wraps samples in a 44-byte
  RIFF/WAVE header (mono, 16-bit PCM, little-endian).

  RMS is never taken as a square root: `rms >= t` is decided on the mean of
  the squares, which is exact.
 */
module AudioUtils {
  import opened Wrappers

  /** One int16 PCM sample. */
  type Sample = x: int | -32768 <= x <= 32767

  /** One byte of a byte string. */
  type Byte = x: int | 0 <= x < 256

  /** The element type of a NumPy array. */
  datatype DType = Int16 | Int32 | Float32 | Float64

  /** A NumPy array of PCM data: its number of dimensions, its element type and
      its elements in memory order. */
  datatype PcmArray = PcmArray(ndim: nat, dtype: DType, samples: seq<Sample>)

  /** The 1-D int16 array holding `xs`. */
  function Mono(xs: seq<Sample>): PcmArray {
    PcmArray(1, Int16, xs)
  }

  // ---------------------------------------------------------------------
  // RMS

  function SumSq(xs: seq<Sample>): (r: nat)
    ensures |xs| == 0 ==> r == 0
    decreases |xs|
  {
    if |xs| == 0 then 0 else SumSq(xs[..|xs| - 1]) + (xs[|xs| - 1] as int) * (xs[|xs| - 1] as int)
  }

  /** mean(x²) of `calculate_rms`, with 0 for an empty array. */
  function MeanSquare(xs: seq<Sample>): (r: real)
    ensures r >= 0.0
    ensures |xs| == 0 ==> r == 0.0
  {
    if |xs| == 0 then 0.0 else SumSq(xs) as real / |xs| as real
  }

  /** `calculate_rms(xs) >= t` for an integer threshold: the RMS is the
      non-negative square root of `MeanSquare`, so it reaches `t` exactly when
      `t` is not positive or the mean square reaches `t²`. */
  predicate RmsAtLeast(xs: seq<Sample>, t: int) {
    t <= 0 || MeanSquare(xs) >= (t * t) as real
  }

  /** An empty array has RMS 0: it reaches exactly the thresholds that are not
      positive. */
  lemma RmsOfEmpty(t: int)
    ensures RmsAtLeast([], t) <==> t <= 0
  {
    var empty: seq<Sample> := [];
    assert MeanSquare(empty) == 0.0;
  }

  /** The RMS comparison in integers: for a positive threshold it holds iff
      there are samples and Σx² ≥ t²·n. */
  lemma RmsAtLeastBySquares(xs: seq<Sample>, t: int)
    requires t > 0
    ensures RmsAtLeast(xs, t) <==> |xs| > 0 && SumSq(xs) >= t * t * |xs|
  {
    if |xs| > 0 {
      RmsAtLeastNonEmpty(xs, t);
    } else {
      RmsOfEmpty(t);
    }
  }

  lemma RmsAtLeastNonEmpty(xs: seq<Sample>, t: int)
    requires t > 0 && |xs| > 0
    ensures RmsAtLeast(xs, t) <==> SumSq(xs) >= t * t * |xs|
  {
    MeanAtLeast(SumSq(xs), |xs|, t * t);
  }

  /** For n > 0, the mean s/n reaches k iff s reaches k·n. */
  lemma MeanAtLeast(s: nat, n: nat, k: int)
    requires n > 0
    ensures s as real / n as real >= k as real <==> s >= k * n
  {
    DivAtLeast(s as real, n as real, k as real);
    CastMul(k, n);
  }

  lemma CastMul(a: int, b: int)
    ensures (a * b) as real == a as real * b as real
  {
  }

  /** For a positive divisor, `s / n >= k` is `s >= k·n`. */
  lemma DivAtLeast(s: real, n: real, k: real)
    requires n > 0.0
    ensures s / n >= k <==> s >= k * n
  {
    var q := s / n;
    assert q * n == s;
    if q >= k {
      assert q * n >= k * n;
    } else {
      assert q * n < k * n;
    }
  }

  /** A block that reaches a threshold reaches every lower one. */
  lemma RmsAtLeastMonotone(xs: seq<Sample>, t1: int, t2: int)
    requires t1 <= t2 && RmsAtLeast(xs, t2)
    ensures RmsAtLeast(xs, t1)
  {
    if t1 > 0 {
      assert t1 * t1 <= t1 * t2 <= t2 * t2;
    }
  }

  // ---------------------------------------------------------------------
  // Little-endian integers

  const U16_LIMIT: nat := 0x1_0000
  const U32_LIMIT: nat := 0x1_0000_0000

  /** `struct.pack('<H', v)` */
  function LE16(v: nat): (r: seq<Byte>)
    requires v < U16_LIMIT
    ensures |r| == 2
  {
    [v % 256, v / 256]
  }

  /** `struct.pack('<I', v)` */
  function LE32(v: nat): (r: seq<Byte>)
    requires v < U32_LIMIT
    ensures |r| == 4
  {
    [v % 256, (v / 256) % 256, (v / 0x1_0000) % 256, v / 0x100_0000]
  }

  /** `struct.unpack('<H', b)[0]` */
  function DecodeLE16(b: seq<Byte>): nat
    requires |b| == 2
  {
    b[0] as int + 256 * b[1] as int
  }

  /** `struct.unpack('<I', b)[0]` */
  function DecodeLE32(b: seq<Byte>): nat
    requires |b| == 4
  {
    b[0] as int + 256 * b[1] as int + 0x1_0000 * b[2] as int + 0x100_0000 * b[3] as int
  }

  lemma DecodeLE16Encode(v: nat)
    requires v < U16_LIMIT
    ensures DecodeLE16(LE16(v)) == v
  {
  }

  lemma DecodeLE32Encode(v: nat)
    requires v < U32_LIMIT
    ensures DecodeLE32(LE32(v)) == v
  {
    var b0, b1, b2, b3 := v % 256, (v / 256) % 256, (v / 0x1_0000) % 256, v / 0x100_0000;
    assert v / 256 == b1 + 256 * ((v / 256) / 256);
    assert (v / 256) / 256 == v / 0x1_0000;
    assert v / 0x1_0000 == b2 + 256 * ((v / 0x1_0000) / 256);
    assert (v / 0x1_0000) / 256 == b3;
  }

  /** The bytes of an ASCII string. */
  function Ascii(s: string): (r: seq<Byte>)
    requires forall i :: 0 <= i < |s| ==> s[i] as int < 128
    ensures |r| == |s| && forall i :: 0 <= i < |s| ==> r[i] == s[i] as int
  {
    seq(|s|, i requires 0 <= i < |s| => s[i] as int)
  }

  // ---------------------------------------------------------------------
  // Sample bytes

  /** The two's-complement 16-bit pattern of a sample. */
  function SampleBits(x: Sample): (u: nat)
    ensures u < U16_LIMIT
  {
    x % U16_LIMIT
  }

  /** The sample a 16-bit pattern stands for. */
  function SampleOfBits(u: nat): Sample
    requires u < U16_LIMIT
  {
    if u < 0x8000 then u else u - U16_LIMIT
  }

  /** `ndarray.tobytes()` of an int16 array on a little-endian machine. */
  function SampleBytes(xs: seq<Sample>): (r: seq<Byte>)
    ensures |r| == 2 * |xs|
    decreases |xs|
  {
    if |xs| == 0 then [] else LE16(SampleBits(xs[0])) + SampleBytes(xs[1..])
  }

  /** `np.frombuffer(b, dtype='<i2')` */
  function DecodeSamples(b: seq<Byte>): (xs: seq<Sample>)
    requires |b| % 2 == 0
    ensures |xs| == |b| / 2
    decreases |b|
  {
    if |b| == 0 then [] else [SampleOfBits(DecodeLE16(b[..2]))] + DecodeSamples(b[2..])
  }

  /** The sample bytes of a WAV file decode back to the samples. */
  lemma {:induction false} DecodeSampleBytes(xs: seq<Sample>)
    ensures DecodeSamples(SampleBytes(xs)) == xs
    decreases |xs|
  {
    if |xs| > 0 {
      var b := SampleBytes(xs);
      assert b[..2] == LE16(SampleBits(xs[0]));
      assert b[2..] == SampleBytes(xs[1..]);
      DecodeLE16Encode(SampleBits(xs[0]));
      DecodeSampleBytes(xs[1..]);
    }
  }

  // ---------------------------------------------------------------------
  // WAV serialisation

  datatype WavError =
    | NotOneDimensional(ndim: nat)      // ValueError "pcm_data must be 1D array"
    | NotInt16(dtype: DType)            // ValueError "pcm_data must be int16"
    | NonPositiveRate(rate: int)        // ValueError "sample_rate must be positive"
    | FieldOutOfRange                   // struct.error from struct.pack('<I', ...)

  /** The RIFF chunk descriptor: "RIFF", the size of the rest of the file, "WAVE". */
  function RiffDescriptor(dataSize: nat): (b: seq<Byte>)
    requires 36 + dataSize < U32_LIMIT
    ensures |b| == 12
  {
    Ascii("RIFF") + LE32(36 + dataSize) + Ascii("WAVE")
  }

  /** The `fmt ` sub-chunk for mono 16-bit PCM at `rate` Hz. */
  function FmtChunk(rate: nat): (b: seq<Byte>)
    requires 2 * rate < U32_LIMIT
    ensures |b| == 24
  {
    Ascii("fmt ") + LE32(16) + LE16(1) + LE16(1) + LE32(rate) + LE32(2 * rate) + LE16(2) + LE16(16)
  }

  /** The header of the `data` sub-chunk. */
  function DataChunkHeader(dataSize: nat): (b: seq<Byte>)
    requires dataSize < U32_LIMIT
    ensures |b| == 8
  {
    Ascii("data") + LE32(dataSize)
  }

  /** The 44-byte header for `dataSize` bytes of samples at `rate` Hz. */
  function WavHeader(rate: nat, dataSize: nat): (h: seq<Byte>)
    requires 2 * rate < U32_LIMIT && 36 + dataSize < U32_LIMIT
    ensures |h| == 44
  {
    RiffDescriptor(dataSize) + FmtChunk(rate) + DataChunkHeader(dataSize)
  }

  /** `pcm16_to_wav_bytes(pcm, rate)`: the array checks in source order, then
      the header followed by the sample bytes; a rate or length too large for
      an unsigned 32-bit field makes `struct.pack` fail. */
  function Pcm16ToWavBytes(pcm: PcmArray, rate: int): (r: Result<seq<Byte>, WavError>)
    ensures pcm.ndim != 1 ==> r == Err(NotOneDimensional(pcm.ndim))
    ensures pcm.ndim == 1 && pcm.dtype != Int16 ==> r == Err(NotInt16(pcm.dtype))
    ensures pcm.ndim == 1 && pcm.dtype == Int16 && rate <= 0 ==> r == Err(NonPositiveRate(rate))
    ensures r.Ok? <==> pcm.ndim == 1 && pcm.dtype == Int16 && 0 < rate
                       && 2 * rate < U32_LIMIT && 36 + 2 * |pcm.samples| < U32_LIMIT
    ensures r.Ok? ==> |r.value| == 44 + 2 * |pcm.samples|
  {
    if pcm.ndim != 1 then Err(NotOneDimensional(pcm.ndim))
    else if pcm.dtype != Int16 then Err(NotInt16(pcm.dtype))
    else if rate <= 0 then Err(NonPositiveRate(rate))
    else if 2 * rate >= U32_LIMIT || 36 + 2 * |pcm.samples| >= U32_LIMIT then Err(FieldOutOfRange)
    else Ok(WavHeader(rate, 2 * |pcm.samples|) + SampleBytes(pcm.samples))
  }

  /** A produced WAV file is the RIFF descriptor, the `fmt ` chunk and the
      `data` chunk header for its rate and data size 2·n, then the sample
      bytes. */
  lemma WavLayout(xs: seq<Sample>, rate: int)
    requires Pcm16ToWavBytes(Mono(xs), rate).Ok?
    ensures 0 < rate && 2 * rate < U32_LIMIT && 36 + 2 * |xs| < U32_LIMIT
    ensures var w := Pcm16ToWavBytes(Mono(xs), rate).value;
      && |w| == 44 + 2 * |xs|
      && w[0..12] == RiffDescriptor(2 * |xs|)
      && w[12..36] == FmtChunk(rate)
      && w[36..44] == DataChunkHeader(2 * |xs|)
      && w[44..] == SampleBytes(xs)
  {
    var riff, fmt, data := RiffDescriptor(2 * |xs|), FmtChunk(rate), DataChunkHeader(2 * |xs|);
    WavIsHeaderThenSamples(xs, rate);
    ConcatSlices(riff, fmt, data, SampleBytes(xs));
  }

  lemma WavIsHeaderThenSamples(xs: seq<Sample>, rate: int)
    requires Pcm16ToWavBytes(Mono(xs), rate).Ok?
    ensures 0 < rate && 2 * rate < U32_LIMIT && 36 + 2 * |xs| < U32_LIMIT
    ensures Pcm16ToWavBytes(Mono(xs), rate).value
      == RiffDescriptor(2 * |xs|) + FmtChunk(rate) + DataChunkHeader(2 * |xs|) + SampleBytes(xs)
  {
  }

  lemma ConcatSlices<T>(a: seq<T>, b: seq<T>, c: seq<T>, d: seq<T>)
    ensures var w := a + b + c + d;
      && w[..|a|] == a && w[|a|..|a| + |b|] == b
      && w[|a| + |b|..|a| + |b| + |c|] == c && w[|a| + |b| + |c|..] == d
  {
  }

  /** Reads a RIFF descriptor: its size field, when the magic words are right. */
  function ParseRiff(b: seq<Byte>): Option<nat>
    requires |b| == 12
  {
    if b[0..4] == Ascii("RIFF") && b[8..12] == Ascii("WAVE") then Some(DecodeLE32(b[4..8])) else None
  }

  /** Reads a `fmt ` chunk: the sample rate, when the chunk describes mono
      16-bit PCM with a consistent byte rate and block align. */
  function ParseFmt(b: seq<Byte>): Option<nat>
    requires |b| == 24
  {
    if b[0..4] == Ascii("fmt ") && DecodeLE32(b[4..8]) == 16 && DecodeLE16(b[8..10]) == 1
       && DecodeLE16(b[10..12]) == 1 && DecodeLE32(b[16..20]) == 2 * DecodeLE32(b[12..16])
       && DecodeLE16(b[20..22]) == 2 && DecodeLE16(b[22..24]) == 16
    then Some(DecodeLE32(b[12..16]))
    else None
  }

  /** Reads the header of a `data` chunk: its size field. */
  function ParseDataHeader(b: seq<Byte>): Option<nat>
    requires |b| == 8
  {
    if b[0..4] == Ascii("data") then Some(DecodeLE32(b[4..8])) else None
  }

  lemma ParseRiffRoundTrip(dataSize: nat)
    requires 36 + dataSize < U32_LIMIT
    ensures ParseRiff(RiffDescriptor(dataSize)) == Some(36 + dataSize)
  {
    DecodeLE32Encode(36 + dataSize);
  }

  lemma ParseFmtRoundTrip(rate: nat)
    requires 2 * rate < U32_LIMIT
    ensures ParseFmt(FmtChunk(rate)) == Some(rate)
  {
    var b := FmtChunk(rate);
    DecodeLE32Encode(16);
    DecodeLE16Encode(1);
    DecodeLE32Encode(rate);
    DecodeLE32Encode(2 * rate);
    DecodeLE16Encode(2);
    DecodeLE16Encode(16);
  }

  lemma ParseDataHeaderRoundTrip(dataSize: nat)
    requires dataSize < U32_LIMIT
    ensures ParseDataHeader(DataChunkHeader(dataSize)) == Some(dataSize)
  {
    DecodeLE32Encode(dataSize);
  }

  /** The reader of a mono 16-bit PCM WAV file: checks every header field,
      the two size fields against the file's own length, and returns the
      rate and the samples. */
  function ParseWav(w: seq<Byte>): (r: Option<(nat, seq<Sample>)>)
    ensures r.Some? ==> |w| >= 44 && |r.value.1| == (|w| - 44) / 2
  {
    if |w| < 44 || (|w| - 44) % 2 != 0 then None
    else
      match (ParseRiff(w[0..12]), ParseFmt(w[12..36]), ParseDataHeader(w[36..44]))
      case (Some(riffSize), Some(rate), Some(dataSize)) =>
        if riffSize == |w| - 8 && dataSize == |w| - 44 then Some((rate, DecodeSamples(w[44..]))) else None
      case _ => None
  }

  /** Round trip: reading a produced WAV file gives back its rate and its
      samples, so the size fields at offsets 4 and 40 hold 36 + 2·n and 2·n
      and the rate field at offset 24 holds the rate. */
  lemma WavRoundTrip(xs: seq<Sample>, rate: int)
    requires Pcm16ToWavBytes(Mono(xs), rate).Ok?
    ensures ParseWav(Pcm16ToWavBytes(Mono(xs), rate).value) == Some((rate as nat, xs))
  {
    var w := Pcm16ToWavBytes(Mono(xs), rate).value;
    WavLayout(xs, rate);
    ParseRiffRoundTrip(2 * |xs|);
    ParseFmtRoundTrip(rate);
    ParseDataHeaderRoundTrip(2 * |xs|);
    DecodeSampleBytes(xs);
    assert ParseRiff(w[0..12]) == Some(|w| - 8);
    assert ParseFmt(w[12..36]) == Some(rate as nat);
    assert ParseDataHeader(w[36..44]) == Some(|w| - 44);
    assert DecodeSamples(w[44..]) == xs;
  }

  /** The three-sample example of the docstring gives a 50-byte file. */
  lemma WavExampleSize()
    ensures var r := Pcm16ToWavBytes(Mono([100, -200, 300]), 48000); r.Ok? && |r.value| == 50
  {
  }
}
