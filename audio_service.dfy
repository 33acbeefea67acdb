/**
  Voice-activity detection and chunking of src/services/audio_service.py: the
  RMS gate, the combined RMS-and-density gate, the WAV wrapper, and the
  `AudioChunker` object that accumulates samples and hands out fixed-size
  chunks.
 */
module AudioService {
  import opened Wrappers
  import opened PyText
  import opened AudioUtils

  // ---------------------------------------------------------------------
  // Voice-activity gates

  /** `has_voice_activity(xs, threshold)`: the RMS reaches the threshold,
      inclusively. */
  predicate HasVoiceActivity(xs: seq<Sample>, threshold: int) {
    RmsAtLeast(xs, threshold)
  }

  function Abs(x: int): nat { if x < 0 then -x else x }

  /** The number of samples whose magnitude reaches `gate`; magnitudes are
      taken in 32 bits, so -32768 has magnitude 32768. */
  function CountLoud(xs: seq<Sample>, gate: int): (c: nat)
    ensures c <= |xs|
    decreases |xs|
  {
    if |xs| == 0 then 0
    else CountLoud(xs[..|xs| - 1], gate) + (if Abs(xs[|xs| - 1]) >= gate then 1 else 0)
  }

  /** `is_voiced_chunk(xs, rmsThreshold, minDensity, gate)`: an empty chunk is
      never voiced; otherwise the RMS must reach the threshold and the mean of
      `|x| >= gate` over the samples must reach `minDensity`. */
  predicate IsVoicedChunk(xs: seq<Sample>, rmsThreshold: int, minDensity: real, gate: int) {
    |xs| > 0
    && RmsAtLeast(xs, rmsThreshold)
    && CountLoud(xs, gate) as real / |xs| as real >= minDensity
  }

  /** An empty chunk is never voiced. */
  lemma EmptyNotVoiced(rmsThreshold: int, minDensity: real, gate: int)
    ensures !IsVoicedChunk([], rmsThreshold, minDensity, gate)
  {
  }

  /** A voiced chunk passes the plain RMS gate with the same threshold. */
  lemma VoicedHasVoiceActivity(xs: seq<Sample>, rmsThreshold: int, minDensity: real, gate: int)
    requires IsVoicedChunk(xs, rmsThreshold, minDensity, gate)
    ensures HasVoiceActivity(xs, rmsThreshold)
  {
  }

  /** The gate in integers: a chunk is voiced iff it is non-empty, Σx² ≥ t²·n
      (for a positive threshold), and the loud samples number at least
      minDensity·n. */
  lemma {:induction false} VoicedBySquares(xs: seq<Sample>, rmsThreshold: int, minDensity: real, gate: int)
    requires rmsThreshold > 0
    ensures IsVoicedChunk(xs, rmsThreshold, minDensity, gate) <==>
      |xs| > 0 && SumSq(xs) >= rmsThreshold * rmsThreshold * |xs|
      && CountLoud(xs, gate) as real >= minDensity * |xs| as real
  {
    RmsAtLeastBySquares(xs, rmsThreshold);
    if |xs| > 0 {
      DivAtLeast(CountLoud(xs, gate) as real, |xs| as real, minDensity);
    }
  }

  /** Raising the amplitude gate never adds loud samples. */
  lemma {:induction false} CountLoudAntitone(xs: seq<Sample>, g1: int, g2: int)
    requires g1 <= g2
    ensures CountLoud(xs, g2) <= CountLoud(xs, g1)
    decreases |xs|
  {
    if |xs| > 0 {
      CountLoudAntitone(xs[..|xs| - 1], g1, g2);
    }
  }

  /** `create_wav_chunk(pcm, rate)`: the WAV serialisation of the chunk; a
      produced file reads back as the rate and the chunk's samples. */
  function CreateWavChunk(pcm: PcmArray, rate: int): (r: Result<seq<Byte>, WavError>)
    ensures r.Ok? ==> pcm == Mono(pcm.samples) && 0 < rate
                      && ParseWav(r.value) == Some((rate as nat, pcm.samples))
    ensures r.Err? <==> Pcm16ToWavBytes(pcm, rate).Err?
  {
    var r := Pcm16ToWavBytes(pcm, rate);
    if r.Ok? then
      WavRoundTrip(pcm.samples, rate);
      r
    else r
  }

  // ---------------------------------------------------------------------
  // AudioChunker

  /** What one `push` does to a buffer: append the input, then, when the
      buffer has reached `chunkSamples`, cut `buffer[:chunkSamples]` off the
      front (Python slicing, so a negative size counts from the end). */
  function PushStep(buffer: seq<Sample>, chunkSamples: int, pcm: seq<Sample>): (Option<seq<Sample>>, seq<Sample>)
  {
    var joined := buffer + pcm;
    if |joined| >= chunkSamples then (Some(PyTake(joined, chunkSamples)), PyDrop(joined, chunkSamples))
    else (None, joined)
  }

  /** Conservation: the emitted chunk (if any) followed by the new buffer is
      the old buffer followed by the input. */
  lemma PushStepConserves(buffer: seq<Sample>, chunkSamples: int, pcm: seq<Sample>)
    ensures var (chunk, rest) := PushStep(buffer, chunkSamples, pcm);
      (if chunk.Some? then chunk.value else []) + rest == buffer + pcm
  {
    TakeDrop(buffer + pcm, chunkSamples);
  }

  /** For a non-negative chunk size, a chunk of exactly that size comes out
      iff buffer and input together reach it; otherwise the buffer just grows
      by the input. At most one chunk comes out, so the remainder may still
      reach the chunk size. */
  lemma PushStepSizes(buffer: seq<Sample>, chunkSamples: nat, pcm: seq<Sample>)
    ensures var (chunk, rest) := PushStep(buffer, chunkSamples, pcm);
      && (chunk.Some? <==> |buffer| + |pcm| >= chunkSamples)
      && (chunk.Some? ==> |chunk.value| == chunkSamples && |rest| == |buffer| + |pcm| - chunkSamples)
      && (chunk.None? ==> rest == buffer + pcm)
  {
  }

  /** A 1-sample chunk size with a 3-sample input leaves 2 samples behind:
      one push emits one chunk only. */
  lemma OneChunkPerPush()
    ensures PushStep([], 1, [7, 8, 9]) == (Some([7]), [8, 9])
  {
    var empty: seq<Sample> := [];
    var xs: seq<Sample> := [7, 8, 9];
    assert empty + xs == xs;
    assert PyTake(xs, 1) == [7] && PyDrop(xs, 1) == [8, 9];
  }

  datatype ConfigError =
    | ChunkSecsOutOfRange(chunkSecs: real)   // "chunk_secs must be between 1.0 and 5.0"
    | VadRmsOutOfRange(vadRms: int)          // "vad_rms must be between 50 and 1000"

  predicate ValidChunkSecs(secs: real) { 1.0 <= secs <= 5.0 }

  predicate ValidVadRms(rms: int) { 50 <= rms <= 1000 }

  /** `int(sample_rate * chunk_secs)` */
  function ChunkSamplesFor(sampleRate: int, chunkSecs: real): int {
    TruncToInt(sampleRate as real * chunkSecs)
  }

  class AudioChunker {
    const sampleRate: int
    var chunkSecs: real
    var vadRms: int
    var chunkSamples: int
    var buffer: seq<Sample>

    /** Everything pushed since the last reset, and every chunk emitted since. */
    ghost var pushed: seq<Sample>
    ghost var emitted: seq<Sample>

    /** Conservation: the emitted chunks followed by the buffer are exactly the
        samples pushed since the last reset. */
    ghost predicate Valid()
      reads this
    {
      emitted + buffer == pushed
    }

    /** `AudioChunker(sample_rate, chunk_secs, vad_rms)`: no range checks. */
    constructor (sampleRate: int, chunkSecs: real, vadRms: int)
      ensures Valid()
      ensures this.sampleRate == sampleRate && this.chunkSecs == chunkSecs && this.vadRms == vadRms
      ensures chunkSamples == ChunkSamplesFor(sampleRate, chunkSecs)
      ensures buffer == [] && pushed == [] && emitted == []
    {
      this.sampleRate := sampleRate;
      this.chunkSecs := chunkSecs;
      this.vadRms := vadRms;
      chunkSamples := ChunkSamplesFor(sampleRate, chunkSecs);
      buffer := [];
      pushed := [];
      emitted := [];
    }

    /** `push(pcm)`: append, and hand out at most one chunk. */
    method Push(pcm: seq<Sample>) returns (chunk: Option<seq<Sample>>)
      requires Valid()
      modifies this
      ensures Valid()
      ensures (chunk, buffer) == PushStep(old(buffer), chunkSamples, pcm)
      ensures pushed == old(pushed) + pcm
      ensures emitted == old(emitted) + (if chunk.Some? then chunk.value else [])
      ensures chunkSamples == old(chunkSamples) && chunkSecs == old(chunkSecs) && vadRms == old(vadRms)
    {
      PushStepConserves(buffer, chunkSamples, pcm);
      var joined := buffer + pcm;
      pushed := pushed + pcm;
      if |joined| >= chunkSamples {
        chunk := Some(PyTake(joined, chunkSamples));
        buffer := PyDrop(joined, chunkSamples);
        emitted := emitted + chunk.value;
      } else {
        chunk := None;
        buffer := joined;
      }
    }

    /** `reset()`: drop the buffered samples. */
    method Reset()
      modifies this
      ensures Valid()
      ensures buffer == [] && pushed == [] && emitted == []
      ensures chunkSamples == old(chunkSamples) && chunkSecs == old(chunkSecs) && vadRms == old(vadRms)
    {
      buffer := [];
      pushed := [];
      emitted := [];
    }

    /** `get_buffer_duration()`: buffered samples over the rate; a zero rate
        raises ZeroDivisionError. */
    method GetBufferDuration() returns (r: Option<real>)
      ensures r.None? <==> sampleRate == 0
      ensures r.Some? ==> r.value * sampleRate as real == |buffer| as real
      ensures r.Some? && sampleRate > 0 ==> r.value >= 0.0
    {
      if sampleRate == 0 {
        r := None;
      } else {
        r := Some(|buffer| as real / sampleRate as real);
      }
    }

    /** `update_config(chunk_secs, vad_rms)`: a bad chunk length fails before
        any change; a good one is applied and empties the buffer; then a bad
        VAD threshold fails with the chunk change already applied, and a good
        one is applied without touching the buffer. */
    method UpdateConfig(newChunkSecs: Option<real>, newVadRms: Option<int>) returns (r: Result<(), ConfigError>)
      requires Valid()
      modifies this
      ensures Valid()
      ensures newChunkSecs.Some? && !ValidChunkSecs(newChunkSecs.value) ==>
        r == Err(ChunkSecsOutOfRange(newChunkSecs.value))
        && chunkSecs == old(chunkSecs) && chunkSamples == old(chunkSamples)
        && buffer == old(buffer) && vadRms == old(vadRms)
      ensures newChunkSecs.Some? && ValidChunkSecs(newChunkSecs.value) ==>
        chunkSecs == newChunkSecs.value && chunkSamples == ChunkSamplesFor(sampleRate, newChunkSecs.value)
        && buffer == []
      ensures newChunkSecs.None? ==>
        chunkSecs == old(chunkSecs) && chunkSamples == old(chunkSamples) && buffer == old(buffer)
      ensures (newChunkSecs.None? || ValidChunkSecs(newChunkSecs.value)) ==>
        (newVadRms.Some? && !ValidVadRms(newVadRms.value) ==> r == Err(VadRmsOutOfRange(newVadRms.value)) && vadRms == old(vadRms))
        && (newVadRms.Some? && ValidVadRms(newVadRms.value) ==> r == Ok(()) && vadRms == newVadRms.value)
        && (newVadRms.None? ==> r == Ok(()) && vadRms == old(vadRms))
    {
      if newChunkSecs.Some? {
        if !ValidChunkSecs(newChunkSecs.value) {
          return Err(ChunkSecsOutOfRange(newChunkSecs.value));
        }
        chunkSecs := newChunkSecs.value;
        chunkSamples := ChunkSamplesFor(sampleRate, newChunkSecs.value);
        Reset();
      }
      if newVadRms.Some? {
        if !ValidVadRms(newVadRms.value) {
          return Err(VadRmsOutOfRange(newVadRms.value));
        }
        vadRms := newVadRms.value;
      }
      r := Ok(());
    }
  }

  /** With the default 48 kHz rate, a valid chunk length gives a positive chunk
      size of at most five seconds of samples. */
  lemma ValidChunkSecsGivesPositiveSize(secs: real)
    requires ValidChunkSecs(secs)
    ensures 48000 <= ChunkSamplesFor(48000, secs) <= 240000
  {
  }
}
