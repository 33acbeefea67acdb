/**
  The pure helpers of the live transcription widget
  (src/ui/transcription_widget.py) and of the older transcription page
  (src/ui/transcription_page.py): the usage-cost estimate, the timeline
  text made of the transcribed segments, the transcript file written next
  to the recording, and the WAV bytes sent to the speech-to-text API.
 */
module TranscriptionWidget {
  import opened Wrappers
  import opened PyText
  import opened AudioUtils
  import opened DateUtils
  import opened TranscriptionModels

  const SampleRate: nat := 48000
  const SampleWidth: nat := 2

  // ---------------------------------------------------------------------
  // Usage cost

  const Whisper: string := "whisper-1"
  const MiniTranscribe: string := "gpt-4o-mini-transcribe"

  /** One entry of `MODEL_COST_CONFIG`. */
  datatype ModelCost = ModelCost(displayName: string, inputCostPerMin: real,
                                 outputCostPerToken: real, outputTokensPerChar: real)

  const ModelCostConfig: map<string, ModelCost> := map[
    Whisper := ModelCost("Whisper-1", 0.006, 0.0, 0.25),
    MiniTranscribe := ModelCost("GPT-4o Mini-Transcribe", 0.003, 5.0 / 1000000.0, 0.25)
  ]

  /** `_get_model_config(model_name)`: a model without an entry is priced as
      whisper-1; no rate is negative. */
  function GetModelConfig(name: string): (c: ModelCost)
    ensures name in ModelCostConfig ==> c == ModelCostConfig[name]
    ensures name !in ModelCostConfig ==> c == ModelCostConfig[Whisper]
    ensures c.inputCostPerMin > 0.0 && c.outputCostPerToken >= 0.0 && c.outputTokensPerChar >= 0.0
  {
    if name in ModelCostConfig then ModelCostConfig[name] else ModelCostConfig[Whisper]
  }

  /** `_audio_minutes_from_bytes(byte_count)` for mono 16-bit audio at 48 kHz. */
  function AudioMinutes(byteCount: int): (m: real)
    ensures byteCount <= 0 ==> m == 0.0
    ensures m >= 0.0
  {
    if byteCount <= 0 then 0.0
    else byteCount as real / SampleWidth as real / SampleRate as real / 60.0
  }

  /** The bytes of `n` samples last `n / 48000` seconds. */
  lemma AudioMinutesOfSamples(n: nat)
    ensures AudioMinutes(SampleWidth * n) == n as real / 2880000.0
  {
    if n > 0 {
      assert (2 * n) as real / 2.0 == n as real;
    }
  }

  /** More bytes never make fewer minutes. */
  lemma AudioMinutesMonotone(a: int, b: int)
    requires a <= b
    ensures AudioMinutes(a) <= AudioMinutes(b)
  {
  }

  /** The dictionary `_estimate_transcription_cost` returns. */
  datatype CostInfo = CostInfo(total: real, inputCost: real, outputCost: real,
                               audioMinutes: real, charCount: nat, outputTokens: real)

  /** `_estimate_transcription_cost(model, audio_minutes=..., transcript_text=...)`:
      the audio is priced per minute and the text per token, at a fixed
      number of tokens per character. */
  function EstimateCost(model: string, minutes: real, text: string): (r: CostInfo)
    ensures r.total == r.inputCost + r.outputCost
    ensures r.charCount == |text| && r.audioMinutes == minutes
    ensures minutes >= 0.0 ==> r.inputCost >= 0.0 && r.total >= 0.0
    ensures r.outputCost >= 0.0 && r.outputTokens >= 0.0
  {
    var c := GetModelConfig(model);
    var input := minutes * c.inputCostPerMin;
    var tokens := |text| as real * c.outputTokensPerChar;
    var output := tokens * c.outputCostPerToken;
    CostInfo(input + output, input, output, minutes, |text|, tokens)
  }

  lemma MulMonotone(a: real, b: real, c: real)
    requires a <= b && c >= 0.0
    ensures a * c <= b * c
  {
  }

  /** The estimate grows with the audio and with the text. */
  lemma CostMonotone(model: string, m1: real, m2: real, t1: string, t2: string)
    requires 0.0 <= m1 <= m2 && |t1| <= |t2|
    ensures EstimateCost(model, m1, t1).total <= EstimateCost(model, m2, t2).total
  {
    var c := GetModelConfig(model);
    MulMonotone(m1, m2, c.inputCostPerMin);
    MulMonotone(|t1| as real, |t2| as real, c.outputTokensPerChar);
    MulMonotone(|t1| as real * c.outputTokensPerChar, |t2| as real * c.outputTokensPerChar, c.outputCostPerToken);
  }

  /** A model without a price entry costs what whisper-1 costs. */
  lemma UnknownModelPricedAsWhisper(model: string, minutes: real, text: string)
    requires model !in ModelCostConfig
    ensures EstimateCost(model, minutes, text) == EstimateCost(Whisper, minutes, text)
  {
  }

  /** With whisper-1 only the audio costs money: 0.006 per minute. */
  lemma WhisperTextIsFree(minutes: real, text: string)
    ensures EstimateCost(Whisper, minutes, text).total == minutes * 0.006
    ensures EstimateCost(Whisper, minutes, text).outputTokens == |text| as real * 0.25
  {
  }

  // ---------------------------------------------------------------------
  // The timeline text

  /** `{"time": ..., "text": ...}` with the time still a clock reading; the
      dictionaries hold it formatted by `FormatStamp`. */
  datatype Segment = Segment(at: DateTime, text: string)

  predicate Stamped(segs: seq<Segment>) {
    forall i :: 0 <= i < |segs| ==> ValidDateTime(segs[i].at)
  }

  /** One line of the timeline: the time, two spaces, the text. */
  function SegmentLine(s: Segment): (r: string)
    requires ValidDateTime(s.at)
    ensures |r| == 21 + |s.text|
  {
    FormatStamp(s.at) + "  " + s.text
  }

  function SegmentLines(segs: seq<Segment>): (r: seq<string>)
    requires Stamped(segs)
    ensures |r| == |segs|
    ensures forall i :: 0 <= i < |segs| ==> r[i] == SegmentLine(segs[i])
  {
    seq(|segs|, i requires 0 <= i < |segs| => SegmentLine(segs[i]))
  }

  /** `_format_transcript_segments(segments)`: one line per segment, joined
      with line breaks; nothing at all for no segments. */
  function FormatSegments(segs: seq<Segment>): (r: string)
    requires Stamped(segs)
    ensures r == "" <==> segs == []
  {
    var lines := SegmentLines(segs);
    assert |lines| > 0 ==> |Join("\n", lines)| >= |lines[0]|;
    Join("\n", lines)
  }

  /** A timeline line read back: its first 19 characters are the time, the
      rest after the two spaces is the text. */
  function ParseTimelineLine(line: string): (string, string) {
    if |line| >= 21 then (line[..19], line[21..]) else (line, "")
  }

  /** The timeline read back line by line. */
  function ParseTimeline(text: string): (r: seq<(string, string)>)
  {
    var lines := Split(text, '\n');
    seq(|lines|, i requires 0 <= i < |lines| => ParseTimelineLine(lines[i]))
  }

  /** Segments whose texts are single lines come back from the timeline as
      their formatted times and their texts, in order. */
  lemma TimelineRoundTrip(segs: seq<Segment>)
    requires Stamped(segs) && |segs| > 0
    requires forall i :: 0 <= i < |segs| ==> '\n' !in segs[i].text
    ensures ParseTimeline(FormatSegments(segs)) ==
      seq(|segs|, i requires 0 <= i < |segs| => (FormatStamp(segs[i].at), segs[i].text))
  {
    var lines := SegmentLines(segs);
    forall k | 0 <= k < |lines| ensures '\n' !in lines[k] {
      FormatStampOneLine(segs[k].at);
      var st := FormatStamp(segs[k].at);
      assert lines[k] == st + "  " + segs[k].text;
      forall j | 0 <= j < |lines[k]| ensures lines[k][j] != '\n' {
        if j < 19 { assert lines[k][j] == st[j]; }
        else if j >= 21 { assert lines[k][j] == segs[k].text[j - 21]; }
      }
    }
    SplitJoin(lines, '\n');
    assert Join(['\n'], lines) == FormatSegments(segs);
    forall k | 0 <= k < |segs|
      ensures ParseTimelineLine(lines[k]) == (FormatStamp(segs[k].at), segs[k].text)
    {
      var st := FormatStamp(segs[k].at);
      assert lines[k] == st + "  " + segs[k].text;
      assert lines[k][..19] == st;
      assert lines[k][21..] == segs[k].text;
    }
  }

  /** A new segment adds one line at the end of the timeline. */
  lemma FormatSegmentsAppend(segs: seq<Segment>, s: Segment)
    requires Stamped(segs) && ValidDateTime(s.at)
    ensures Stamped(segs + [s])
    ensures FormatSegments(segs + [s]) ==
      if segs == [] then SegmentLine(s) else FormatSegments(segs) + "\n" + SegmentLine(s)
  {
    assert Stamped(segs + [s]) by {
      forall i | 0 <= i < |segs + [s]| ensures ValidDateTime((segs + [s])[i].at) {
        if i < |segs| { assert (segs + [s])[i] == segs[i]; }
      }
    }
    assert SegmentLines(segs + [s]) == SegmentLines(segs) + [SegmentLine(s)];
    JoinSnoc("\n", SegmentLines(segs), SegmentLine(s));
  }

  // ---------------------------------------------------------------------
  // The transcript file

  /** A file as `pathlib.Path`: its directory and its name. */
  datatype FilePath = FilePath(parent: string, name: string)

  /** `str(path)` */
  function PathText(p: FilePath): string {
    p.parent + "/" + p.name
  }

  /** `Path.stem`: the name without its last suffix; a leading dot or a
      trailing dot does not start a suffix. */
  function Stem(name: string): (r: string)
    ensures |r| <= |name| && r == name[..|r|]
  {
    var i := RFind(name, '.');
    if 0 < i < |name| - 1 then name[..i] else name
  }

  /** `recording-%Y%m%d-%H%M%S.wav`, the name of the recording started at `t`. */
  function RecordingName(t: DateTime): (r: string)
    requires ValidDateTime(t)
    ensures |r| == 29
  {
    "recording-" + CompactStamp(t) + ".wav"
  }

  /** The stem of a recording's name drops exactly the ".wav". */
  lemma RecordingStem(t: DateTime)
    requires ValidDateTime(t)
    ensures Stem(RecordingName(t)) == "recording-" + CompactStamp(t)
  {
    var stem := "recording-" + CompactStamp(t);
    var p, av, a, d := stem + ".wav", stem + ".wa", stem + ".w", stem + ".";
    var n := |stem|;
    assert p[..n + 3] == av && av[..n + 2] == a && a[..n + 1] == d;
    assert RFind(p, '.') == RFind(av, '.') == RFind(a, '.') == RFind(d, '.') == n;
    assert p[..n] == stem;
  }

  /** `_save_transcript`: the transcript goes next to the recording, named
      after the recording's stem. */
  function TranscriptPath(wav: FilePath): (r: FilePath)
    ensures r.parent == wav.parent && EndsWith(r.name, "-transcript.txt")
  {
    var name := Stem(wav.name) + "-transcript.txt";
    assert name[|name| - 15..] == "-transcript.txt";
    FilePath(wav.parent, name)
  }

  /** The transcript of the recording started at `t` is
      `recording-%Y%m%d-%H%M%S-transcript.txt` beside it. */
  lemma RecordingTranscriptPath(dir: string, t: DateTime)
    requires ValidDateTime(t)
    ensures TranscriptPath(FilePath(dir, RecordingName(t))) ==
      FilePath(dir, "recording-" + CompactStamp(t) + "-transcript.txt")
  {
    RecordingStem(t);
  }

  function Repeat(c: char, n: nat): (r: string)
    ensures |r| == n && forall i :: 0 <= i < n ==> r[i] == c
  {
    seq(n, _ => c)
  }

  /** The header `_save_transcript` writes: it always names whisper-1 and
      48000 Hz, whatever model was used. */
  function TranscriptFileHeader(stamp: string, wavName: string): string {
    "語音轉錄結果\n時間：" + stamp + "\n音訊檔案：" + wavName
    + "\n採樣率：48000 Hz\n模型：OpenAI Whisper (whisper-1)\n格式：yyyy-mm-dd hh:mi:ss + 逐字稿內容\n\n"
    + Repeat('=', 60) + "\n\n"
  }

  /** The whole file: the header, then the transcript as it is. */
  function TranscriptFileText(stamp: string, wavName: string, transcript: string): (r: string)
    ensures |r| == |TranscriptFileHeader(stamp, wavName)| + |transcript|
    ensures r[|TranscriptFileHeader(stamp, wavName)|..] == transcript
    ensures StartsWith(r, "語音轉錄結果\n時間：" + stamp + "\n")
  {
    var h := TranscriptFileHeader(stamp, wavName);
    var lead := "語音轉錄結果\n時間：" + stamp + "\n";
    assert h[..|lead|] == lead;
    assert (h + transcript)[..|lead|] == h[..|lead|];
    h + transcript
  }

  /** `_pcm_to_wav_bytes(chunk, SAMPLE_RATE)`: the `wave` module writes the
      same 44-byte header as `pcm16_to_wav_bytes` for mono 16-bit audio. */
  function ChunkWav(xs: seq<Sample>): Result<seq<Byte>, WavError> {
    Pcm16ToWavBytes(Mono(xs), SampleRate)
  }

  /** A chunk the header can describe becomes a WAV that reads back as the
      chunk at 48000 Hz. */
  lemma ChunkWavRoundTrip(xs: seq<Sample>)
    requires 36 + 2 * |xs| < U32_LIMIT
    ensures ChunkWav(xs).Ok?
    ensures ParseWav(ChunkWav(xs).value) == Some((48000, xs))
  {
    WavRoundTrip(xs, SampleRate);
  }
}
