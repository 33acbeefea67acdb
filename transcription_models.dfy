/**
  The data models of the live transcription feature (src/models/transcription.py):
  a recording session that collects transcript segments, the audio chunks
  cut from the microphone stream, the segments themselves, and the
  configuration that decides where the transcript file goes.  The
  constructors' checks are validation functions returning the first
  failure; the wall clock (`datetime.now()`), the fresh identifiers
  (`uuid4`) and the existing files are parameters.
 */
module TranscriptionModels {
  import opened Wrappers
  import opened PyText
  import opened AudioUtils
  import opened DateUtils
  import opened TranscriptionService

  // ---------------------------------------------------------------------
  // TranscriptSegment

  datatype TranscriptSegment = TranscriptSegment(
    segmentId: string, sessionId: string, text: string, timestamp: DateTime,
    chunkDuration: real, errorMessage: Option<string>)

  datatype SegmentError = SegmentInFuture | NonPositiveSegmentDuration(duration: real)

  /** `TranscriptSegment.__post_init__`: a timestamp after `now` is refused
      first, then a duration that is not positive. */
  function ValidateSegment(seg: TranscriptSegment, now: DateTime): (r: Result<(), SegmentError>)
    ensures r.Ok? <==> !Before(now, seg.timestamp) && seg.chunkDuration > 0.0
    ensures Before(now, seg.timestamp) ==> r == Err(SegmentInFuture)
  {
    if Before(now, seg.timestamp) then Err(SegmentInFuture)
    else if seg.chunkDuration <= 0.0 then Err(NonPositiveSegmentDuration(seg.chunkDuration))
    else Ok(())
  }

  /** `create_transcript_segment(...)`: stamped with the current time, so
      only the duration can be refused. */
  function CreateTranscriptSegment(segmentId: string, sessionId: string, text: string,
                                   chunkDuration: real, errorMessage: Option<string>, now: DateTime)
    : (r: Result<TranscriptSegment, SegmentError>)
    ensures r.Ok? <==> chunkDuration > 0.0
    ensures r.Ok? ==> r.value.timestamp == now && r.value.text == text && r.value.errorMessage == errorMessage
  {
    var seg := TranscriptSegment(segmentId, sessionId, text, now, chunkDuration, errorMessage);
    BeforeStrictTotal(now, now, now);
    var v := ValidateSegment(seg, now);
    if v.Err? then Err(v.error) else Ok(seg)
  }

  predicate IsError(seg: TranscriptSegment) { seg.errorMessage.Some? }

  const ErrorPrefix: string := "[ERROR] "

  /** `formatted_text()`: errors are shown with their message behind a marker. */
  function FormattedText(seg: TranscriptSegment): string {
    if IsError(seg) then ErrorPrefix + seg.errorMessage.value else seg.text
  }

  /** `to_file_line()`: the formatted text behind its bracketed timestamp. */
  function ToFileLine(seg: TranscriptSegment): (r: string)
    requires ValidDateTime(seg.timestamp)
    ensures |r| == 22 + |FormattedText(seg)|
  {
    "[" + FormatStamp(seg.timestamp) + "] " + FormattedText(seg)
  }

  /** A segment's file line is the line `append_to_transcript` writes for its
      formatted text, and it reads back as the time and that text; an error
      segment reads back with its marker. */
  lemma FileLineRoundTrip(seg: TranscriptSegment)
    requires ValidDateTime(seg.timestamp)
    ensures ToFileLine(seg) + "\n" == AppendedLine(FormattedText(seg), seg.timestamp)
    ensures ParseAppendedLine(ToFileLine(seg) + "\n") == Some((FormatStamp(seg.timestamp), FormattedText(seg)))
    ensures IsError(seg) ==> StartsWith(FormattedText(seg), ErrorPrefix)
  {
    AppendedLineRoundTrip(FormattedText(seg), seg.timestamp);
    if IsError(seg) {
      assert (ErrorPrefix + seg.errorMessage.value)[..|ErrorPrefix|] == ErrorPrefix;
    }
  }

  /** The texts of the segments that are not errors, in order. */
  function NonErrorTexts(segs: seq<TranscriptSegment>): (r: seq<string>)
    ensures |r| <= |segs|
    decreases |segs|
  {
    if |segs| == 0 then []
    else
      var init := NonErrorTexts(segs[..|segs| - 1]);
      var last := segs[|segs| - 1];
      if IsError(last) then init else init + [last.text]
  }

  /** `get_full_transcript()` on a list of segments. */
  function FullTranscript(segs: seq<TranscriptSegment>): string {
    Join("\n", NonErrorTexts(segs))
  }

  /** Adding a segment extends the full transcript by its text on a new line,
      unless it is an error, which leaves the transcript as it was. */
  lemma FullTranscriptAppend(segs: seq<TranscriptSegment>, seg: TranscriptSegment)
    ensures IsError(seg) ==> FullTranscript(segs + [seg]) == FullTranscript(segs)
    ensures !IsError(seg) ==>
      FullTranscript(segs + [seg]) ==
        (if NonErrorTexts(segs) == [] then seg.text else FullTranscript(segs) + "\n" + seg.text)
  {
    assert (segs + [seg])[..|segs|] == segs;
    JoinSnoc("\n", NonErrorTexts(segs), seg.text);
  }

  // ---------------------------------------------------------------------
  // TranscriptionSession

  const DefaultChunkDuration: real := 2.0
  const DefaultVadThreshold: int := 200

  datatype SessionError =
    | ChunkDurationOutOfRange(duration: real)
    | VadThresholdOutOfRange(threshold: int)
    | NotATextFile(path: string)
    | StartInFuture
    | EndBeforeStart
    | TooFewChunks(total: int, segments: nat)
    | NegativeDropped(dropped: int)

  /** `TranscriptionSession.__post_init__`, check by check in source order. */
  function ValidateSessionFields(chunkDuration: real, vadThreshold: int, filePath: string,
                                 startTime: DateTime, endTime: Option<DateTime>,
                                 segmentCount: nat, totalChunks: int, droppedChunks: int,
                                 now: DateTime): (r: Result<(), SessionError>)
    ensures r.Ok? <==>
      1.0 <= chunkDuration <= 5.0 && 50 <= vadThreshold <= 1000 && EndsWith(filePath, ".txt")
      && !Before(now, startTime) && (endTime.Some? ==> !Before(endTime.value, startTime))
      && totalChunks >= segmentCount && droppedChunks >= 0
    ensures !(1.0 <= chunkDuration <= 5.0) ==> r == Err(ChunkDurationOutOfRange(chunkDuration))
    ensures 1.0 <= chunkDuration <= 5.0 && !(50 <= vadThreshold <= 1000) ==>
      r == Err(VadThresholdOutOfRange(vadThreshold))
  {
    if !(1.0 <= chunkDuration <= 5.0) then Err(ChunkDurationOutOfRange(chunkDuration))
    else if !(50 <= vadThreshold <= 1000) then Err(VadThresholdOutOfRange(vadThreshold))
    else if !EndsWith(filePath, ".txt") then Err(NotATextFile(filePath))
    else if Before(now, startTime) then Err(StartInFuture)
    else if endTime.Some? && Before(endTime.value, startTime) then Err(EndBeforeStart)
    else if totalChunks < segmentCount then Err(TooFewChunks(totalChunks, segmentCount))
    else if droppedChunks < 0 then Err(NegativeDropped(droppedChunks))
    else Ok(())
  }

  /** With the defaults of `create_session` and a start at the current time,
      only the path can make the session fail. */
  lemma DefaultSessionAccepted(filePath: string, now: DateTime)
    ensures var v := ValidateSessionFields(DefaultChunkDuration, DefaultVadThreshold, filePath,
                                           now, None, 0, 0, 0, now);
      v.Ok? <==> EndsWith(filePath, ".txt")
  {
    BeforeStrictTotal(now, now, now);
  }

  /** One recording session; `add_segment` updates it in place. */
  class TranscriptionSession {
    const sessionId: string
    const startTime: DateTime
    const filePath: string
    const chunkDuration: real
    const vadThreshold: int
    var endTime: Option<DateTime>
    var segments: seq<TranscriptSegment>
    var totalChunks: int
    var droppedChunks: int

    /** What the constructor's checks establish and `add_segment` keeps
        (the start time is checked against the clock only once). */
    predicate Valid()
      reads this
    {
      1.0 <= chunkDuration <= 5.0 && 50 <= vadThreshold <= 1000 && EndsWith(filePath, ".txt")
      && (endTime.Some? ==> !Before(endTime.value, startTime))
      && totalChunks >= |segments| && droppedChunks >= 0
    }

    constructor (sessionId: string, startTime: DateTime, filePath: string, chunkDuration: real,
                 vadThreshold: int, endTime: Option<DateTime>, segments: seq<TranscriptSegment>,
                 totalChunks: int, droppedChunks: int, now: DateTime)
      requires ValidateSessionFields(chunkDuration, vadThreshold, filePath, startTime, endTime,
                                     |segments|, totalChunks, droppedChunks, now).Ok?
      ensures Valid()
      ensures this.sessionId == sessionId && this.startTime == startTime && this.filePath == filePath
      ensures this.chunkDuration == chunkDuration && this.vadThreshold == vadThreshold
      ensures this.endTime == endTime && this.segments == segments
      ensures this.totalChunks == totalChunks && this.droppedChunks == droppedChunks
    {
      this.sessionId := sessionId;
      this.startTime := startTime;
      this.filePath := filePath;
      this.chunkDuration := chunkDuration;
      this.vadThreshold := vadThreshold;
      this.endTime := endTime;
      this.segments := segments;
      this.totalChunks := totalChunks;
      this.droppedChunks := droppedChunks;
    }

    /** `is_active()` */
    predicate IsActive()
      reads this
    {
      endTime.None?
    }

    /** `add_segment(segment)`: one segment at the end and one more chunk
        counted, so the count stays at least the number of segments. */
    method AddSegment(seg: TranscriptSegment)
      requires Valid()
      modifies this
      ensures Valid()
      ensures segments == old(segments) + [seg]
      ensures totalChunks == old(totalChunks) + 1
      ensures endTime == old(endTime) && droppedChunks == old(droppedChunks)
    {
      segments := segments + [seg];
      totalChunks := totalChunks + 1;
    }

    /** `get_full_transcript()` */
    function GetFullTranscript(): string
      reads this
    {
      FullTranscript(segments)
    }
  }

  /** `create_session(file_path, chunk_duration, vad_threshold)` with the
      fresh identifier and the clock given: a new, active, empty session, or
      the first failed check. */
  method CreateSession(filePath: string, chunkDuration: real, vadThreshold: int,
                       sessionId: string, now: DateTime)
    returns (r: Result<TranscriptionSession, SessionError>)
    ensures var v := ValidateSessionFields(chunkDuration, vadThreshold, filePath, now, None, 0, 0, 0, now);
      (r.Ok? <==> v.Ok?) && (r.Err? ==> r.error == v.error)
    ensures r.Ok? ==> fresh(r.value) && r.value.Valid() && r.value.IsActive()
    ensures r.Ok? ==> r.value.segments == [] && r.value.totalChunks == 0 && r.value.droppedChunks == 0
    ensures r.Ok? ==> r.value.startTime == now && r.value.filePath == filePath && r.value.sessionId == sessionId
  {
    var v := ValidateSessionFields(chunkDuration, vadThreshold, filePath, now, None, 0, 0, 0, now);
    if v.Err? {
      return Err(v.error);
    }
    var s := new TranscriptionSession(sessionId, now, filePath, chunkDuration, vadThreshold,
                                      None, [], 0, 0, now);
    return Ok(s);
  }

  // ---------------------------------------------------------------------
  // AudioChunk

  const ChunkSampleRate: int := 48000

  datatype AudioChunk = AudioChunk(
    chunkId: string, sessionId: string, pcm: PcmArray, sampleRate: int,
    timestamp: DateTime, rmsValue: real, hasVoice: bool)

  datatype ChunkError =
    | ChunkNotOneDimensional(ndim: nat)
    | ChunkNotInt16(dtype: DType)
    | ChunkEmpty
    | WrongSampleRate(rate: int)
    | NegativeRms(rms: real)
    | ChunkInFuture

  /** `AudioChunk.__post_init__`, check by check in source order. */
  function ValidateAudioChunk(c: AudioChunk, now: DateTime): (r: Result<(), ChunkError>)
    ensures r.Ok? <==>
      (c.pcm.ndim == 1 && c.pcm.dtype == Int16 && |c.pcm.samples| > 0
       && c.sampleRate == ChunkSampleRate && c.rmsValue >= 0.0 && !Before(now, c.timestamp))
    ensures c.pcm.ndim != 1 ==> r == Err(ChunkNotOneDimensional(c.pcm.ndim))
  {
    if c.pcm.ndim != 1 then Err(ChunkNotOneDimensional(c.pcm.ndim))
    else if c.pcm.dtype != Int16 then Err(ChunkNotInt16(c.pcm.dtype))
    else if |c.pcm.samples| == 0 then Err(ChunkEmpty)
    else if c.sampleRate != ChunkSampleRate then Err(WrongSampleRate(c.sampleRate))
    else if c.rmsValue < 0.0 then Err(NegativeRms(c.rmsValue))
    else if Before(now, c.timestamp) then Err(ChunkInFuture)
    else Ok(())
  }

  /** `duration_seconds()`: samples over the rate. */
  function ChunkDurationSeconds(c: AudioChunk): (d: real)
    requires c.sampleRate > 0
    ensures |c.pcm.samples| > 0 ==> d > 0.0
    ensures c.sampleRate == ChunkSampleRate && |c.pcm.samples| == ChunkSampleRate ==> d == 1.0
  {
    |c.pcm.samples| as real / c.sampleRate as real
  }

  /** `to_wav_bytes()` */
  function ChunkWavBytes(c: AudioChunk): Result<seq<Byte>, WavError> {
    Pcm16ToWavBytes(c.pcm, c.sampleRate)
  }

  /** A valid chunk (of a size the header can describe) serialises, and the
      WAV reads back as 48000 Hz and the chunk's samples. */
  lemma ValidChunkWav(c: AudioChunk, now: DateTime)
    requires ValidateAudioChunk(c, now).Ok?
    requires 36 + 2 * |c.pcm.samples| < U32_LIMIT
    ensures ChunkWavBytes(c).Ok? && |ChunkWavBytes(c).value| == 44 + 2 * |c.pcm.samples|
    ensures ParseWav(ChunkWavBytes(c).value) == Some((48000, c.pcm.samples))
  {
    assert c.pcm == Mono(c.pcm.samples);
    WavRoundTrip(c.pcm.samples, 48000);
  }

  /** `create_audio_chunk(session_id, pcm_data, sample_rate)`, with the fresh
      identifier and the clock given.  `rms` is `calculate_rms(pcm_data)`,
      characterised as the non-negative root of the mean square. */
  function CreateAudioChunk(chunkId: string, sessionId: string, pcm: PcmArray, sampleRate: int,
                            rms: real, now: DateTime): (r: Result<AudioChunk, ChunkError>)
    requires rms >= 0.0 && rms * rms == MeanSquare(pcm.samples)
    ensures r.Ok? <==> pcm.ndim == 1 && pcm.dtype == Int16 && |pcm.samples| > 0 && sampleRate == ChunkSampleRate
    ensures r.Ok? ==> r.value.pcm == pcm && r.value.timestamp == now && r.value.rmsValue == rms && !r.value.hasVoice
  {
    var c := AudioChunk(chunkId, sessionId, pcm, sampleRate, now, rms, false);
    BeforeStrictTotal(now, now, now);
    var v := ValidateAudioChunk(c, now);
    if v.Err? then Err(v.error) else Ok(c)
  }

  // ---------------------------------------------------------------------
  // FileOutputConfig

  datatype FileOutputConfig = FileOutputConfig(
    outputDirectory: string, filename: Option<string>, appendMode: bool,
    encoding: string, includeTimestamps: bool, timestampFormat: string)

  const DefaultOutputConfig: FileOutputConfig :=
    FileOutputConfig("resource", None, true, "utf-8", true, "%Y-%m-%d %H:%M:%S")

  datatype ConfigError = EmptyOutputDirectory | UnsupportedEncoding(encoding: string)

  /** `FileOutputConfig.__post_init__` without the directory creation. */
  function ValidateOutputConfig(c: FileOutputConfig): (r: Result<(), ConfigError>)
    ensures r.Ok? <==> c.outputDirectory != "" && c.encoding == "utf-8"
    ensures c.outputDirectory == "" ==> r == Err(EmptyOutputDirectory)
  {
    if c.outputDirectory == "" then Err(EmptyOutputDirectory)
    else if c.encoding != "utf-8" then Err(UnsupportedEncoding(c.encoding))
    else Ok(())
  }

  /** `%Y%m%d-%H%M%S` */
  function CompactStamp(t: DateTime): (r: string)
    requires ValidDateTime(t)
    ensures |r| == 15 && r[8] == '-'
  {
    Four(t.year) + Two(t.month) + Two(t.day) + "-" + Two(t.hour) + Two(t.minute) + Two(t.second)
  }

  predicate AllDots(s: string) {
    forall k :: 0 <= k < |s| ==> s[k] == '.'
  }

  /** `os.path.splitext(p)` (POSIX): the extension starts at the last dot of
      the last path component, provided something other than dots comes
      before it in that component. */
  function SplitExt(p: string): (r: (string, string))
    ensures r.0 + r.1 == p
    ensures r.1 != [] ==> r.1[0] == '.'
  {
    var dot := ExtStart(p);
    if dot >= 0 then
      assert p[..dot] + p[dot..] == p;
      (p[..dot], p[dot..])
    else (p, "")
  }

  /** Where `SplitExt` cuts: the last dot, when it lies in the last path
      component and something other than dots comes before it there; else -1. */
  function ExtStart(p: string): (i: int)
    ensures -1 <= i < |p|
    ensures i >= 0 ==> p[i] == '.' && i == RFind(p, '.')
  {
    var sep := RFind(p, '/');
    var dot := RFind(p, '.');
    if dot > sep && !AllDots(p[sep + 1..dot]) then dot else -1
  }

  /** The extension `SplitExt` splits off holds no other dot and no '/'. */
  lemma SplitExtTail(p: string)
    ensures var e := SplitExt(p).1; forall k :: 1 <= k < |e| ==> e[k] != '.' && e[k] != '/'
  {
    var sep := RFind(p, '/');
    var dot := ExtStart(p);
    var e := SplitExt(p).1;
    if e != [] {
      forall k | 1 <= k < |e| ensures e[k] != '.' && e[k] != '/' {
        assert e[k] == p[dot + k];
        RFindLast(p, '.', dot + k);
        RFindLast(p, '/', dot + k);
      }
    }
  }

  /** A name with a ".txt" extension splits into its stem and ".txt", as long
      as the stem is in one path component and is not made of dots only. */
  lemma SplitExtOfTxt(stem: string)
    requires '/' !in stem && !AllDots(stem)
    ensures SplitExt(stem + ".txt") == (stem, ".txt")
  {
    var p := stem + ".txt";
    var n := |stem|;
    var tx, t, d := stem + ".tx", stem + ".t", stem + ".";
    assert p[..n + 3] == tx && tx[..n + 2] == t && t[..n + 1] == d;
    assert RFind(p, '.') == RFind(tx, '.') == RFind(t, '.') == RFind(d, '.') == n;
    RFindAbsent(p, '/');
    assert p[0..n] == stem;
    assert p[..n] == stem && p[n..] == ".txt";
  }

  /** What `os.path.join(directory, name)` puts in front of `name`. */
  function JoinHead(dir: string, name: string): string {
    if |name| > 0 && name[0] == '/' then ""
    else if dir == "" || dir[|dir| - 1] == '/' then dir
    else dir + "/"
  }

  /** `os.path.join(directory, name)` for two components. */
  function PathJoin(dir: string, name: string): string {
    JoinHead(dir, name) + name
  }

  /** The base name: the sanitised filename when one is given, otherwise one
      made from the clock. */
  function SafeName(c: FileOutputConfig, now: DateTime): string
    requires ValidDateTime(now)
  {
    if c.filename.Some? && c.filename.value != "" then SanitizeFilename(c.filename.value)
    else "transcript-" + CompactStamp(now)
  }

  /** The stem and the extension of the file, the extension forced to ".txt"
      unless it already is that in some letter case. */
  function NameParts(c: FileOutputConfig, now: DateTime): (r: (string, string))
    requires ValidDateTime(now)
    ensures |r.1| == 4 && r.1[0] == '.' && Lower(r.1) == ".txt"
  {
    var parts := SplitExt(SafeName(c, now));
    (parts.0, TxtExtension(parts.1))
  }

  /** The extension kept when it is ".txt" in some letter case, otherwise
      replaced by ".txt". */
  function TxtExtension(ext: string): (r: string)
    requires ext == [] || ext[0] == '.'
    ensures |r| == 4 && r[0] == '.' && Lower(r) == ".txt"
    ensures Lower(ext) == ".txt" ==> r == ext
  {
    if Lower(ext) != ".txt" then ".txt" else ext
  }

  /** The filename ". ." sanitises to a single space, which has no extension,
      so the file is named " .txt". */
  lemma ExposedSpaceName(c: FileOutputConfig, now: DateTime)
    requires ValidDateTime(now) && c.filename == Some(". .")
    ensures NameParts(c, now) == (" ", ".txt")
  {
    SanitizeExposesSpace();
    assert RFind(" ", '.') == -1;
    assert SplitExt(" ") == (" ", "");
  }

  /** The first candidate path. */
  function PlainCandidate(dir: string, base: string, ext: string): string {
    PathJoin(dir, base + ext)
  }

  /** The candidate path with counter `n`. */
  function NumberedCandidate(dir: string, base: string, ext: string, n: nat): string {
    PathJoin(dir, base + "_" + NatToStr(n) + ext)
  }

  /** All candidates share what `join` puts in front of them. */
  lemma CandidateHeads(dir: string, base: string, ext: string, n: nat)
    requires |ext| == 4 && ext[0] == '.'
    ensures JoinHead(dir, base + ext) == JoinHead(dir, base + "_" + NatToStr(n) + ext)
  {
    if base != [] {
      assert (base + ext)[0] == base[0];
      assert (base + "_" + NatToStr(n) + ext)[0] == base[0];
    } else {
      assert (base + ext)[0] == '.';
      assert (base + "_" + NatToStr(n) + ext)[0] == '_';
    }
  }

  /** Different counters give different candidates, and none is the first. */
  lemma CandidatesDistinct(dir: string, base: string, ext: string, m: nat, n: nat)
    requires |ext| == 4 && ext[0] == '.'
    ensures PlainCandidate(dir, base, ext) != NumberedCandidate(dir, base, ext, n)
    ensures NumberedCandidate(dir, base, ext, m) == NumberedCandidate(dir, base, ext, n) ==> m == n
  {
    CandidateHeads(dir, base, ext, m);
    CandidateHeads(dir, base, ext, n);
    var h := JoinHead(dir, base + ext);
    var cm := NumberedCandidate(dir, base, ext, m);
    var cn := NumberedCandidate(dir, base, ext, n);
    if cm == cn {
      var dm, dn := NatToStr(m), NatToStr(n);
      assert cm == h + base + "_" + dm + ext;
      assert cn == h + base + "_" + dn + ext;
      var i := |h| + |base| + 1;
      assert |dm| == |dn|;
      assert cm[i..i + |dm|] == dm;
      assert cn[i..i + |dn|] == dn;
      DigitsValueNatToStr(m);
      DigitsValueNatToStr(n);
    }
  }

  /** Every candidate ends in the extension. */
  lemma CandidateSuffix(dir: string, base: string, ext: string, n: nat)
    ensures var c := PlainCandidate(dir, base, ext); |c| >= |ext| && c[|c| - |ext|..] == ext
    ensures var c := NumberedCandidate(dir, base, ext, n); |c| >= |ext| && c[|c| - |ext|..] == ext
  {
  }

  /** The candidates for one name: all different, all ending in the extension. */
  lemma CandidateFamily(dir: string, base: string, ext: string)
    requires |ext| == 4 && ext[0] == '.'
    ensures var c := PlainCandidate(dir, base, ext); |c| >= 4 && c[|c| - 4..] == ext
    ensures forall k: nat :: NumberedCandidate(dir, base, ext, k) != PlainCandidate(dir, base, ext)
    ensures forall j: nat, k: nat ::
      NumberedCandidate(dir, base, ext, j) == NumberedCandidate(dir, base, ext, k) ==> j == k
    ensures forall k: nat :: var c := NumberedCandidate(dir, base, ext, k); |c| >= 4 && c[|c| - 4..] == ext
  {
    CandidateSuffix(dir, base, ext, 0);
    forall j: nat, k: nat
      ensures NumberedCandidate(dir, base, ext, k) != PlainCandidate(dir, base, ext)
      ensures NumberedCandidate(dir, base, ext, j) == NumberedCandidate(dir, base, ext, k) ==> j == k
    {
      CandidatesDistinct(dir, base, ext, j, k);
    }
    forall k: nat ensures var c := NumberedCandidate(dir, base, ext, k); |c| >= 4 && c[|c| - 4..] == ext {
      CandidateSuffix(dir, base, ext, k);
    }
  }

  /** Removing one more element of `a` from it leaves fewer. */
  lemma DifferenceShrinks(a: set<string>, b: set<string>, x: string)
    requires x in a && x !in b
    ensures |a - (b + {x})| < |a - b|
  {
    assert a - (b + {x}) == (a - b) - {x};
  }

  /** The paths tried before counter `n`: the plain candidate and the
      numbered ones below `n - 1`. */
  ghost predicate OnlyCandidates(tried: set<string>, plain: string, numbered: nat -> string, n: nat) {
    forall s :: s in tried ==> s == plain || exists k :: 2 <= k < n - 1 && s == numbered(k)
  }

  /** The next numbered candidate has not been tried yet. */
  lemma NextUntried(tried: set<string>, plain: string, numbered: nat -> string, n: nat, path: string)
    requires forall k :: numbered(k) != plain
    requires forall j, k :: numbered(j) == numbered(k) ==> j == k
    requires n >= 2 && OnlyCandidates(tried, plain, numbered, n)
    requires path == if n == 2 then plain else numbered(n - 1)
    ensures numbered(n) !in tried + {path}
    ensures OnlyCandidates(tried + {path}, plain, numbered, n + 1)
  {
  }

  /** The loop of `resolve_file_path`: the first candidate that does not
      exist, the plain one or the numbered one with the smallest counter
      from 2 on.  The candidates are all different. */
  method FirstFreeCandidate(plain: string, numbered: nat -> string, ext: string, existing: set<string>)
    returns (path: string, n: nat)
    requires forall k :: numbered(k) != plain
    requires forall j, k :: numbered(j) == numbered(k) ==> j == k
    requires |plain| >= |ext| && plain[|plain| - |ext|..] == ext
    requires forall k :: |numbered(k)| >= |ext| && numbered(k)[|numbered(k)| - |ext|..] == ext
    ensures path !in existing
    ensures |path| >= |ext| && path[|path| - |ext|..] == ext
    ensures n == 0 ==> plain !in existing && path == plain
    ensures n != 0 ==> plain in existing && n >= 2 && path == numbered(n)
    ensures forall k :: 2 <= k < n ==> numbered(k) in existing
  {
    path := plain;
    var counter := 2;
    ghost var tried: set<string> := {};
    while path in existing
      invariant counter >= 2
      invariant path == if counter == 2 then plain else numbered(counter - 1)
      invariant counter > 2 ==> plain in existing
      invariant forall k :: 2 <= k < counter - 1 ==> numbered(k) in existing
      invariant tried <= existing && path !in tried
      invariant OnlyCandidates(tried, plain, numbered, counter)
      decreases |existing - tried|
    {
      DifferenceShrinks(existing, tried, path);
      NextUntried(tried, plain, numbered, counter, path);
      tried := tried + {path};
      path := numbered(counter);
      counter := counter + 1;
    }
    n := if counter == 2 then 0 else counter - 1;
  }

  /** The first free candidate for `base` and `ext` in `dir`. */
  method ResolveCandidates(dir: string, base: string, ext: string, existing: set<string>) returns (path: string)
    requires |ext| == 4 && ext[0] == '.'
    ensures path !in existing
    ensures |path| >= 4 && path[|path| - 4..] == ext
    ensures var plain := PlainCandidate(dir, base, ext);
      (plain !in existing && path == plain)
      || (plain in existing
          && exists n :: (n >= 2 && path == NumberedCandidate(dir, base, ext, n)
                          && forall k :: 2 <= k < n ==> NumberedCandidate(dir, base, ext, k) in existing))
  {
    var numbered := (n: nat) => NumberedCandidate(dir, base, ext, n);
    var plain := PlainCandidate(dir, base, ext);
    CandidateFamily(dir, base, ext);
    var n;
    path, n := FirstFreeCandidate(plain, numbered, ext, existing);
    if n != 0 {
      assert path == NumberedCandidate(dir, base, ext, n);
      assert forall k :: 2 <= k < n ==> NumberedCandidate(dir, base, ext, k) in existing by {
        forall k | 2 <= k < n ensures NumberedCandidate(dir, base, ext, k) in existing {
          assert numbered(k) in existing;
        }
      }
    }
  }

  /** `resolve_file_path()` against the set of paths that already exist: the
      sanitised (or clock-made) name with a ".txt" extension, numbered from 2
      on when that file exists already. */
  method ResolveFilePath(c: FileOutputConfig, existing: set<string>, now: DateTime) returns (path: string)
    requires ValidDateTime(now)
    ensures path !in existing
    ensures |path| >= 4 && Lower(path[|path| - 4..]) == ".txt"
    ensures var parts := NameParts(c, now);
      var plain := PlainCandidate(c.outputDirectory, parts.0, parts.1);
      (plain !in existing && path == plain)
      || (plain in existing
          && exists n :: (n >= 2 && path == NumberedCandidate(c.outputDirectory, parts.0, parts.1, n)
                          && forall k :: 2 <= k < n ==> NumberedCandidate(c.outputDirectory, parts.0, parts.1, k) in existing))
  {
    var parts := NameParts(c, now);
    path := ResolveCandidates(c.outputDirectory, parts.0, parts.1, existing);
  }
}
