/**
  The token-keyed recording registry of the live transcription widget
  (src/ui/transcription_widget.py) and of the transcription page
  (src/ui/transcription_page.py).  Each module keeps one set of global
  dictionaries keyed by a recording token; the WebRTC frame callback feeds
  a bounded queue (drained by a WAV-writing worker) and an unbounded buffer
  (drained every three seconds by a transcription worker).  Here the
  dictionaries are the maps of one object, each worker's loop body is one
  method call, and the clock, the frames and the API's answers are
  parameters.  The files on disk are maps from path to content.
 */
module Registry {
  import opened Wrappers
  import opened PyText
  import opened AudioUtils
  import opened AudioService
  import opened DateUtils
  import opened TranscriptionService
  import opened TranscriptionModels
  import opened TranscriptionWidget

  /** The widget gates chunks on loudness and density and uses the chosen
      model; the page gates on loudness only and always uses whisper-1. */
  datatype Variant = Widget | Page

  const QueueCapacity: nat := 128
  const DrainInterval: real := 3.0
  const VadRmsThreshold: int := 300
  const VadSampleDensity: real := 0.12
  const VadAmplitudeGate: int := 1100
  const PageResourceDir: string := "resource"

  const StatusRecording: string := "🔴 錄音中... 即時轉錄結果將在下方顯示"
  const StatusDone: string := "✅ 轉錄完成"
  const StatusTooShort: string := "⚠️ 錄音時間太短或未檢測到語音"
  const StatusMissing: string := "❌ 錄音檔案不存在"

  /** An entry of the audio queue: the frame's PCM with its mean square
      (`calculate_rms` before the root), or the `None` stop signal. */
  datatype QueueItem = Frame(pcm: seq<Sample>, meanSquare: real) | Sentinel

  /** One request to the speech-to-text API. */
  datatype ApiCall = ApiCall(token: string, wav: seq<Byte>, model: string)

  /** The keys of the UI session state the registry sets. */
  datatype UiState = UiState(
    active: bool, token: Option<string>, path: string, status: string,
    lastTranscript: string, lastPath: string, segmentCount: int,
    modelName: Option<string>, lastModelName: Option<string>,
    lastCost: Option<CostInfo>, lastBytesWritten: int)

  const InitialUi: UiState := UiState(false, None, "", "", "", "", 0, None, None, None, 0)

  /** The tokens a registry with this active token may hold. */
  function Tokens(active: Option<string>): set<string> {
    if active.Some? then {active.value} else {}
  }

  // ---------------------------------------------------------------------
  // Sequences of frames

  /** `np.concatenate(frames)` */
  function Concat(frames: seq<seq<Sample>>): (r: seq<Sample>)
    decreases |frames|
  {
    if |frames| == 0 then [] else Concat(frames[..|frames| - 1]) + frames[|frames| - 1]
  }

  lemma ConcatSnoc(frames: seq<seq<Sample>>, x: seq<Sample>)
    ensures Concat(frames + [x]) == Concat(frames) + x
  {
    assert (frames + [x])[..|frames|] == frames;
  }

  /** The frames among the queue's items, oldest first. */
  function FramesOf(items: seq<QueueItem>): (r: seq<seq<Sample>>)
    ensures |r| <= |items|
    decreases |items|
  {
    if |items| == 0 then []
    else (if items[0].Frame? then [items[0].pcm] else []) + FramesOf(items[1..])
  }

  /** Queuing one more item adds its frame, if any, after the others. */
  lemma {:induction false} FramesOfSnoc(items: seq<QueueItem>, x: QueueItem)
    ensures FramesOf(items + [x]) == FramesOf(items) + (if x.Frame? then [x.pcm] else [])
    decreases |items|
  {
    if |items| == 0 {
      assert [x][1..] == [];
    } else {
      assert (items + [x])[1..] == items[1..] + [x];
      FramesOfSnoc(items[1..], x);
    }
  }

  /** The number of samples of some frames. */
  function TotalLen(frames: seq<seq<Sample>>): nat {
    |Concat(frames)|
  }

  /** Drain times at least `DrainInterval` apart. */
  predicate Spaced(ticks: seq<real>) {
    forall i :: 0 < i < |ticks| ==> ticks[i] - ticks[i - 1] >= DrainInterval
  }

  // ---------------------------------------------------------------------
  // What the per-token entries keep

  /** The audio path of one token: every frame the queue accepted has been
      written, in order, or is still waiting in the queue; the byte count is
      that of the written frames; the open file holds exactly them. */
  predicate AudioLog(queue: seq<QueueItem>, enqueued: seq<seq<Sample>>, written: seq<seq<Sample>>,
                     bytes: int, file: Option<seq<Sample>>)
  {
    |queue| <= QueueCapacity
    && enqueued == written + FramesOf(queue)
    && bytes == 2 * TotalLen(written)
    && (file.Some? ==> file.value == Concat(written))
    && (file.None? ==> written == [])
  }

  /** The transcription path of one token: the samples pushed are those
      drained, in order, followed by the buffer; the clock was reset at
      least `DrainInterval` apart, last at `last`. */
  predicate DrainLog(buffer: seq<seq<Sample>>, pushed: seq<Sample>, drained: seq<Sample>,
                     ticks: seq<real>, last: real)
  {
    pushed == drained + Concat(buffer) && |ticks| > 0 && Spaced(ticks) && last == ticks[|ticks| - 1]
  }

  /** A frame pushed into a queue with room is the last thing written. */
  lemma PushKeepsAudioLog(queue: seq<QueueItem>, enqueued: seq<seq<Sample>>, written: seq<seq<Sample>>,
                          bytes: int, file: Option<seq<Sample>>, pcm: seq<Sample>, ms: real)
    requires AudioLog(queue, enqueued, written, bytes, file)
    requires |queue| < QueueCapacity
    ensures AudioLog(queue + [Frame(pcm, ms)], enqueued + [pcm], written, bytes, file)
  {
    FramesOfSnoc(queue, Frame(pcm, ms));
  }

  /** The stop signal changes no frame's fate. */
  lemma SentinelKeepsAudioLog(queue: seq<QueueItem>, enqueued: seq<seq<Sample>>, written: seq<seq<Sample>>,
                              bytes: int, file: Option<seq<Sample>>)
    requires AudioLog(queue, enqueued, written, bytes, file)
    requires |queue| < QueueCapacity
    ensures AudioLog(queue + [Sentinel], enqueued, written, bytes, file)
  {
    FramesOfSnoc(queue, Sentinel);
  }

  /** Writing the oldest queued frame moves it from the queue to the file. */
  lemma WriteKeepsAudioLog(queue: seq<QueueItem>, enqueued: seq<seq<Sample>>, written: seq<seq<Sample>>,
                           bytes: int, file: Option<seq<Sample>>)
    requires AudioLog(queue, enqueued, written, bytes, file)
    requires |queue| > 0 && queue[0].Frame?
    ensures var pcm := queue[0].pcm;
      AudioLog(queue[1..], enqueued, written + [pcm], bytes + 2 * |pcm|,
               Some((if file.Some? then file.value else []) + pcm))
  {
    var pcm := queue[0].pcm;
    FramesOfFront(queue);
    assert enqueued == (written + [pcm]) + FramesOf(queue[1..]);
    ConcatSnoc(written, pcm);
    if file.None? {
      assert Concat(written) == [];
    }
  }

  /** A frame at the front of the queue is the first of its frames. */
  lemma FramesOfFront(queue: seq<QueueItem>)
    requires |queue| > 0 && queue[0].Frame?
    ensures FramesOf(queue) == [queue[0].pcm] + FramesOf(queue[1..])
  {
  }

  /** Taking the stop signal off the queue loses no frame. */
  lemma PopSentinelKeepsAudioLog(queue: seq<QueueItem>, enqueued: seq<seq<Sample>>, written: seq<seq<Sample>>,
                                 bytes: int, file: Option<seq<Sample>>)
    requires AudioLog(queue, enqueued, written, bytes, file)
    requires |queue| > 0 && queue[0].Sentinel?
    ensures AudioLog(queue[1..], enqueued, written, bytes, file)
  {
    assert FramesOf(queue) == FramesOf(queue[1..]);
  }

  /** Appending a frame to the buffer appends its samples. */
  lemma PushKeepsDrainLog(buffer: seq<seq<Sample>>, pushed: seq<Sample>, drained: seq<Sample>,
                          ticks: seq<real>, last: real, pcm: seq<Sample>)
    requires DrainLog(buffer, pushed, drained, ticks, last)
    ensures DrainLog(buffer + [pcm], pushed + pcm, drained, ticks, last)
  {
    ConcatSnoc(buffer, pcm);
  }

  /** Draining the whole buffer at a due time keeps the accounts and the spacing. */
  lemma DrainKeepsDrainLog(buffer: seq<seq<Sample>>, pushed: seq<Sample>, drained: seq<Sample>,
                           ticks: seq<real>, last: real, now: real)
    requires DrainLog(buffer, pushed, drained, ticks, last)
    requires now - last >= DrainInterval
    ensures DrainLog([], pushed, drained + Concat(buffer), ticks + [now], now)
  {
    assert Concat([]) == [];
  }

  // ---------------------------------------------------------------------
  // One pass of the transcription worker's loop

  /** The chunk gate: `is_voiced_chunk(chunk, 300, 0.12, 1100)` in the
      widget, `calculate_rms(chunk) >= 300.0` in the page. */
  predicate PassesGate(v: Variant, chunk: seq<Sample>) {
    if v == Widget then IsVoicedChunk(chunk, VadRmsThreshold, VadSampleDensity, VadAmplitudeGate)
    else RmsAtLeast(chunk, VadRmsThreshold)
  }

  /** What one pass does. */
  datatype Drain =
    | Idle                                          // worker not running, or not due yet
    | Exit                                          // the stop event is set
    | ResetClock                                    // due, but nothing buffered
    | Drained(chunk: seq<Sample>, call: Option<(seq<Byte>, string)>, segment: Option<Segment>)

  /** One pass of `_transcription_worker`'s loop for a token: when at least
      three seconds passed, the buffer is drained into one chunk; a chunk
      that passes the gate (and fits a WAV) is sent to the API, and a
      non-blank answer becomes a segment stamped `stamp`, stripped and
      converted by `convert` (OpenCC s2t).  API errors are swallowed. */
  function DrainDecision(v: Variant, running: bool, stopSet: bool, last: real, now: real,
                         buffer: seq<seq<Sample>>, model: string, response: ApiResult,
                         convert: string -> string, stamp: DateTime): (r: Drain)
    ensures (r.ResetClock? || r.Drained?) ==> now - last >= DrainInterval
    ensures r.Drained? ==> r.chunk == Concat(buffer)
    ensures r.Drained? && r.segment.Some? ==> r.segment.value.at == stamp
  {
    if !running || (!stopSet && now - last < DrainInterval) then Idle
    else if stopSet then Exit
    else if buffer == [] then ResetClock
    else
      var chunk := Concat(buffer);
      var wav := ChunkWav(chunk);
      if !PassesGate(v, chunk) || wav.Err? then Drained(chunk, None, None)
      else if response.ApiOk? && Strip(response.text) != "" then
        Drained(chunk, Some((wav.value, model)), Some(Segment(stamp, convert(Strip(response.text)))))
      else Drained(chunk, Some((wav.value, model)), None)
  }

  /** The buffer is touched, and the clock reset, only when three seconds
      have passed since the last reset. */
  lemma DrainOnlyWhenDue(v: Variant, running: bool, stopSet: bool, last: real, now: real,
                         buffer: seq<seq<Sample>>, model: string, response: ApiResult,
                         convert: string -> string, stamp: DateTime)
    ensures var d := DrainDecision(v, running, stopSet, last, now, buffer, model, response, convert, stamp);
      (d.ResetClock? || d.Drained?) <==> running && !stopSet && now - last >= DrainInterval
    ensures var d := DrainDecision(v, running, stopSet, last, now, buffer, model, response, convert, stamp);
      d.Drained? <==> running && !stopSet && now - last >= DrainInterval && buffer != []
    ensures var d := DrainDecision(v, running, stopSet, last, now, buffer, model, response, convert, stamp);
      d.Drained? ==> d.chunk == Concat(buffer)
  {
  }

  /** A chunk that fails the gate is never sent and never becomes a segment;
      one that passes (and fits a WAV) is sent as its WAV, with the model. */
  lemma GateDecidesCall(v: Variant, running: bool, stopSet: bool, last: real, now: real,
                        buffer: seq<seq<Sample>>, model: string, response: ApiResult,
                        convert: string -> string, stamp: DateTime)
    ensures var d := DrainDecision(v, running, stopSet, last, now, buffer, model, response, convert, stamp);
      d.Drained? ==> (d.call.Some? <==> PassesGate(v, d.chunk) && ChunkWav(d.chunk).Ok?)
    ensures var d := DrainDecision(v, running, stopSet, last, now, buffer, model, response, convert, stamp);
      d.Drained? && d.call.Some? ==> d.call.value == (ChunkWav(d.chunk).value, model)
    ensures var d := DrainDecision(v, running, stopSet, last, now, buffer, model, response, convert, stamp);
      d.Drained? && d.segment.Some? ==> d.call.Some?
  {
  }

  /** A segment is added exactly for a sent chunk whose answer is not blank,
      and it holds that answer stripped and converted. */
  lemma SegmentOnlyForText(v: Variant, running: bool, stopSet: bool, last: real, now: real,
                           buffer: seq<seq<Sample>>, model: string, response: ApiResult,
                           convert: string -> string, stamp: DateTime)
    ensures var d := DrainDecision(v, running, stopSet, last, now, buffer, model, response, convert, stamp);
      d.Drained? && d.call.Some? ==>
        (d.segment.Some? <==> response.ApiOk? && Strip(response.text) != "")
    ensures var d := DrainDecision(v, running, stopSet, last, now, buffer, model, response, convert, stamp);
      d.Drained? && d.segment.Some? ==> d.segment.value == Segment(stamp, convert(Strip(response.text)))
  {
  }

  /** The page sends exactly the chunks whose RMS reaches 300; the widget's
      gate is stricter (it also asks for enough loud samples). */
  lemma WidgetGateStricter(chunk: seq<Sample>)
    ensures PassesGate(Page, chunk) <==> RmsAtLeast(chunk, 300)
    ensures PassesGate(Widget, chunk) ==> PassesGate(Page, chunk)
  {
    if PassesGate(Widget, chunk) {
      VoicedBySquares(chunk, VadRmsThreshold, VadSampleDensity, VadAmplitudeGate);
    }
  }

  /** Segment times never go backwards. */
  predicate InTimeOrder(segs: seq<Segment>) {
    forall i, j :: 0 <= i < j < |segs| ==> !Before(segs[j].at, segs[i].at)
  }

  /** With a clock that does not go backwards, a pass keeps the segments in
      time order. */
  lemma DrainKeepsTimeOrder(segs: seq<Segment>, d: Drain)
    requires InTimeOrder(segs)
    requires d.Drained? && d.segment.Some?
    requires forall i :: 0 <= i < |segs| ==> !Before(d.segment.value.at, segs[i].at)
    ensures InTimeOrder(segs + [d.segment.value])
  {
    var s := segs + [d.segment.value];
    forall i, j | 0 <= i < j < |s| ensures !Before(s[j].at, s[i].at) {
      if j < |segs| {
        assert s[i] == segs[i] && s[j] == segs[j];
      } else {
        assert s[i] == segs[i];
      }
    }
  }

  // ---------------------------------------------------------------------
  // Stopping

  /** `wav_path.stat().st_size` of a mono 16-bit WAV file. */
  function WavFileSize(samples: seq<Sample>): nat {
    44 + 2 * |samples|
  }

  /** The status `_stop_recording` reports for the recording file (absent
      when the file does not exist) and the final transcript. */
  function StopStatus(file: Option<seq<Sample>>, transcript: string): string {
    if file.None? then StatusMissing
    else if WavFileSize(file.value) > 44 && transcript != "" then StatusDone
    else StatusTooShort
  }

  /** The three outcomes: done exactly when the file holds audio and the
      transcript is not empty, missing exactly when there is no file. */
  lemma StopStatusCases(file: Option<seq<Sample>>, transcript: string)
    ensures StopStatus(file, transcript) == StatusDone <==> file.Some? && |file.value| > 0 && transcript != ""
    ensures StopStatus(file, transcript) == StatusMissing <==> file.None?
    ensures StopStatus(file, transcript) == StatusTooShort <==>
      file.Some? && (|file.value| == 0 || transcript == "")
  {
    assert StatusDone != StatusMissing && StatusDone != StatusTooShort && StatusMissing != StatusTooShort by {
      assert StatusDone[0] != StatusMissing[0] && StatusDone[0] != StatusTooShort[0];
      assert StatusMissing[0] != StatusTooShort[0];
    }
  }

  // ---------------------------------------------------------------------
  // One token's entries

  /** What the per-token dictionaries hold for one token, read together:
      `_audio_queues`, `_transcription_buffers`, `_transcript_segments`,
      `_wav_paths`, whether `_wav_writers` has an entry, `_bytes_written`,
      `_last_rms` (as a mean square), whether each worker thread is still
      running, the two stop events, `_last_transcription_time` and
      `_token_models` (always None in the page). */
  datatype Entry = Entry(
    queue: seq<QueueItem>, buffer: seq<seq<Sample>>, segments: seq<Segment>,
    wavPath: FilePath, writerOpen: bool, bytesWritten: int, lastRms: real,
    workerRunning: bool, workerStop: bool, transcriberRunning: bool, transcriberStop: bool,
    lastTranscriptionTime: real, model: Option<string>)

  /** What happened to one token so far: the frames the queue accepted and
      those written, the samples buffered and those drained, and the times
      the drain clock was set. */
  datatype Log = Log(enqueued: seq<seq<Sample>>, written: seq<seq<Sample>>,
                     pushed: seq<Sample>, drained: seq<Sample>, ticks: seq<real>)

  /** The entries `_start_recording` creates. */
  function NewEntry(path: FilePath, model: Option<string>, startTime: real): Entry {
    Entry([], [], [], path, false, 0, 0.0, true, false, true, false, startTime, model)
  }

  ghost function NewLog(startTime: real): Log {
    Log([], [], [], [], [startTime])
  }

  /** The entry's accounts balance, given the content of its WAV file if
      that exists; the segments carry valid times. */
  predicate EntryValid(e: Entry, log: Log, file: Option<seq<Sample>>) {
    (e.writerOpen ==> file.Some?)
    && AudioLog(e.queue, log.enqueued, log.written, e.bytesWritten, if e.writerOpen then file else None)
    && DrainLog(e.buffer, log.pushed, log.drained, log.ticks, e.lastTranscriptionTime)
    && Stamped(e.segments)
  }

  /** A fresh entry starts with balanced accounts, whatever the disk holds. */
  lemma NewEntryValid(path: FilePath, model: Option<string>, startTime: real, file: Option<seq<Sample>>)
    ensures EntryValid(NewEntry(path, model, startTime), NewLog(startTime), file)
  {
    assert FramesOf([]) == [] && Concat([]) == [];
  }

  /** The frame callback's effect on the entry: the queue takes the frame
      unless it is full, the buffer always does. */
  function PushEntry(e: Entry, pcm: seq<Sample>): Entry {
    e.(queue := if |e.queue| < QueueCapacity then e.queue + [Frame(pcm, MeanSquare(pcm))] else e.queue,
       buffer := e.buffer + [pcm])
  }

  ghost function PushLog(e: Entry, log: Log, pcm: seq<Sample>): Log {
    log.(enqueued := if |e.queue| < QueueCapacity then log.enqueued + [pcm] else log.enqueued,
         pushed := log.pushed + pcm)
  }

  lemma PushPreserves(e: Entry, log: Log, file: Option<seq<Sample>>, pcm: seq<Sample>)
    requires EntryValid(e, log, file)
    ensures EntryValid(PushEntry(e, pcm), PushLog(e, log, pcm), file)
  {
    var f := if e.writerOpen then file else None;
    if |e.queue| < QueueCapacity {
      PushKeepsAudioLog(e.queue, log.enqueued, log.written, e.bytesWritten, f, pcm, MeanSquare(pcm));
    }
    PushKeepsDrainLog(e.buffer, log.pushed, log.drained, log.ticks, e.lastTranscriptionTime, pcm);
  }

  /** What one pass of `_audio_worker`'s loop does. */
  datatype Ingest = IngestIdle | IngestExit | IngestEnd | IngestWrite(pcm: seq<Sample>, meanSquare: real)

  /** A finished worker does nothing; a set stop event ends the loop before
      the queue is looked at; an empty queue means waiting; the stop signal
      ends the loop; otherwise the oldest frame is written. */
  function IngestDecision(e: Entry): Ingest {
    if !e.workerRunning || (!e.workerStop && e.queue == []) then IngestIdle
    else if e.workerStop then IngestExit
    else if e.queue[0].Sentinel? then IngestEnd
    else IngestWrite(e.queue[0].pcm, e.queue[0].meanSquare)
  }

  /** The entry after the pass. */
  function IngestEntry(e: Entry): Entry {
    match IngestDecision(e)
    case IngestIdle => e
    case IngestExit => e.(workerRunning := false)
    case IngestEnd => e.(workerRunning := false, queue := e.queue[1..])
    case IngestWrite(pcm, ms) =>
      e.(queue := e.queue[1..], writerOpen := true, bytesWritten := e.bytesWritten + 2 * |pcm|, lastRms := ms)
  }

  /** The WAV file after the pass: the first frame creates it empty, every
      frame is appended. */
  function IngestFile(e: Entry, file: Option<seq<Sample>>): Option<seq<Sample>> {
    match IngestDecision(e)
    case IngestWrite(pcm, _) => Some((if e.writerOpen && file.Some? then file.value else []) + pcm)
    case _ => file
  }

  ghost function IngestLog(e: Entry, log: Log): Log {
    match IngestDecision(e)
    case IngestWrite(pcm, _) => log.(written := log.written + [pcm])
    case _ => log
  }

  /** The frames are written in the order the queue accepted them: the one
      written is the oldest accepted and not yet written. */
  lemma IngestWritesOldest(e: Entry, log: Log, file: Option<seq<Sample>>)
    requires EntryValid(e, log, file)
    requires IngestDecision(e).IngestWrite?
    ensures |log.enqueued| > |log.written| && log.enqueued[|log.written|] == IngestDecision(e).pcm
  {
    assert FramesOf(e.queue) == [e.queue[0].pcm] + FramesOf(e.queue[1..]);
  }

  lemma IngestPreserves(e: Entry, log: Log, file: Option<seq<Sample>>)
    requires EntryValid(e, log, file)
    ensures EntryValid(IngestEntry(e), IngestLog(e, log), IngestFile(e, file))
  {
    var f := if e.writerOpen then file else None;
    match IngestDecision(e)
    case IngestIdle =>
    case IngestExit =>
    case IngestEnd =>
      PopSentinelKeepsAudioLog(e.queue, log.enqueued, log.written, e.bytesWritten, f);
    case IngestWrite(pcm, ms) =>
      WriteKeepsAudioLog(e.queue, log.enqueued, log.written, e.bytesWritten, f);
  }

  /** The entry after one pass of the transcription worker. */
  function DrainEntry(e: Entry, d: Drain, now: real): Entry {
    match d
    case Idle => e
    case Exit => e.(transcriberRunning := false)
    case ResetClock => e.(lastTranscriptionTime := now)
    case Drained(_, _, segment) =>
      e.(buffer := [], lastTranscriptionTime := now,
         segments := e.segments + (if segment.Some? then [segment.value] else []))
  }

  ghost function DrainLogAfter(log: Log, d: Drain, now: real): Log {
    match d
    case Idle => log
    case Exit => log
    case ResetClock => log.(ticks := log.ticks + [now])
    case Drained(chunk, _, _) => log.(drained := log.drained + chunk, ticks := log.ticks + [now])
  }

  /** The model the transcription worker asks for. */
  function CallModel(e: Entry): string {
    if e.model.Some? then e.model.value else Whisper
  }

  /** A pass that resets the clock only when due, drains exactly the
      buffer and stamps segments with a valid time keeps the accounts. */
  lemma DrainPreserves(e: Entry, log: Log, file: Option<seq<Sample>>, d: Drain, now: real)
    requires EntryValid(e, log, file)
    requires (d.ResetClock? || d.Drained?) ==> now - e.lastTranscriptionTime >= DrainInterval
    requires d.Drained? ==> d.chunk == Concat(e.buffer)
    requires d.Drained? && d.segment.Some? ==> ValidDateTime(d.segment.value.at)
    ensures EntryValid(DrainEntry(e, d, now), DrainLogAfter(log, d, now), file)
  {
    if d.ResetClock? || d.Drained? {
      DrainKeepsDrainLog(e.buffer, log.pushed, log.drained, log.ticks, e.lastTranscriptionTime, now);
    }
    if d.Drained? && d.segment.Some? {
      var s := e.segments + [d.segment.value];
      assert forall i :: 0 <= i < |e.segments| ==> s[i] == e.segments[i];
    }
  }

  // ---------------------------------------------------------------------
  // The registry

  class Recorder {
    const variant: Variant
    /** `_active_token` and `_active_model` */
    var activeToken: Option<string>
    var activeModel: Option<string>
    /** The per-token dictionaries, one entry per token. */
    var entries: map<string, Entry>
    /** The UI session state of the one widget or page. */
    var ui: UiState
    /** WAV files (mono, 16-bit, 48000 Hz) by path, as their samples. */
    var wavFiles: map<FilePath, seq<Sample>>
    /** Text files by path. */
    var textFiles: map<FilePath, string>
    /** The requests sent to the API, and each token's history. */
    ghost var apiCalls: seq<ApiCall>
    ghost var logs: map<string, Log>

    /** The registry's invariant: at most one token (the active one, also
        the one the UI knows) has entries; its accounts balance; only the
        widget records a model. */
    ghost predicate Valid()
      reads this
    {
      ui.token == activeToken
      && entries.Keys == Tokens(activeToken) && logs.Keys == Tokens(activeToken)
      && (variant == Widget ==> (activeModel.Some? <==> activeToken.Some?))
      && (variant == Page ==> activeModel.None?)
      && (activeToken.Some? ==>
            var t := activeToken.value;
            var e := entries[t];
            (variant == Widget <==> e.model.Some?)
            && EntryValid(e, logs[t], FileAt(wavFiles, e.wavPath)))
    }

    constructor (variant: Variant, wavFiles: map<FilePath, seq<Sample>>, textFiles: map<FilePath, string>)
      ensures Valid()
      ensures this.variant == variant && activeToken == None && entries == map[] && ui == InitialUi
      ensures this.wavFiles == wavFiles && this.textFiles == textFiles && apiCalls == []
    {
      this.variant := variant;
      activeToken := None;
      activeModel := None;
      entries := map[];
      ui := InitialUi;
      this.wavFiles := wavFiles;
      this.textFiles := textFiles;
      apiCalls := [];
      logs := map[];
    }

    /** The recording file a start at `clock` uses. */
    function StartPath(resourceDir: string, clock: DateTime): FilePath
      requires ValidDateTime(clock)
    {
      FilePath(if variant == Widget then resourceDir else PageResourceDir, RecordingName(clock))
    }

    /** `_start_recording`: ignored while a recording is active; otherwise
        `token` (a fresh uuid4) becomes the one active token, with an empty
        queue, buffer and segment list, no bytes, both workers running and
        the drain clock at `startTime`.  `resourceDir` and `model` are the
        widget's configuration (the page records under "resource" and has
        no model); `clock` names the file. */
    method Start(token: string, resourceDir: string, model: string, clock: DateTime, startTime: real)
      requires Valid() && ValidDateTime(clock)
      modifies this
      ensures Valid()
      ensures old(activeToken).Some? ==> unchanged(this)
      ensures old(activeToken).None? ==>
        var m := if variant == Widget then Some(model) else None;
        activeToken == Some(token) && activeModel == m
        && entries == map[token := NewEntry(StartPath(resourceDir, clock), m, startTime)]
      ensures old(activeToken).None? ==>
        ui.active && ui.token == Some(token) && ui.path == PathText(StartPath(resourceDir, clock))
        && ui.status == StatusRecording && ui.lastTranscript == "" && ui.lastPath == "" && ui.segmentCount == 0
        && (variant == Widget ==> ui.modelName == Some(model) && ui.lastModelName == Some(model)
                                  && ui.lastCost == None && ui.lastBytesWritten == 0)
        && (variant == Page ==> ui.modelName == old(ui.modelName) && ui.lastModelName == old(ui.lastModelName)
                                && ui.lastCost == old(ui.lastCost) && ui.lastBytesWritten == old(ui.lastBytesWritten))
      ensures unchanged(this`wavFiles, this`textFiles) && apiCalls == old(apiCalls)
    {
      if activeToken.Some? {
        return;
      }
      var path := StartPath(resourceDir, clock);
      var m := if variant == Widget then Some(model) else None;
      NewEntryValid(path, m, startTime, FileAt(wavFiles, path));
      var widget := variant == Widget;
      var u := UiState(true, Some(token), PathText(path), StatusRecording, "", "", 0,
                       if widget then Some(model) else ui.modelName,
                       if widget then Some(model) else ui.lastModelName,
                       if widget then None else ui.lastCost,
                       if widget then 0 else ui.lastBytesWritten);
      Open(token, NewEntry(path, m, startTime), NewLog(startTime), u);
    }

    /** Makes `token` the active token with entry `e` and UI state `u`. */
    method Open(token: string, e: Entry, ghost log: Log, u: UiState)
      requires Valid() && activeToken.None? && u.token == Some(token)
      requires (variant == Widget <==> e.model.Some?)
      requires EntryValid(e, log, FileAt(wavFiles, e.wavPath))
      modifies this
      ensures Valid()
      ensures activeToken == Some(token) && activeModel == e.model && entries == map[token := e] && ui == u
      ensures unchanged(this`wavFiles, this`textFiles) && apiCalls == old(apiCalls)
    {
      activeToken := Some(token);
      activeModel := e.model;
      entries := map[token := e];
      logs := map[token := log];
      ui := u;
    }

    /** The frame callback: with no active token nothing happens; otherwise
        the frame's PCM goes into the queue unless the queue is full (then it
        is dropped) and always into the buffer.  The frame itself is handed
        back untouched. */
    method PushFrame(pcm: seq<Sample>)
      requires Valid()
      modifies this
      ensures Valid()
      ensures old(activeToken).None? ==> unchanged(this)
      ensures old(activeToken).Some? ==>
        var t := old(activeToken).value;
        entries == old(entries)[t := PushEntry(old(entries)[t], pcm)]
      ensures unchanged(this`activeToken, this`activeModel, this`ui, this`wavFiles, this`textFiles)
      ensures apiCalls == old(apiCalls)
    {
      if activeToken.None? {
        return;
      }
      var t := activeToken.value;
      var e := entries[t];
      PushPreserves(e, logs[t], FileAt(wavFiles, e.wavPath), pcm);
      Commit(t, PushEntry(e, pcm), PushLog(e, logs[t], pcm), wavFiles);
    }

    /** One pass of `_audio_worker`'s loop for the active token, as
        `IngestDecision` says; the WAV file is created when the first frame
        is written. */
    method IngestStep()
      requires Valid()
      modifies this
      ensures Valid()
      ensures old(activeToken).None? ==> unchanged(this)
      ensures old(activeToken).Some? ==>
        var t := old(activeToken).value;
        var e := old(entries)[t];
        var file := FileAt(old(wavFiles), e.wavPath);
        var after := IngestFile(e, file);
        entries == old(entries)[t := IngestEntry(e)]
        && wavFiles == (if after.Some? then old(wavFiles)[e.wavPath := after.value] else old(wavFiles))
      ensures unchanged(this`activeToken, this`activeModel, this`ui, this`textFiles)
      ensures apiCalls == old(apiCalls)
    {
      if activeToken.None? {
        return;
      }
      var t := activeToken.value;
      var e := entries[t];
      var file := FileAt(wavFiles, e.wavPath);
      IngestPreserves(e, logs[t], file);
      var after := IngestFile(e, file);
      var files := if after.Some? then wavFiles[e.wavPath := after.value] else wavFiles;
      assert FileAt(files, e.wavPath) == after;
      Commit(t, IngestEntry(e), IngestLog(e, logs[t]), files);
    }

    /** One pass of `_transcription_worker`'s loop for the active token at
        time `now`, with `response` the API's answer should a request be
        made and `stamp` the wall clock, as `DrainDecision` says. */
    method DrainStep(now: real, response: ApiResult, convert: string -> string, stamp: DateTime)
      requires Valid() && ValidDateTime(stamp)
      modifies this
      ensures Valid()
      ensures old(activeToken).None? ==> unchanged(this)
      ensures old(activeToken).Some? ==>
        var t := old(activeToken).value;
        var e := old(entries)[t];
        var d := DrainDecision(variant, e.transcriberRunning, e.transcriberStop, e.lastTranscriptionTime, now,
                               e.buffer, CallModel(e), response, convert, stamp);
        entries == old(entries)[t := DrainEntry(e, d, now)]
        && apiCalls == old(apiCalls) + (if d.Drained? && d.call.Some? then [ApiCall(t, d.call.value.0, d.call.value.1)] else [])
      ensures unchanged(this`activeToken, this`activeModel, this`ui, this`wavFiles, this`textFiles)
    {
      if activeToken.None? {
        return;
      }
      var t := activeToken.value;
      var e := entries[t];
      var d := DrainDecision(variant, e.transcriberRunning, e.transcriberStop, e.lastTranscriptionTime, now,
                             e.buffer, CallModel(e), response, convert, stamp);
      ApplyDrain(t, d, now);
    }

    /** Carries out a pass `d` of the transcription worker at time `now`. */
    method ApplyDrain(t: string, d: Drain, now: real)
      requires Valid() && activeToken == Some(t)
      requires (d.ResetClock? || d.Drained?) ==> now - entries[t].lastTranscriptionTime >= DrainInterval
      requires d.Drained? ==> d.chunk == Concat(entries[t].buffer)
      requires d.Drained? && d.segment.Some? ==> ValidDateTime(d.segment.value.at)
      modifies this
      ensures Valid()
      ensures entries == old(entries)[t := DrainEntry(old(entries)[t], d, now)]
      ensures apiCalls == old(apiCalls) + (if d.Drained? && d.call.Some? then [ApiCall(t, d.call.value.0, d.call.value.1)] else [])
      ensures unchanged(this`activeToken, this`activeModel, this`ui, this`wavFiles, this`textFiles)
    {
      var e := entries[t];
      DrainPreserves(e, logs[t], FileAt(wavFiles, e.wavPath), d, now);
      if d.Drained? && d.call.Some? {
        apiCalls := apiCalls + [ApiCall(t, d.call.value.0, d.call.value.1)];
      }
      Commit(t, DrainEntry(e, d, now), DrainLogAfter(logs[t], d, now), wavFiles);
    }

    /** Puts back the active token's entry after one step, with the history
        and the WAV files that go with it. */
    method Commit(t: string, e: Entry, ghost log: Log, files: map<FilePath, seq<Sample>>)
      requires Valid() && activeToken == Some(t) && e.model == entries[t].model
      requires EntryValid(e, log, FileAt(files, e.wavPath))
      modifies this
      ensures Valid()
      ensures entries == old(entries)[t := e] && wavFiles == files
      ensures unchanged(this`activeToken, this`activeModel, this`ui, this`textFiles) && apiCalls == old(apiCalls)
    {
      entries := entries[t := e];
      logs := logs[t := log];
      wavFiles := files;
    }

    /** `_stop_recording`: a no-op when the UI has no token.  Otherwise the
        recording stops (the workers are taken to finish at their next loop
        test, so the stop signal they are sent is never read here), the UI
        reports as `StopReport` says, the transcript file is saved when the
        report says so, and every per-token entry is removed. */
    method Stop(now: DateTime)
      requires Valid() && ValidDateTime(now)
      modifies this
      ensures Valid()
      ensures old(ui.token).None? ==> unchanged(this)
      ensures old(ui.token).Some? ==>
        var e := old(entries)[old(ui.token).value];
        var r := StopReport(variant, old(ui), e, FileAt(old(wavFiles), e.wavPath), now);
        activeToken == None && activeModel == None && entries == map[] && ui == r.ui
        && textFiles == Saved(old(textFiles), r.saved)
      ensures wavFiles == old(wavFiles) && apiCalls == old(apiCalls)
    {
      if ui.token.None? {
        return;
      }
      var e := entries[ui.token.value];
      var r := StopReport(variant, ui, e, FileAt(wavFiles, e.wavPath), now);
      Finish(r);
    }

    /** The bookkeeping of a stop whose report is `r`. */
    method Finish(r: StopResult)
      requires Valid() && r.ui.token == None
      modifies this
      ensures Valid()
      ensures activeToken == None && activeModel == None && entries == map[] && ui == r.ui
      ensures textFiles == Saved(old(textFiles), r.saved)
      ensures wavFiles == old(wavFiles) && apiCalls == old(apiCalls)
    {
      activeToken := None;
      activeModel := None;
      textFiles := Saved(textFiles, r.saved);
      ui := r.ui;
      entries := map[];
      logs := map[];
    }
  }

  /** The text files after writing `saved`, if anything. */
  function Saved(files: map<FilePath, string>, saved: Option<(FilePath, string)>): map<FilePath, string> {
    if saved.Some? then files[saved.value.0 := saved.value.1] else files
  }

  /** The content of the file at `path`, if there is one. */
  function FileAt(files: map<FilePath, seq<Sample>>, path: FilePath): Option<seq<Sample>> {
    if path in files then Some(files[path]) else None
  }

  /** The model `_stop_recording` bills: the token's, else the UI's, else
      whisper-1. */
  function ModelUsed(ui: UiState, e: Entry): string {
    if e.model.Some? then e.model.value
    else if ui.modelName.Some? then ui.modelName.value
    else Whisper
  }

  /** The UI after stopping, and the transcript file written, if any. */
  datatype StopResult = StopResult(ui: UiState, saved: Option<(FilePath, string)>)

  /** What `_stop_recording` reports for an entry whose WAV file holds
      `file`: the segments become the final transcript; when the recording
      holds audio and the transcript is not empty, the transcript is saved
      next to the recording with a header stamped `now`; the widget also
      reports the model, the bytes and the estimated cost. */
  function StopReport(v: Variant, ui: UiState, e: Entry, file: Option<seq<Sample>>, now: DateTime): (r: StopResult)
    requires Stamped(e.segments) && ValidDateTime(now)
    ensures !r.ui.active && r.ui.token == None
  {
    var transcript := FormatSegments(e.segments);
    var status := StopStatus(file, transcript);
    var model := ModelUsed(ui, e);
    var target := TranscriptPath(e.wavPath);
    var u := ui.(active := false, token := None, status := status);
    var u := if status == StatusDone then u.(lastTranscript := transcript, lastPath := PathText(target)) else u;
    var u := if v == Widget
             then u.(lastModelName := Some(model), lastBytesWritten := e.bytesWritten,
                     lastCost := Some(EstimateCost(model, AudioMinutes(e.bytesWritten), transcript)))
             else u;
    StopResult(u, if status == StatusDone then Some((target, TranscriptFileText(FormatStamp(now), e.wavPath.name, transcript))) else None)
  }

  /** Stopping reports the status of the recording and the transcript. */
  lemma StopReportsStatus(v: Variant, ui: UiState, e: Entry, file: Option<seq<Sample>>, now: DateTime)
    requires Stamped(e.segments) && ValidDateTime(now)
    ensures var r := StopReport(v, ui, e, file, now);
      r.ui.status == StopStatus(file, FormatSegments(e.segments))
      && r.ui.path == ui.path && r.ui.modelName == ui.modelName && r.ui.segmentCount == ui.segmentCount
  {
  }

  /** The transcript is saved, next to the recording, exactly when the
      recording holds audio and there is at least one segment; a recording
      with no segments is never saved. */
  lemma StopSavesOnlyWhenDone(v: Variant, ui: UiState, e: Entry, file: Option<seq<Sample>>, now: DateTime)
    requires Stamped(e.segments) && ValidDateTime(now)
    ensures var r := StopReport(v, ui, e, file, now);
      r.saved.Some? <==> file.Some? && |file.value| > 0 && e.segments != []
    ensures var r := StopReport(v, ui, e, file, now);
      var transcript := FormatSegments(e.segments);
      r.saved.Some? ==>
        r.saved.value == (TranscriptPath(e.wavPath), TranscriptFileText(FormatStamp(now), e.wavPath.name, transcript))
        && r.ui.lastTranscript == transcript && r.ui.lastPath == PathText(r.saved.value.0)
    ensures var r := StopReport(v, ui, e, file, now);
      r.saved.None? ==> r.ui.lastTranscript == ui.lastTranscript && r.ui.lastPath == ui.lastPath
  {
    StopStatusCases(file, FormatSegments(e.segments));
  }

  /** The widget bills the model the recording used, for the bytes its WAV
      worker wrote; the page reports no cost. */
  lemma StopReportsCost(v: Variant, ui: UiState, e: Entry, file: Option<seq<Sample>>, now: DateTime)
    requires Stamped(e.segments) && ValidDateTime(now)
    ensures var r := StopReport(v, ui, e, file, now);
      var transcript := FormatSegments(e.segments);
      (v == Widget ==>
         r.ui.lastModelName == Some(ModelUsed(ui, e)) && r.ui.lastBytesWritten == e.bytesWritten
         && r.ui.lastCost == Some(EstimateCost(ModelUsed(ui, e), AudioMinutes(e.bytesWritten), transcript)))
      && (v == Page ==>
         r.ui.lastModelName == ui.lastModelName && r.ui.lastBytesWritten == ui.lastBytesWritten
         && r.ui.lastCost == ui.lastCost)
  {
  }

  /** The bytes the WAV worker counted are those of the samples in the
      file: a stopped widget bills exactly the recorded audio. */
  lemma BilledBytesMatchFile(e: Entry, log: Log, file: Option<seq<Sample>>)
    requires EntryValid(e, log, file) && e.writerOpen
    ensures e.bytesWritten == 2 * |file.value|
    ensures WavFileSize(file.value) == 44 + e.bytesWritten
  {
  }
}
