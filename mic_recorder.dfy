/**
  The microphone capture page (src/ui/mic_recorder_page.py): the third copy
  of the token-keyed recording registry.  It records only: the frame
  callback counts frames, tracks the sample rate the browser reports and
  queues the PCM; one worker writes the queue to a WAV file opened at the
  detected rate; stopping removes every per-token entry and reports how much
  was recorded.  As in the transcription registry, the dictionaries are the
  maps of one object, the worker's loop body is one method call, and the
  clock, the frames and write failures are parameters.
 */
module MicRecorder {
  import opened Wrappers
  import opened AudioUtils
  import opened DateUtils
  import opened TranscriptionModels
  import opened TranscriptionWidget
  import opened Registry

  const MicSampleRate: int := 48000
  const MicResourceDir: string := "resource"

  /** `RecorderStats`: the bytes written, the mean square of the last frame
      written (`last_rms` before the root) and the sample rate last reported
      by the browser. */
  datatype RecorderStats = RecorderStats(bytesWritten: int, lastRms: real, detectedSampleRate: int)

  const DefaultStats: RecorderStats := RecorderStats(0, 0.0, MicSampleRate)

  /** A WAV file on disk: its header's frame rate and its samples. */
  datatype WavFile = WavFile(rate: int, samples: seq<Sample>)

  /** The entries a running worker owns: `_recorder_queues`, whether
      `_active_recorders` holds an open writer, and the stop event; with
      them the worker's own count of the chunks it wrote. */
  datatype Worker = Worker(queue: seq<QueueItem>, writerOpen: bool, stop: bool, chunks: nat)

  /** The worker logs its progress every this many chunks written. */
  const ProgressEvery: nat := 50

  /** What the per-token dictionaries hold for one token; the worker's part
      is absent once it has exited. */
  datatype MicEntry = MicEntry(stats: RecorderStats, path: FilePath, callbackCount: int, worker: Option<Worker>)

  /** One token's history: the frames the queue accepted, those the worker
      took off it, those written, and whether the file was ever opened. */
  datatype MicLog = MicLog(accepted: seq<seq<Sample>>, taken: seq<seq<Sample>>,
                           written: seq<seq<Sample>>, fileOpened: bool)

  /** `mic_capture_status`: empty, "開始錄音：<file>", the silent stop, or the
      stop after so many seconds. */
  datatype MicStatus = NoStatus | Recording(filename: string) | StoppedSilent | StoppedAfter(seconds: real)

  /** The keys of the UI session state the page sets. */
  datatype MicUi = MicUi(active: bool, token: Option<string>, path: string, lastBytes: int,
                         startedAt: Option<real>, status: MicStatus, lastRefresh: real,
                         lastRms: real, workerActive: bool)

  const InitialMicUi: MicUi := MicUi(false, None, "", 0, None, NoStatus, 0.0, 0.0, false)

  /** "mic-record-YYYYmmdd-HHMMSS.wav" */
  function MicFileName(t: DateTime): (r: string)
    requires ValidDateTime(t)
    ensures |r| == 30
  {
    "mic-record-" + CompactStamp(t) + ".wav"
  }

  /** The rate the worker opens the file at: the detected one, or 48000
      when that is 0. */
  function OpenRate(detected: int): (r: int)
    requires detected >= 0
    ensures r > 0
    ensures detected != 0 ==> r == detected
  {
    if detected != 0 then detected else MicSampleRate
  }

  /** The entries `_start_recording` creates. */
  function NewMicEntry(path: FilePath): MicEntry {
    MicEntry(DefaultStats, path, 0, Some(Worker([], false, false, 0)))
  }

  /** The entry's accounts: while the worker runs, every accepted frame was
      taken in order or still waits, and everything taken is in the file in
      order (empty payloads add nothing); the file holds exactly the frames
      written, at a positive rate, and the byte count is theirs. */
  predicate MicEntryValid(e: MicEntry, log: MicLog, file: Option<WavFile>) {
    e.stats.detectedSampleRate >= 0 && e.callbackCount >= 0
    && e.stats.bytesWritten == 2 * TotalLen(log.written)
    && (log.fileOpened ==> file.Some? && file.value.rate > 0 && file.value.samples == Concat(log.written))
    && (!log.fileOpened ==> log.written == [])
    && (e.worker.Some? ==>
          var w := e.worker.value;
          |w.queue| <= QueueCapacity
          && log.accepted == log.taken + FramesOf(w.queue)
          && Concat(log.taken) == Concat(log.written)
          && (w.writerOpen <==> log.fileOpened))
  }

  lemma NewMicEntryValid(path: FilePath, file: Option<WavFile>)
    ensures MicEntryValid(NewMicEntry(path), MicLog([], [], [], false), file)
  {
    assert FramesOf([]) == [] && Concat([]) == [];
  }

  // ---------------------------------------------------------------------
  // The frame callback

  /** Whether the callback gets past its `try` block: the conversion must
      succeed, and the diagnostics printed for the first frame divide by
      the frame's rate, so a first frame at rate 0 raises there too. */
  predicate CallbackCompletes(e: MicEntry, converted: Option<seq<Sample>>, rate: nat) {
    converted.Some? && !(e.callbackCount == 0 && rate == 0)
  }

  /** The callback's effect on the entry for a frame at `rate` Hz whose
      conversion gave `converted` (None when it raised): the count rises by
      one; a callback that completes sets the detected rate to the frame's
      and queues the frame, unless the worker is gone or the queue is full. */
  function MicPushEntry(e: MicEntry, converted: Option<seq<Sample>>, rate: nat): MicEntry {
    var e1 := e.(callbackCount := e.callbackCount + 1);
    if !CallbackCompletes(e, converted, rate) then e1
    else
      var pcm := converted.value;
      var e2 := e1.(stats := e1.stats.(detectedSampleRate := rate));
      if e2.worker.Some? && |e2.worker.value.queue| < QueueCapacity
      then e2.(worker := Some(e2.worker.value.(queue := e2.worker.value.queue + [Frame(pcm, MeanSquare(pcm))])))
      else e2
  }

  ghost function MicPushLog(e: MicEntry, log: MicLog, converted: Option<seq<Sample>>, rate: nat): MicLog {
    if CallbackCompletes(e, converted, rate) && e.worker.Some? && |e.worker.value.queue| < QueueCapacity
    then log.(accepted := log.accepted + [converted.value])
    else log
  }

  /** Every callback is counted exactly once; after a callback that
      completes the detected rate is that frame's, whatever it was before,
      and a first frame at rate 0 leaves the stats and the queue alone. */
  lemma MicPushCountsAndRate(e: MicEntry, converted: Option<seq<Sample>>, rate: nat)
    ensures MicPushEntry(e, converted, rate).callbackCount == e.callbackCount + 1
    ensures MicPushEntry(e, converted, rate).stats ==
      if converted.Some? && !(e.callbackCount == 0 && rate == 0)
      then e.stats.(detectedSampleRate := rate) else e.stats
    ensures e.callbackCount == 0 && rate == 0 ==> MicPushEntry(e, converted, rate).worker == e.worker
    ensures MicPushEntry(e, converted, rate).path == e.path
  {
  }

  /** A full queue drops the frame; otherwise it is queued last. */
  lemma MicPushDropsWhenFull(e: MicEntry, pcm: seq<Sample>, rate: nat)
    requires e.worker.Some? && rate > 0
    ensures var w := MicPushEntry(e, Some(pcm), rate).worker;
      w.Some? && w.value.stop == e.worker.value.stop && w.value.writerOpen == e.worker.value.writerOpen
      && w.value.chunks == e.worker.value.chunks
      && w.value.queue == if |e.worker.value.queue| < QueueCapacity
                          then e.worker.value.queue + [Frame(pcm, MeanSquare(pcm))]
                          else e.worker.value.queue
  {
  }

  lemma MicPushPreserves(e: MicEntry, log: MicLog, file: Option<WavFile>, converted: Option<seq<Sample>>, rate: nat)
    requires MicEntryValid(e, log, file)
    ensures MicEntryValid(MicPushEntry(e, converted, rate), MicPushLog(e, log, converted, rate), file)
  {
    if CallbackCompletes(e, converted, rate) && e.worker.Some? && |e.worker.value.queue| < QueueCapacity {
      FramesOfSnoc(e.worker.value.queue, Frame(converted.value, MeanSquare(converted.value)));
    }
  }

  // ---------------------------------------------------------------------
  // The worker

  /** What one pass of `_recorder_worker`'s loop does. */
  datatype MicStep =
    | MicIdle | MicExit | MicSkip | MicFail(pcm: seq<Sample>)
    | MicWrite(pcm: seq<Sample>, meanSquare: real, exits: bool)

  /** A gone worker does nothing; a set stop event or the stop signal ends
      the loop; an empty queue means waiting; an empty payload is taken and
      skipped; a failed write (`writeFails`) ends the loop; otherwise the
      oldest frame is written, and when that makes a multiple of 50 chunks
      the progress log divides by the detected rate, which ends the loop
      after the write when that rate is 0. */
  function MicDecision(e: MicEntry, writeFails: bool): MicStep {
    if e.worker.None? then MicIdle
    else
      var w := e.worker.value;
      if w.stop then MicExit
      else if w.queue == [] then MicIdle
      else if w.queue[0].Sentinel? then MicExit
      else if w.queue[0].pcm == [] then MicSkip
      else if writeFails then MicFail(w.queue[0].pcm)
      else MicWrite(w.queue[0].pcm, w.queue[0].meanSquare,
                    (w.chunks + 1) % ProgressEvery == 0 && e.stats.detectedSampleRate == 0)
  }

  /** The entry after the pass: on exit the worker's entries (writer,
      thread, stop event, queue) are removed, while the stats and the path
      stay. */
  function MicWorkerEntry(e: MicEntry, step: MicStep): MicEntry
    requires step == MicIdle || e.worker.Some?
    requires (step.MicSkip? || step.MicWrite?) ==> |e.worker.value.queue| > 0
  {
    match step
    case MicIdle => e
    case MicExit => e.(worker := None)
    case MicFail(_) => e.(worker := None)
    case MicSkip => e.(worker := Some(e.worker.value.(queue := e.worker.value.queue[1..])))
    case MicWrite(pcm, ms, exits) =>
      var w := e.worker.value;
      e.(worker := if exits then None
                   else Some(w.(queue := w.queue[1..], writerOpen := true, chunks := w.chunks + 1)),
         stats := e.stats.(bytesWritten := e.stats.bytesWritten + 2 * |pcm|, lastRms := ms))
  }

  /** The file after the pass: the first write creates it at `OpenRate` of
      the detected rate; every write appends the frame. */
  function MicWorkerFile(e: MicEntry, file: Option<WavFile>, step: MicStep): Option<WavFile>
    requires e.stats.detectedSampleRate >= 0
    requires step.MicWrite? ==> e.worker.Some?
  {
    match step
    case MicWrite(pcm, _, _) =>
      if e.worker.value.writerOpen && file.Some? then Some(file.value.(samples := file.value.samples + pcm))
      else Some(WavFile(OpenRate(e.stats.detectedSampleRate), pcm))
    case _ => file
  }

  ghost function MicWorkerLog(log: MicLog, step: MicStep): MicLog {
    match step
    case MicSkip => log.(taken := log.taken + [[]])
    case MicFail(pcm) => log.(taken := log.taken + [pcm])
    case MicWrite(pcm, _, _) => log.(taken := log.taken + [pcm], written := log.written + [pcm], fileOpened := true)
    case _ => log
  }

  /** Frames are written in the order they were accepted, and a write error
      or the stop ends the worker. */
  lemma MicWorkerPreserves(e: MicEntry, log: MicLog, file: Option<WavFile>, writeFails: bool)
    requires MicEntryValid(e, log, file)
    ensures var s := MicDecision(e, writeFails);
      (s == MicIdle || e.worker.Some?)
      && ((s.MicSkip? || s.MicWrite?) ==> |e.worker.value.queue| > 0)
      && MicEntryValid(MicWorkerEntry(e, s), MicWorkerLog(log, s), MicWorkerFile(e, file, s))
  {
    var s := MicDecision(e, writeFails);
    match s
    case MicIdle =>
    case MicExit =>
    case MicFail(_) =>
    case MicSkip =>
      var q := e.worker.value.queue;
      assert FramesOf(q) == [q[0].pcm] + FramesOf(q[1..]);
      assert log.taken + [q[0].pcm] + FramesOf(q[1..]) == log.taken + FramesOf(q);
      ConcatSnoc(log.taken, q[0].pcm);
      ConcatSnoc(log.written, []);
      assert Concat(log.written + [[]]) == Concat(log.written);
    case MicWrite(_, _, exits) =>
      MicWriteKeepsAccounts(e, log, file, exits);
  }

  /** Writing the oldest queued frame moves it from the queue to the end of
      the file, whether or not the worker then stops. */
  lemma MicWriteKeepsAccounts(e: MicEntry, log: MicLog, file: Option<WavFile>, exits: bool)
    requires MicEntryValid(e, log, file)
    requires e.worker.Some? && |e.worker.value.queue| > 0 && e.worker.value.queue[0].Frame?
    ensures var q := e.worker.value.queue;
      var s := MicWrite(q[0].pcm, q[0].meanSquare, exits);
      MicEntryValid(MicWorkerEntry(e, s), MicWorkerLog(log, s), MicWorkerFile(e, file, s))
  {
    var q := e.worker.value.queue;
    assert FramesOf(q) == [q[0].pcm] + FramesOf(q[1..]);
    assert log.taken + [q[0].pcm] + FramesOf(q[1..]) == log.taken + FramesOf(q);
    ConcatSnoc(log.taken, q[0].pcm);
    ConcatSnoc(log.written, q[0].pcm);
  }

  /** A written frame is the oldest accepted frame not yet taken. */
  lemma MicWritesOldest(e: MicEntry, log: MicLog, file: Option<WavFile>, writeFails: bool)
    requires MicEntryValid(e, log, file)
    requires MicDecision(e, writeFails).MicWrite?
    ensures |log.accepted| > |log.taken| && log.accepted[|log.taken|] == MicDecision(e, writeFails).pcm
  {
    var q := e.worker.value.queue;
    assert FramesOf(q) == [q[0].pcm] + FramesOf(q[1..]);
  }

  // ---------------------------------------------------------------------
  // Stopping

  /** The stop status as `_stop_recording` computes it, None when it
      raises: with bytes written, the duration divides by the detected rate,
      which is 0 when the browser reported no rate. */
  function MicStopStatusAsWritten(stats: RecorderStats): Option<MicStatus> {
    if stats.bytesWritten == 0 then Some(StoppedSilent)
    else if stats.detectedSampleRate == 0 then None
    else Some(StoppedAfter(stats.bytesWritten as real / (stats.detectedSampleRate * 2) as real))
  }

  /** Frames that report rate 0: the first one raises in the callback and is
      dropped, the second sets the detected rate to 0 and is queued, the
      worker writes it to a file opened at the 48000 fallback, and then the
      stop raises dividing by the detected rate. */
  lemma ZeroRateStopRaises(path: FilePath)
    ensures var pcm: seq<Sample> := [1];
      var e1 := MicPushEntry(NewMicEntry(path), Some(pcm), 0);
      var e2 := MicPushEntry(e1, Some(pcm), 0);
      var s := MicDecision(e2, false);
      s == MicWrite(pcm, 1.0, false)
      && MicWorkerFile(e2, None, s) == Some(WavFile(48000, pcm))
      && MicWorkerEntry(e2, s).stats == RecorderStats(2, 1.0, 0)
      && MicStopStatusAsWritten(MicWorkerEntry(e2, s).stats) == None
  {
    var pcm: seq<Sample> := [1];
    assert pcm[..0] == [];
    assert SumSq(pcm) == 1;
  }

  /** With a detected rate of 0 the worker writes its 50th chunk and then
      stops: the frame is in the file and counted, and the worker is gone. */
  lemma ZeroRateWorkerStops(e: MicEntry)
    requires e.worker.Some? && !e.worker.value.stop && e.worker.value.chunks == ProgressEvery - 1
    requires e.worker.value.queue != [] && e.worker.value.queue[0].Frame? && e.worker.value.queue[0].pcm != []
    requires e.stats.detectedSampleRate == 0
    ensures var s := MicDecision(e, false);
      s.MicWrite? && s.exits && MicWorkerEntry(e, s).worker.None?
      && MicWorkerEntry(e, s).stats.bytesWritten == e.stats.bytesWritten + 2 * |e.worker.value.queue[0].pcm|
  {
  }

  /** The stop status with the worker's fallback rate: silent exactly when
      nothing was written, otherwise the seconds of audio at the rate the
      worker would open the file at. */
  function MicStopStatus(stats: RecorderStats): (r: MicStatus)
    requires stats.detectedSampleRate >= 0
    ensures r == StoppedSilent <==> stats.bytesWritten == 0
    ensures r != StoppedSilent ==> r.StoppedAfter?
  {
    if stats.bytesWritten == 0 then StoppedSilent
    else StoppedAfter(stats.bytesWritten as real / (OpenRate(stats.detectedSampleRate) * 2) as real)
  }

  /** Where the source does not raise, the corrected status is its status. */
  lemma MicStopStatusAgrees(stats: RecorderStats)
    requires stats.detectedSampleRate >= 0
    requires stats.bytesWritten == 0 || stats.detectedSampleRate != 0
    ensures MicStopStatusAsWritten(stats) == Some(MicStopStatus(stats))
  {
  }

  /** The seconds reported are the samples written over the rate. */
  lemma MicStopSeconds(e: MicEntry, log: MicLog, file: Option<WavFile>)
    requires MicEntryValid(e, log, file) && e.stats.bytesWritten != 0
    ensures MicStopStatus(e.stats).seconds * OpenRate(e.stats.detectedSampleRate) as real
            == TotalLen(log.written) as real
  {
  }

  /** The session-state keys the end of `_stop_recording` resets. */
  function MicResetUi(ui: MicUi): MicUi {
    ui.(active := false, token := None, lastRefresh := 0.0, workerActive := false)
  }

  /** The UI after a stop that found `stats`: the bytes and the last RMS are
      reported first; when the duration raises, the status and the keys the
      stop would reset keep their old values, otherwise the status is set and
      the page goes idle. */
  function MicStopUi(ui: MicUi, stats: RecorderStats): (r: MicUi)
    requires stats.detectedSampleRate >= 0
    ensures r.lastBytes == stats.bytesWritten && r.lastRms == stats.lastRms
    ensures r.path == ui.path && r.startedAt == ui.startedAt
    ensures MicStopStatusAsWritten(stats).None? ==>
      r.active == ui.active && r.token == ui.token && r.status == ui.status
      && r.lastRefresh == ui.lastRefresh && r.workerActive == ui.workerActive
    ensures MicStopStatusAsWritten(stats).Some? ==>
      !r.active && r.token == None && r.lastRefresh == 0.0 && !r.workerActive
      && r.status == MicStopStatus(stats)
  {
    var reported := ui.(lastBytes := stats.bytesWritten, lastRms := stats.lastRms);
    match MicStopStatusAsWritten(stats)
    case None => reported
    case Some(status) =>
      MicStopStatusAgrees(stats);
      MicResetUi(reported.(status := status))
  }

  // ---------------------------------------------------------------------
  // The page

  class MicRecorderPage {
    /** `_current_token` */
    var currentToken: Option<string>
    /** The per-token dictionaries, one entry per token. */
    var entries: map<string, MicEntry>
    var ui: MicUi
    var wavFiles: map<FilePath, WavFile>
    ghost var logs: map<string, MicLog>

    /** The current token is the UI's and is set exactly while the page is
        active; only it can have entries, and then its accounts balance.  An
        active token without entries is what a stop that raised leaves. */
    ghost predicate Valid()
      reads this
    {
      ui.token == currentToken && (ui.active <==> currentToken.Some?)
      && entries.Keys <= Tokens(currentToken) && logs.Keys == entries.Keys
      && (currentToken.Some? && currentToken.value in entries ==>
            var e := entries[currentToken.value];
            MicEntryValid(e, logs[currentToken.value], FileOf(wavFiles, e.path)))
    }

    constructor (wavFiles: map<FilePath, WavFile>)
      ensures Valid()
      ensures currentToken == None && entries == map[] && ui == InitialMicUi && this.wavFiles == wavFiles
    {
      currentToken := None;
      entries := map[];
      ui := InitialMicUi;
      this.wavFiles := wavFiles;
      logs := map[];
    }

    /** `_start_recording`: ignored while the page is active; otherwise
        `token` (a fresh uuid4) becomes current with default stats, a path
        under "resource" named after `clock`, an empty queue and a running
        worker; `startTime` is the wall clock. */
    method Start(token: string, clock: DateTime, startTime: real)
      requires Valid() && ValidDateTime(clock)
      modifies this
      ensures Valid()
      ensures old(ui.active) ==> unchanged(this)
      ensures !old(ui.active) ==>
        var path := FilePath(MicResourceDir, MicFileName(clock));
        currentToken == Some(token) && entries == map[token := NewMicEntry(path)]
        && ui == MicUi(true, Some(token), PathText(path), 0, Some(startTime), Recording(MicFileName(clock)),
                       old(ui.lastRefresh), 0.0, true)
      ensures wavFiles == old(wavFiles)
    {
      if ui.active {
        return;
      }
      var name := MicFileName(clock);
      var path := FilePath(MicResourceDir, name);
      NewMicEntryValid(path, FileOf(wavFiles, path));
      currentToken := Some(token);
      entries := map[token := NewMicEntry(path)];
      logs := map[token := MicLog([], [], [], false)];
      ui := MicUi(true, Some(token), PathText(path), 0, Some(startTime), Recording(name), ui.lastRefresh, 0.0, true);
    }

    /** The audio callback for a frame at `rate` Hz whose conversion (with
        gain 2.0) gave `converted`, or None when it raised: without a
        current token nothing happens; otherwise as `MicPushEntry` says. */
    method PushFrame(converted: Option<seq<Sample>>, rate: nat)
      requires Valid()
      modifies this
      ensures Valid()
      ensures !HasEntry(old(currentToken), old(entries)) ==> unchanged(this)
      ensures HasEntry(old(currentToken), old(entries)) ==>
        var t := old(currentToken).value;
        entries == old(entries)[t := MicPushEntry(old(entries)[t], converted, rate)]
      ensures unchanged(this`currentToken, this`ui, this`wavFiles)
    {
      if !HasEntry(currentToken, entries) {
        return;
      }
      var t := currentToken.value;
      var e := entries[t];
      MicPushPreserves(e, logs[t], FileOf(wavFiles, e.path), converted, rate);
      Commit(t, MicPushEntry(e, converted, rate), MicPushLog(e, logs[t], converted, rate), wavFiles);
    }

    /** One pass of `_recorder_worker`'s loop for the current token, as
        `MicDecision` says; `writeFails` says whether writing the frame
        raises. */
    method WorkerStep(writeFails: bool)
      requires Valid()
      modifies this
      ensures Valid()
      ensures !HasEntry(old(currentToken), old(entries)) ==> unchanged(this)
      ensures HasEntry(old(currentToken), old(entries)) ==>
        var t := old(currentToken).value;
        var e := old(entries)[t];
        var s := MicDecision(e, writeFails);
        var after := MicWorkerFile(e, FileOf(old(wavFiles), e.path), s);
        (s == MicIdle || e.worker.Some?) && ((s.MicSkip? || s.MicWrite?) ==> |e.worker.value.queue| > 0)
        && entries == old(entries)[t := MicWorkerEntry(e, s)]
        && wavFiles == (if after.Some? then old(wavFiles)[e.path := after.value] else old(wavFiles))
      ensures unchanged(this`currentToken, this`ui)
    {
      if !HasEntry(currentToken, entries) {
        return;
      }
      var t := currentToken.value;
      var e := entries[t];
      var file := FileOf(wavFiles, e.path);
      var s := MicDecision(e, writeFails);
      MicWorkerPreserves(e, logs[t], file, writeFails);
      var after := MicWorkerFile(e, file, s);
      var files := if after.Some? then wavFiles[e.path := after.value] else wavFiles;
      assert FileOf(files, e.path) == after;
      Commit(t, MicWorkerEntry(e, s), MicWorkerLog(logs[t], s), files);
    }

    /** Puts back the current token's entry after one step. */
    method Commit(t: string, e: MicEntry, ghost log: MicLog, files: map<FilePath, WavFile>)
      requires Valid() && currentToken == Some(t)
      requires MicEntryValid(e, log, FileOf(files, e.path))
      modifies this
      ensures Valid()
      ensures entries == old(entries)[t := e] && wavFiles == files
      ensures unchanged(this`currentToken, this`ui)
    {
      entries := entries[t := e];
      logs := logs[t := log];
      wavFiles := files;
    }

    /** `_stop_recording`: a no-op when the page is not active.  Otherwise
        the worker is signalled (it is taken to finish at its next loop
        test), every per-token entry is removed and the UI reports the stats
        as `MicStopUi` says.  When the duration raises, `raised` is set and
        the current token stays; otherwise, and when an earlier stop had
        already removed the entries, the current token is reset.  The file
        stays as written. */
    method Stop() returns (raised: bool)
      requires Valid()
      modifies this
      ensures Valid()
      ensures !old(ui.active) ==> unchanged(this) && !raised
      ensures old(ui.active) && !HasEntry(old(currentToken), old(entries)) ==>
        !raised && currentToken == None && entries == map[] && ui == MicResetUi(old(ui))
      ensures HasEntry(old(currentToken), old(entries)) ==>
        var stats := old(entries)[old(currentToken).value].stats;
        entries == map[] && ui == MicStopUi(old(ui), stats)
        && (raised <==> MicStopStatusAsWritten(stats).None?)
        && currentToken == (if raised then old(currentToken) else None)
      ensures wavFiles == old(wavFiles)
    {
      raised := false;
      if !ui.active {
        return;
      }
      var t := currentToken.value;
      if t !in entries {
        currentToken := None;
        ui := MicResetUi(ui);
        return;
      }
      var stats := entries[t].stats;
      entries := map[];
      logs := map[];
      ui := MicStopUi(ui, stats);
      raised := MicStopStatusAsWritten(stats).None?;
      if !raised {
        currentToken := None;
      }
    }
  }

  /** A token is current and still has its entries. */
  predicate HasEntry(current: Option<string>, entries: map<string, MicEntry>) {
    current.Some? && current.value in entries
  }

  /** The file at `path`, if there is one. */
  function FileOf(files: map<FilePath, WavFile>, path: FilePath): Option<WavFile> {
    if path in files then Some(files[path]) else None
  }
}
