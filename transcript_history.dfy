/**
  The transcript history panel: which transcript files of a directory are
  loaded (newest first, at most `limit`), what one loaded file records (its
  text, a preview, its modification time and size, and the first error met),
  and what the panel shows for each record.  The directory is a snapshot
  given as a parameter; the thread pool that reads the files concurrently is
  not modelled, since `gather` returns the records in the order of the
  selected files.
 */
module TranscriptHistory {
  import opened Wrappers
  import opened PyText

  const PreviewCharLimit := 4000
  const Ellipsis := "…"

  // ---------------------------------------------------------------------
  // Previews

  /** The inline preview: the stripped text, cut to `n` characters, trimmed
      and marked with "…" when it is longer (a zero `n` disables the cut). */
  function Preview(raw: string, n: int): string {
    var p := Strip(raw);
    if n != 0 && |p| > n then RStrip(PyTake(p, n)) + Ellipsis else p
  }

  /** A preview is the whole stripped text when that fits, and otherwise a
      prefix of it of at most `n` characters followed by "…"; so it is never
      longer than `n + 1` characters. */
  lemma {:induction false} PreviewShape(raw: string, n: int)
    ensures var p := Strip(raw); var r := Preview(raw, n);
      (n == 0 || |p| <= n ==> r == p)
      && (n > 0 && |p| > n ==>
            |r| <= n + 1 && r[|r| - 1] == '…' && r[..|r| - 1] == p[..|r| - 1])
      && (n > 0 ==> |r| <= n + 1)
  {
    var p := Strip(raw);
    if n > 0 && |p| > n {
      var t := RStrip(p[..n]);
      assert PyTake(p, n) == p[..n];
      assert t == p[..n][..|t|];
      var r := t + Ellipsis;
      assert r[..|r| - 1] == t;
    }
  }

  // ---------------------------------------------------------------------
  // Loading one file

  /** What `stat()` reports about a file. */
  datatype Stat = Stat(mtime: int, size: nat)

  /** Why a `stat()` failed; only `FileNotFoundError` is caught while sorting. */
  datatype StatError = FileNotFound(message: string) | OtherStatError(message: string)

  function StatMessage(e: StatError): string {
    match e
    case FileNotFound(m) => m
    case OtherStatError(m) => m
  }

  /** A transcript file as the loader finds it: the outcome of reading it as
      UTF-8 and of `stat()`, with the exception text as the error. */
  datatype TranscriptFile = TranscriptFile(path: string, read: Result<string, string>, stat: Result<Stat, StatError>)

  datatype TranscriptRecord = TranscriptRecord(
    path: string,
    filename: string,
    content: string,
    preview: string,
    modifiedAt: int,
    sizeBytes: nat,
    error: Option<string>)

  /** `_load_single_transcript`: a failed read leaves the content empty and
      records its error; a failed `stat()` gives time 0 and size 0 and
      records its error only when the read did not fail already. */
  function LoadOne(f: TranscriptFile, previewChars: int): (r: TranscriptRecord)
    ensures r.path == f.path && r.filename == PathName(f.path)
    ensures r.content == (if f.read.Ok? then f.read.value else "")
    ensures r.preview == Preview(r.content, previewChars)
    ensures f.stat.Ok? ==> r.modifiedAt == f.stat.value.mtime && r.sizeBytes == f.stat.value.size
    ensures f.stat.Err? ==> r.modifiedAt == 0 && r.sizeBytes == 0
    ensures r.error.None? <==> f.read.Ok? && f.stat.Ok?
    ensures f.read.Err? ==> r.error == Some(f.read.error)
    ensures f.read.Ok? && f.stat.Err? ==> r.error == Some(StatMessage(f.stat.error))
  {
    var content := if f.read.Ok? then f.read.value else "";
    var readError := if f.read.Ok? then None else Some(f.read.error);
    var mtime := if f.stat.Ok? then f.stat.value.mtime else 0;
    var size := if f.stat.Ok? then f.stat.value.size else 0;
    var error := if f.stat.Ok? || readError.Some? then readError else Some(StatMessage(f.stat.error));
    TranscriptRecord(f.path, PathName(f.path), content, Preview(content, previewChars), mtime, size, error)
  }

  // ---------------------------------------------------------------------
  // Choosing the files

  predicate Stated(files: seq<TranscriptFile>) {
    forall k :: 0 <= k < |files| ==> files[k].stat.Ok?
  }

  /** Newest first: modification times never increase along the list. */
  predicate NewestFirstOrder(files: seq<TranscriptFile>)
    requires Stated(files)
  {
    forall i, j :: 0 <= i < j < |files| ==> files[i].stat.value.mtime >= files[j].stat.value.mtime
  }

  /** Puts `f` in front of the first file that is not newer than it. */
  function InsertNewest(f: TranscriptFile, sorted: seq<TranscriptFile>): (r: seq<TranscriptFile>)
    requires f.stat.Ok? && Stated(sorted)
    ensures Stated(r)
    ensures multiset(r) == multiset(sorted) + multiset{f}
    decreases |sorted|
  {
    if sorted == [] || sorted[0].stat.value.mtime <= f.stat.value.mtime then [f] + sorted
    else
      assert sorted == [sorted[0]] + sorted[1..];
      [sorted[0]] + InsertNewest(f, sorted[1..])
  }

  /** No file of `files` is newer than `t`. */
  predicate NoneNewerThan(t: int, files: seq<TranscriptFile>)
    requires Stated(files)
  {
    forall k :: 0 <= k < |files| ==> files[k].stat.value.mtime <= t
  }

  lemma {:induction false} InsertKeepsBound(t: int, f: TranscriptFile, sorted: seq<TranscriptFile>)
    requires f.stat.Ok? && Stated(sorted)
    requires NoneNewerThan(t, sorted) && f.stat.value.mtime <= t
    ensures NoneNewerThan(t, InsertNewest(f, sorted))
    decreases |sorted|
  {
    if !(sorted == [] || sorted[0].stat.value.mtime <= f.stat.value.mtime) {
      InsertKeepsBound(t, f, sorted[1..]);
    }
  }

  /** Inserting into a newest-first list keeps it newest first. */
  lemma {:induction false} InsertKeepsOrder(f: TranscriptFile, sorted: seq<TranscriptFile>)
    requires f.stat.Ok? && Stated(sorted) && NewestFirstOrder(sorted)
    ensures NewestFirstOrder(InsertNewest(f, sorted))
    decreases |sorted|
  {
    var r := InsertNewest(f, sorted);
    if sorted == [] || sorted[0].stat.value.mtime <= f.stat.value.mtime {
      assert r == [f] + sorted;
    } else {
      var top := sorted[0].stat.value.mtime;
      var rest := InsertNewest(f, sorted[1..]);
      InsertKeepsOrder(f, sorted[1..]);
      InsertKeepsBound(top, f, sorted[1..]);
      assert r == [sorted[0]] + rest;
      forall i, j | 0 <= i < j < |r| ensures r[i].stat.value.mtime >= r[j].stat.value.mtime {
        if i > 0 {
          assert r[i] == rest[i - 1] && r[j] == rest[j - 1];
        } else {
          assert r[j] == rest[j - 1];
        }
      }
    }
  }

  /** `sorted(files, key=mtime, reverse=True)`: a stable sort, newest first. */
  function NewestFirst(files: seq<TranscriptFile>): (r: seq<TranscriptFile>)
    requires Stated(files)
    ensures Stated(r) && NewestFirstOrder(r)
    ensures multiset(r) == multiset(files)
    decreases |files|
  {
    if files == [] then []
    else
      assert files == [files[0]] + files[1..];
      InsertKeepsOrder(files[0], NewestFirst(files[1..]));
      InsertNewest(files[0], NewestFirst(files[1..]))
  }

  /** The first `stat()` failure met while computing the sort keys, in glob
      order. */
  function FirstStatFailure(files: seq<TranscriptFile>): (r: Option<StatError>)
    ensures r.None? <==> Stated(files)
    decreases |files|
  {
    if files == [] then None
    else if files[0].stat.Err? then Some(files[0].stat.error)
    else
      var rest := FirstStatFailure(files[1..]);
      assert Stated(files) <==> Stated(files[1..]) by {
        if Stated(files[1..]) {
          forall k | 0 <= k < |files| ensures files[k].stat.Ok? {
            if k > 0 { assert files[k] == files[1..][k - 1]; }
          }
        }
      }
      rest
  }

  /** The transcript directory as the loader sees it: missing, not a
      directory, or the files its `*.txt` pattern matches, in glob order. */
  datatype TranscriptDir = MissingDir | NotADirectory | Listing(files: seq<TranscriptFile>)

  /** The first `m` files of a newest-first list are newest first. */
  lemma {:induction false} SortedPrefixOrdered(s: seq<TranscriptFile>, m: nat)
    requires Stated(s) && NewestFirstOrder(s) && m <= |s|
    ensures Stated(s[..m]) && NewestFirstOrder(s[..m])
  {
    var p := s[..m];
    assert forall k :: 0 <= k < m ==> p[k] == s[k];
  }

  /** Nothing after the first `m` files of a newest-first list is newer than
      any of them. */
  lemma {:induction false} SortedPrefixNewest(s: seq<TranscriptFile>, m: nat)
    requires Stated(s) && NewestFirstOrder(s) && m <= |s|
    ensures multiset(s[..m]) <= multiset(s)
    ensures forall i, f :: 0 <= i < m && f in multiset(s) - multiset(s[..m]) ==> s[i].stat.value.mtime >= f.stat.value.mtime
  {
    var tail := s[m..];
    assert s == s[..m] + tail;
    assert multiset(s) - multiset(s[..m]) == multiset(tail);
    forall i, f: TranscriptFile | 0 <= i < m && f in multiset(tail) ensures s[i].stat.value.mtime >= f.stat.value.mtime {
      var j :| 0 <= j < |tail| && tail[j] == f;
      assert s[m + j] == f;
    }
  }

  /** `sorted(...)[:limit]`: at most `limit` files of the directory, newest
      first, and none of the files left out is newer than one kept. */
  function SelectNewest(files: seq<TranscriptFile>, limit: int): (chosen: seq<TranscriptFile>)
    requires Stated(files)
    ensures Stated(chosen) && NewestFirstOrder(chosen)
    ensures multiset(chosen) <= multiset(files)
    ensures limit >= 0 ==> |chosen| <= limit
    ensures 0 <= limit <= |files| ==> |chosen| == limit
    ensures forall i, f :: 0 <= i < |chosen| && f in multiset(files) - multiset(chosen) ==>
      chosen[i].stat.value.mtime >= f.stat.value.mtime
  {
    var candidates := NewestFirst(files);
    assert |candidates| == |files| by {
      assert |multiset(candidates)| == |multiset(files)|;
    }
    SortedPrefixOrdered(candidates, SliceIndex(|candidates|, limit));
    SortedPrefixNewest(candidates, SliceIndex(|candidates|, limit));
    PyTake(candidates, limit)
  }

  /** `load_transcripts`: no records for a missing directory or when a file
      vanished while sorting; any other `stat()` failure propagates as the
      error; otherwise the records of the selected files, in their order. */
  function LoadTranscripts(dir: TranscriptDir, limit: int, previewChars: int): (r: Result<seq<TranscriptRecord>, string>)
    ensures !dir.Listing? ==> r == Ok([])
    ensures r.Err? ==> dir.Listing? && FirstStatFailure(dir.files).Some? && FirstStatFailure(dir.files).value.OtherStatError?
    ensures dir.Listing? && Stated(dir.files) ==>
      r.Ok? && |r.value| == |SelectNewest(dir.files, limit)|
      && forall k :: 0 <= k < |r.value| ==> r.value[k] == LoadOne(SelectNewest(dir.files, limit)[k], previewChars)
  {
    match dir
    case MissingDir => Ok([])
    case NotADirectory => Ok([])
    case Listing(files) =>
      match FirstStatFailure(files)
      case Some(FileNotFound(_)) => Ok([])
      case Some(OtherStatError(m)) => Err(m)
      case None =>
        var selected := SelectNewest(files, limit);
        if selected == [] then Ok([])
        else Ok(seq(|selected|, k requires 0 <= k < |selected| => LoadOne(selected[k], previewChars)))
  }

  /** The loaded records come out newest first. */
  lemma {:induction false} LoadedNewestFirst(files: seq<TranscriptFile>, limit: int, previewChars: int)
    requires Stated(files)
    ensures var r := LoadTranscripts(Listing(files), limit, previewChars).value;
      forall i, j :: 0 <= i < j < |r| ==> r[i].modifiedAt >= r[j].modifiedAt
  {
    var chosen := SelectNewest(files, limit);
    var r := LoadTranscripts(Listing(files), limit, previewChars).value;
    forall i, j | 0 <= i < j < |r| ensures r[i].modifiedAt >= r[j].modifiedAt {
      assert r[i] == LoadOne(chosen[i], previewChars) && r[j] == LoadOne(chosen[j], previewChars);
    }
  }

  /** A file that vanishes while the keys are computed empties the list; one
      that cannot be examined for another reason raises. */
  lemma {:induction false} StatFailureWhileSorting(files: seq<TranscriptFile>, limit: int, previewChars: int)
    requires !Stated(files)
    ensures var r := LoadTranscripts(Listing(files), limit, previewChars);
      (FirstStatFailure(files).value.FileNotFound? ==> r == Ok([]))
      && (FirstStatFailure(files).value.OtherStatError? ==> r == Err(FirstStatFailure(files).value.message))
  {
  }

  // ---------------------------------------------------------------------
  // What the panel shows

  const EmptyFileText := "（檔案為空）"

  /** The text area's text: the whole content, or its first `n` characters,
      trimmed, followed by a line holding "…"; the flag says which. */
  function DisplayText(content: string, n: int): (r: (string, bool))
    ensures !r.1 ==> r.0 == content
    ensures r.1 <==> n != 0 && |content| > n
    ensures r.1 && n > 0 ==>
      2 <= |r.0| <= n + 2 && r.0[|r.0| - 2..] == "\n…" && r.0[..|r.0| - 2] == content[..|r.0| - 2]
  {
    if n != 0 && |content| > n then
      var t := RStrip(PyTake(content, n));
      assert n > 0 ==> PyTake(content, n) == content[..n] && t == content[..n][..|t|];
      (t + "\n…", true)
    else (content, false)
  }

  /** The widget key of record number `idx` (from one): `kind` is "preview"
      or "download", prefixed with the panel's key prefix when there is one. */
  function WidgetKey(keyPrefix: Option<string>, kind: string, idx: nat): string {
    if keyPrefix.Some? && keyPrefix.value != "" then keyPrefix.value + "_transcript_" + kind + "_" + NatToStr(idx)
    else "transcript_" + kind + "_" + NatToStr(idx)
  }

  lemma {:induction false} NatToStrInjective(a: nat, b: nat)
    requires NatToStr(a) == NatToStr(b)
    ensures a == b
  {
    DigitsValueNatToStr(a);
    DigitsValueNatToStr(b);
  }

  /** Two records of one panel never share a widget key. */
  lemma {:induction false} WidgetKeysDistinct(keyPrefix: Option<string>, kind: string, i: nat, j: nat)
    requires i != j
    ensures WidgetKey(keyPrefix, kind, i) != WidgetKey(keyPrefix, kind, j)
  {
    var head := if keyPrefix.Some? && keyPrefix.value != "" then keyPrefix.value + "_transcript_" + kind + "_"
                else "transcript_" + kind + "_";
    var a := NatToStr(i);
    var b := NatToStr(j);
    assert WidgetKey(keyPrefix, kind, i) == head + a;
    assert WidgetKey(keyPrefix, kind, j) == head + b;
    if head + a == head + b {
      assert a == (head + a)[|head|..];
      assert b == (head + b)[|head|..];
      NatToStrInjective(i, j);
    }
  }

  /** One record of the panel: its error, or its text with the truncation
      flag and the key of its text area. */
  datatype RecordView =
    | ErrorView(message: string)
    | TextView(text: string, truncated: bool, key: string)

  function RenderRecord(record: TranscriptRecord, idx: nat, previewChars: int, keyPrefix: Option<string>): (r: RecordView)
    ensures record.error.Some? <==> r.ErrorView?
    ensures r.ErrorView? ==> r.message == "無法讀取逐字稿：" + record.error.value
    ensures r.TextView? ==> r.text != "" && r.key == WidgetKey(keyPrefix, "preview", idx)
    ensures r.TextView? && record.content != "" && !r.truncated ==> r.text == record.content
  {
    match record.error
    case Some(e) => ErrorView("無法讀取逐字稿：" + e)
    case None =>
      var (text, truncated) := DisplayText(record.content, previewChars);
      TextView(if text == "" then EmptyFileText else text, truncated, WidgetKey(keyPrefix, "preview", idx))
  }

  /** The panel: the empty message when nothing was loaded, else one view per
      record, numbered from one. */
  function RenderHistory(records: seq<TranscriptRecord>, previewChars: int, keyPrefix: Option<string>): (r: Option<seq<RecordView>>)
    ensures r.None? <==> records == []
    ensures r.Some? ==> |r.value| == |records|
  {
    if records == [] then None
    else Some(seq(|records|, k requires 0 <= k < |records| => RenderRecord(records[k], k + 1, previewChars, keyPrefix)))
  }

  /** The text areas of one panel all have different keys. */
  lemma {:induction false} RenderedKeysDistinct(records: seq<TranscriptRecord>, previewChars: int, keyPrefix: Option<string>,
                                                i: nat, j: nat)
    requires records != [] && i < j < |records|
    ensures var v := RenderHistory(records, previewChars, keyPrefix).value;
      v[i].TextView? && v[j].TextView? ==> v[i].key != v[j].key
  {
    WidgetKeysDistinct(keyPrefix, "preview", i + 1, j + 1);
  }
}
