/**
  The pure decisions of the administrator's create and edit forms: the file
  name a photo upload is stored under, which uploads are accepted, how the
  tag field and the time pickers become session fields, and which photo a
  session ends up with for each choice of the photo selectors.  Rendering,
  `st.session_state` and the form widgets themselves are not modelled: what a
  widget returns is a parameter.
 */
module AdminPanel {
  import opened Wrappers
  import opened PyText
  import opened DateUtils
  import opened Records
  import Validation

  const SpeakerPhotoDir := "resource/speaker-photo"
  const SessionIntroPhotoDir := "resource/session_intro_pic"
  const AllowedPhotoExtensions: set<string> := {".png", ".jpg", ".jpeg", ".gif"}

  // ---------------------------------------------------------------------
  // _sanitize_filename

  /** The class `[A-Za-z0-9_-]` of the substitution. */
  predicate IsFileNameChar(c: char) {
    IsAsciiLetter(c) || IsAsciiDigit(c) || c == '_' || c == '-'
  }

  /** What may appear in a sanitized name: `[a-z0-9_-]`. */
  predicate IsLowerFileNameChar(c: char) {
    'a' <= c <= 'z' || IsAsciiDigit(c) || c == '_' || c == '-'
  }

  predicate IsUnderscore(c: char) { c == '_' }

  /** A name `_sanitize_filename` returns unchanged. */
  predicate IsCleanFileName(s: string) {
    |s| > 0 && s[0] != '_' && s[|s| - 1] != '_'
    && forall i :: 0 <= i < |s| ==> IsLowerFileNameChar(s[i])
  }

  /** `_sanitize_filename(name)`: trim, turn each run outside `[A-Za-z0-9_-]`
      into one "_", trim underscores, lowercase, and fall back to "speaker". */
  function SanitizeFilename(name: string): (r: string)
    ensures IsCleanFileName(r)
  {
    var cleaned := Lower(StripBy(SubRuns(Strip(name), IsFileNameChar, '_'), IsUnderscore));
    SanitizedIsClean(SubRuns(Strip(name), IsFileNameChar, '_'));
    if cleaned == [] then "speaker" else cleaned
  }

  /** Trimming underscores off a substituted name and lowercasing it leaves a
      clean name, or nothing. */
  lemma {:induction false} SanitizedIsClean(subbed: string)
    requires forall i :: 0 <= i < |subbed| ==> IsFileNameChar(subbed[i])
    ensures var c := Lower(StripBy(subbed, IsUnderscore)); c == [] || IsCleanFileName(c)
  {
    StripByKeeps(subbed, IsUnderscore, IsFileNameChar);
    var t := StripBy(subbed, IsUnderscore);
    LowerKeepsClass(t);
  }

  /** Lowercasing a name of `[A-Za-z0-9_-]` gives one of `[a-z0-9_-]` with
      underscores in the same places. */
  lemma {:induction false} LowerKeepsClass(t: string)
    requires forall i :: 0 <= i < |t| ==> IsFileNameChar(t[i])
    ensures var c := Lower(t);
      (forall i :: 0 <= i < |c| ==> IsLowerFileNameChar(c[i]))
      && (forall i :: 0 <= i < |c| ==> (c[i] == '_' <==> t[i] == '_'))
  {
    var c := Lower(t);
    forall i | 0 <= i < |c| ensures IsLowerFileNameChar(c[i]) && (c[i] == '_' <==> t[i] == '_') {
      LowerCharClass(t[i]);
    }
  }

  lemma {:induction false} LowerCharClass(ch: char)
    requires IsFileNameChar(ch)
    ensures IsLowerFileNameChar(LowerChar(ch)) && (LowerChar(ch) == '_' <==> ch == '_')
  {
  }

  lemma {:induction false} LowerOfClean(s: string)
    requires forall i :: 0 <= i < |s| ==> IsLowerFileNameChar(s[i])
    ensures Lower(s) == s
  {
  }

  /** A clean name is its own sanitized form. */
  lemma {:induction false} SanitizeKeepsCleanName(s: string)
    requires IsCleanFileName(s)
    ensures SanitizeFilename(s) == s
  {
    assert !IsSpace(s[0]) && !IsSpace(s[|s| - 1]);
    StripNoop(s, IsSpace);
    assert forall i :: 0 <= i < |s| ==> IsFileNameChar(s[i]);
    SubRunsKeepsClass(s, IsFileNameChar, '_');
    StripNoop(s, IsUnderscore);
    LowerOfClean(s);
  }

  /** Sanitizing twice is sanitizing once. */
  lemma {:induction false} SanitizeFilenameIdempotent(name: string)
    ensures SanitizeFilename(SanitizeFilename(name)) == SanitizeFilename(name)
  {
    SanitizeKeepsCleanName(SanitizeFilename(name));
  }

  // ---------------------------------------------------------------------
  // _save_speaker_photo / _save_session_intro_photo

  datatype PhotoKind = SpeakerPhoto | IntroPhoto

  /** An uploaded file; only its name matters to the checks. */
  datatype Upload = Upload(name: string)

  function PhotoDir(kind: PhotoKind): string {
    match kind
    case SpeakerPhoto => SpeakerPhotoDir
    case IntroPhoto => SessionIntroPhotoDir
  }

  function MissingUploadMessage(kind: PhotoKind): string {
    match kind
    case SpeakerPhoto => "請上傳講者照片"
    case IntroPhoto => "請上傳課程照片"
  }

  const UnsupportedFormatMessage := "不支援的圖片格式，請上傳 png/jpg/jpeg/gif 檔案"

  function WriteFailureMessage(kind: PhotoKind, error: string): string {
    match kind
    case SpeakerPhoto => "無法儲存講者照片：" + error
    case IntroPhoto => "無法儲存課程照片：" + error
  }

  /** `Path(uploaded_file.name).suffix.lower()` */
  function UploadSuffix(u: Upload): string {
    Lower(PathSuffix(PathName(u.name)))
  }

  /** `f"{_sanitize_filename(base)}_{timestamp}{suffix}"` */
  function StoredPhotoName(base: string, timestamp: int, suffix: string): string {
    SanitizeFilename(base) + "_" + IntToStr(timestamp) + suffix
  }

  /** Saving an upload: the stored path, or the `ValueError` message.  The
      clock reading `timestamp` is `int(datetime.now().timestamp())`, and
      `writeError` is the failure of `write_bytes`, if any. */
  function SavePhoto(kind: PhotoKind, upload: Option<Upload>, base: string, timestamp: int,
                     writeError: Option<string>): (r: Result<string, string>)
    ensures upload.None? ==> r == Err(MissingUploadMessage(kind))
    ensures upload.Some? && UploadSuffix(upload.value) !in AllowedPhotoExtensions ==>
      r == Err(UnsupportedFormatMessage)
    ensures r.Ok? <==> upload.Some? && UploadSuffix(upload.value) in AllowedPhotoExtensions && writeError.None?
  {
    match upload
    case None => Err(MissingUploadMessage(kind))
    case Some(u) =>
      var suffix := UploadSuffix(u);
      if suffix !in AllowedPhotoExtensions then Err(UnsupportedFormatMessage)
      else
        match writeError
        case Some(e) => Err(WriteFailureMessage(kind, e))
        case None => Ok(PhotoDir(kind) + "/" + StoredPhotoName(base, timestamp, suffix))
  }

  /** `glob("*{ext}")` over the allowed extensions: the names the photo
      galleries list. */
  predicate ListedByGallery(name: string) {
    EndsWith(name, ".png") || EndsWith(name, ".jpg") || EndsWith(name, ".jpeg") || EndsWith(name, ".gif")
  }

  lemma {:induction false} IntToStrNoSeparator(n: int)
    ensures '/' !in IntToStr(n) && '.' !in IntToStr(n)
  {
    var d := NatToStr(if n < 0 then -n else n);
    assert forall i :: 0 <= i < |d| ==> d[i] != '/' && d[i] != '.';
  }

  /** An allowed extension is a dot followed by a dot-free, slash-free tail. */
  lemma {:induction false} AllowedExtensionShape(x: string)
    requires x in AllowedPhotoExtensions
    ensures |x| >= 2 && x[0] == '.' && '.' !in x[1..] && '/' !in x && ListedByGallery("_" + x)
  {
    if x == ".png" {
    } else if x == ".jpg" {
    } else if x == ".jpeg" {
    } else {
      assert x == ".gif";
    }
  }

  /** A gallery lists a name by its ending alone. */
  lemma {:induction false} ListedByEnding(stem: string, x: string)
    requires x in AllowedPhotoExtensions
    ensures ListedByGallery(stem + x)
  {
    EndsWithAppended(stem, x);
  }

  lemma {:induction false} EndsWithAppended(stem: string, x: string)
    ensures EndsWith(stem + x, x)
  {
    var name := stem + x;
    assert name[|name| - |x|..] == x;
  }

  /** The name of a file joined onto a directory is that file's name. */
  lemma {:induction false} PathNameOfJoin(dir: string, name: string)
    requires '/' !in name
    ensures PathName(dir + "/" + name) == name
  {
    var path := dir + "/" + name;
    assert path[|dir|] == '/';
    assert forall j :: |dir| < j < |path| ==> path[j] == name[j - |dir| - 1];
    RFindAfter(path, '/', |dir|);
    assert path[|dir| + 1..] == name;
  }

  /** A stored name has no directory part, keeps the extension it was given,
      and ends the way the galleries look for. */
  lemma {:induction false} StoredNameShape(clean: string, digits: string, suffix: string)
    requires '/' !in clean && '/' !in digits && suffix in AllowedPhotoExtensions
    ensures var name := clean + "_" + digits + suffix;
      '/' !in name && PathSuffix(name) == suffix && ListedByGallery(name)
  {
    AllowedExtensionShape(suffix);
    var stem := clean + "_" + digits;
    NoSlashJoined(clean, digits, suffix);
    DottedStoredName(stem, suffix);
    ListedByEnding(stem, suffix);
  }

  lemma {:induction false} NoSlashJoined(clean: string, digits: string, suffix: string)
    requires '/' !in clean && '/' !in digits && '/' !in suffix
    ensures '/' !in clean + "_" + digits + suffix
  {
    var name := clean + "_" + digits + suffix;
    forall i | 0 <= i < |name| ensures name[i] != '/' {
      if i < |clean| {
        assert name[i] == clean[i];
      } else if i == |clean| {
      } else if i < |clean| + 1 + |digits| {
        assert name[i] == digits[i - |clean| - 1];
      } else {
        assert name[i] == suffix[i - |clean| - 1 - |digits|];
      }
    }
  }

  lemma {:induction false} DottedStoredName(stem: string, suffix: string)
    requires |stem| > 0 && |suffix| >= 2 && suffix[0] == '.' && '.' !in suffix[1..]
    ensures PathSuffix(stem + suffix) == suffix
  {
    var ext := suffix[1..];
    assert suffix == "." + ext;
    assert stem + suffix == stem + "." + ext;
    SuffixOfDottedName(stem, ext);
  }

  /** A saved photo lands directly in its kind's directory, under the stored
      name, keeps the upload's (lowercased) extension, and is therefore listed
      by the gallery the selectors offer. */
  lemma {:induction false} SavedPhotoIsListed(kind: PhotoKind, upload: Option<Upload>, base: string,
                                              timestamp: int, writeError: Option<string>)
    requires SavePhoto(kind, upload, base, timestamp, writeError).Ok?
    ensures var path := SavePhoto(kind, upload, base, timestamp, writeError).value;
      var name := StoredPhotoName(base, timestamp, UploadSuffix(upload.value));
      path == PhotoDir(kind) + "/" + name
      && PathName(path) == name
      && PathSuffix(name) == UploadSuffix(upload.value)
      && ListedByGallery(name)
  {
    var suffix := UploadSuffix(upload.value);
    var clean := SanitizeFilename(base);
    assert forall i :: 0 <= i < |clean| ==> IsLowerFileNameChar(clean[i]);
    IntToStrNoSeparator(timestamp);
    StoredNameShape(clean, IntToStr(timestamp), suffix);
    PathNameOfJoin(PhotoDir(kind), StoredPhotoName(base, timestamp, suffix));
  }

  // ---------------------------------------------------------------------
  // Form fields

  /** A tag as the form stores it. */
  predicate IsCleanTag(t: string) {
    t != [] && ',' !in t && Strip(t) == t
  }

  /** `[tag.strip() for tag in tags.split(",") if tag.strip()]` */
  function ParseTags(text: string): (r: seq<string>)
    ensures forall k :: 0 <= k < |r| ==> IsCleanTag(r[k])
  {
    CleanTags(Split(text, ','))
  }

  /** A comma-free piece, stripped, is empty or a clean tag. */
  lemma {:induction false} StrippedPieceIsClean(piece: string)
    requires ',' !in piece
    ensures Strip(piece) == [] || IsCleanTag(Strip(piece))
  {
    StripIdempotent(piece);
    StripKeepsAbsent(piece, IsSpace, ',');
  }

  function CleanTags(parts: seq<string>): (r: seq<string>)
    requires forall k :: 0 <= k < |parts| ==> ',' !in parts[k]
    ensures forall k :: 0 <= k < |r| ==> IsCleanTag(r[k])
    decreases |parts|
  {
    if parts == [] then []
    else
      var t := Strip(parts[0]);
      StrippedPieceIsClean(parts[0]);
      (if t == [] then [] else [t]) + CleanTags(parts[1..])
  }

  /** The tags after the first, as `", ".join` lays them out: each carries
      the space of the separator. */
  function Spaced(tags: seq<string>): (r: seq<string>)
    ensures |r| == |tags| && forall k :: 0 <= k < |r| ==> r[k] == " " + tags[k]
    decreases |tags|
  {
    if tags == [] then [] else [" " + tags[0]] + Spaced(tags[1..])
  }

  /** `", ".join(tags)` is the comma join of the first tag and the spaced rest. */
  lemma {:induction false} JoinCommaSpace(tags: seq<string>)
    requires |tags| >= 1
    ensures Join(", ", tags) == Join([','], [tags[0]] + Spaced(tags[1..]))
    decreases |tags|
  {
    if |tags| > 1 {
      var rest := tags[1..];
      JoinCommaSpace(rest);
      JoinCons(", ", tags[0], rest);
      JoinCons([','], tags[0], Spaced(rest));
      assert Spaced(rest) == [" " + rest[0]] + Spaced(rest[1..]);
      if |rest| > 1 {
        JoinCons([','], rest[0], Spaced(rest[1..]));
        JoinCons([','], " " + rest[0], Spaced(rest[1..]));
      } else {
        assert Spaced(rest[1..]) == [];
      }
    } else {
      assert Spaced(tags[1..]) == [];
    }
  }

  lemma {:induction false} StripSpacedTag(t: string)
    requires IsCleanTag(t)
    ensures Strip(" " + t) == t
  {
    StripSpec(t);
    assert (" " + t)[1..] == t;
    assert LStripBy(" " + t, IsSpace) == LStripBy(t, IsSpace);
  }

  /** A clean tag in front is kept as it is. */
  lemma {:induction false} CleanTagsCons(t: string, rest: seq<string>)
    requires Strip(t) != [] && ',' !in t
    requires forall k :: 0 <= k < |rest| ==> ',' !in rest[k]
    ensures CleanTags([t] + rest) == [Strip(t)] + CleanTags(rest)
  {
    assert ([t] + rest)[1..] == rest;
  }

  lemma {:induction false} SpacedCommaFree(tags: seq<string>)
    requires forall k :: 0 <= k < |tags| ==> ',' !in tags[k]
    ensures forall k :: 0 <= k < |Spaced(tags)| ==> ',' !in Spaced(tags)[k]
  {
    var sp := Spaced(tags);
    forall k | 0 <= k < |sp| ensures ',' !in sp[k] {
      assert sp[k] == " " + tags[k];
    }
  }

  lemma {:induction false} CleanSpaced(tags: seq<string>)
    requires forall k :: 0 <= k < |tags| ==> IsCleanTag(tags[k])
    ensures forall k :: 0 <= k < |Spaced(tags)| ==> ',' !in Spaced(tags)[k]
    ensures CleanTags(Spaced(tags)) == tags
    decreases |tags|
  {
    SpacedCommaFree(tags);
    if tags != [] {
      var t := tags[0];
      var rest := Spaced(tags[1..]);
      CleanSpaced(tags[1..]);
      StripSpacedTag(t);
      assert Spaced(tags) == [" " + t] + rest;
      CleanTagsCons(" " + t, rest);
      assert tags == [t] + tags[1..];
    }
  }

  lemma {:induction false} PiecesCommaFree(x: string, rest: seq<string>)
    requires ',' !in x && forall k :: 0 <= k < |rest| ==> ',' !in rest[k]
    ensures forall k :: 0 <= k < |[x] + rest| ==> ',' !in ([x] + rest)[k]
  {
  }

  /** The edit form shows the tags as `", ".join(session.tags)`; submitting
      the field unchanged gives back the same tags. */
  lemma {:induction false} TagsRoundTrip(tags: seq<string>)
    requires forall k :: 0 <= k < |tags| ==> IsCleanTag(tags[k])
    ensures ParseTags(Join(", ", tags)) == tags
  {
    if tags == [] {
      assert Split("", ',') == [""];
      assert CleanTags([""]) == [] by {
        assert Strip("") == [];
        assert [""][1..] == [];
      }
    } else {
      var rest := Spaced(tags[1..]);
      JoinCommaSpace(tags);
      CleanSpaced(tags[1..]);
      PiecesCommaFree(tags[0], rest);
      SplitJoin([tags[0]] + rest, ',');
      CleanTagsCons(tags[0], rest);
      assert tags == [tags[0]] + tags[1..];
    }
  }

  datatype DateMode = SpecificDate | DateTbd
  datatype TimeMode = SpecificTime | TimeTbd

  /** The date field: the picked date in ISO form, or "TBD". */
  function DateValue(mode: DateMode, y: int, m: int, d: int): (r: string)
    requires ValidDate(y, m, d)
    ensures mode.DateTbd? ==> r == "TBD"
    ensures mode.SpecificDate? ==> ParseDate(r) == Ok(DateTime(y, m, d, 0, 0, 0, 0))
  {
    match mode
    case DateTbd => "TBD"
    case SpecificDate => ParseDateRoundTrip(y, m, d); FormatDate(y, m, d)
  }

  predicate ValidClock(t: TimeOfDay) {
    0 <= t.hour < 24 && 0 <= t.minute < 60
  }

  predicate ClockBefore(a: TimeOfDay, b: TimeOfDay) {
    a.hour < b.hour || (a.hour == b.hour && a.minute < b.minute)
  }

  const EndNotAfterStartMessage := "❌ 結束時間必須晚於開始時間"

  /** The time field: "HH:MM-HH:MM" of the two pickers, "TBD", or the error
      shown when the end is not after the start. */
  function TimeValue(mode: TimeMode, start: TimeOfDay, end: TimeOfDay): (r: Result<string, string>)
    requires ValidClock(start) && ValidClock(end)
    ensures mode.TimeTbd? ==> r == Ok("TBD")
    ensures mode.SpecificTime? && !ClockBefore(start, end) ==> r == Err(EndNotAfterStartMessage)
    ensures r.Err? ==> r.error == EndNotAfterStartMessage
  {
    match mode
    case TimeTbd => Ok("TBD")
    case SpecificTime =>
      if !ClockBefore(start, end) then Err(EndNotAfterStartMessage)
      else Ok(FormatHM(start.hour, start.minute) + "-" + FormatHM(end.hour, end.minute))
  }

  lemma {:induction false} TwoValue(n: int)
    requires 0 <= n < 100
    ensures DigitsValue(Two(n)) == n
  {
    var t := Two(n);
    var hi := [DigitChar(n / 10)];
    assert t[..1] == hi;
    assert DigitsValue(hi) == n / 10 by {
      assert hi[..0] == [];
    }
    assert DigitsValue(t) == DigitsValue(hi) * 10 + n % 10;
  }

  /** A formatted clock time passes the validator's clock check and reads back
      as its minute of the day. */
  lemma {:induction false} FormattedClock(h: int, m: int)
    requires 0 <= h < 24 && 0 <= m < 60
    ensures Validation.ClockText(FormatHM(h, m))
    ensures Validation.MinuteOfDay(FormatHM(h, m)) == h * 60 + m
  {
    var a := FormatHM(h, m);
    assert a[0..2] == Two(h) && a[2] == ':' && a[3..5] == Two(m);
    TwoValue(h);
    TwoValue(m);
  }

  /** A formatted range is a valid range text when the start is earlier. */
  lemma {:induction false} FormattedRange(a: string, b: string)
    requires Validation.ClockText(a) && Validation.ClockText(b)
    requires Validation.MinuteOfDay(a) < Validation.MinuteOfDay(b)
    ensures Validation.TimeRangeText(a + "-" + b)
  {
    var s := a + "-" + b;
    assert s[0..5] == a && s[6..11] == b && s[5] == '-';
  }

  /** A picked time range reads back as the two picked times, and passes the
      session validator's time check. */
  lemma {:induction false} TimeValueRoundTrip(start: TimeOfDay, end: TimeOfDay)
    requires ValidClock(start) && ValidClock(end) && ClockBefore(start, end)
    ensures TimeValue(SpecificTime, start, end).Ok?
    ensures var s := TimeValue(SpecificTime, start, end).value;
      ParseTime(s) == Ok((start, end))
      && Validation.ValidateTimeFormat(JStr(s)).Ok?
  {
    var a := FormatHM(start.hour, start.minute);
    var b := FormatHM(end.hour, end.minute);
    ParseTimeRoundTrip(start.hour, start.minute, end.hour, end.minute);
    FormattedClock(start.hour, start.minute);
    FormattedClock(end.hour, end.minute);
    FormattedRange(a, b);
  }

  // ---------------------------------------------------------------------
  // Photo selectors and how the forms use their answer

  /** The radio options of the intro-photo selector. */
  datatype IntroMode = KeepCurrent | NoPhotoMode | FromExisting | UploadNew

  /** The `(mode, data)` pair a selector returns. */
  datatype PhotoChoice =
    | Keep(current: Option<string>)
    | NoPhoto
    | Existing(path: Option<string>)
    | UploadChoice(file: Option<Upload>)

  /** `_render_session_intro_photo_selector`'s answer: `dropdown` is what the
      gallery's select box returned (shown only when there are photos) and
      `uploaded` what the file uploader holds. */
  function IntroPhotoChoice(mode: IntroMode, current: Option<string>, existing: seq<string>,
                            dropdown: Option<string>, uploaded: Option<Upload>): (r: PhotoChoice)
    ensures mode.FromExisting? && existing == [] ==> r == NoPhoto
  {
    match mode
    case KeepCurrent => Keep(current)
    case NoPhotoMode => NoPhoto
    case FromExisting => if existing == [] then NoPhoto else Existing(dropdown)
    case UploadNew => UploadChoice(uploaded)
  }

  datatype SpeakerMode = SpeakerFromExisting | SpeakerUpload

  /** `_render_speaker_photo_selector`'s answer: choosing the gallery when it
      is empty falls back to an upload with no file. */
  function SpeakerPhotoChoice(mode: SpeakerMode, existing: seq<string>, dropdown: Option<string>,
                              uploaded: Option<Upload>): (r: PhotoChoice)
    ensures r.Existing? || r.UploadChoice?
    ensures mode.SpeakerFromExisting? && existing == [] ==> r == UploadChoice(None)
  {
    match mode
    case SpeakerFromExisting => if existing == [] then UploadChoice(None) else Existing(dropdown)
    case SpeakerUpload => UploadChoice(uploaded)
  }

  /** Python truthiness of an optional path. */
  predicate Given(p: Option<string>) {
    p.Some? && p.value != ""
  }

  /** `value.strip() or fallback` */
  function OrFallback(value: string, fallback: string): string {
    if Strip(value) != "" then Strip(value) else fallback
  }

  /** The edit form's intro photo: the current one unless the choice supplies
      a replacement or removes it; a failed save is reported and stops the
      update. */
  function EditIntroPhoto(choice: PhotoChoice, current: Option<string>, title: string,
                          timestamp: int, writeError: Option<string>): (r: Result<Option<string>, string>)
  {
    match choice
    case Keep(_) => Ok(current)
    case NoPhoto => Ok(None)
    case Existing(p) => if Given(p) then Ok(p) else Ok(current)
    case UploadChoice(None) => Ok(current)
    case UploadChoice(Some(f)) =>
      match SavePhoto(IntroPhoto, Some(f), OrFallback(title, "session"), timestamp, writeError)
      case Ok(path) => Ok(Some(path))
      case Err(e) => Err("❌ 課程照片上傳失敗：" + e)
  }

  /** The edit form's speaker photo, by the same rule without a "none". */
  function EditSpeakerPhoto(choice: PhotoChoice, current: string, speakerName: string,
                            timestamp: int, writeError: Option<string>): (r: Result<string, string>)
    requires choice.Existing? || choice.UploadChoice?
  {
    match choice
    case Existing(p) => if Given(p) then Ok(p.value) else Ok(current)
    case UploadChoice(None) => Ok(current)
    case UploadChoice(Some(f)) =>
      match SavePhoto(SpeakerPhoto, Some(f), OrFallback(speakerName, "speaker"), timestamp, writeError)
      case Ok(path) => Ok(path)
      case Err(e) => Err("❌ 上傳失敗：" + e)
  }

  /** When the selectors supply nothing new, the edit form keeps the current
      photos; it replaces them exactly with what is supplied otherwise. */
  lemma {:induction false} EditKeepsCurrentPhoto(choice: PhotoChoice, current: Option<string>, speakerCurrent: string,
                                                 name: string, timestamp: int, writeError: Option<string>)
    ensures (choice.Keep? || (choice.Existing? && !Given(choice.path)) || choice == UploadChoice(None))
      ==> EditIntroPhoto(choice, current, name, timestamp, writeError) == Ok(current)
    ensures ((choice.Existing? && !Given(choice.path)) || choice == UploadChoice(None))
      ==> EditSpeakerPhoto(choice, speakerCurrent, name, timestamp, writeError) == Ok(speakerCurrent)
    ensures choice.Existing? && Given(choice.path) ==>
      EditIntroPhoto(choice, current, name, timestamp, writeError) == Ok(choice.path)
      && EditSpeakerPhoto(choice, speakerCurrent, name, timestamp, writeError) == Ok(choice.path.value)
    ensures choice == NoPhoto ==> EditIntroPhoto(choice, current, name, timestamp, writeError) == Ok(None)
  {
  }

  /** Choosing "from the gallery" while the gallery is empty submits as "no
      photo": the edit form then drops the current intro photo. */
  lemma {:induction false} EmptyGalleryDropsIntroPhoto(current: Option<string>, dropdown: Option<string>,
                                                       uploaded: Option<Upload>, title: string, timestamp: int)
    ensures EditIntroPhoto(IntroPhotoChoice(FromExisting, current, [], dropdown, uploaded), current, title, timestamp, None)
      == Ok(None)
  {
  }

  /** A new upload in the edit form is stored through `SavePhoto` and becomes
      the photo; a rejected upload leaves the session untouched with an error. */
  lemma {:induction false} EditUploadStored(f: Upload, current: Option<string>, title: string,
                                            timestamp: int, writeError: Option<string>)
    ensures var saved := SavePhoto(IntroPhoto, Some(f), OrFallback(title, "session"), timestamp, writeError);
      var r := EditIntroPhoto(UploadChoice(Some(f)), current, title, timestamp, writeError);
      (saved.Ok? ==> r == Ok(Some(saved.value))) && (saved.Err? ==> r.Err?)
      && (r.Ok? <==> UploadSuffix(f) in AllowedPhotoExtensions && writeError.None?)
  {
  }

  /** The create form's speaker photo: a gallery choice must name a photo, an
      upload must be present and is saved. */
  function CreateSpeakerPhoto(choice: PhotoChoice, speakerName: string, timestamp: int,
                              writeError: Option<string>): (r: Result<string, string>)
    requires choice.Existing? || choice.UploadChoice?
    ensures choice.Existing? ==> (r.Ok? <==> Given(choice.path))
    ensures choice == UploadChoice(None) ==> r == Err("❌ 請上傳講者照片")
    ensures choice.UploadChoice? && choice.file.Some? ==>
      (r.Ok? <==> UploadSuffix(choice.file.value) in AllowedPhotoExtensions && writeError.None?)
  {
    match choice
    case Existing(p) => if Given(p) then Ok(p.value) else Err("❌ 請選擇講者照片")
    case UploadChoice(None) => Err("❌ 請上傳講者照片")
    case UploadChoice(Some(f)) =>
      match SavePhoto(SpeakerPhoto, Some(f), OrFallback(speakerName, "speaker"), timestamp, writeError)
      case Ok(path) => Ok(path)
      case Err(e) => Err("❌ 上傳失敗：" + e)
  }

  /** The create form's intro photo: optional; only a present upload is saved. */
  function CreateIntroPhoto(choice: PhotoChoice, title: string, timestamp: int,
                            writeError: Option<string>): (r: Result<Option<string>, string>)
    ensures choice.Existing? ==> r == Ok(choice.path)
    ensures choice.Keep? || choice.NoPhoto? || choice == UploadChoice(None) ==> r == Ok(None)
    ensures r.Err? ==> choice.UploadChoice? && choice.file.Some?
  {
    match choice
    case Existing(p) => Ok(p)
    case UploadChoice(Some(f)) =>
      (match SavePhoto(IntroPhoto, Some(f), OrFallback(title, "session"), timestamp, writeError)
       case Ok(path) => Ok(Some(path))
       case Err(e) => Err("❌ 課程照片上傳失敗：" + e))
    case _ => Ok(None)
  }
}
