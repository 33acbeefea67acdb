/**
  The pure rules of the session detail page: the directory a session's
  recordings and transcripts go to, how the speaker's photo is found and
  embedded, and the initials shown when there is no photo to show.  The file
  system is a parameter: the set of paths that exist and the set of those
  that can be read.
 */
module SessionDetail {
  import opened Wrappers
  import opened PyText
  import opened SpeakerModel
  import opened SessionModel
  import opened TranscriptionWidget
  import AdminPanel

  // ---------------------------------------------------------------------
  // _sanitize_directory_name / _session_transcription_dir

  /** `\w` of Python's `re` on the characters this model distinguishes:
      ASCII letters and digits, "_", the Latin-1 letters and digits, and the
      CJK Unified Ideographs block. */
  predicate IsWordChar(c: char) {
    var n := c as int;
    IsAsciiLetter(c) || IsAsciiDigit(c) || c == '_'
    || n == 0xAA || n == 0xB2 || n == 0xB3 || n == 0xB5 || n == 0xB9 || n == 0xBA
    || 0xBC <= n <= 0xBE || 0xC0 <= n <= 0xD6 || 0xD8 <= n <= 0xF6 || 0xF8 <= n <= 0xFF
    || 0x4E00 <= n <= 0x9FFF
  }

  /** The class `[\w一-鿿-]` the substitution keeps. */
  predicate IsDirNameChar(c: char) {
    IsWordChar(c) || 0x4E00 <= c as int <= 0x9FFF || c == '-'
  }

  predicate IsUnderscore(c: char) { c == '_' }

  /** A name `_sanitize_directory_name` returns unchanged. */
  predicate IsCleanDirName(s: string) {
    |s| > 0 && s[0] != '_' && s[|s| - 1] != '_'
    && forall i :: 0 <= i < |s| ==> IsDirNameChar(s[i])
  }

  lemma {:induction false} DirNameCharNotSpace(c: char)
    requires IsDirNameChar(c)
    ensures !IsSpace(c) && c != '/' && c != '.' && c != '\\'
  {
  }

  /** `_sanitize_directory_name(value)`: trim, turn each run outside the class
      into one "_", trim underscores, and fall back to "session". */
  function SanitizeDirectoryName(value: string): (r: string)
    ensures IsCleanDirName(r)
  {
    var subbed := SubRuns(Strip(value), IsDirNameChar, '_');
    StripByKeeps(subbed, IsUnderscore, IsDirNameChar);
    var cleaned := StripBy(subbed, IsUnderscore);
    if cleaned == [] then "session" else cleaned
  }

  /** A clean name is its own sanitized form. */
  lemma {:induction false} SanitizeKeepsCleanDirName(s: string)
    requires IsCleanDirName(s)
    ensures SanitizeDirectoryName(s) == s
  {
    DirNameCharNotSpace(s[0]);
    DirNameCharNotSpace(s[|s| - 1]);
    StripNoop(s, IsSpace);
    SubRunsKeepsClass(s, IsDirNameChar, '_');
    StripNoop(s, IsUnderscore);
  }

  /** The sanitized name is never empty, holds no whitespace, path separator
      or dot, does not start or end with "_", and sanitizing it again changes
      nothing. */
  lemma {:induction false} SanitizeDirectoryNameShape(value: string)
    ensures var r := SanitizeDirectoryName(value);
      r != [] && r[0] != '_' && r[|r| - 1] != '_'
      && (forall i :: 0 <= i < |r| ==> !IsSpace(r[i]) && r[i] != '/' && r[i] != '.')
      && SanitizeDirectoryName(r) == r
  {
    var r := SanitizeDirectoryName(value);
    forall i | 0 <= i < |r| ensures !IsSpace(r[i]) && r[i] != '/' && r[i] != '.' {
      DirNameCharNotSpace(r[i]);
    }
    SanitizeKeepsCleanDirName(r);
  }

  /** `Path("resource") / _sanitize_directory_name(session.title or session.id)` */
  function SessionTranscriptionDir(s: Session): (r: FilePath)
    ensures r.parent == "resource"
    ensures r.name == SanitizeDirectoryName(if s.title != "" then s.title else s.id)
  {
    FilePath("resource", SanitizeDirectoryName(if s.title != "" then s.title else s.id))
  }

  /** The transcription directory is a single directory directly below
      "resource": its name is not empty, ".", "..", nor a path. */
  lemma {:induction false} TranscriptionDirInsideResource(s: Session)
    ensures var d := SessionTranscriptionDir(s);
      d.parent == "resource" && d.name != "" && '/' !in d.name && '.' !in d.name
  {
    SanitizeDirectoryNameShape(if s.title != "" then s.title else s.id);
  }

  // ---------------------------------------------------------------------
  // _get_image_base64

  /** The MIME type `_get_image_base64` writes for a lowercased suffix. */
  function MimeType(ext: string): (r: string)
    ensures r in {"image/jpeg", "image/png", "image/gif", "image/webp"}
    ensures ext == ".png" ==> r == "image/png"
    ensures ext == ".gif" ==> r == "image/gif"
    ensures ext == ".webp" ==> r == "image/webp"
    ensures ext !in {".png", ".gif", ".webp"} ==> r == "image/jpeg"
  {
    if ext == ".png" then "image/png"
    else if ext == ".gif" then "image/gif"
    else if ext == ".webp" then "image/webp"
    else "image/jpeg"
  }

  /** Every photo the admin panel stores is embedded with the MIME type of its
      own format. */
  lemma {:induction false} StoredPhotosHaveTheirMime(ext: string)
    requires ext in AdminPanel.AllowedPhotoExtensions
    ensures MimeType(ext) == "image/" + (if ext == ".jpg" then "jpeg" else ext[1..])
  {
    if ext == ".png" {
      assert ext[1..] == "png";
    } else if ext == ".jpg" {
    } else if ext == ".jpeg" {
      assert ext[1..] == "jpeg";
    } else {
      assert ext == ".gif" && ext[1..] == "gif";
    }
  }

  /** A `data:` URI of a file's bytes; the base64 text itself is not
      modelled, the file it encodes stands for it. */
  datatype DataUri = DataUri(mime: string, file: string)

  /** The file system as the page sees it. */
  datatype Disk = Disk(existing: set<string>, readable: set<string>)

  /** `_get_image_base64(path)`: nothing when the file is missing or cannot be
      read, otherwise its data URI, typed by its lowercased suffix. */
  function ImageBase64(path: string, disk: Disk): (r: Option<DataUri>)
    ensures r.Some? <==> path in disk.existing && path in disk.readable
    ensures r.Some? ==> r.value.file == path && r.value.mime == MimeType(Lower(PathSuffix(PathName(path))))
  {
    if path !in disk.existing || path !in disk.readable then None
    else Some(DataUri(MimeType(Lower(PathSuffix(PathName(path)))), path))
  }

  // ---------------------------------------------------------------------
  // _detail_speaker_html

  /** What the speaker block shows in place of the photo. */
  datatype SpeakerImage =
    | NoImage
    | LinkedImage(url: string)
    | EmbeddedImage(uri: DataUri)
    | InitialsPlaceholder(initials: string)

  predicate IsRemote(photo: string) {
    StartsWith(photo, "http://") || StartsWith(photo, "https://") || StartsWith(photo, "data:")
  }

  /** `photo_path.replace("\\", "/")` */
  function NormalizeSeparators(photo: string): (r: string)
    ensures |r| == |photo| && '\\' !in r
    ensures forall i :: 0 <= i < |r| ==> r[i] == (if photo[i] == '\\' then '/' else photo[i])
  {
    seq(|photo|, i requires 0 <= i < |photo| => if photo[i] == '\\' then '/' else photo[i])
  }

  /** The file the page tries: the given path if it exists, otherwise the
      first existing fallback location of the same file name, otherwise the
      given path again. */
  function LocatePhoto(path: string, disk: Disk): (r: string)
    ensures r == path || r in disk.existing
    ensures path in disk.existing ==> r == path
    ensures r != path ==> r == "resource/speaker-photo/" + PathName(path) || r == "images/speakers/" + PathName(path)
  {
    if path in disk.existing then path
    else if "resource/speaker-photo/" + PathName(path) in disk.existing then "resource/speaker-photo/" + PathName(path)
    else if "images/speakers/" + PathName(path) in disk.existing then "images/speakers/" + PathName(path)
    else path
  }

  /** `"".join(word[0] for word in name.split()[:2]).upper()` */
  function Initials(name: string): (r: string)
  {
    var words := PyTake(Words(name), 2);
    Upper(seq(|words|, k requires 0 <= k < |words| => words[k][0]))
  }

  /** The initials have one letter per word, for at most the first two words,
      each the uppercased first character of its word. */
  lemma {:induction false} InitialsShape(name: string)
    ensures var ws := Words(name); var r := Initials(name);
      |r| == (if |ws| < 2 then |ws| else 2)
      && forall k :: 0 <= k < |r| ==> r[k] == UpperChar(ws[k][0])
  {
  }

  /** The image of the speaker block. */
  function SpeakerImageOf(speaker: Speaker, disk: Disk): (r: SpeakerImage)
    ensures speaker.photo == "" <==> r.NoImage?
    ensures speaker.photo != "" && IsRemote(speaker.photo) ==> r == LinkedImage(speaker.photo)
    ensures r.EmbeddedImage? ==>
      !IsRemote(speaker.photo) && '\\' !in r.uri.file && r.uri.file in disk.existing && r.uri.file in disk.readable
    ensures r.InitialsPlaceholder? ==> r.initials == Initials(speaker.name)
  {
    var photo := speaker.photo;
    if photo == "" then NoImage
    else if IsRemote(photo) then LinkedImage(photo)
    else
      var path := NormalizeSeparators(photo);
      var file := LocatePhoto(path, disk);
      NoBackslashInPhotoName(path);
      match ImageBase64(file, disk)
      case Some(uri) => EmbeddedImage(uri)
      case None => InitialsPlaceholder(Initials(speaker.name))
  }

  lemma {:induction false} NoBackslashInPhotoName(path: string)
    requires '\\' !in path
    ensures '\\' !in "resource/speaker-photo/" + PathName(path)
    ensures '\\' !in "images/speakers/" + PathName(path)
  {
    var n := PathName(path);
    assert forall i :: 0 <= i < |n| ==> n[i] == path[|path| - |n| + i];
  }

  /** A local photo is embedded exactly when the given path, or a fallback
      location of its file name, exists and can be read; the placeholder
      appears otherwise. */
  lemma {:induction false} LocalPhotoEmbedded(speaker: Speaker, disk: Disk)
    requires speaker.photo != "" && !IsRemote(speaker.photo)
    ensures var path := NormalizeSeparators(speaker.photo);
      var file := LocatePhoto(path, disk);
      var r := SpeakerImageOf(speaker, disk);
      (r.EmbeddedImage? <==> file in disk.existing && file in disk.readable)
      && (r.EmbeddedImage? ==> r.uri == DataUri(MimeType(Lower(PathSuffix(PathName(file)))), file))
      && (r.InitialsPlaceholder? <==> !(file in disk.existing && file in disk.readable))
  {
  }

  /** A photo stored in the speaker-photo directory and referred to by any
      other directory is still found there. */
  lemma {:induction false} MovedPhotoFound(speaker: Speaker, disk: Disk)
    requires speaker.photo != "" && !IsRemote(speaker.photo)
    requires NormalizeSeparators(speaker.photo) !in disk.existing
    requires "resource/speaker-photo/" + PathName(NormalizeSeparators(speaker.photo)) in disk.existing
    ensures LocatePhoto(NormalizeSeparators(speaker.photo), disk)
      == "resource/speaker-photo/" + PathName(NormalizeSeparators(speaker.photo))
  {
  }
}
