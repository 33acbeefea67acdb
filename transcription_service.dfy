/**
  The helpers of src/services/transcription_service.py: the guard and the
  text cleanup around one call to the transcription API, the filename
  sanitiser, and the exact lines the transcript writers append.  The API call
  itself is an oracle (`ApiResult`), and the file writers are modelled by the
  text they write.
 */
module TranscriptionService {
  import opened Wrappers
  import opened PyText
  import opened AudioUtils
  import opened DateUtils

  // ---------------------------------------------------------------------
  // The transcription API as an oracle

  /** The exceptions the OpenAI client raises. */
  datatype ApiFailure =
    | AuthenticationError
    | RateLimitError
    | ConnectionError
    | OtherApiError(detail: string)

  /** What one call to the transcription API answered. */
  datatype ApiResult = ApiOk(text: string) | ApiErr(failure: ApiFailure)

  /** The messages the service re-raises each failure with. */
  function ApiMessage(f: ApiFailure): string {
    match f
    case AuthenticationError => "OpenAI API 認證失敗，請檢查 OPENAI_API_KEY 環境變數設定是否正確"
    case RateLimitError => "OpenAI API 速率限制已達上限，請稍後再試或升級 API 方案"
    case ConnectionError => "無法連接到 OpenAI API，請檢查網路連線"
    case OtherApiError(d) => "OpenAI API 發生錯誤: " + d
  }

  datatype TranscribeError =
    | WavTooShort(length: nat)
    | ApiFailed(failure: ApiFailure, message: string)

  /** A string whose only whitespace is single spaces between other characters,
      as `" ".join(text.split())` leaves it. */
  predicate SingleSpaced(s: string) {
    forall i :: 0 <= i < |s| && IsSpace(s[i]) ==>
      s[i] == ' ' && 0 < i < |s| - 1 && !IsSpace(s[i + 1])
  }

  /** `" ".join(text.split())` */
  function CollapseSpaces(s: string): (r: string)
    ensures SingleSpaced(r)
  {
    WordsJoinSingleSpaced(Words(s));
    Join(" ", Words(s))
  }

  /** The cleanup of the API's answer: strip, remove the prompt (as given and
      lower-cased) when it appears case-insensitively, remove "###",
      "context:" and "Context:", give up on answers that echo the
      instructions, and collapse whitespace. */
  function CleanResponse(raw: string, prompt: Option<string>): (r: string)
    ensures SingleSpaced(r)
  {
    FinalAnswer(DropMarkers(DropPrompt(Strip(raw), prompt)))
  }

  /** Removes an echoed prompt, as written and lowercased, when the answer
      mentions it in any ASCII case. */
  function DropPrompt(t: string, prompt: Option<string>): string {
    if prompt.Some? && prompt.value != "" && Contains(Lower(t), Lower(prompt.value))
    then Strip(ReplaceAll(ReplaceAll(t, prompt.value, ""), Lower(prompt.value), ""))
    else t
  }

  /** Removes "###", then "context:" and "Context:", stripping after each step. */
  function DropMarkers(t: string): string {
    var t2 := Strip(ReplaceAll(t, "###", ""));
    Strip(ReplaceAll(ReplaceAll(t2, "context:", ""), "Context:", ""))
  }

  /** Nothing for an answer echoing the instructions, otherwise its words
      separated by single spaces. */
  function FinalAnswer(t: string): (r: string)
    ensures SingleSpaced(r)
  {
    if Contains(Lower(t), "transcribe only") || Contains(Lower(t), "ignore silence") then ""
    else CollapseSpaces(t)
  }

  /** `transcribe_audio_chunk(wav_bytes, language, prompt)` with the API's
      answer given: a WAV of at most the 44-byte header is refused before
      any call, a failing call is re-raised with its message, and an answer
      is cleaned. */
  function TranscribeAudioChunk(wav: seq<Byte>, prompt: Option<string>, api: ApiResult)
    : (r: Result<string, TranscribeError>)
    ensures |wav| <= 44 <==> r == Err(WavTooShort(|wav|))
    ensures |wav| > 44 && api.ApiErr? ==> r == Err(ApiFailed(api.failure, ApiMessage(api.failure)))
    ensures |wav| > 44 && api.ApiOk? ==> r == Ok(CleanResponse(api.text, prompt))
    ensures r.Ok? ==> SingleSpaced(r.value)
  {
    if |wav| <= 44 then Err(WavTooShort(|wav|))
    else if api.ApiErr? then Err(ApiFailed(api.failure, ApiMessage(api.failure)))
    else Ok(CleanResponse(api.text, prompt))
  }

  /** The first word of `w + " " + rest` is `w`. */
  lemma WordLenOfJoin(w: string, rest: string)
    requires w != [] && forall i :: 0 <= i < |w| ==> !IsSpace(w[i])
    ensures WordLen(w + " " + rest) == |w|
    decreases |w|
  {
    var s := w + " " + rest;
    if |w| > 1 {
      assert s[1..] == w[1..] + " " + rest;
      WordLenOfJoin(w[1..], rest);
    } else {
      assert s[1..] == " " + rest;
    }
  }

  /** A word never starts with whitespace, so `Words` skips one space and
      continues. */
  lemma WordsAfterSpace(rest: string)
    ensures Words(" " + rest) == Words(rest)
  {
    assert (" " + rest)[1..] == rest;
  }

  predicate IsWord(w: string) {
    w != [] && forall i :: 0 <= i < |w| ==> !IsSpace(w[i])
  }

  /** Joining words with single spaces and splitting on whitespace gives the
      words back. */
  lemma {:induction false} WordsOfJoin(ws: seq<string>)
    requires forall k :: 0 <= k < |ws| ==> IsWord(ws[k])
    ensures Words(Join(" ", ws)) == ws
    decreases |ws|
  {
    if |ws| == 1 {
      var w := ws[0];
      WordLenNoSpace(w);
      assert Words(w) == [w[..|w|]] + Words(w[|w|..]);
      assert w[..|w|] == w && w[|w|..] == [];
    } else if |ws| > 1 {
      var w := ws[0];
      var rest := Join(" ", ws[1..]);
      var s := w + " " + rest;
      assert Join(" ", ws) == s;
      WordLenOfJoin(w, rest);
      assert s[..|w|] == w;
      assert s[|w|..] == " " + rest;
      WordsAfterSpace(rest);
      WordsOfJoin(ws[1..]);
      assert ws == [w] + ws[1..];
    }
  }

  lemma {:induction false} WordLenNoSpace(w: string)
    requires forall i :: 0 <= i < |w| ==> !IsSpace(w[i])
    ensures WordLen(w) == |w|
    decreases |w|
  {
    if |w| > 0 {
      WordLenNoSpace(w[1..]);
    }
  }

  /** Words joined with single spaces are single-spaced. */
  lemma {:induction false} WordsJoinSingleSpaced(ws: seq<string>)
    requires forall k :: 0 <= k < |ws| ==> IsWord(ws[k])
    ensures SingleSpaced(Join(" ", ws))
    ensures |ws| > 0 ==> IsWord(ws[0]) && |Join(" ", ws)| > 0 && Join(" ", ws)[0] == ws[0][0]
    decreases |ws|
  {
    if |ws| == 1 {
    } else if |ws| > 1 {
      var w := ws[0];
      var rest := Join(" ", ws[1..]);
      WordsJoinSingleSpaced(ws[1..]);
      var s := w + " " + rest;
      assert Join(" ", ws) == s;
      forall i | 0 <= i < |s| && IsSpace(s[i])
        ensures s[i] == ' ' && 0 < i < |s| - 1 && !IsSpace(s[i + 1])
      {
        if i < |w| {
          assert false;
        } else if i == |w| {
          assert s[i + 1] == rest[0] == ws[1][0];
        } else {
          assert s[i] == rest[i - |w| - 1];
          if i + 1 < |s| {
            assert s[i + 1] == rest[i - |w|];
          }
        }
      }
    }
  }

  /** Collapsing whitespace twice is collapsing it once. */
  lemma CollapseSpacesIdempotent(s: string)
    ensures CollapseSpaces(CollapseSpaces(s)) == CollapseSpaces(s)
  {
    WordsOfJoin(Words(s));
  }

  /** An answer that mentions "ignore silence" in any ASCII case is dropped. */
  lemma EchoedInstructionsDropped(raw: string)
    requires var t := Strip(raw);
      '#' !in t && Contains(Lower(t), "ignore silence")
      && !Contains(t, "context:") && !Contains(t, "Context:")
    ensures CleanResponse(raw, None) == ""
  {
    var t := Strip(raw);
    assert DropPrompt(t, None) == t;
    StripIdempotent(raw);
    DropMarkersNoop(t);
  }

  /** A stripped answer without "#" and without either marker is kept. */
  lemma DropMarkersNoop(t: string)
    requires Strip(t) == t && '#' !in t && !Contains(t, "context:") && !Contains(t, "Context:")
    ensures DropMarkers(t) == t
  {
    NotContainedWithoutFirstChar(t, "###");
    NoMatchUnchanged(t, "###");
    NoMatchUnchanged(t, "context:");
    NoMatchUnchanged(t, "Context:");
  }

  /** Replacing a pattern that does not occur changes nothing. */
  lemma {:induction false} NoMatchUnchanged(s: string, pat: string)
    requires |pat| > 0 && !Contains(s, pat)
    ensures ReplaceAll(s, pat, "") == s
    decreases |s|
  {
    if |s| >= |pat| {
      assert s[..|pat|] != pat;
      NoMatchUnchanged(s[1..], pat);
      assert s == [s[0]] + s[1..];
    }
  }

  // ---------------------------------------------------------------------
  // Filename sanitising

  /** The characters of the pattern `[<>:"/\\|?*\x00-\x1f]`. */
  predicate IsInvalidFileChar(c: char) {
    c == '<' || c == '>' || c == ':' || c == '"' || c == '/' || c == '\\'
    || c == '|' || c == '?' || c == '*' || c as int <= 0x1F
  }

  predicate IsValidFileChar(c: char) { !IsInvalidFileChar(c) }

  /** `re.sub(INVALID_CHARS, "_", s)`: one underscore per invalid character. */
  function ReplaceInvalid(s: string): (r: string)
    ensures |r| == |s|
    ensures forall i :: 0 <= i < |s| ==> r[i] == if IsInvalidFileChar(s[i]) then '_' else s[i]
    ensures forall i :: 0 <= i < |r| ==> IsValidFileChar(r[i])
  {
    seq(|s|, i requires 0 <= i < |s| => if IsInvalidFileChar(s[i]) then '_' else s[i])
  }

  predicate IsDot(c: char) { c == '.' }

  const FallbackFilename: string := "transcript"

  /** The fallback name is itself clean. */
  lemma FallbackClean()
    ensures var f := FallbackFilename;
      |f| == 10 && (forall i :: 0 <= i < |f| ==> !IsInvalidFileChar(f[i]) && !IsSpace(f[i]))
      && f[0] != '.' && f[9] != '.'
  {
    var f := FallbackFilename;
    assert f == ['t','r','a','n','s','c','r','i','p','t'];
  }

  /** The whitespace-stripped name with invalid characters replaced and dots
      stripped: free of invalid characters, and neither starting nor ending
      with a dot. */
  function DotStripped(name: string): (c: string)
    ensures forall i :: 0 <= i < |c| ==> !IsInvalidFileChar(c[i])
    ensures c != [] ==> c[0] != '.' && c[|c| - 1] != '.'
  {
    var replaced := ReplaceInvalid(Strip(name));
    StripByKeeps(replaced, IsDot, IsValidFileChar);
    StripBy(replaced, IsDot)
  }

  /** `sanitize_filename(filename)`, as written: strip whitespace, replace
      each invalid character, strip dots, and fall back to "transcript".
      Whitespace that only the dot-stripping exposes is kept. */
  function SanitizeFilename(name: string): (r: string)
    ensures r != []
    ensures forall i :: 0 <= i < |r| ==> !IsInvalidFileChar(r[i])
    ensures r[0] != '.' && r[|r| - 1] != '.'
  {
    var cleaned := DotStripped(name);
    FallbackClean();
    if cleaned == [] then FallbackFilename else cleaned
  }

  /** The name ". ." comes out as a single space: the dots are stripped
      after the whitespace was, so the space between them survives. */
  lemma SanitizeExposesSpace()
    ensures SanitizeFilename(". .") == " "
  {
    StripNoop(". .", IsSpace);
    ReplaceKeepsDotSpaceDot();
    DotStripSpaceDot();
    assert DotStripped(". .") == " ";
  }

  lemma ReplaceKeepsDotSpaceDot()
    ensures ReplaceInvalid(". .") == ". ."
  {
  }

  lemma DotStripSpaceDot()
    ensures StripBy(". .", IsDot) == " "
  {
    assert ". ."[1..] == " .";
    assert LStripBy(". .", IsDot) == " .";
    assert " ."[..1] == " ";
    assert RStripBy(" .", IsDot) == " ";
  }

  predicate IsSpaceOrDot(c: char) { IsSpace(c) || c == '.' }

  /** The documented behaviour of `sanitize_filename`: leading and trailing
      whitespace and dots are all stripped, so the result also never starts
      or ends with whitespace. */
  function SanitizeFilenameIntended(name: string): (r: string)
    ensures r != []
    ensures forall i :: 0 <= i < |r| ==> !IsInvalidFileChar(r[i])
    ensures r[0] != '.' && r[|r| - 1] != '.'
    ensures !IsSpace(r[0]) && !IsSpace(r[|r| - 1])
  {
    var cleaned := FullyStripped(name);
    FallbackClean();
    if cleaned == [] then FallbackFilename else cleaned
  }

  /** The replaced name with whitespace and dots stripped together. */
  function FullyStripped(name: string): (c: string)
    ensures forall i :: 0 <= i < |c| ==> !IsInvalidFileChar(c[i])
    ensures c != [] ==> !IsSpaceOrDot(c[0]) && !IsSpaceOrDot(c[|c| - 1])
  {
    var replaced := ReplaceInvalid(Strip(name));
    StripByKeeps(replaced, IsSpaceOrDot, IsValidFileChar);
    StripBy(replaced, IsSpaceOrDot)
  }

  /** Both versions keep a name that is already clean. */
  lemma SanitizeKeepsCleanName(name: string)
    requires name != []
    requires forall i :: 0 <= i < |name| ==> !IsInvalidFileChar(name[i])
    requires !IsSpace(name[0]) && !IsSpace(name[|name| - 1])
    requires name[0] != '.' && name[|name| - 1] != '.'
    ensures SanitizeFilename(name) == name
    ensures SanitizeFilenameIntended(name) == name
  {
    StripNoop(name, IsSpace);
    assert ReplaceInvalid(name) == name;
    StripNoop(name, IsDot);
    StripNoop(name, IsSpaceOrDot);
  }

  /** The two versions agree unless the as-written result begins or ends
      with whitespace. */
  lemma SanitizeVersionsAgree(name: string)
    requires var r := SanitizeFilename(name); !IsSpace(r[0]) && !IsSpace(r[|r| - 1])
    ensures SanitizeFilenameIntended(name) == SanitizeFilename(name)
  {
    var replaced := ReplaceInvalid(Strip(name));
    var c := StripBy(replaced, IsDot);
    if c == [] {
      DotsOnly(replaced);
      AllStripped(replaced, IsSpaceOrDot);
    } else {
      StripThenStrip(replaced);
    }
  }

  /** A string that dot-stripping empties is all dots. */
  lemma DotsOnly(s: string)
    requires StripBy(s, IsDot) == []
    ensures forall i :: 0 <= i < |s| ==> s[i] == '.'
  {
    var l := LStripBy(s, IsDot);
    assert RStripBy(l, IsDot) == [];
  }

  /** When the dot-stripped piece starts and ends outside whitespace,
      stripping whitespace and dots together gives the same piece. */
  lemma StripThenStrip(s: string)
    requires var c := StripBy(s, IsDot); c != [] && !IsSpace(c[0]) && !IsSpace(c[|c| - 1])
    ensures StripBy(s, IsSpaceOrDot) == StripBy(s, IsDot)
  {
    LStripSame(s);
    var l := LStripBy(s, IsDot);
    RStripSame(l);
  }

  lemma {:induction false} LStripSame(s: string)
    requires var l := LStripBy(s, IsDot); l != [] && !IsSpace(l[0])
    ensures LStripBy(s, IsSpaceOrDot) == LStripBy(s, IsDot)
    decreases |s|
  {
    if |s| > 0 && IsDot(s[0]) {
      LStripSame(s[1..]);
    }
  }

  lemma {:induction false} RStripSame(s: string)
    requires var r := RStripBy(s, IsDot); r != [] && !IsSpace(r[|r| - 1])
    ensures RStripBy(s, IsSpaceOrDot) == RStripBy(s, IsDot)
    decreases |s|
  {
    if |s| > 0 && IsDot(s[|s| - 1]) {
      RStripSame(s[..|s| - 1]);
    }
  }

  /** A name of dots alone falls back to "transcript" in both versions. */
  lemma SanitizeFallback(name: string)
    requires forall i :: 0 <= i < |name| ==> name[i] == '.'
    ensures SanitizeFilename(name) == "transcript"
    ensures SanitizeFilenameIntended(name) == "transcript"
  {
    StripNoop(name, IsSpace);
    assert ReplaceInvalid(name) == name;
    AllStripped(name, IsDot);
    AllStripped(name, IsSpaceOrDot);
  }

  /** Stripping a string made only of stripped characters leaves nothing. */
  lemma AllStripped(s: string, p: char -> bool)
    requires forall i :: 0 <= i < |s| ==> p(s[i])
    ensures StripBy(s, p) == []
  {
  }

  /** Punctuation becomes underscores. */
  lemma SanitizeExampleMeeting()
    ensures SanitizeFilename("meeting:notes*2025") == "meeting_notes_2025"
  {
    var m := "meeting:notes*2025";
    StripNoop(m, IsSpace);
    MeetingReplaced();
    StripNoop("meeting_notes_2025", IsDot);
  }

  lemma MeetingReplaced()
    ensures ReplaceInvalid("meeting:notes*2025") == "meeting_notes_2025"
  {
  }

  /** Chinese is kept. */
  lemma SanitizeExampleChinese()
    ensures SanitizeFilename("合法中文檔名") == "合法中文檔名"
  {
    SanitizeKeepsCleanName("合法中文檔名");
  }

  /** A path climbing out of the directory keeps its inner dots:
      "../../../etc/passwd" gives "_.._.._etc_passwd". */
  lemma SanitizeExamplePasswd()
    ensures SanitizeFilename("../../../etc/passwd") == "_.._.._etc_passwd"
  {
    StripNoop("../../../etc/passwd", IsSpace);
    PasswdReplaced();
    PasswdDotsStripped();
  }

  lemma PasswdReplaced()
    ensures ReplaceInvalid("../../../etc/passwd") == ".._.._.._etc_passwd"
  {
  }

  lemma PasswdDotsStripped()
    ensures StripBy(".._.._.._etc_passwd", IsDot) == "_.._.._etc_passwd"
  {
    assert LStripBy(".._.._.._etc_passwd", IsDot) == "_.._.._etc_passwd";
    StripNoop("_.._.._etc_passwd", IsDot);
  }

  // ---------------------------------------------------------------------
  // Transcript files

  /** The text `append_to_transcript` appends for one segment. */
  function AppendedLine(text: string, at: DateTime): (r: string)
    requires ValidDateTime(at)
    ensures |r| == |text| + 23
  {
    "[" + FormatStamp(at) + "] " + text + "\n"
  }

  /** Reads an appended line back into its timestamp and its text. */
  function ParseAppendedLine(line: string): Option<(string, string)> {
    if |line| >= 23 && line[0] == '[' && line[20..22] == "] " && line[|line| - 1] == '\n'
    then Some((line[1..20], line[22..|line| - 1]))
    else None
  }

  /** Every appended line reads back as its formatted time and its text. */
  lemma AppendedLineRoundTrip(text: string, at: DateTime)
    requires ValidDateTime(at)
    ensures ParseAppendedLine(AppendedLine(text, at)) == Some((FormatStamp(at), text))
  {
    var line := AppendedLine(text, at);
    assert line[1..20] == FormatStamp(at);
    assert line[20..22] == "] ";
    assert line[22..|line| - 1] == text;
  }

  const RuleLine: string := "# ========================================"

  /** `create_transcript_file(path, session_id, start_time)`: a path without
      the ".txt" suffix is refused before anything is written; otherwise
      the header opens the session. */
  function TranscriptHeader(path: string, sessionId: string, start: DateTime): (r: Result<string, string>)
    requires ValidDateTime(start)
    ensures r.Ok? <==> EndsWith(path, ".txt")
    ensures r.Ok? ==> StartsWith(r.value, "# START " + sessionId + " ")
    ensures r.Err? ==> r.error == "file_path must end with .txt, got " + path
  {
    if !EndsWith(path, ".txt") then Err("file_path must end with .txt, got " + path)
    else
      var h := "# START " + sessionId + " " + FormatStamp(start) + "\n" + RuleLine + "\n\n";
      assert h[..|"# START " + sessionId + " "|] == "# START " + sessionId + " ";
      Ok(h)
  }

  /** `finalize_transcript_file(...)`: the footer closing the session. */
  function TranscriptFooter(sessionId: string, end: DateTime, total: int, dropped: int): (r: string)
    requires ValidDateTime(end)
    ensures StartsWith(r, "\n" + RuleLine + "\n# END   " + sessionId + " ")
    ensures EndsWith(r, " | Dropped: " + IntToStr(dropped) + "\n\n")
  {
    var head := "\n" + RuleLine + "\n# END   " + sessionId + " ";
    var tail := " | Dropped: " + IntToStr(dropped) + "\n\n";
    var r := head + FormatStamp(end) + "\n# Total chunks: " + IntToStr(total) + tail;
    assert r[..|head|] == head;
    assert r[|r| - |tail|..] == tail;
    r
  }
}
