# Conference registration and live transcription, modelled in Dafny

This project models the core of a Streamlit application that does two things.
It runs conference registration: sessions, registrants, speakers and an admin
panel over JSON files. It also runs live transcription: microphone audio is cut
into chunks, each chunk is sent to a speech-to-text API, and the text is
appended to a transcript file.

What is modelled:

- **Audio** (`audio_utils.dfy`, `audio_service.dfy`).
  - `create_wav_chunk` / `_pcm_to_wav_bytes`: the 44-byte RIFF/WAVE header followed by little-endian 16-bit samples, and the decoder it round-trips with.
  - RMS and the two voice-activity gates, compared through squares.
  - `AudioChunker` as a class with its buffer, its thresholds and its push, reset and reconfiguration.
- **Transcription records** (`transcription_models.dfy`).
  - `TranscriptionSession`, `AudioChunk`, `TranscriptSegment` and `FileOutputConfig`, with their validation in `__post_init__` and their factory functions.
  - The uuid and the clock are parameters.
- **Transcription service** (`transcription_service.dfy`).
  - `sanitize_filename`, and transcript-file creation, appending and finalisation over a map from paths to contents.
  - `transcribe_audio_chunk`, with the API as an oracle result.
- **Recorder state** (`registry.dfy`, `transcription_widget.dfy`, `mic_recorder.dfy`).
  - The token-keyed registry of recorders in its widget and page variants, as one class.
  - The frame callback, the audio worker and the transcription worker, one loop iteration per method.
  - Start and stop.
  - The model-cost estimator.
  - The simpler mic recorder page, with its callback, its worker and its stop.
- **Conference side**.
  - `validation.py` and `date_utils.py`, including `strptime` as Python's regular-expression matcher for the formats used.
  - The `Session`, `Registrant`, `Speaker` and `Admin` records.
  - The session and admin services as classes over their stored JSON records, and the registration service as methods that change the session store's records, each specified by a function from the old records to its answer and the new records.
  - The pure helpers of the dashboard, the admin panel, the session detail page, the transcript history page and `html_utils`.
- **Shared helpers**.
  - Python's `str` operations used by the source (`strip`, `split`, `join`, `replace`, slicing, `re.sub` on character classes), in `py_text.dfy`.
  - `Option` and `Result` in `wrappers.dfy`.

Each operation is paired with a specification function, an inverse or an
invariant, and lemmas relate the two. Examples:
- a produced WAV file reads back as its rate and its samples;
- the chunker's emitted chunks followed by its buffer are exactly the samples pushed since the last reset;
- in the recorder registry every accepted frame is either still queued or written to the file, in arrival order;
- sorting the dashboard permutes the sessions;
- adding a registrant and then removing it restores the stored record;
- a new transcript segment adds exactly one line at the end of the timeline.

## Model

| member | source | states |
|---|---|---|
| AdminModel.NewAdmin | src/models/admin.py:12-18 | construction succeeds, returning the record, exactly when the username has at least 3 and the password at least 6 characters; otherwise the message of the first failing check, username first |
| AdminModel.ShortestAccepted | src/models/admin.py:14-18 | the bounds are inclusive: a 3-character username with a 6-character password is accepted |
| SpeakerModel.NewSpeaker | src/models/speaker.py:13-22 | construction succeeds exactly when name, photo and bio are all non-blank; otherwise the message for name, then photo, then bio |
| SpeakerModel.AnyPhotoAccepted | src/models/speaker.py:18-19 | the dataclass puts no format check on the photo path: any non-blank text is accepted |
| RegistrantModel.NewRegistrant | src/models/registrant.py:13-25 | construction succeeds exactly for a non-blank name of at most 50 characters and a time `fromisoformat` accepts once "Z" is "+00:00"; otherwise the blank-name, too-long or invalid-timestamp message, in that order |
| RegistrantModel.PaddingCounts | src/models/registrant.py:16-19 | the 50-character limit is measured on the raw name: 49 characters padded with a space on each side are refused |
| SessionModel.SessionProblem | src/models/session.py:26-50 | no problem exactly when every `__post_init__` check holds; the first failing check decides the message (blank id, id format, blank title, ...) |
| SessionModel.NewSession | src/models/session.py:26-50 | construction returns the record exactly when it passes every check, and otherwise the first problem |
| SessionModel.CapacityBeforeRegistered | src/models/session.py:43-50 | the checks run in source order: a capacity of 0 is reported as such, whatever the registered count |
| SessionModel.Status | src/models/session.py:72-84 | "expired" exactly when past, "full" exactly when not past and full, "available" exactly when upcoming and not full |
| SessionModel.IsPastExact | src/models/session.py:56-66 | for a formatted date and a range starting with a formatted time, `is_past` holds exactly when that start is before now |
| SessionModel.RegistrationPercentage | src/models/session.py:86-90 | 0 for a zero capacity, otherwise the percentage times the capacity is 100 times the registered count |
| SessionModel.PercentageBounds | src/models/session.py:86-90 | for a constructed session the percentage lies in [0, 100] and is 100 exactly when the session is full |
| DateUtils.BeforeStrictTotal | src/utils/date_utils.py:75 | the datetime comparison `<` is irreflexive, transitive and total |
| DateUtils.FormatStampOneLine | src/services/transcription_service.py:281-282 | a `%Y-%m-%d %H:%M:%S` timestamp holds no line break |
| DateUtils.Strptime | src/utils/date_utils.py:19 | a parse succeeds only with a full match of the format and a valid date and time; no match exactly when the error is "does not match format" |
| DateUtils.ParseDate | src/utils/date_utils.py:6-19 | a parsed value is a calendar date at midnight |
| DateUtils.ParseTime | src/utils/date_utils.py:22-41 | success needs exactly two '-'-separated parts and gives two clock times; every failure is "Invalid time format: " and the input |
| DateUtils.CompareToNow | src/utils/date_utils.py:44-55 | the result is that of `is_past_datetime` on the same arguments |
| DateUtils.ParseDateRoundTrip | src/utils/date_utils.py:6-19 | every calendar date, formatted as YYYY-MM-DD, parses back to that date at midnight |
| DateUtils.ParseDateRejectsNonLeapFebruary29 | src/utils/date_utils.py:19 | 29 February of a non-leap year is rejected with "day is out of range for month" |
| DateUtils.ParseDateLeapDay | src/utils/date_utils.py:19 | "2024-02-29" parses to 29 February 2024 |
| DateUtils.ParseDateRejectsMonthAbove12 | src/utils/date_utils.py:19 | months 13 to 19 do not match `%m` followed by '-' |
| DateUtils.ParseDateRejectsNonDigitYear | src/utils/date_utils.py:19 | a non-digit among the first four characters means no match |
| DateUtils.ParseTimeRoundTrip | src/utils/date_utils.py:22-41 | two formatted clock times joined by '-' parse back to those times, in either order |
| DateUtils.ParseHMRoundTrip | src/utils/date_utils.py:37-38 | `%H:%M` reads a formatted clock time back |
| DateUtils.ParseTimeRejectsBadStartHour | src/utils/date_utils.py:35-41 | a start hour of 24 or more, or "2pm"-style text, gives "Invalid time format" |
| DateUtils.ParseTimeNeedsDash | src/utils/date_utils.py:35-41 | a text without '-' gives "Invalid time format" |
| DateUtils.DateTimeRoundTrip | src/utils/date_utils.py:71-74 | `%Y-%m-%d %H:%M` reads a formatted date and time back |
| DateUtils.IsPastDatetimeExact | src/utils/date_utils.py:58-77 | on a formatted date and a range starting with a formatted time, `is_past_datetime` is exactly "that start is before now" |
| DateUtils.FormatStamp | src/services/transcription_service.py:262 | a `%Y-%m-%d %H:%M:%S` timestamp is 19 characters with the date, the blank and the time separators in their fixed places |
| Validation.RequireNonBlank | src/utils/validation.py:36-37 | passes exactly for a string with a non-whitespace character; a falsy value gives the message, a truthy non-string fails as `.strip()` would (AttributeError) |
| Validation.ValidateDateFormat | src/utils/validation.py:118-142 | passes exactly for a string that is a calendar date "YYYY-MM-DD"; a non-string and an unshaped text get their own messages; a shaped non-date gets "Invalid date value: <text> - ..." |
| Validation.ValidateTimeFormat | src/utils/validation.py:145-183 | as written: passes exactly for a string of two clock times, the first earlier; a non-string and an unshaped text get their own messages |
| Validation.ValidateTimeFormatIntended | src/utils/validation.py:164-181 | passes for the same texts; a shaped range whose halves are not both clock times is always "Invalid time value: <text>" |
| Validation.CheckTimeRange | src/utils/validation.py:158-181 | the checks of `validate_time_format` in source order: pass exactly for a string of two clock times, the first earlier |
| Validation.ClockMinutesOverflow | src/utils/validation.py:172 | `%H:%M` on "HH:6d".."HH:9d" takes one minute digit and leaves the last one unconverted |
| Validation.MinutesAbove59AsWritten | src/utils/validation.py:164-181 | a start minute from 60 to 99 escapes the handler as "unconverted data remains: <digit>", while the intended version says "Invalid time value: <text>" |
| Validation.UnconvertedIsNotNoMatch | src/utils/validation.py:179 | an "unconverted data remains" message never contains "does not match format" |
| Validation.ValidateSpeaker | src/utils/validation.py:78-115 | passes exactly for an object with non-blank name, photo and bio and a photo ending in .jpg/.jpeg/.png/.gif or starting with http:// or https://; a non-object gets "Speaker data must be a dictionary" |
| Validation.FirstBadTag | src/utils/validation.py:55-57 | the first tag that is not a non-blank string: all before it are, it is not |
| Validation.ValidateSession | src/utils/validation.py:7-75 | with the time check as written: passes exactly when every rule holds; a non-object gets "Session data must be a dictionary"; the first missing field, in the listed order, is named |
| Validation.ValidateSessionFields | src/utils/validation.py:33-73 | with the time check as written: the checks after the presence test pass exactly when every field rule holds |
| Validation.ValidateSessionHead | src/utils/validation.py:33-46 | with the time check as written: passes exactly when the id, title, description, date, time and location rules hold |
| Validation.ValidateSchedule | src/utils/validation.py:42-43 | with the time check as written: passes exactly for a calendar date and a valid time range |
| Validation.ScheduleMinutesAbove59 | src/utils/validation.py:42-43 | a session with a valid date and a start minute from 60 to 99 is refused with the escaping "unconverted data remains: <digit>" message of `validate_time_format` (lines 164-181) |
| Validation.ValidateSessionTail | src/utils/validation.py:48-73 | passes exactly when the level, tags, outcomes, capacity, registered count and speaker rules hold |
| Validation.AcceptedDates | src/utils/validation.py:134-140 | on a text of the regex's shape, `strptime` succeeds exactly for calendar dates |
| Validation.CalendarDateFormatted | src/utils/validation.py:134 | a calendar date text is the formatting of the date it names |
| Validation.ShapedDateParses | src/utils/validation.py:137-138 | a shaped date text that parses names a calendar date |
| Validation.TimeParts | src/utils/validation.py:165-170 | a shaped range splits on '-' into exactly two parts, which strip to the two clock texts |
| Validation.AcceptedClock | src/utils/validation.py:172-173 | a shaped clock text `%H:%M` accepts is a clock time, read as its hour and minute on 1900-01-01 |
| Validation.ClockAccepted | src/utils/validation.py:172-173 | every clock time text is accepted by `%H:%M` with its hour and minute |
| Validation.ClockTextAccepted | src/utils/validation.py:172-173 | `%H:%M` accepts a shaped clock text exactly when it is a clock time |
| Validation.BeforeOnSameDay | src/utils/validation.py:175 | on one day, `start_time >= end_time` fails exactly when the start is earlier in minutes since midnight |
| Validation.TimeRangeAccepted | src/utils/validation.py:165-176 | a shaped range passes the parsing and ordering steps exactly when it is a range of two clock times, the first earlier |
| Records.FirstMissing | src/utils/validation.py:29-31 | the first listed key the record lacks: every earlier key is present, this one is not |
| SessionDetail.SanitizeDirectoryName | src/ui/session_detail.py:86-90 | the result is never empty, keeps only word characters, CJK ideographs and "-", and neither starts nor ends with "_" |
| SessionDetail.SanitizeKeepsCleanDirName | src/ui/session_detail.py:86-90 | a name already of that shape is returned unchanged |
| SessionDetail.SanitizeDirectoryNameShape | src/ui/session_detail.py:86-90 | the result holds no whitespace, "/" or ".", and sanitizing it again changes nothing |
| SessionDetail.SessionTranscriptionDir | src/ui/session_detail.py:93-106 | the directory is "resource/" followed by the sanitized title, or the sanitized id when the title is empty |
| SessionDetail.TranscriptionDirInsideResource | src/ui/session_detail.py:93-106 | that directory is one level directly below "resource": its name is non-empty and holds no "/" or "." |
| SessionDetail.MimeType | src/ui/session_detail.py:70-77 | ".png", ".gif" and ".webp" map to their image types; every other suffix, ".jpg" and ".jpeg" included, to "image/jpeg" |
| SessionDetail.StoredPhotosHaveTheirMime | src/ui/session_detail.py:70-77 | every suffix the admin panel accepts for a photo is embedded with the MIME type of its own format |
| SessionDetail.ImageBase64 | src/ui/session_detail.py:51-83 | a data URI exactly when the file exists and can be read, typed by its lowercased suffix; nothing otherwise |
| SessionDetail.NormalizeSeparators | src/ui/session_detail.py:417 | every backslash becomes "/" and nothing else changes |
| SessionDetail.LocatePhoto | src/ui/session_detail.py:420-430 | the given path when it exists, else the first existing of the two fallback locations of its file name, else the given path |
| SessionDetail.InitialsShape | src/ui/session_detail.py:439 | the initials have one character per word for at most two words, each the uppercased first character of its word |
| SessionDetail.SpeakerImageOf | src/ui/session_detail.py:400-452 | no image exactly for an empty photo; a URL or data URI is linked as given; an embedded file exists, is readable and has no backslash; otherwise the initials placeholder |
| SessionDetail.LocalPhotoEmbedded | src/ui/session_detail.py:414-452 | a local photo is embedded exactly when the located file exists and can be read, with that file's MIME type; the placeholder appears exactly otherwise |
| SessionDetail.MovedPhotoFound | src/ui/session_detail.py:421-430 | a photo missing at its path but present under "resource/speaker-photo/" is found there |
| TranscriptHistory.PreviewShape | src/ui/transcript_history.py:55-57 | the preview is the stripped text when it fits or the limit is 0; otherwise a prefix of it followed by "…", at most `preview_chars + 1` long |
| TranscriptHistory.LoadOne | src/ui/transcript_history.py:34-67 | a failed read gives empty content and its error; a failed stat gives time 0 and size 0 and its error only when the read succeeded; no error exactly when both succeed |
| TranscriptHistory.InsertNewest | src/ui/transcript_history.py:115-119 | inserting one file into the sort adds exactly that file |
| TranscriptHistory.InsertKeepsOrder | src/ui/transcript_history.py:115-119 | inserting into a newest-first list keeps it newest first |
| TranscriptHistory.NewestFirst | src/ui/transcript_history.py:115-119 | the sorted list is newest first and a permutation of the glob result |
| TranscriptHistory.FirstStatFailure | src/ui/transcript_history.py:114-121 | the first file whose stat fails while computing the sort keys; there is none exactly when every stat succeeds |
| TranscriptHistory.SelectNewest | src/ui/transcript_history.py:115-126 | at most `limit` files (exactly `limit` when there are enough), newest first, drawn from the directory, and no file left out is newer than one kept |
| TranscriptHistory.LoadTranscripts | src/ui/transcript_history.py:95-127 | nothing for a missing directory or a non-directory; an error only for a stat failure other than a vanished file; otherwise one record per selected file, in order |
| TranscriptHistory.LoadedNewestFirst | src/ui/transcript_history.py:115-127 | the loaded records come out in non-increasing modification time |
| TranscriptHistory.StatFailureWhileSorting | src/ui/transcript_history.py:114-121 | a file that vanishes while sorting gives no records; any other stat failure is raised |
| TranscriptHistory.DisplayText | src/ui/transcript_history.py:172-176 | truncated exactly when the limit is non-zero and the content longer; then a prefix of at most `preview_chars` characters followed by "\n…" |
| TranscriptHistory.WidgetKeysDistinct | src/ui/transcript_history.py:178-197 | two different record numbers give two different widget keys, with or without a key prefix |
| TranscriptHistory.RenderRecord | src/ui/transcript_history.py:157-188 | an error view exactly for a record with an error, with the error message; otherwise a non-empty text under the record's preview key |
| TranscriptHistory.RenderHistory | src/ui/transcript_history.py:153-157 | the empty message exactly when nothing was loaded; otherwise one view per record |
| TranscriptHistory.RenderedKeysDistinct | src/ui/transcript_history.py:157-188 | the text areas of one panel never share a key |
| HtmlUtils.SplitLines | src/ui/html_utils.py:13 | `splitlines` gives lines holding no line break, and none exactly for the empty text |
| HtmlUtils.HtmlBlockShape | src/ui/html_utils.py:13-14 | the result has no leading or trailing whitespace, "\n" is its only line break, and no line of it starts with whitespace |
| HtmlUtils.HtmlBlockKeepsText | src/ui/html_utils.py:13-14 | only whitespace is removed: the non-whitespace characters of the result are those of the template, in order |
| HtmlUtils.HtmlBlockIdempotent | src/ui/html_utils.py:13-14 | normalising twice gives the same as normalising once |
| HtmlUtils.RebuildClean | src/ui/html_utils.py:13-14 | a text already in normal form survives the split, left-strip and join steps unchanged |
| AdminPanel.SanitizeFilename | src/ui/admin_panel.py:58-62 | the result is never empty, holds only `[a-z0-9_-]`, and neither starts nor ends with "_" |
| AdminPanel.SanitizeKeepsCleanName | src/ui/admin_panel.py:58-62 | a name already of that shape is returned unchanged |
| AdminPanel.SanitizeFilenameIdempotent | src/ui/admin_panel.py:58-62 | sanitizing twice gives the same as sanitizing once |
| AdminPanel.SavePhoto | src/ui/admin_panel.py:65-106 | a missing upload and a lowercased suffix outside {.png, .jpg, .jpeg, .gif} get their messages; a path comes back exactly for an allowed upload whose write succeeds |
| AdminPanel.SavedPhotoIsListed | src/ui/admin_panel.py:76-77 | a saved photo lies directly in its kind's directory under "<sanitized name>_<timestamp><suffix>", keeps the upload's suffix, and is listed by that directory's gallery (lines 109-130) |
| AdminPanel.ParseTags | src/ui/admin_panel.py:695 | every parsed tag is non-empty, holds no comma and has no surrounding whitespace |
| AdminPanel.TagsRoundTrip | src/ui/admin_panel.py:826 | the edit form's `", ".join(tags)` of clean tags, submitted unchanged (line 934), parses back to the same tags |
| AdminPanel.DateValue | src/ui/admin_panel.py:698-701 | "TBD" in that mode; otherwise an ISO date that `parse_date` reads back as the picked date |
| AdminPanel.TimeValue | src/ui/admin_panel.py:703-709 | "TBD" in that mode; an end not after the start gets the error; the error is only ever that one |
| AdminPanel.TimeValueRoundTrip | src/ui/admin_panel.py:703-707 | a picked range with the start earlier is stored as text that `parse_time` reads back as the two picked times and that the session validator's time check, as written, accepts |
| AdminPanel.IntroPhotoChoice | src/ui/admin_panel.py:325-334 | choosing the gallery while it is empty answers "none" |
| AdminPanel.SpeakerPhotoChoice | src/ui/admin_panel.py:165-209 | the answer is "existing" or "upload"; choosing the gallery while it is empty answers "upload" with no file |
| AdminPanel.EditKeepsCurrentPhoto | src/ui/admin_panel.py:964-998 | with nothing new supplied the edit form keeps both current photos; a chosen gallery photo replaces them; "none" removes the intro photo |
| AdminPanel.EmptyGalleryDropsIntroPhoto | src/ui/admin_panel.py:329-331 | choosing the empty gallery in the edit form removes the current intro photo |
| AdminPanel.EditUploadStored | src/ui/admin_panel.py:988-996 | a new upload becomes the intro photo when it is saved; the update fails exactly when the save does |
| AdminPanel.CreateSpeakerPhoto | src/ui/admin_panel.py:728-743 | a gallery choice succeeds exactly when it names a photo; a missing upload is refused; an upload succeeds exactly when its save does |
| AdminPanel.CreateIntroPhoto | src/ui/admin_panel.py:745-755 | a gallery choice is taken as given; every choice other than a present upload gives no photo; only a failed save is an error |
| Dashboard.Chunk | src/ui/dashboard.py:38-45 | the batches concatenate to the input, none is empty, all but the last hold exactly `size` items; a size of 0 yields none |
| Dashboard.StartOf | src/ui/dashboard.py:53-63 | the written start when the time is not "TBD" and parses, otherwise midnight of the date; an error exactly when that midnight does not parse either |
| Dashboard.TimedSortStart | src/ui/dashboard.py:56-59 | a calendar date and a range starting with a clock time sort by that date and time |
| Dashboard.UntimedSortsAtMidnight | src/ui/dashboard.py:60-63 | a "TBD" time, or one that does not parse, sorts at midnight of a date that parses |
| Dashboard.NegatedLexLess | src/ui/dashboard.py:72 | negating the start reverses the order of starts |
| Dashboard.SessionSortKey | src/ui/dashboard.py:48-74 | the key is (1 if expired, 1 if active and "TBD", the negated start); it fails exactly when the start does not parse |
| Dashboard.SortKeyOrder | src/ui/dashboard.py:48-74 | an active session sorts before an expired one; an active timed one before an active "TBD" one; otherwise the later start comes first |
| Dashboard.KeySessions | src/ui/dashboard.py:423 | keys are computed for every session in order; the sort fails exactly when a key cannot be computed |
| Dashboard.InsertKeepsSorted | src/ui/dashboard.py:423 | inserting one keyed session into a sorted list keeps it sorted |
| Dashboard.SortByKey | src/ui/dashboard.py:423 | the sorted list is ordered by key and is a permutation of its input |
| Dashboard.SortPermutesSessions | src/ui/dashboard.py:423 | sorting permutes the sessions |
| Dashboard.SortSortedIsIdentity | src/ui/dashboard.py:489 | sorting an already sorted list changes nothing |
| Dashboard.SortSessions | src/ui/dashboard.py:423-427 | the sessions sorted by key, a permutation of the loaded list, empty exactly when that is; the error when a key cannot be computed |
| Dashboard.AllTags | src/ui/dashboard.py:430 | exactly the tags carried by some session |
| Dashboard.SortedDistinct | src/ui/dashboard.py:430 | `sorted(set(tags))` is strictly increasing and holds exactly the given tags |
| Dashboard.Categories | src/ui/dashboard.py:430-431 | "全選" first, then every tag of some session exactly once, in increasing order |
| Dashboard.CategoriesDistinct | src/ui/dashboard.py:430-431 | no category is offered twice, unless a session is itself tagged "全選" |
| Dashboard.Dedup | src/ui/dashboard.py:456 | `dict.fromkeys` keeps exactly the entries given, without repeats, and is never longer |
| Dashboard.DedupDistinct | src/ui/dashboard.py:456 | a list without repeats is kept as it is |
| Dashboard.ResolveCategory | src/ui/dashboard.py:433-442 | the stored category when it is offered, otherwise a category that is offered |
| Dashboard.VisibleCategories | src/ui/dashboard.py:446-456 | all categories when shown in full; otherwise at most five distinct ones, always including the selected category |
| Dashboard.VisibleReplacesFifth | src/ui/dashboard.py:452-455 | the first five categories, or the first four and the selected one when it is not among the five |
| Dashboard.ResolvedCategoryVisible | src/ui/dashboard.py:458-462 | the resolved category is always among the chips, so the fallback to the first chip never fires |
| Dashboard.RadioChoice | src/ui/dashboard.py:464-472 | the radio ends on its default or on a chip shown |
| Dashboard.OnlyTagged | src/ui/dashboard.py:488 | exactly the sessions carrying the category |
| Dashboard.OnlyTaggedSorted | src/ui/dashboard.py:488 | filtering a sorted list keeps it sorted |
| Dashboard.FilterByCategory | src/ui/dashboard.py:484-490 | every session for "全選", otherwise exactly those carrying the category |
| Dashboard.FilterKeepsOrder | src/ui/dashboard.py:484-490 | on the sorted list the result stays sorted and the re-sort leaves the filtered list as it is |
| Dashboard.SelectedOf | src/ui/dashboard.py:433-472 | the category the radio ends on is always an offered category |
| Dashboard.DashboardState.Render | src/ui/dashboard.py:416-497 | the load error, the sort's exception and the empty list end the page unchanged; otherwise the stored category becomes the selected one, the toggle flips the show-all flag and reruns, an empty category warns, and the cards are the filtered sessions, four to a row |
| AdminService.ParseEnvLine | src/services/admin_service.py:26-33 | a line is used exactly when, stripped, it is non-empty, does not start with "#" and holds "="; the key is the stripped text before the first "=" and holds no "=" |
| AdminService.ParseCleanLine | src/services/admin_service.py:31-33 | a line `key=value` whose parts need no stripping reads back as that key and that value |
| AdminService.ApplyLine | src/services/admin_service.py:35-36 | an applied line never changes a value already set and adds no key other than the two administrator keys |
| AdminService.LoadEnvLines | src/services/admin_service.py:26-36 | after all the lines, every existing value survives and only the two administrator keys can have been added |
| AdminService.FirstLineWins | src/services/admin_service.py:35-36 | an administrator key not yet set takes its value from the first line that sets it |
| AdminService.DefaultCredentials | src/services/admin_service.py:64-67 | with neither key set, exactly ("admin", "") is accepted |
| AdminService.EnvironmentWins | src/services/admin_service.py:35-67 | with both keys in the process environment, the `.env` file changes nothing: exactly those values are accepted |
| AdminService.ReadEnvLines | src/services/admin_service.py:26-36 | the loop over the lines yields the environment `LoadEnvLines` describes |
| AdminService.AdminState.LoadAdminEnv | src/services/admin_service.py:13-38 | the file is applied only on the first call and only when it exists; afterwards the loaded flag is set |
| AdminService.AdminState.AuthenticateAdmin | src/services/admin_service.py:41-67 | loads the environment, then succeeds exactly when both values equal the configured ones or their defaults |
| AdminService.AdminState.IsAdminAuthenticated | src/services/admin_service.py:70-81 | true exactly when the session flag is set to true; false when it is absent |
| AdminService.AdminState.LoginAdmin | src/services/admin_service.py:84-101 | on success the flag is set and "登入成功" returned; on failure the flag is untouched and "帳號或密碼錯誤" returned |
| AdminService.AdminState.LogoutAdmin | src/services/admin_service.py:104-113 | the flag is absent afterwards, whether or not it was set, so logging out twice is logging out once |
| RegistrationService.AddRegistrant | src/services/registration_service.py:66-77 | the entry {name as given, timestamp} is appended at the end of the registrants (created empty when absent), `registered` becomes their number, and every other field is kept; fails exactly when the stored registrants are not a list |
| RegistrationService.RemoveAt | src/services/registration_service.py:118-124 | an index at or past the end gives "找不到報名紀錄"; otherwise exactly that entry is removed, the others keep their order, the count is the new length, and the removed entry is returned |
| RegistrationService.RemovedMessage | src/services/registration_service.py:131-132 | "已移除 " and the removed name, or "報名者" when the entry has none; an entry that is not an object makes the message the unexpected-error one |
| RegistrationService.AddThenRemove | src/services/registration_service.py:66-124 | removing the entry just added restores the record exactly, and returns the added entry |
| RegistrationService.FirstHasId | src/services/registration_service.py:116-117 | the first record whose id is the given one; every earlier record has another id |
| RegistrationService.RegisterAttendee | src/services/registration_service.py:18-99 | the answer and the new records are those of `RegisterOutcome` on the old records; success clears the cache; an invalid name changes nothing; the store stays valid |
| RegistrationService.RegisterOutcome | src/services/registration_service.py:18-99 | every answer but success leaves the records as they were, and no answer changes their number |
| RegistrationService.RegisterSucceeds | src/services/registration_service.py:45-92 | over records that store the loaded sessions, a valid name, a found session, an approving `can_register` and a list of registrants give success, and exactly the session's record gains the entry |
| RegistrationService.RegisterRefusesFull | tests/unit/services/test_registration_service.py:157-163 | when `can_register` refuses a full session with "已額滿", as the tests expect, registering for a full session returns that message and writes nothing |
| RegistrationService.RegisterWithinCapacity | tests/integration/test_registration_integration.py:126-148 | when `can_register` refuses full sessions and counts are in sync, a successful registration leaves the session's count one higher and at most its capacity |
| RegistrationService.RemoveRegistrant | src/services/registration_service.py:102-141 | the answer and the new records are those of `RemoveOutcome` on the old records; a changed file clears the cache; a negative index changes nothing; the store stays valid |
| RegistrationService.RemoveOutcome | src/services/registration_service.py:102-141 | no record other than the first whose id matches ever changes, and the number of records stays the same |
| RegistrationService.RemoveCases | src/services/registration_service.py:117-132 | for a found session with a list of registrants, an index past the end gives "找不到報名紀錄" and writes nothing; a valid index removes exactly that entry, re-synchronises the count and names the entry in the answer |
| SessionService.FetchAll | src/services/session_service.py:61-72 | the values of the keys in order, or the `KeyError` of the first key missing |
| SessionService.LoadSpeaker | src/services/session_service.py:44-49 | a loaded speaker passes the speaker model's checks |
| SessionService.LoadRegistrant | src/services/session_service.py:54-57 | a loaded registrant passes the registrant model's checks |
| SessionService.LoadRegistrants | src/services/session_service.py:52-59 | one registrant per entry, each the entry loaded, in order |
| SessionService.BuildSession | src/services/session_service.py:61-76 | a built session passes the session model's checks and carries the record's id, date, time, capacity and count, the speaker and the registrants |
| SessionService.LoadSession | src/services/session_service.py:43-78 | a loaded session, its speaker and each registrant pass their model checks, and the session carries its record's id, date, time and counts |
| SessionService.LoadAll | src/services/session_service.py:43-78 | one session per record, in file order; the first failure is the result |
| SessionService.LoadAllEach | src/services/session_service.py:43-78 | each loaded session is its own record, loaded |
| SessionService.LoadAllStored | src/services/session_service.py:43-78 | each loaded session carries the id, date, time and counts of its record |
| SessionService.LoadAllPrefixErr | src/services/session_service.py:43-78 | a failure in the first records is the failure of the whole load |
| SessionService.SessionById | src/services/session_service.py:122-138 | None exactly when no session has the id; otherwise the first session with it |
| SessionService.KeepCounts | src/services/session_service.py:95 | the comprehension keeps every copy of a kept session and no copy of another |
| SessionService.SortBy | src/services/session_service.py:98-117 | `list.sort` permutes the list |
| SessionService.SortBySorted | src/services/session_service.py:98-117 | the sorted list is ordered by the key, ascending or descending |
| SessionService.SortByStable | src/services/session_service.py:98-117 | the sort is stable: the sessions sharing any one key keep their relative order |
| SessionService.FirstSorted | src/services/session_service.py:94-119 | only sessions of the list passing the filter, ordered by the key, exactly `min(limit, number passing)` of them |
| SessionService.PastSessions | src/services/session_service.py:84-100 | only past sessions, latest date first, `min(limit, number of past sessions)` of them |
| SessionService.UpcomingSessions | src/services/session_service.py:103-119 | only sessions that are not past, earliest date first, and for a limit of 0 or more exactly the smaller of the limit and the number of upcoming sessions |
| SessionService.ScanIds | src/services/session_service.py:172-173 | the loop stops at the first record with the id or at the first record without an id (`KeyError`), else at the end |
| SessionService.CountUpdate | src/services/session_service.py:175-178 | when the re-check passes, the record's count goes up by exactly one and nothing else changes |
| SessionService.ScanFindsLoaded | src/services/session_service.py:134-173 | over records that store the loaded sessions, the file scan finds the same session as the lookup |
| SessionService.RegisterCountUpdatesLoaded | src/services/session_service.py:164-178 | for a session that is not full and a cache that matches the file, the re-check passes and its record's count goes up by one |
| SessionService.MaxSuffix | src/services/session_service.py:208-216 | every numeric suffix after "session_" is at most the result; ids without one are ignored |
| SessionService.NewIdSuffix | src/services/session_service.py:218 | the number of a generated id, zero-padded to three digits, reads back |
| SessionService.GeneratedIdIsFresh | src/services/session_service.py:208-218 | the generated id is the id of no record in the file |
| SessionService.CreatedRecord | src/services/session_service.py:221-225 | the payload's keys win over the generated id and the zero count; those two appear only when the payload lacks them |
| SessionService.Updated | src/services/session_service.py:269-271 | every key of the updates but "id" is written, the id is kept, every other field is left alone |
| SessionService.CreateOutcome | src/services/session_service.py:203-228 | the id is "session_" and the next number; the record validates; without an id of its own in the payload, its id is fresh; a failed validation is the error |
| SessionService.UpdateOutcome | src/services/session_service.py:258-279 | an unknown id raises SessionNotFoundError; otherwise the matched record is updated, keeps its id and validates, or the validation error is raised |
| SessionService.CreatedIsValid | src/services/session_service.py:228 | a created record is a valid session |
| SessionService.UpdatedIsValid | src/services/session_service.py:274 | an updated record is a valid session |
| SessionService.DeleteShrinks | src/services/session_service.py:305-311 | the number of records changes exactly when some record has the id |
| SessionService.SessionStore.ClearCache | src/services/session_service.py:18-21 | the cache is emptied and the file kept |
| SessionService.SessionStore.LoadRecords | src/services/session_service.py:43-78 | the loop loads the records as `LoadAll` describes |
| SessionService.SessionStore.GetAllSessions | src/services/session_service.py:24-81 | the cache when filled, otherwise the file loaded; the cache is filled only by a successful load |
| SessionService.SessionStore.GetSessionById | src/services/session_service.py:122-138 | the first current session with the id, or None; a load failure propagates |
| SessionService.SessionStore.FindRecord | src/services/session_service.py:172-173 | the loop stops where `ScanIds` says |
| SessionService.SessionStore.RegisterCount | src/services/session_service.py:141-187 | the answer and the new records are those of `RegisterCountOutcome` on the old records; success clears the cache; the store stays valid |
| SessionService.RegisterCountOutcome | src/services/session_service.py:141-187 | a load failure and an unknown id are errors, a past and a full session are refused with their messages, and every answer but success leaves the records as they were |
| SessionService.RegisterCountSucceeds | src/services/session_service.py:154-187 | over records that store the loaded sessions, a found session that is neither past nor full gets "報名成功！" and exactly its record's count goes up by one |
| SessionService.CountWithinCapacity | src/services/session_service.py:175-178 | after a successful count the record's count is one higher and at most its capacity, and no other key changes |
| SessionService.FillsToCapacity | src/services/session_service.py:167-187 | a record n places short of its capacity takes exactly n successful counts and then refuses the next one as full with the file unchanged |
| SessionService.SessionStore.CountInFile | src/services/session_service.py:167-187 | the answer and the new records are those of `CountInFileOutcome` on the old records; only success clears the cache; the store stays valid |
| SessionService.CountInFileOutcome | src/services/session_service.py:167-187 | a full record is refused and nothing changes; a record without an id raises; when no record matches, the loop ends and the answer is success with the file unchanged; otherwise only the matched record changes |
| SessionService.SessionStore.MaxRecordSuffix | src/services/session_service.py:208-216 | the loop computes `MaxSuffix` |
| SessionService.SessionStore.CreateSession | src/services/session_service.py:190-241 | on success the new record is appended at the end, the cache cleared and the generated id returned; on failure nothing changes |
| SessionService.SessionStore.UpdateSession | src/services/session_service.py:244-287 | on success the matched record is replaced by its update and the cache cleared; on failure nothing is saved |
| SessionService.SessionStore.DeleteSession | src/services/session_service.py:290-321 | true exactly when some record had the id; then every such record is gone, the others keep their order and the cache is cleared; false changes nothing |
| AudioUtils.MeanSquare | src/utils/audio_utils.py:35-42 | the mean of squares is never negative and is 0 for an empty array |
| AudioUtils.RmsOfEmpty | src/utils/audio_utils.py:35-36 | an empty array has RMS 0: it reaches exactly the thresholds that are not positive |
| AudioUtils.RmsAtLeastBySquares | src/utils/audio_utils.py:35-45 | for a positive threshold t, RMS ≥ t exactly when there are samples and Σx² ≥ t²·n |
| AudioUtils.RmsAtLeastMonotone | src/utils/audio_utils.py:35-45 | a block that reaches a threshold reaches every lower one |
| AudioUtils.DecodeLE16Encode | src/utils/audio_utils.py:102-107 | a little-endian u16 field decodes to the value packed |
| AudioUtils.DecodeLE32Encode | src/utils/audio_utils.py:96-111 | a little-endian u32 field decodes to the value packed |
| AudioUtils.DecodeSampleBytes | src/utils/audio_utils.py:114 | the little-endian bytes of the samples decode back to the samples |
| AudioUtils.Pcm16ToWavBytes | src/utils/audio_utils.py:48-117 | a non-1-D array, a non-int16 array and a rate ≤ 0 raise in that order; the output is exactly 44 + 2·n bytes; only a field too wide for u32 fails otherwise |
| AudioUtils.WavLayout | src/utils/audio_utils.py:91-115 | bytes 0-11 are the RIFF descriptor for 36 + 2·n, bytes 12-35 the `fmt ` chunk for the rate, bytes 36-43 the `data` header for 2·n, then the sample bytes verbatim |
| AudioUtils.ParseRiffRoundTrip | src/utils/audio_utils.py:95-97 | the descriptor reads "RIFF", the size 36 + data size, "WAVE" |
| AudioUtils.ParseFmtRoundTrip | src/utils/audio_utils.py:84-107 | the `fmt ` chunk reads as size 16, format 1, one channel, the rate, byte rate 2·rate, block align 2, 16 bits |
| AudioUtils.ParseDataHeaderRoundTrip | src/utils/audio_utils.py:110-111 | the `data` header reads "data" and the data size |
| AudioUtils.ParseWav | src/utils/audio_utils.py:91-115 | a file the reader accepts is at least 44 bytes and holds (length − 44) / 2 samples |
| AudioUtils.WavRoundTrip | src/utils/audio_utils.py:93-115 | reading a produced file gives back its rate and its samples, with both size fields consistent with its length |
| AudioUtils.WavExampleSize | src/utils/audio_utils.py:63-67 | the three-sample example gives a 50-byte file |
| AudioService.CountLoud | src/services/audio_service.py:158-159 | the number of samples whose 32-bit magnitude reaches the gate is at most the chunk length |
| AudioService.EmptyNotVoiced | src/services/audio_service.py:151-152 | an empty chunk is never voiced, whatever the thresholds |
| AudioService.VoicedHasVoiceActivity | src/services/audio_service.py:110-156 | a voiced chunk also passes the plain RMS gate with the same threshold |
| AudioService.VoicedBySquares | src/services/audio_service.py:151-160 | for a positive threshold t, a chunk is voiced exactly when it is non-empty, Σx² ≥ t²·n and the loud samples number at least min_density·n |
| AudioService.CountLoudAntitone | src/services/audio_service.py:158-159 | raising the amplitude gate never adds loud samples |
| AudioService.CreateWavChunk | src/services/audio_service.py:114-135 | fails exactly when the WAV serialiser fails; a produced file reads back as the rate and the chunk's samples |
| AudioService.PushStepConserves | src/services/audio_service.py:220-233 | the emitted chunk followed by the new buffer is the old buffer followed by the input |
| AudioService.PushStepSizes | src/services/audio_service.py:224-233 | a chunk of exactly chunk_samples comes out iff buffer and input together reach it, and the remainder keeps the rest; otherwise the buffer grows by the input |
| AudioService.OneChunkPerPush | src/services/audio_service.py:224-231 | one push hands out at most one chunk, even when the remainder still reaches the chunk size |
| AudioService.AudioChunker.constructor | src/services/audio_service.py:184-202 | keeps the settings without range checks, sizes chunks as int(rate · secs) and starts with an empty buffer |
| AudioService.AudioChunker.Push | src/services/audio_service.py:204-233 | performs one push step and keeps the invariant that the emitted chunks followed by the buffer are everything pushed since the last reset |
| AudioService.AudioChunker.Reset | src/services/audio_service.py:235-242 | empties the buffer and leaves the settings alone |
| AudioService.AudioChunker.GetBufferDuration | src/services/audio_service.py:244-253 | buffered samples over the rate; a zero rate is the division error |
| AudioService.AudioChunker.UpdateConfig | src/services/audio_service.py:255-277 | a chunk length outside 1.0-5.0 fails before any change; a valid one is applied and empties the buffer; then a VAD threshold outside 50-1000 fails with the chunk change kept, and a valid one is applied without touching the buffer |
| AudioService.ValidChunkSecsGivesPositiveSize | src/services/audio_service.py:268-271 | at 48 kHz a valid chunk length gives between 48000 and 240000 samples per chunk (chunk size computed as at line 201) |
| TranscriptionModels.ValidateSegment | src/models/transcription.py:177-189 | a segment is accepted iff its timestamp is not after the clock and its duration is positive; a future timestamp is reported first |
| TranscriptionModels.CreateTranscriptSegment | src/models/transcription.py:336-361 | stamped with the current time, so a segment is refused exactly when its duration is not positive; the text and the error message are kept |
| TranscriptionModels.ToFileLine | src/models/transcription.py:201-204 | the line is the 19-character stamp in brackets, a space, then the formatted text |
| TranscriptionModels.FileLineRoundTrip | src/models/transcription.py:195-204 | a segment's file line is the line the transcript appender writes for its formatted text, reads back as its time and that text, and an error segment carries the "[ERROR] " marker |
| TranscriptionModels.NonErrorTexts | src/models/transcription.py:99 | keeps at most as many texts as there are segments |
| TranscriptionModels.FullTranscriptAppend | src/models/transcription.py:92-99 | adding an error segment leaves the full transcript unchanged; adding any other segment extends it by its text on a new line (or makes it the first text) |
| TranscriptionModels.ValidateSessionFields | src/models/transcription.py:39-81 | a session is accepted iff the chunk duration is in 1.0-5.0, the VAD threshold in 50-1000, the path ends in ".txt", the start is not after the clock, an end is not before the start, total_chunks ≥ the segments and dropped_chunks ≥ 0; the range checks come first, in that order |
| TranscriptionModels.DefaultSessionAccepted | src/models/transcription.py:279-301 | with the defaults and a start at the current time, only the path can make a new session fail |
| TranscriptionModels.TranscriptionSession.constructor | src/models/transcription.py:21-81 | an accepted set of fields gives a session holding them that satisfies the invariant |
| TranscriptionModels.TranscriptionSession.AddSegment | src/models/transcription.py:92-95 | appends the segment and counts one more chunk, keeping total_chunks ≥ the number of segments |
| TranscriptionModels.CreateSession | src/models/transcription.py:279-301 | fails exactly as the field checks do; otherwise a fresh, active, empty session started at the current time |
| TranscriptionModels.ValidateAudioChunk | src/models/transcription.py:118-145 | a chunk is accepted iff it is 1-D, int16, non-empty, at 48000 Hz, has RMS ≥ 0 and is not stamped in the future; dimension is reported first |
| TranscriptionModels.ChunkDurationSeconds | src/models/transcription.py:152-154 | a non-empty chunk lasts a positive time; 48000 samples at 48000 Hz last one second |
| TranscriptionModels.ValidChunkWav | src/models/transcription.py:147-150 | an accepted chunk serialises to 44 + 2·n bytes that read back as 48000 Hz and its samples |
| TranscriptionModels.CreateAudioChunk | src/models/transcription.py:305-332 | accepted iff the array is 1-D, int16, non-empty and the rate is 48000; the chunk holds the array, the clock and the RMS, and no voice flag |
| TranscriptionModels.ValidateOutputConfig | src/models/transcription.py:222-230 | a configuration is accepted iff the directory is non-empty and the encoding is "utf-8"; an empty directory is reported first |
| TranscriptionModels.CompactStamp | src/models/transcription.py:259 | the stamp is 15 characters with a '-' between date and time |
| TranscriptionModels.SplitExt | src/models/transcription.py:261 | stem and extension concatenate to the name, and a non-empty extension starts with '.' |
| TranscriptionModels.ExtStart | src/models/transcription.py:261 | the cut, when there is one, is at the last dot of the name |
| TranscriptionModels.SplitExtTail | src/models/transcription.py:261 | the extension holds no further dot and no '/' |
| TranscriptionModels.SplitExtOfTxt | src/models/transcription.py:261-263 | a one-component stem that is not all dots plus ".txt" splits into that stem and ".txt" |
| TranscriptionModels.NameParts | src/models/transcription.py:256-263 | with the sanitiser as written: the extension used is always ".txt" in some letter case |
| TranscriptionModels.TxtExtension | src/models/transcription.py:261-263 | an extension that is ".txt" in some letter case is kept as it is; any other, or none, becomes ".txt" |
| TranscriptionModels.ExposedSpaceName | src/models/transcription.py:256-263 | the configured name ". ." is sanitised to " " and the file is named " .txt": the exposed space reaches the path |
| TranscriptionModels.CandidateHeads | src/models/transcription.py:265-268 | the plain and every numbered candidate get the same directory prefix from the join |
| TranscriptionModels.CandidatesDistinct | src/models/transcription.py:265-268 | no numbered candidate is the plain one, and different counters give different paths |
| TranscriptionModels.CandidateSuffix | src/models/transcription.py:265-268 | every candidate ends with the extension |
| TranscriptionModels.CandidateFamily | src/models/transcription.py:265-268 | the candidates for one name are pairwise different and all end with the extension |
| TranscriptionModels.DifferenceShrinks | src/models/transcription.py:267-269 | each path tried shrinks the set of existing files not yet tried, so the search ends |
| TranscriptionModels.NextUntried | src/models/transcription.py:267-269 | the next numbered candidate has not been tried before |
| TranscriptionModels.FirstFreeCandidate | src/models/transcription.py:265-271 | the result does not exist and ends with the extension; it is the plain candidate when that is free, otherwise the numbered one with the smallest free counter from 2 on |
| TranscriptionModels.ResolveCandidates | src/models/transcription.py:265-271 | the first free path among the plain and the numbered candidates, numbered from 2 |
| TranscriptionModels.ResolveFilePath | src/models/transcription.py:241-271 | with the sanitiser as written: a path that does not exist yet, ending in ".txt" in some letter case, built from the sanitised or clock-made name, numbered from 2 only when the plain name is taken |
| TranscriptionService.CollapseSpaces | src/services/transcription_service.py:105 | the result has no whitespace other than single spaces between non-space characters |
| TranscriptionService.CleanResponse | src/services/transcription_service.py:87-107 | the cleaned answer is always single-spaced |
| TranscriptionService.FinalAnswer | src/services/transcription_service.py:100-107 | an answer that echoes the instructions becomes empty; any other answer comes out single-spaced |
| TranscriptionService.TranscribeAudioChunk | src/services/transcription_service.py:25-131 | a WAV of at most 44 bytes is refused exactly, before any call; a failing call comes back as the same failure with its fixed message; an answer comes back cleaned and single-spaced |
| TranscriptionService.WordsOfJoin | src/services/transcription_service.py:105 | words joined with single spaces split back into the same words |
| TranscriptionService.WordsJoinSingleSpaced | src/services/transcription_service.py:105 | words joined with single spaces are single-spaced |
| TranscriptionService.CollapseSpacesIdempotent | src/services/transcription_service.py:105 | collapsing whitespace twice is collapsing it once |
| TranscriptionService.EchoedInstructionsDropped | src/services/transcription_service.py:101-102 | an answer without markers that mentions "ignore silence" in any case is dropped entirely |
| TranscriptionService.DropMarkersNoop | src/services/transcription_service.py:97-98 | a stripped answer without "#" and without either "context:" spelling passes the marker removal unchanged |
| TranscriptionService.NoMatchUnchanged | src/services/transcription_service.py:94-98 | removing a pattern that does not occur changes nothing |
| TranscriptionService.ReplaceInvalid | src/services/transcription_service.py:164-171 | the length is kept, each invalid character becomes '_' and every other is kept, so no invalid character remains |
| TranscriptionService.FallbackClean | src/services/transcription_service.py:177-178 | the fallback name "transcript" is itself clean |
| TranscriptionService.DotStripped | src/services/transcription_service.py:167-174 | the stripped, replaced name holds no invalid character and neither starts nor ends with a dot |
| TranscriptionService.SanitizeFilename | src/services/transcription_service.py:134-180 | the result as written is non-empty, free of invalid characters and neither starts nor ends with a dot |
| TranscriptionService.SanitizeExposesSpace | src/services/transcription_service.py:167-180 | ". ." gives " ": the space that dot stripping exposes is kept, against the documented stripping of whitespace |
| TranscriptionService.SanitizeFilenameIntended | src/services/transcription_service.py:152-156 | the documented behaviour: non-empty, free of invalid characters, and neither starting nor ending with a dot or whitespace |
| TranscriptionService.FullyStripped | src/services/transcription_service.py:155 | stripping whitespace and dots together leaves neither at either end |
| TranscriptionService.SanitizeKeepsCleanName | src/services/transcription_service.py:134-180 | both versions return a name that is already clean unchanged |
| TranscriptionService.SanitizeVersionsAgree | src/services/transcription_service.py:167-180 | the written and the documented versions agree whenever the written result does not begin or end with whitespace |
| TranscriptionService.SanitizeFallback | src/services/transcription_service.py:176-178 | a name of dots only falls back to "transcript" in both versions |
| TranscriptionService.SanitizeExampleMeeting | src/services/transcription_service.py:145-146 | "meeting:notes*2025" gives "meeting_notes_2025" |
| TranscriptionService.SanitizeExampleChinese | src/services/transcription_service.py:149-150 | a Chinese name is kept as it is |
| TranscriptionService.SanitizeExamplePasswd | src/services/transcription_service.py:147-174 | "../../../etc/passwd" gives "_.._.._etc_passwd" |
| TranscriptionService.AppendedLine | src/services/transcription_service.py:258-263 | the appended line is the text plus 23 characters of stamp, brackets, space and newline |
| TranscriptionService.AppendedLineRoundTrip | src/services/transcription_service.py:262-263 | every appended line reads back as its formatted time and its text |
| TranscriptionService.TranscriptHeader | src/services/transcription_service.py:213-226 | a path not ending in ".txt" is refused with its message before anything is written; otherwise the header starts with "# START", the session id and the time |
| TranscriptionService.TranscriptFooter | src/services/transcription_service.py:305-310 | the footer starts with the rule line and "# END", the session id and the time, and ends with the dropped count and a blank line |
| TranscriptionWidget.GetModelConfig | src/ui/transcription_widget.py:149-151 | a known model gets its own entry and any other model the whisper-1 entry; no rate is negative (prices from MODEL_COST_CONFIG, lines 47-60) |
| TranscriptionWidget.AudioMinutes | src/ui/transcription_widget.py:154-160 | no bytes or a negative count is zero minutes, and the minutes are never negative |
| TranscriptionWidget.AudioMinutesOfSamples | src/ui/transcription_widget.py:154-160 | the bytes of n mono 16-bit samples at 48 kHz last n / 2880000 minutes |
| TranscriptionWidget.AudioMinutesMonotone | src/ui/transcription_widget.py:154-160 | more bytes never make fewer minutes |
| TranscriptionWidget.EstimateCost | src/ui/transcription_widget.py:163-187 | the total is the audio cost plus the text cost; the character count is the text's length; for non-negative minutes no part is negative |
| TranscriptionWidget.CostMonotone | src/ui/transcription_widget.py:163-187 | more audio and longer text never make a cheaper estimate |
| TranscriptionWidget.UnknownModelPricedAsWhisper | src/ui/transcription_widget.py:149-187 | a model without a price entry is estimated exactly as whisper-1 |
| TranscriptionWidget.WhisperTextIsFree | src/ui/transcription_widget.py:163-187 | with whisper-1 only the audio costs, 0.006 per minute, while the tokens are still counted at 0.25 per character (whisper-1 prices at lines 48-53) |
| TranscriptionWidget.SegmentLine | src/ui/transcription_widget.py:143 | a timeline line is the 19-character time, two spaces and the text |
| TranscriptionWidget.SegmentLines | src/ui/transcription_widget.py:140-145 | one line per segment, in order |
| TranscriptionWidget.FormatSegments | src/ui/transcription_widget.py:138-146 | the timeline is empty exactly when there are no segments |
| TranscriptionWidget.TimelineRoundTrip | src/ui/transcription_widget.py:138-146 | segments whose texts are single lines read back from the timeline as their times and texts, in order |
| TranscriptionWidget.FormatSegmentsAppend | src/ui/transcription_widget.py:138-146 | a new segment adds exactly one line at the end of the timeline |
| TranscriptionWidget.Stem | src/ui/transcription_widget.py:1100 | the stem is a prefix of the name |
| TranscriptionWidget.RecordingName | src/ui/transcription_widget.py:747-748 | a recording's name has 29 characters |
| TranscriptionWidget.RecordingStem | src/ui/transcription_widget.py:1100 | the stem of a recording's name drops exactly ".wav" (recording names as built at lines 747-748) |
| TranscriptionWidget.TranscriptPath | src/ui/transcription_widget.py:1098-1101 | the transcript sits in the recording's directory, named with "-transcript.txt" at the end |
| TranscriptionWidget.RecordingTranscriptPath | src/ui/transcription_widget.py:1098-1101 | the transcript of the recording started at t is recording-<stamp>-transcript.txt beside it (recording names as built at lines 747-748) |
| TranscriptionWidget.Repeat | src/ui/transcription_widget.py:1111 | n copies of the character |
| TranscriptionWidget.TranscriptFileText | src/ui/transcription_widget.py:1103-1119 | the file is the fixed header, starting with the title and the time, followed by the transcript verbatim |
| TranscriptionWidget.ChunkWavRoundTrip | src/ui/transcription_widget.py:1085-1095 | a chunk the header can describe becomes a WAV that reads back as that chunk at 48000 Hz |
| Registry.ConcatSnoc | src/ui/transcription_widget.py:997 | concatenating one more frame appends its samples |
| Registry.FramesOf | src/ui/transcription_widget.py:923-934 | a queue holds at most as many frames as items |
| Registry.FramesOfSnoc | src/ui/transcription_widget.py:409-415 | queuing an item adds its frame, if it is one, after the others |
| Registry.PushKeepsAudioLog | src/ui/transcription_widget.py:404-411 | a frame the bounded queue accepts becomes the last frame waiting to be written |
| Registry.SentinelKeepsAudioLog | src/ui/transcription_widget.py:821-827 | the stop signal changes no frame's fate |
| Registry.WriteKeepsAudioLog | src/ui/transcription_widget.py:934-950 | writing the oldest queued frame moves it from the queue to the end of the file and adds its bytes to the count |
| Registry.FramesOfFront | src/ui/transcription_widget.py:923-934 | a frame at the front of the queue is the first of its frames |
| Registry.PopSentinelKeepsAudioLog | src/ui/transcription_widget.py:927-932 | taking the stop signal off the queue loses no frame |
| Registry.PushKeepsDrainLog | src/ui/transcription_widget.py:413-416 | buffering a frame appends its samples to what is waiting to be transcribed |
| Registry.DrainKeepsDrainLog | src/ui/transcription_widget.py:990-999 | draining the whole buffer when due moves all its samples, in order, to the drained ones and keeps the three-second spacing of the drain clock |
| Registry.DrainDecision | src/ui/transcription_widget.py:981-1060 | the buffer is drained or the clock reset only when three seconds have passed; a drained chunk is the whole buffer; a segment carries the wall-clock time of the pass |
| Registry.DrainOnlyWhenDue | src/ui/transcription_widget.py:981-999 | a pass touches the clock exactly when the worker runs, its stop event is clear and three seconds have passed, and drains exactly when the buffer is also non-empty |
| Registry.GateDecidesCall | src/ui/transcription_widget.py:1001-1027 | a drained chunk is sent exactly when it passes the voice gate, as its WAV with the token's model; no segment without a call |
| Registry.SegmentOnlyForText | src/ui/transcription_widget.py:1029-1040 | a sent chunk becomes a segment exactly when the answer is not blank, holding the answer stripped and converted to traditional characters |
| Registry.WidgetGateStricter | src/ui/transcription_page.py:641-643 | the page sends exactly the chunks whose RMS reaches 300; every chunk the widget sends also passes the page's gate |
| Registry.DrainKeepsTimeOrder | src/ui/transcription_widget.py:1033-1040 | with a wall clock that does not go backwards, segments stay in time order |
| Registry.StopStatusCases | src/ui/transcription_widget.py:862-875 | stopping reports done exactly when the file holds audio and the transcript is non-empty, missing exactly when there is no file, and too short otherwise |
| Registry.NewEntryValid | src/ui/transcription_widget.py:754-768 | a fresh token's entries start with balanced accounts |
| Registry.PushPreserves | src/ui/transcription_widget.py:386-423 | the frame callback keeps every token's accounts balanced, whether the queue takes the frame or drops it |
| Registry.IngestWritesOldest | src/ui/transcription_widget.py:920-950 | the frame written is the oldest accepted and not yet written, so the file holds the frames in arrival order |
| Registry.IngestPreserves | src/ui/transcription_widget.py:920-950 | one pass of the WAV worker keeps the accounts balanced |
| Registry.DrainPreserves | src/ui/transcription_widget.py:981-1060 | one pass of the transcription worker keeps the accounts balanced |
| Registry.Recorder.constructor | src/ui/transcription_widget.py:68-84 | the registry starts with no active token and no entries |
| Registry.Recorder.Start | src/ui/transcription_widget.py:728-795 | a start while recording changes nothing; otherwise a fresh token becomes the only active one, with empty queue, buffer and segments, no bytes, running workers, the drain clock at the start time, and the UI showing the recording |
| Registry.Recorder.Open | src/ui/transcription_widget.py:754-768 | the given token becomes the only one with entries, and the invariant holds |
| Registry.Recorder.PushFrame | src/ui/transcription_widget.py:386-423 | without an active token nothing changes; otherwise the frame goes into the queue unless it is full and always into the buffer |
| Registry.Recorder.IngestStep | src/ui/transcription_widget.py:904-963 | one pass of the WAV worker: the oldest frame is appended to the file (created at the first frame), or the worker ends on its stop event or the stop signal |
| Registry.Recorder.DrainStep | src/ui/transcription_widget.py:966-1062 | one pass of the transcription worker as the drain decision says, recording the API request it makes |
| Registry.Recorder.ApplyDrain | src/ui/transcription_widget.py:990-1040 | carries out a pass and keeps the invariant |
| Registry.Recorder.Commit | src/ui/transcription_widget.py:920-950 | puts back an entry whose accounts balance against the files |
| Registry.Recorder.Stop | src/ui/transcription_widget.py:801-898 | without a UI token nothing changes; otherwise no token stays active, every per-token entry is removed, the UI shows the stop report and the transcript file is saved when the report says so |
| Registry.Recorder.Finish | src/ui/transcription_widget.py:885-898 | removes every per-token entry and applies the report |
| Registry.StopReport | src/ui/transcription_widget.py:842-883 | the UI is no longer recording and has no token |
| Registry.StopReportsStatus | src/ui/transcription_widget.py:857-875 | the status is that of the recording and the transcript; path, model and segment count stay |
| Registry.StopSavesOnlyWhenDone | src/ui/transcription_widget.py:862-871 | the transcript is saved next to the recording exactly when the file holds audio and there is a segment, with the header and the timeline; otherwise the last transcript and path stay |
| Registry.StopReportsCost | src/ui/transcription_widget.py:846-883 | the widget bills the model the recording used for the bytes written; the page's stop reports no cost |
| Registry.BilledBytesMatchFile | src/ui/transcription_widget.py:945-950 | the counted bytes are exactly those of the samples in the WAV file, which is 44 bytes longer |
| MicRecorder.MicFileName | src/ui/mic_recorder_page.py:419-420 | the recording's name is "mic-record-", the 15-character stamp and ".wav": 30 characters |
| MicRecorder.OpenRate | src/ui/mic_recorder_page.py:281 | the file is opened at a positive rate: the detected one, or 48000 when that is 0 |
| MicRecorder.NewMicEntryValid | src/ui/mic_recorder_page.py:431-437 | a fresh token's entries start with balanced accounts |
| MicRecorder.MicPushCountsAndRate | src/ui/mic_recorder_page.py:117-157 | every callback is counted once; a callback that completes sets the detected rate to the frame's; a first frame at rate 0 raises in the diagnostics and changes neither the stats nor the queue |
| MicRecorder.MicPushDropsWhenFull | src/ui/mic_recorder_page.py:165-174 | a frame at a positive rate is queued last unless the queue of 128 is full, and then it is dropped |
| MicRecorder.MicPushPreserves | src/ui/mic_recorder_page.py:110-180 | the callback keeps the accounts balanced, whether the frame is queued or dropped |
| MicRecorder.MicWorkerPreserves | src/ui/mic_recorder_page.py:264-311 | one pass of the worker keeps the accounts balanced: frames go from the queue to the file in order, empty payloads add nothing, and a failing write, the stop event or the stop signal end the worker |
| MicRecorder.MicWriteKeepsAccounts | src/ui/mic_recorder_page.py:278-305 | writing the oldest frame moves it to the end of the file and adds its bytes, whether or not the worker then stops |
| MicRecorder.MicWritesOldest | src/ui/mic_recorder_page.py:264-291 | the frame written is the oldest accepted one not yet taken |
| MicRecorder.ZeroRateStopRaises | src/ui/mic_recorder_page.py:525-536 | frames reporting rate 0: the first is dropped, the second sets the detected rate to 0 and is written at the 48000 fallback, and the stop then raises dividing by 0 (callback at lines 124-156, rate fallback at line 281) |
| MicRecorder.ZeroRateWorkerStops | src/ui/mic_recorder_page.py:302-311 | with a detected rate of 0 the worker writes its 50th chunk and then stops on the progress log's division |
| MicRecorder.MicStopStatus | src/ui/mic_recorder_page.py:525-536 | the corrected stop status: silent exactly when nothing was written, otherwise the seconds of audio at the rate the file was opened at |
| MicRecorder.MicStopStatusAgrees | src/ui/mic_recorder_page.py:525-536 | wherever the stop does not raise, the corrected status is the source's |
| MicRecorder.MicStopSeconds | src/ui/mic_recorder_page.py:534 | the seconds reported times the file's rate are exactly the samples written (bytes counted at lines 291-299) |
| MicRecorder.MicRecorderPage.constructor | src/ui/mic_recorder_page.py:35-44 | the page starts with no current token and no entries |
| MicRecorder.MicRecorderPage.Start | src/ui/mic_recorder_page.py:411-458 | a start while active changes nothing; otherwise a fresh token becomes current with default stats, a path under "resource" named after the clock, an empty queue and a running worker, and the UI shows the recording |
| MicRecorder.MicRecorderPage.PushFrame | src/ui/mic_recorder_page.py:110-180 | without a current token nothing happens; otherwise the callback's effect on the entry |
| MicRecorder.MicRecorderPage.WorkerStep | src/ui/mic_recorder_page.py:247-327 | one pass of the worker: the entry and the file change as the worker's decision says |
| MicRecorder.MicRecorderPage.Commit | src/ui/mic_recorder_page.py:291-299 | puts back an entry whose accounts balance against the files |
| MicRecorder.MicStopUi | src/ui/mic_recorder_page.py:511-545 | the stop always reports the bytes written and the last RMS; when the duration divides by a detected rate of 0 the status, the active flag, the token, the refresh time and the worker flag keep their old values; otherwise the page goes idle and the status is the corrected stop status, which the source's agrees with there |
| MicRecorder.MicRecorderPage.Stop | src/ui/mic_recorder_page.py:463-545 | a stop while inactive changes nothing; otherwise every per-token entry is removed and the UI shows the bytes and the last RMS; when bytes were written at a detected rate of 0 the division raises, so the token stays current and the UI is not reset; otherwise the token and the UI are reset with the stop status |

## Left out

- `calculate_rms` takes a square root. RMS is compared with its thresholds through squares (RMS ≥ t exactly when Σx² ≥ t²·n for t > 0), so no real square root is modelled.
- Floating point: sample conversion, durations and costs use exact reals or integers. The fixed-point formatting of numbers in messages (`{:.1f}` and the like) is not modelled.
- Python's fixed-width NumPy integers appear only where the source relies on them: the int16 samples and the 32-bit magnitudes in `is_voiced_chunk`.
- `TranscriptionSession.duration_seconds` reads the clock. Clocks, `uuid4` and `datetime.now()` are parameters of the operations that use them.
- `FileOutputConfig` does not validate `timestamp_format`. `Path` normalisation (`resolve()`, `..` handling) is not modelled: paths are strings joined with "/".
- Directories, files and file modification times form one snapshot: a map from paths to contents plus a set of existing directories. Directory creation, permissions and write failures other than the modelled ones are left out. A failed write leaves the file unchanged.
- `isinstance` checks on values the type system already fixes are not modelled. `print` and logging calls are not modelled.
- Threads: each worker is one loop iteration per method call, with an arbitrary interleaving chosen by the caller. `join` timeouts are not modelled: a stop runs each worker's final pass, which sees the stop event.
- Only one Streamlit browser session is modelled. `last_segment_count`, `last_ui_update` and `st.rerun` scheduling are not modelled.
- `process_audio_frame` (av.AudioFrame to int16 mono) is a parameter: the callback receives its result, or None for a frame it cannot convert.
- The mic page's first-frame diagnostics divide by `frame.samples` as well as by the rate. Only a rate of 0 is modelled.
- `_ensure_worker_started` in the mic recorder page has no caller and is not modelled.
- The branch of the mic page's Stop that handles an active recording without a token is unreachable from Start and is not modelled.
- OpenCC's simplified-to-traditional conversion is a parameter. The speech-to-text API is an oracle returning text or an error. The language and prompt sent to it are not modelled.
- The widget and page always open the WAV file at 48000 Hz. The detected sample rate is reported but not used for writing.
- `textwrap.dedent` on the prompt is subsumed by the later `strip`.
- `\w` in regular expressions is modelled for ASCII, Latin-1 and the CJK Unified Ideographs. Case mapping (`lower`, `upper`, `IGNORECASE`) is ASCII only.
- Base64 encoding of embedded speaker images is not modelled: a data URI records its MIME type and the file it encodes. Upload contents are not modelled.
- Transcript history sees one snapshot of the transcript directory. `glob` ordering is a parameter, and modification times are integers.
- Dashboard ordering negates the start's date and time fields instead of a timestamp. Time zones and daylight saving are not modelled. A session whose time is None is not modelled.
- Streamlit widget inputs (radio buttons, buttons, uploads) are parameters of the view functions.
- Dashboard.KeySessions: states that the sort fails exactly when some key fails, not which session's error is raised first.
- As written, the `Session` dataclass has no `registrants` or `registration_start_date` field, so the `Session(...)` call in `get_all_sessions` (src/services/session_service.py:73-74) raises TypeError for every record and every session lookup fails. The model departs from this deliberately: it keeps both in the session record, so that loading, lookups and registration can be modelled at all.
- SessionService.BuildSession: refuses a field whose JSON type differs from the dataclass's declared type (`WrongType`). The dataclass does not check these types; its `__post_init__` checks only the values it validates.
- `\d` in regular expressions, the `strptime` directives `%Y`, `%m`, `%d`, `%H` and `%M`, and `int()` accept every Unicode decimal digit in Python. The model accepts only the ASCII digits 0-9.
- RegistrationService.NameText: `str()` of a float, list or object name is not modelled and gives the empty text; strings, integers, booleans and None are rendered as Python does.
- DateUtils.PyRepr: escapes the ASCII control characters, the backslash and the quote as Python's `repr` does; the non-ASCII characters Python also escapes (other non-printable code points) are kept as they are.
- Dashboard.SortByKey, Dashboard.SortSessions, TranscriptHistory.NewestFirst and SessionService.SortBy: stability of Python's sort (equal keys keep their order) is not stated; the contracts state sortedness and the permutation.
- `can_register`, `validate_name` and `datetime.fromisoformat` are parameters.
- `get_session_registrants` in session_service.py is not modelled.
- File locking, backup copies and JSON text encoding and decoding are not modelled. The services work on decoded JSON values.

## Findings

| source | as written | input that shows it | evidently intended | confidence | as-written member | corrected member |
|---|---|---|---|---|---|---|
| src/utils/validation.py:164-181 | only a `strptime` error whose message says "does not match format" becomes "Invalid time value"; any other error escapes as it is | "12:60-13:00": `%M` matches "6" and `strptime` raises "unconverted data remains: 0" | every invalid clock time in a shaped range is reported as "Invalid time value: <text>" | medium, not executed | Validation.MinutesAbove59AsWritten | Validation.ValidateTimeFormatIntended |
| src/services/transcription_service.py:167-180 | whitespace is stripped before the dots, so a space that dot stripping exposes stays | ". ." gives " " | the result neither starts nor ends with whitespace or a dot | medium, not executed | TranscriptionService.SanitizeExposesSpace | TranscriptionService.SanitizeFilenameIntended |
| src/ui/mic_recorder_page.py:534 | the callback (lines 124-156) and the worker's fallback (line 281) let frames that report a sample rate of 0 be written at the 48000 fallback, but the stop divides by the detected rate 0; the worker's progress log at its 50th chunk (lines 302-305) divides by it too and ends the worker | two frames with `sample_rate` 0: the first is dropped, the second is written, and Stop raises ZeroDivisionError | the reported duration uses the rate the file was opened at | low, not executed | MicRecorder.ZeroRateStopRaises | MicRecorder.MicStopStatus |
