/**
  `src/utils/validation.py`: the validators for session and speaker records
  as they are stored (JSON objects), and for the "YYYY-MM-DD" date and
  "HH:MM-HH:MM" time-range texts.  Each validator runs its checks in source
  order and reports the first failure as the `ValueError` message the source
  raises; Python's own `TypeError`/`AttributeError` (a non-string id, a
  truthy non-string title) are kept as separate outcomes.

  The regular expressions are `re.match` patterns anchored with `^` and `$`,
  and `$` also matches just before a final newline, so "session_001\n" is
  an accepted id and "14:00-16:00\n" an accepted time range.
 */
module Validation {
  import opened Wrappers
  import opened PyText
  import opened Records
  import opened DateUtils

  datatype Failure = ValueError(msg: string) | TypeError | AttributeError

  type Check = Result<(), Failure>

  const Pass: Check := Ok(())

  /** `if not v or not v.strip(): raise ValueError(msg)` */
  function RequireNonBlank(v: Json, msg: string): (r: Check)
    ensures r.Ok? <==> NonBlankStr(v)
    ensures r.Err? ==> (r.error == AttributeError <==> Truthy(v) && !v.JStr?)
    ensures r.Err? && r.error != AttributeError ==> r.error == ValueError(msg)
  {
    if !Truthy(v) then Err(ValueError(msg))
    else if !v.JStr? then Err(AttributeError)
    else
      StripSpec(v.s);
      if Strip(v.s) == "" then Err(ValueError(msg)) else Pass
  }

  // ---------------------------------------------------------------------
  // The regular expressions

  /** `re.match(r"^session_\d{3}$", s)` */
  predicate SessionIdShaped(s: string) {
    (|s| == 11 || (|s| == 12 && s[11] == '\n'))
    && s[..8] == "session_" && IsAsciiDigit(s[8]) && IsAsciiDigit(s[9]) && IsAsciiDigit(s[10])
  }

  /** `re.match(r"^\d{4}-\d{2}-\d{2}$", s)` */
  predicate DateShaped(s: string) {
    (|s| == 10 || (|s| == 11 && s[10] == '\n'))
    && AllDigits(s[0..4]) && s[4] == '-' && AllDigits(s[5..7]) && s[7] == '-' && AllDigits(s[8..10])
  }

  /** `re.match(r"^\d{2}:\d{2}-\d{2}:\d{2}$", s)` */
  predicate TimeShaped(s: string) {
    (|s| == 11 || (|s| == 12 && s[11] == '\n'))
    && HMShaped(s[0..5]) && s[5] == '-' && HMShaped(s[6..11])
  }

  predicate HMShaped(t: string) {
    |t| == 5 && AllDigits(t[0..2]) && t[2] == ':' && AllDigits(t[3..5])
  }

  // ---------------------------------------------------------------------
  // What the date and time validators accept, stated directly

  /** Exactly ten characters "YYYY-MM-DD" naming a day of the Gregorian calendar. */
  predicate CalendarDateText(s: string) {
    DateShaped(s) && |s| == 10
    && ValidDate(DigitsValue(s[0..4]), DigitsValue(s[5..7]), DigitsValue(s[8..10]))
  }

  /** "HH:MM" with an hour below 24 and a minute below 60. */
  predicate ClockText(t: string) {
    HMShaped(t) && DigitsValue(t[0..2]) < 24 && DigitsValue(t[3..5]) < 60
  }

  function MinuteOfDay(t: string): int
    requires HMShaped(t)
  {
    DigitsValue(t[0..2]) * 60 + DigitsValue(t[3..5])
  }

  /** "HH:MM-HH:MM" (and possibly a final newline) with two clock times, the
      first strictly earlier. */
  predicate TimeRangeText(s: string) {
    TimeShaped(s) && ClockText(s[0..5]) && ClockText(s[6..11]) && MinuteOfDay(s[0..5]) < MinuteOfDay(s[6..11])
  }

  // ---------------------------------------------------------------------
  // validate_date_format / validate_time_format

  function ValidateDateFormat(v: Json): (r: Check)
    ensures r.Ok? <==> v.JStr? && CalendarDateText(v.s)
    ensures !v.JStr? ==> r == Err(ValueError("Date must be a string"))
    ensures v.JStr? && !DateShaped(v.s) ==> r == Err(ValueError("Date must be in YYYY-MM-DD format: " + v.s))
    ensures v.JStr? && DateShaped(v.s) && r.Err? ==>
      r.error.ValueError? && StartsWith(r.error.msg, "Invalid date value: " + v.s + " - ")
  {
    if !v.JStr? then Err(ValueError("Date must be a string"))
    else if !DateShaped(v.s) then Err(ValueError("Date must be in YYYY-MM-DD format: " + v.s))
    else
      var s := v.s;
      AcceptedDates(s);
      match ParseDate(s)
      case Ok(_) => Pass
      case Err(e) =>
        var prefix := "Invalid date value: " + s + " - ";
        var msg := prefix + StrptimeMessage(e, s, "%Y-%m-%d");
        assert msg[..|prefix|] == prefix;
        Err(ValueError(msg))
  }

  /** The `except ValueError` of `validate_time_format`: a message mentioning
      "does not match format" becomes "Invalid time value"; any other error is
      re-raised unchanged. */
  function TimeValueHandler(e: Failure, s: string): Failure {
    if e.ValueError? && Contains(e.msg, "does not match format") then ValueError("Invalid time value: " + s) else e
  }

  /** `validate_time_format` as written: a `strptime` failure is reported as
      "Invalid time value" only when its message says the text does not match
      the format; "unconverted data remains" is re-raised as it is. */
  function ValidateTimeFormat(v: Json): (r: Check)
    ensures r.Ok? <==> v.JStr? && TimeRangeText(v.s)
    ensures !v.JStr? ==> r == Err(ValueError("Time must be a string"))
    ensures v.JStr? && !TimeShaped(v.s) ==> r == Err(ValueError("Time must be in HH:MM-HH:MM format: " + v.s))
  {
    CheckTimeRange(v, true)
  }

  /** `validate_time_format` with every `strptime` failure reported as
      "Invalid time value", as its exception handler evidently intends. */
  function ValidateTimeFormatIntended(v: Json): (r: Check)
    ensures r.Ok? <==> v.JStr? && TimeRangeText(v.s)
    ensures !v.JStr? ==> r == Err(ValueError("Time must be a string"))
    ensures v.JStr? && !TimeShaped(v.s) ==> r == Err(ValueError("Time must be in HH:MM-HH:MM format: " + v.s))
    ensures v.JStr? && TimeShaped(v.s) && !(ClockText(v.s[0..5]) && ClockText(v.s[6..11])) ==>
      r == Err(ValueError("Invalid time value: " + v.s))
  {
    CheckTimeRange(v, false)
  }

  /** How a `strptime` failure on one half of the range `s` is reported. */
  function TimeParseFailure(e: StrptimeError, part: string, s: string, asWritten: bool): Failure {
    if asWritten then TimeValueHandler(ValueError(StrptimeMessage(e, part, "%H:%M")), s)
    else ValueError("Invalid time value: " + s)
  }

  /** The checks of `validate_time_format`, in source order. */
  function CheckTimeRange(v: Json, asWritten: bool): (r: Check)
    ensures r.Ok? <==> v.JStr? && TimeRangeText(v.s)
    ensures !v.JStr? ==> r == Err(ValueError("Time must be a string"))
    ensures v.JStr? && !TimeShaped(v.s) ==> r == Err(ValueError("Time must be in HH:MM-HH:MM format: " + v.s))
    ensures !asWritten && v.JStr? && TimeShaped(v.s) && !(ClockText(v.s[0..5]) && ClockText(v.s[6..11])) ==>
      r == Err(ValueError("Invalid time value: " + v.s))
  {
    if !v.JStr? then Err(ValueError("Time must be a string"))
    else if !TimeShaped(v.s) then Err(ValueError("Time must be in HH:MM-HH:MM format: " + v.s))
    else
      var s := v.s;
      TimeParts(s);
      TimeRangeAccepted(s);
      ClockTextAccepted(s[0..5]);
      ClockTextAccepted(s[6..11]);
      var parts := Split(s, '-');
      if |parts| != 2 then Err(TimeValueHandler(ValueError("Time range must have start and end times: " + s), s))
      else
        var a := Strip(parts[0]);
        var b := Strip(parts[1]);
        match (Strptime(a, TimeFormat), Strptime(b, TimeFormat))
        case (Err(e), _) => Err(TimeParseFailure(e, a, s, asWritten))
        case (Ok(_), Err(e)) => Err(TimeParseFailure(e, b, s, asWritten))
        case (Ok(st), Ok(en)) =>
          if !Before(st, en) then Err(TimeValueHandler(ValueError("Start time must be before end time: " + s), s))
          else Pass
  }

  /** Minutes 60..99 match `%M` by one digit only, leaving the second unconverted. */
  lemma {:induction false} ClockMinutesOverflow(h: int, c1: char, c2: char)
    requires 0 <= h < 24 && '6' <= c1 <= '9' && IsAsciiDigit(c2)
    ensures Strptime(Two(h) + ":" + [c1, c2], TimeFormat) == Err(Unconverted([c2]))
  {
    var a := Two(h) + ":" + [c1, c2];
    var empty: seq<Piece> := [];
    assert MatchAlt(Alternatives(Minute)[0], a, 3).None? by { assert !AtomMatches(Alternatives(Minute)[0][0], a[3]); }
    assert MatchAlt(Alternatives(Minute)[1], a, 3) == Some(4);
    assert MatchFrom(empty, a, 4).Some?;
    DirectiveStep(Minute, 1, empty, a, 3);
    assert [Directive(Minute)] + empty == [Directive(Minute)];
    LiteralStep(':', [Directive(Minute)], a, 2);
    assert a[0..2] == Two(h);
    var k := HourAlt(h, a, 0);
    DirectiveStep(Hour, k, [Literal(':'), Directive(Minute)], a, 0);
    assert TimeFormat == [Directive(Hour)] + [Literal(':'), Directive(Minute)];
    assert [Literal(':')] + [Directive(Minute)] == [Literal(':'), Directive(Minute)];
    assert MatchFrom(TimeFormat, a, 0).value.0 == 4;
    assert a[4..] == [c2];
  }

  /** Minutes from 60 to 99 are not reported as "Invalid time value" by the
      code as written: `%M` takes the first digit alone, and `strptime` then
      complains about the second with "unconverted data remains", which the
      handler re-raises.  The intended version reports "Invalid time value". */
  lemma MinutesAbove59AsWritten(h: int, c1: char, c2: char, b: string)
    requires 0 <= h < 24 && '6' <= c1 <= '9' && IsAsciiDigit(c2)
    requires TimeShaped(Two(h) + ":" + [c1, c2] + "-" + b)
    ensures var s := Two(h) + ":" + [c1, c2] + "-" + b;
            ValidateTimeFormat(JStr(s)) == Err(ValueError("unconverted data remains: " + [c2]))
            && ValidateTimeFormatIntended(JStr(s)) == Err(ValueError("Invalid time value: " + s))
  {
    var s := Two(h) + ":" + [c1, c2] + "-" + b;
    var a := OverflowingStart(h, c1, c2, b);
    UnconvertedIsNotNoMatch(c2);
    assert TimeParseFailure(Unconverted([c2]), a, s, true) == ValueError("unconverted data remains: " + [c2]);
  }

  /** The start of such a range strips to itself, is not a clock time, and
      `%H:%M` leaves its last digit unconverted. */
  lemma OverflowingStart(h: int, c1: char, c2: char, b: string) returns (a: string)
    requires 0 <= h < 24 && '6' <= c1 <= '9' && IsAsciiDigit(c2)
    requires TimeShaped(Two(h) + ":" + [c1, c2] + "-" + b)
    ensures var s := Two(h) + ":" + [c1, c2] + "-" + b;
            a == s[0..5] && |Split(s, '-')| == 2 && Strip(Split(s, '-')[0]) == a
            && Strptime(a, TimeFormat) == Err(Unconverted([c2])) && !ClockText(a)
  {
    var s := Two(h) + ":" + [c1, c2] + "-" + b;
    TimeParts(s);
    a := s[0..5];
    assert a == Two(h) + ":" + [c1, c2];
    ClockMinutesOverflow(h, c1, c2);
    OverflowNotClock(h, c1, c2);
  }

  lemma OverflowNotClock(h: int, c1: char, c2: char)
    requires 0 <= h < 24 && '6' <= c1 <= '9' && IsAsciiDigit(c2)
    ensures !ClockText(Two(h) + ":" + [c1, c2])
  {
    var a := Two(h) + ":" + [c1, c2];
    assert a[3..5] == [c1, c2];
    assert [c1, c2][..1] == [c1];
    assert DigitsValue(a[3..5]) >= 60;
  }

  /** An "unconverted data remains" message never mentions "does not match format". */
  lemma UnconvertedIsNotNoMatch(c: char)
    ensures !Contains("unconverted data remains: " + [c], "does not match format")
  {
    var msg := "unconverted data remains: " + [c];
    var sub := "does not match format";
    forall i | 0 <= i <= |msg| - |sub| ensures msg[i] != sub[0] {
      assert msg[i] == "unconverted data remains: "[i];
    }
    NotContainedWithoutFirstChar(msg, sub);
  }

  // ---------------------------------------------------------------------
  // validate_speaker

  const SpeakerFields: seq<string> := ["name", "photo", "bio"]

  /** The photo is an image file name or a web address. */
  predicate PhotoPathOk(p: string) {
    EndsWith(p, ".jpg") || EndsWith(p, ".jpeg") || EndsWith(p, ".png") || EndsWith(p, ".gif")
    || StartsWith(p, "http://") || StartsWith(p, "https://")
  }

  predicate SpeakerValid(v: Json) {
    v.JObj? && "name" in v.fields && "photo" in v.fields && "bio" in v.fields
    && NonBlankStr(v.fields["name"]) && NonBlankStr(v.fields["photo"])
    && PhotoPathOk(v.fields["photo"].s) && NonBlankStr(v.fields["bio"])
  }

  function ValidateSpeaker(v: Json): (r: Check)
    ensures r.Ok? <==> SpeakerValid(v)
    ensures !v.JObj? ==> r == Err(ValueError("Speaker data must be a dictionary"))
  {
    if !v.JObj? then Err(ValueError("Speaker data must be a dictionary"))
    else
      var m := v.fields;
      var k := FirstMissing(SpeakerFields, m);
      if k < |SpeakerFields| then Err(ValueError("Missing required speaker field: " + SpeakerFields[k]))
      else
        assert SpeakerFields[0] in m && SpeakerFields[1] in m && SpeakerFields[2] in m;
        var name := RequireNonBlank(m["name"], "Speaker name cannot be empty");
        if name.Err? then name
        else
          var photo := RequireNonBlank(m["photo"], "Speaker photo path cannot be empty");
          if photo.Err? then photo
          else if !PhotoPathOk(m["photo"].s) then Err(ValueError("Invalid photo path format: " + m["photo"].s))
          else RequireNonBlank(m["bio"], "Speaker bio cannot be empty")
  }

  // ---------------------------------------------------------------------
  // validate_session

  const SessionFields: seq<string> := ["id", "title", "description", "date", "time",
    "location", "level", "tags", "learning_outcomes", "capacity", "registered", "speaker"]

  const Levels: seq<string> := ["初", "中", "高"]

  predicate TagsOk(v: Json) {
    v.JList? && |v.items| > 0 && forall k :: 0 <= k < |v.items| ==> NonBlankStr(v.items[k])
  }

  /** The first tag that is not a non-blank string. */
  function FirstBadTag(tags: seq<Json>): (k: nat)
    ensures k <= |tags|
    ensures forall j :: 0 <= j < k ==> NonBlankStr(tags[j])
    ensures k < |tags| ==> !NonBlankStr(tags[k])
    decreases |tags|
  {
    if |tags| == 0 || !NonBlankStr(tags[0]) then 0 else 1 + FirstBadTag(tags[1..])
  }

  predicate HasSessionFields(m: map<string, Json>) {
    forall k :: 0 <= k < |SessionFields| ==> SessionFields[k] in m
  }

  lemma SessionFieldsPresent(m: map<string, Json>)
    requires HasSessionFields(m)
    ensures "id" in m && "title" in m && "description" in m && "date" in m && "time" in m && "location" in m
    ensures "level" in m && "tags" in m && "learning_outcomes" in m && "capacity" in m && "registered" in m
    ensures "speaker" in m
  {
    assert SessionFields[0] in m && SessionFields[1] in m && SessionFields[2] in m && SessionFields[3] in m;
    assert SessionFields[4] in m && SessionFields[5] in m && SessionFields[6] in m && SessionFields[7] in m;
    assert SessionFields[8] in m && SessionFields[9] in m && SessionFields[10] in m && SessionFields[11] in m;
  }

  /** Everything `validate_session` demands, as one conjunction. */
  predicate SessionValid(v: Json) {
    v.JObj? && HasSessionFields(v.fields) && SessionFieldsValid(v.fields)
  }

  predicate SessionFieldsValid(m: map<string, Json>)
    requires HasSessionFields(m)
  {
    SessionHeadValid(m) && SessionTailValid(m)
  }

  /** The identity, texts, date and time of a session. */
  predicate SessionHeadValid(m: map<string, Json>)
    requires HasSessionFields(m)
  {
    SessionFieldsPresent(m);
    m["id"].JStr? && SessionIdShaped(m["id"].s)
    && NonBlankStr(m["title"]) && NonBlankStr(m["description"])
    && ScheduleValid(m["date"], m["time"])
    && NonBlankStr(m["location"])
  }

  predicate ScheduleValid(date: Json, time: Json) {
    date.JStr? && CalendarDateText(date.s) && time.JStr? && TimeRangeText(time.s)
  }

  /** The level, tags, outcomes, counts and speaker of a session. */
  predicate SessionTailValid(m: map<string, Json>)
    requires HasSessionFields(m)
  {
    SessionFieldsPresent(m);
    m["level"].JStr? && m["level"].s in Levels
    && TagsOk(m["tags"])
    && NonBlankStr(m["learning_outcomes"])
    && IsInt(m["capacity"]) && IntValue(m["capacity"]) > 0
    && IsInt(m["registered"]) && IntValue(m["registered"]) >= 0
    && IntValue(m["registered"]) <= IntValue(m["capacity"])
    && SpeakerValid(m["speaker"])
  }

  function ValidateSession(v: Json): (r: Check)
    ensures r.Ok? <==> SessionValid(v)
    ensures !v.JObj? ==> r == Err(ValueError("Session data must be a dictionary"))
    ensures v.JObj? && FirstMissing(SessionFields, v.fields) < |SessionFields| ==>
      r == Err(ValueError("Missing required field: " + SessionFields[FirstMissing(SessionFields, v.fields)]))
  {
    if !v.JObj? then Err(ValueError("Session data must be a dictionary"))
    else
      var m := v.fields;
      var k := FirstMissing(SessionFields, m);
      if k < |SessionFields| then Err(ValueError("Missing required field: " + SessionFields[k]))
      else ValidateSessionFields(m)
  }

  /** The checks after the presence test, in source order. */
  function ValidateSessionFields(m: map<string, Json>): (r: Check)
    requires HasSessionFields(m)
    ensures r.Ok? <==> SessionFieldsValid(m)
  {
    var head := ValidateSessionHead(m);
    if head.Err? then head else ValidateSessionTail(m)
  }

  function ValidateSessionHead(m: map<string, Json>): (r: Check)
    requires HasSessionFields(m)
    ensures r.Ok? <==> SessionHeadValid(m)
  {
    SessionFieldsPresent(m);
    if !m["id"].JStr? then Err(TypeError)
    else if !SessionIdShaped(m["id"].s) then Err(ValueError("Invalid session ID format: " + m["id"].s))
    else
      var title := RequireNonBlank(m["title"], "Title cannot be empty");
      if title.Err? then title else
      var description := RequireNonBlank(m["description"], "Description cannot be empty");
      if description.Err? then description else
      var schedule := ValidateSchedule(m["date"], m["time"]);
      if schedule.Err? then schedule else
      RequireNonBlank(m["location"], "Location cannot be empty")
  }

  /** The date check, then the time check. */
  function ValidateSchedule(date: Json, time: Json): (r: Check)
    ensures r.Ok? <==> ScheduleValid(date, time)
  {
    var d := ValidateDateFormat(date);
    if d.Err? then d else ValidateTimeFormat(time)
  }

  /** A session whose date passes and whose start minute is 60 to 99 fails
      with the escaping `strptime` message, not "Invalid time value". */
  lemma ScheduleMinutesAbove59(date: Json, h: int, c1: char, c2: char, b: string)
    requires ValidateDateFormat(date).Ok?
    requires 0 <= h < 24 && '6' <= c1 <= '9' && IsAsciiDigit(c2)
    requires TimeShaped(Two(h) + ":" + [c1, c2] + "-" + b)
    ensures ValidateSchedule(date, JStr(Two(h) + ":" + [c1, c2] + "-" + b))
            == Err(ValueError("unconverted data remains: " + [c2]))
  {
    MinutesAbove59AsWritten(h, c1, c2, b);
  }

  function ValidateSessionTail(m: map<string, Json>): (r: Check)
    requires HasSessionFields(m)
    ensures r.Ok? <==> SessionTailValid(m)
  {
    SessionFieldsPresent(m);
    if !(m["level"].JStr? && m["level"].s in Levels) then Err(ValueError("Level must be one of ['初', '中', '高']")) else
    if !m["tags"].JList? || |m["tags"].items| == 0 then Err(ValueError("Tags must be a non-empty list")) else
    if FirstBadTag(m["tags"].items) < |m["tags"].items| then Err(ValueError("All tags must be non-empty strings")) else
    var outcomes := RequireNonBlank(m["learning_outcomes"], "Learning outcomes cannot be empty");
    if outcomes.Err? then outcomes else
    var capacity := m["capacity"];
    if !IsInt(capacity) || IntValue(capacity) <= 0 then Err(ValueError("Capacity must be a positive integer")) else
    var registered := m["registered"];
    if !IsInt(registered) || IntValue(registered) < 0 then Err(ValueError("Registered count must be a non-negative integer")) else
    if IntValue(registered) > IntValue(capacity) then
      Err(ValueError("Registered count (" + IntText(registered) + ") cannot exceed capacity (" + IntText(capacity) + ")"))
    else ValidateSpeaker(m["speaker"])
  }

  // ---------------------------------------------------------------------
  // Proofs: what the date and time parsers accept on shaped texts

  lemma FieldValueIsDigitsValue(t: string)
    requires AllDigits(t)
    ensures FieldValue(t) == DigitsValue(t)
    decreases |t|
  {
    if |t| > 0 {
      assert AllDigits(t[..|t| - 1]);
      FieldValueIsDigitsValue(t[..|t| - 1]);
    }
  }

  /** On a shaped date text `parse_date` succeeds exactly for calendar dates. */
  lemma AcceptedDates(s: string)
    requires DateShaped(s)
    ensures ParseDate(s).Ok? <==> CalendarDateText(s)
  {
    if ParseDate(s).Ok? {
      ShapedDateParses(s);
    }
    if CalendarDateText(s) {
      CalendarDateFormatted(s);
      ParseDateRoundTrip(DigitsValue(s[0..4]), DigitsValue(s[5..7]), DigitsValue(s[8..10]));
    }
  }

  /** A calendar date text is the formatting of the date it names. */
  lemma CalendarDateFormatted(s: string)
    requires CalendarDateText(s)
    ensures s == FormatDate(DigitsValue(s[0..4]), DigitsValue(s[5..7]), DigitsValue(s[8..10]))
  {
    FieldValueIsDigitsValue(s[0..4]);
    FieldValueIsDigitsValue(s[5..7]);
    FieldValueIsDigitsValue(s[8..10]);
    FourOfDigits(s[0..4]);
    TwoOfDigits(s[5..7]);
    TwoOfDigits(s[8..10]);
    assert s == s[0..4] + "-" + s[5..7] + "-" + s[8..10];
  }

  /** A shaped date text that parses is a calendar date. */
  lemma ShapedDateParses(s: string)
    requires DateShaped(s) && ParseDate(s).Ok?
    ensures CalendarDateText(s)
  {
    var ed := DateMatch(s);
    assert ed == |s|;
    FieldValueIsDigitsValue(s[0..4]);
    FieldValueIsDigitsValue(s[5..7]);
    FieldValueIsDigitsValue(s[8..10]);
  }

  /** On a shaped date text, a match of `%Y-%m-%d` captures the year and the
      month as written and the day from position 8 to where the match ends. */
  lemma DateMatch(s: string) returns (ed: nat)
    requires DateShaped(s) && MatchFrom(DateFormat, s, 0).Some?
    ensures 9 <= ed <= 10
    ensures MatchFrom(DateFormat, s, 0) == Some((ed, map[Day := s[8..ed]][Month := s[5..7]][Year := s[0..4]]))
  {
    assert s[6] == s[5..7][1];
    YearMonthMatch(s);
    ed := DayMatch(s);
  }

  lemma YearMonthMatch(s: string)
    requires |s| >= 10 && s[4] == '-' && s[6] != '-' && MatchFrom(DateFormat, s, 0).Some?
    ensures MatchFrom(DateFormat[4..], s, 8).Some?
    ensures var x := MatchFrom(DateFormat[4..], s, 8).value;
            MatchFrom(DateFormat, s, 0) == Some((x.0, x.1[Month := s[5..7]][Year := s[0..4]]))
  {
    var r1 := DateFormat[1..];
    assert DateFormat == [Directive(Year)] + r1;
    var ay, ey := DirectiveResult(Year, r1, s, 0);
    assert ey == 4;
    MonthMatch(s);
  }

  /** After the year, `-%m-` on a shaped date captures the month as written. */
  lemma MonthMatch(s: string)
    requires |s| >= 10 && s[4] == '-' && s[6] != '-' && MatchFrom(DateFormat[1..], s, 4).Some?
    ensures MatchFrom(DateFormat[4..], s, 8).Some?
    ensures var x := MatchFrom(DateFormat[4..], s, 8).value;
            MatchFrom(DateFormat[1..], s, 4) == Some((x.0, x.1[Month := s[5..7]]))
  {
    var r2 := DateFormat[2..];
    assert DateFormat[1..] == [Literal('-')] + r2;
    LiteralStep('-', r2, s, 4);
    var r3 := DateFormat[3..];
    assert r2 == [Directive(Month)] + r3;
    var r4 := DateFormat[4..];
    assert r3 == [Literal('-')] + r4;
    NoLiteralHere('-', r4, s, 6);
    var am, em := DirectiveResult(Month, r3, s, 5);
    ShortAlternatives(Month, am);
    assert em == 7;
    LiteralStep('-', r4, s, 7);
  }

  lemma DayMatch(s: string) returns (ed: nat)
    requires |s| >= 10 && MatchFrom(DateFormat[4..], s, 8).Some?
    ensures 9 <= ed <= 10
    ensures MatchFrom(DateFormat[4..], s, 8) == Some((ed, map[Day := s[8..ed]]))
  {
    var empty: seq<Piece> := [];
    assert DateFormat[4..] == [Directive(Day)] + empty;
    var ad;
    ad, ed := DirectiveResult(Day, empty, s, 8);
    ShortAlternatives(Day, ad);
  }

  /** The two parts of a shaped time range and what stripping leaves of them. */
  lemma TimeParts(s: string)
    requires TimeShaped(s)
    ensures Split(s, '-') == [s[0..5], s[6..]]
    ensures Strip(s[0..5]) == s[0..5] && Strip(s[6..]) == s[6..11]
  {
    TimeSplit(s);
    ClockStrip(s[0..5]);
    EndStrip(s);
  }

  lemma TimeSplit(s: string)
    requires TimeShaped(s)
    ensures Split(s, '-') == [s[0..5], s[6..]]
  {
    var a, b := s[0..5], s[6..];
    ClockNoDash(a);
    ClockNoDash(s[6..11]);
    assert '-' !in b by {
      if |s| == 12 { assert b == s[6..11] + ['\n']; } else { assert b == s[6..11]; }
    }
    assert s == a + ['-'] + b;
    SplitAfterFirst(a, '-', b);
    SplitNoSep(b, '-');
  }

  lemma ClockNoDash(t: string)
    requires HMShaped(t)
    ensures '-' !in t
  {
    forall k | 0 <= k < 5 ensures t[k] != '-' {
      if k < 2 { assert t[k] == t[0..2][k]; } else if k > 2 { assert t[k] == t[3..5][k - 3]; }
    }
  }

  /** The second part of a shaped time range strips to its clock text. */
  lemma EndStrip(s: string)
    requires TimeShaped(s)
    ensures Strip(s[6..]) == s[6..11]
  {
    var b, c := s[6..], s[6..11];
    ClockStrip(c);
    if |s| == 12 {
      assert b == c + ['\n'];
      assert RStripBy(b, IsSpace) == RStripBy(c, IsSpace);
      assert LStripBy(b, IsSpace) == b;
      assert LStripBy(c, IsSpace) == c;
    } else {
      assert b == c;
    }
  }

  lemma ClockStrip(t: string)
    requires HMShaped(t)
    ensures Strip(t) == t
  {
    assert IsAsciiDigit(t[0..2][0]) && IsAsciiDigit(t[3..5][1]);
    assert LStripBy(t, IsSpace) == t;
    assert RStripBy(t, IsSpace) == t;
  }

  /** A shaped clock text that `%H:%M` accepts is a clock time, read as such. */
  lemma AcceptedClock(t: string)
    requires HMShaped(t) && Strptime(t, TimeFormat).Ok?
    ensures ClockText(t)
    ensures Strptime(t, TimeFormat).value.hour == DigitsValue(t[0..2])
    ensures Strptime(t, TimeFormat).value.minute == DigitsValue(t[3..5])
    ensures var d := Strptime(t, TimeFormat).value; d.year == 1900 && d.month == 1 && d.day == 1
  {
    var em := ClockMatch(t);
    assert em == 5;
    FieldValueIsDigitsValue(t[0..2]);
    FieldValueIsDigitsValue(t[3..5]);
  }

  /** A match of `%H:%M` on a shaped clock text captures the hour as written
      and the minute from position 3 to where the match ends. */
  lemma ClockMatch(t: string) returns (em: nat)
    requires HMShaped(t) && MatchFrom(TimeFormat, t, 0).Some?
    ensures 3 < em <= 5
    ensures MatchFrom(TimeFormat, t, 0) == Some((em, map[Minute := t[3..em]][Hour := t[0..2]]))
  {
    HourMatch(t);
    var empty: seq<Piece> := [];
    assert TimeFormat[2..] == [Directive(Minute)] + empty;
    var am;
    am, em := DirectiveResult(Minute, empty, t, 3);
    ShortAlternatives(Minute, am);
  }

  /** `%H:` on a shaped clock text captures the hour as written. */
  lemma HourMatch(t: string)
    requires HMShaped(t) && MatchFrom(TimeFormat, t, 0).Some?
    ensures MatchFrom(TimeFormat[2..], t, 3).Some?
    ensures var x := MatchFrom(TimeFormat[2..], t, 3).value;
            MatchFrom(TimeFormat, t, 0) == Some((x.0, x.1[Hour := t[0..2]]))
  {
    var r1 := TimeFormat[1..];
    assert TimeFormat == [Directive(Hour)] + r1;
    var ah, eh := DirectiveResult(Hour, r1, t, 0);
    ShortAlternatives(Hour, ah);
    assert r1 == [Literal(':')] + TimeFormat[2..];
    assert t[1] == t[0..2][1] && t[1] != ':';
    NoLiteralHere(':', TimeFormat[2..], t, 1);
    assert eh == 2;
    LiteralStep(':', TimeFormat[2..], t, 2);
  }

  /** On the same day, one clock time is before another exactly when it is
      earlier in minutes since midnight. */
  lemma BeforeOnSameDay(a: DateTime, b: DateTime)
    requires a.year == b.year && a.month == b.month && a.day == b.day
    requires a.second == b.second == 0 && a.micro == b.micro == 0
    requires 0 <= a.minute < 60 && 0 <= b.minute < 60
    ensures Before(a, b) <==> a.hour * 60 + a.minute < b.hour * 60 + b.minute
  {
    var ka, kb := Key(a), Key(b);
    assert ka[1..][1..][1..] == [a.hour, a.minute, 0, 0];
    assert kb[1..][1..][1..] == [b.hour, b.minute, 0, 0];
    assert LexLess(ka, kb) == LexLess(ka[1..], kb[1..]);
    assert LexLess(ka[1..], kb[1..]) == LexLess(ka[1..][1..], kb[1..][1..]);
    assert LexLess(ka[1..][1..], kb[1..][1..]) == LexLess(ka[1..][1..][1..], kb[1..][1..][1..]);
    ClockLexLess(a.hour, a.minute, b.hour, b.minute);
  }

  lemma ClockLexLess(h1: int, m1: int, h2: int, m2: int)
    requires 0 <= m1 < 60 && 0 <= m2 < 60
    ensures LexLess([h1, m1, 0, 0], [h2, m2, 0, 0]) <==> h1 * 60 + m1 < h2 * 60 + m2
  {
    assert [h1, m1, 0, 0][1..] == [m1, 0, 0] && [h2, m2, 0, 0][1..] == [m2, 0, 0];
    assert [m1, 0, 0][1..] == [0, 0] && [m2, 0, 0][1..] == [0, 0];
    LexLessIrreflexive([0, 0]);
  }

  /** The clock texts of a shaped time range, as the two stripped parts. */
  lemma TimeRangeParts(s: string) returns (a: string, b: string)
    requires TimeShaped(s)
    ensures |Split(s, '-')| == 2 && a == Strip(Split(s, '-')[0]) && b == Strip(Split(s, '-')[1])
    ensures a == s[0..5] && b == s[6..11] && HMShaped(a) && HMShaped(b)
  {
    TimeParts(s);
    a, b := s[0..5], s[6..11];
  }

  /** A shaped time range passes the parsing and ordering steps exactly when
      it is a range of two clock times, the first earlier. */
  lemma TimeRangeAccepted(s: string)
    requires TimeShaped(s)
    ensures |Split(s, '-')| == 2
    ensures var a := Strip(Split(s, '-')[0]);
            var b := Strip(Split(s, '-')[1]);
            (Strptime(a, TimeFormat).Ok? && Strptime(b, TimeFormat).Ok?
             && Before(Strptime(a, TimeFormat).value, Strptime(b, TimeFormat).value))
            <==> TimeRangeText(s)
  {
    var a, b := TimeRangeParts(s);
    ClockTextAccepted(a);
    ClockTextAccepted(b);
    if Strptime(a, TimeFormat).Ok? && Strptime(b, TimeFormat).Ok? {
      BeforeOnSameDay(Strptime(a, TimeFormat).value, Strptime(b, TimeFormat).value);
    }
  }

  /** `%H:%M` accepts a shaped clock text exactly when it is a clock time, and
      then reads its hour and minute. */
  lemma ClockTextAccepted(t: string)
    requires HMShaped(t)
    ensures Strptime(t, TimeFormat).Ok? <==> ClockText(t)
    ensures Strptime(t, TimeFormat).Ok? ==>
      var d := Strptime(t, TimeFormat).value;
      d.hour == DigitsValue(t[0..2]) && d.minute == DigitsValue(t[3..5])
      && d.year == 1900 && d.month == 1 && d.day == 1
  {
    if Strptime(t, TimeFormat).Ok? { AcceptedClock(t); }
    if ClockText(t) { ClockAccepted(t); }
  }

  /** Conversely every clock text is accepted by `%H:%M`. */
  lemma ClockAccepted(t: string)
    requires ClockText(t)
    ensures Strptime(t, TimeFormat).Ok?
    ensures Strptime(t, TimeFormat).value.hour == DigitsValue(t[0..2])
    ensures Strptime(t, TimeFormat).value.minute == DigitsValue(t[3..5])
  {
    var h, m := DigitsValue(t[0..2]), DigitsValue(t[3..5]);
    FieldValueIsDigitsValue(t[0..2]);
    FieldValueIsDigitsValue(t[3..5]);
    TwoOfDigits(t[0..2]);
    TwoOfDigits(t[3..5]);
    assert t == FormatHM(h, m);
    ParseHMRoundTrip(h, m);
  }
}
