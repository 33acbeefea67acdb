/**
  A conference session (`Session` dataclass) with its construction checks and
  its read-only queries.  The dataclass as written has no `registrants` or
  `registration_start_date` fields although its loader passes both; the
  model carries them so that the services can be stated.  `can_register` is
  not defined anywhere in the code: callers receive it as a parameter.
 */
module SessionModel {
  import opened Wrappers
  import opened PyText
  import opened DateUtils
  import opened SpeakerModel
  import opened RegistrantModel
  import Validation

  datatype Session = Session(
    id: string, title: string, description: string, date: string, time: string,
    location: string, level: string, tags: seq<string>, learningOutcomes: string,
    capacity: int, registered: int, speaker: Speaker,
    registrants: seq<Registrant>, registrationStartDate: Option<string>)

  const Levels: seq<string> := ["初", "中", "高"]

  /** Everything `__post_init__` establishes. */
  predicate SessionOk(s: Session) {
    !IsBlank(s.id) && Validation.SessionIdShaped(s.id)
    && !IsBlank(s.title) && !IsBlank(s.description)
    && s.level in Levels
    && s.capacity > 0 && 0 <= s.registered <= s.capacity
  }

  /** The `ValueError` message of the first failing `__post_init__` check. */
  function SessionProblem(s: Session): (r: Option<string>)
    ensures r.None? <==> SessionOk(s)
    ensures IsBlank(s.id) ==> r == Some("Session ID cannot be empty")
    ensures !IsBlank(s.id) && !Validation.SessionIdShaped(s.id) ==>
      r == Some("Session ID must match format 'session_XXX': " + s.id)
    ensures !IsBlank(s.id) && Validation.SessionIdShaped(s.id) && IsBlank(s.title) ==> r == Some("Title cannot be empty")
  {
    if IsBlank(s.id) then Some("Session ID cannot be empty")
    else if !Validation.SessionIdShaped(s.id) then Some("Session ID must match format 'session_XXX': " + s.id)
    else if IsBlank(s.title) then Some("Title cannot be empty")
    else if IsBlank(s.description) then Some("Description cannot be empty")
    else if s.level !in Levels then Some("Level must be one of ['初', '中', '高'], got: " + s.level)
    else if s.capacity <= 0 then Some("Capacity must be positive")
    else if s.registered < 0 then Some("Registered count cannot be negative")
    else if s.registered > s.capacity then
      Some("Registered count (" + IntToStr(s.registered) + ") cannot exceed capacity (" + IntToStr(s.capacity) + ")")
    else None
  }

  /** The constructor: the record itself, or the first failing check. */
  function NewSession(s: Session): (r: Result<Session, string>)
    ensures r.Ok? <==> SessionOk(s)
    ensures r.Ok? ==> r.value == s
    ensures r.Err? ==> Some(r.error) == SessionProblem(s)
  {
    match SessionProblem(s)
    case None => Ok(s)
    case Some(msg) => Err(msg)
  }

  /** The checks run in source order: a capacity of zero is reported as such
      even when the registered count is also wrong. */
  lemma CapacityBeforeRegistered(s: Session)
    requires !IsBlank(s.id) && Validation.SessionIdShaped(s.id) && !IsBlank(s.title)
    requires !IsBlank(s.description) && s.level in Levels && s.capacity <= 0
    ensures NewSession(s) == Err("Capacity must be positive")
  {
  }

  predicate IsFull(s: Session) {
    s.registered >= s.capacity
  }

  /** `is_past` is the same computation as `is_past_datetime` on the
      session's own date and time, against the clock reading `now`. */
  predicate IsPast(s: Session, now: DateTime) {
    IsPastDatetime(s.date, s.time, now)
  }

  predicate IsUpcoming(s: Session, now: DateTime) {
    !IsPast(s, now)
  }

  /** `status()`: expiry takes precedence over being full. */
  function Status(s: Session, now: DateTime): (r: string)
    ensures r == "expired" <==> IsPast(s, now)
    ensures r == "full" <==> !IsPast(s, now) && IsFull(s)
    ensures r == "available" <==> IsUpcoming(s, now) && !IsFull(s)
  {
    if IsPast(s, now) then "expired"
    else if IsFull(s) then "full"
    else "available"
  }

  /** A session starting at date `y-mo-d` and time `h:mi-...` is past exactly
      when that start is before `now`. */
  lemma IsPastExact(s: Session, y: int, mo: int, d: int, h: int, mi: int, tail: string, now: DateTime)
    requires ValidDate(y, mo, d) && 0 <= h < 24 && 0 <= mi < 60
    requires s.date == FormatDate(y, mo, d) && s.time == FormatHM(h, mi) + "-" + tail
    ensures IsPast(s, now) <==> Before(DateTime(y, mo, d, h, mi, 0, 0), now)
  {
    IsPastDatetimeExact(y, mo, d, h, mi, tail, now);
  }

  /** `registration_percentage()` */
  function RegistrationPercentage(s: Session): (r: real)
    ensures s.capacity == 0 ==> r == 0.0
    ensures s.capacity != 0 ==> r * (s.capacity as real) == (s.registered as real) * 100.0
  {
    if s.capacity == 0 then 0.0 else (s.registered as real / s.capacity as real) * 100.0
  }

  /** For a constructed session the percentage lies in [0, 100], and is 100
      exactly when the session is full. */
  lemma PercentageBounds(s: Session)
    requires SessionOk(s)
    ensures 0.0 <= RegistrationPercentage(s) <= 100.0
    ensures RegistrationPercentage(s) == 100.0 <==> IsFull(s)
  {
    var p := RegistrationPercentage(s);
    var c := s.capacity as real;
    assert p * c == (s.registered as real) * 100.0;
    if p == 100.0 { assert s.registered as real * 100.0 == 100.0 * c; }
    if IsFull(s) { assert s.registered == s.capacity; assert p * c == 100.0 * c; }
  }
}
