/**
  Dates, times and the subset of CPython's `datetime.strptime` used by the
  application (`%Y`, `%m`, `%d`, `%H`, `%M`, literal characters and
  whitespace), followed by the date helpers of `src/utils/date_utils.py`.

  `strptime` compiles the format into a regular expression, takes the first
  match in the regular-expression engine's backtracking order, reports
  "unconverted data remains" if the match stops short of the end, and then
  builds the datetime, whose constructor checks the calendar.  All of this
  is written out below.  The wall clock is a parameter (`now`).
 */
module DateUtils {
  import opened Wrappers
  import opened PyText

  // ---------------------------------------------------------------------
  // Calendar

  datatype DateTime = DateTime(year: int, month: int, day: int,
                               hour: int, minute: int, second: int, micro: int)

  /** A wall-clock time of day as returned by `datetime.time()`. */
  datatype TimeOfDay = TimeOfDay(hour: int, minute: int)

  predicate IsLeap(y: int) {
    y % 4 == 0 && (y % 100 != 0 || y % 400 == 0)
  }

  function DaysIn(y: int, m: int): int {
    if m == 2 then (if IsLeap(y) then 29 else 28)
    else if m == 4 || m == 6 || m == 9 || m == 11 then 30
    else 31
  }

  predicate ValidDate(y: int, m: int, d: int) {
    1 <= y <= 9999 && 1 <= m <= 12 && 1 <= d <= DaysIn(y, m)
  }

  predicate ValidDateTime(t: DateTime) {
    ValidDate(t.year, t.month, t.day) && 0 <= t.hour < 24 && 0 <= t.minute < 60
    && 0 <= t.second < 60 && 0 <= t.micro < 1000000
  }

  /** Lexicographic order on equal-length integer keys. */
  predicate LexLess(a: seq<int>, b: seq<int>)
    requires |a| == |b|
    decreases |a|
  {
    |a| > 0 && (a[0] < b[0] || (a[0] == b[0] && LexLess(a[1..], b[1..])))
  }

  function Key(t: DateTime): seq<int> {
    [t.year, t.month, t.day, t.hour, t.minute, t.second, t.micro]
  }

  /** `a < b` on datetimes. */
  predicate Before(a: DateTime, b: DateTime) {
    LexLess(Key(a), Key(b))
  }

  lemma {:induction false} LexLessIrreflexive(a: seq<int>)
    ensures !LexLess(a, a)
    decreases |a|
  {
    if |a| > 0 {
      LexLessIrreflexive(a[1..]);
    }
  }

  lemma {:induction false} LexLessTransitive(a: seq<int>, b: seq<int>, c: seq<int>)
    requires |a| == |b| == |c|
    requires LexLess(a, b) && LexLess(b, c)
    ensures LexLess(a, c)
    decreases |a|
  {
    if a[0] == b[0] && b[0] == c[0] {
      LexLessTransitive(a[1..], b[1..], c[1..]);
    }
  }

  lemma {:induction false} LexLessTotal(a: seq<int>, b: seq<int>)
    requires |a| == |b|
    ensures LexLess(a, b) || a == b || LexLess(b, a)
    decreases |a|
  {
    if |a| > 0 && a[0] == b[0] {
      LexLessTotal(a[1..], b[1..]);
      if a[1..] == b[1..] {
        assert a == [a[0]] + a[1..] && b == [b[0]] + b[1..];
      }
    }
  }

  /** `Before` is a strict total order on datetimes. */
  lemma BeforeStrictTotal(a: DateTime, b: DateTime, c: DateTime)
    ensures !Before(a, a)
    ensures Before(a, b) && Before(b, c) ==> Before(a, c)
    ensures Before(a, b) || a == b || Before(b, a)
  {
    LexLessIrreflexive(Key(a));
    if Before(a, b) && Before(b, c) {
      LexLessTransitive(Key(a), Key(b), Key(c));
    }
    LexLessTotal(Key(a), Key(b));
    if Key(a) == Key(b) {
      assert Key(a)[0] == Key(b)[0] && Key(a)[1] == Key(b)[1] && Key(a)[2] == Key(b)[2];
      assert Key(a)[3] == Key(b)[3] && Key(a)[4] == Key(b)[4] && Key(a)[5] == Key(b)[5];
      assert Key(a)[6] == Key(b)[6];
    }
  }

  // ---------------------------------------------------------------------
  // Fixed-width formatting (`strftime` with zero-padded numeric fields)

  function Two(n: int): (r: string)
    requires 0 <= n < 100
    ensures |r| == 2 && IsAsciiDigit(r[0]) && IsAsciiDigit(r[1])
  {
    [DigitChar(n / 10), DigitChar(n % 10)]
  }

  function Four(n: int): (r: string)
    requires 0 <= n < 10000
    ensures |r| == 4 && forall i :: 0 <= i < 4 ==> IsAsciiDigit(r[i])
  {
    [DigitChar(n / 1000), DigitChar(n / 100 % 10), DigitChar(n / 10 % 10), DigitChar(n % 10)]
  }

  /** `%Y-%m-%d` */
  function FormatDate(y: int, m: int, d: int): (r: string)
    requires ValidDate(y, m, d)
    ensures |r| == 10
  {
    Four(y) + "-" + Two(m) + "-" + Two(d)
  }

  /** `%H:%M` */
  function FormatHM(h: int, m: int): (r: string)
    requires 0 <= h < 24 && 0 <= m < 60
    ensures |r| == 5 && '-' !in r
  {
    Two(h) + ":" + Two(m)
  }

  /** `%Y-%m-%d %H:%M:%S`, the timestamp format of transcript lines. */
  function FormatStamp(t: DateTime): (r: string)
    requires ValidDateTime(t)
    ensures |r| == 19 && r[4] == '-' && r[10] == ' ' && r[13] == ':'
  {
    FormatDate(t.year, t.month, t.day) + " " + FormatHM(t.hour, t.minute) + ":" + Two(t.second)
  }

  /** A timestamp is made of digits and the separators "-", " " and ":", so
      it never holds a line break. */
  lemma FormatStampOneLine(t: DateTime)
    requires ValidDateTime(t)
    ensures '\n' !in FormatStamp(t)
  {
    var y, mo, d := Four(t.year), Two(t.month), Two(t.day);
    var h, mi, s := Two(t.hour), Two(t.minute), Two(t.second);
    assert FormatStamp(t) == y + "-" + mo + "-" + d + " " + h + ":" + mi + ":" + s;
  }

  // ---------------------------------------------------------------------
  // The regular expressions `strptime` builds

  /** One character class of a directive's regular expression (`\d` is ASCII here). */
  datatype Atom = AnyDigit | InRange(lo: char, hi: char) | Exactly(c: char)

  predicate AtomMatches(a: Atom, c: char) {
    match a
    case AnyDigit => IsAsciiDigit(c)
    case InRange(lo, hi) => lo <= c <= hi
    case Exactly(x) => c == x
  }

  datatype Field = Year | Month | Day | Hour | Minute

  /** A piece of a format: a directive, a literal character, or whitespace
      (any whitespace in the format stands for `\s+`). */
  datatype Piece = Directive(f: Field) | Literal(c: char) | Whitespace

  /** The alternatives of each directive, in the order the engine tries them. */
  function Alternatives(f: Field): seq<seq<Atom>> {
    match f
    case Year => [[AnyDigit, AnyDigit, AnyDigit, AnyDigit]]
    case Month => [[Exactly('1'), InRange('0', '2')], [Exactly('0'), InRange('1', '9')], [InRange('1', '9')]]
    case Day => [[Exactly('3'), InRange('0', '1')], [InRange('1', '2'), AnyDigit],
                 [Exactly('0'), InRange('1', '9')], [InRange('1', '9')], [Exactly(' '), InRange('1', '9')]]
    case Hour => [[Exactly('2'), InRange('0', '3')], [InRange('0', '1'), AnyDigit], [AnyDigit]]
    case Minute => [[InRange('0', '5'), AnyDigit], [AnyDigit]]
  }

  /** Where a single alternative starting at `i` ends, if it matches there. */
  function MatchAlt(alt: seq<Atom>, s: string, i: nat): (r: Option<nat>)
    ensures r.Some? ==> r.value == i + |alt| <= |s|
  {
    if i + |alt| <= |s| && forall j :: 0 <= j < |alt| ==> AtomMatches(alt[j], s[i + j]) then Some(i + |alt|)
    else None
  }

  /** The length of the run of whitespace at position `i`. */
  function SpaceRun(s: string, i: nat): (n: nat)
    requires i <= |s|
    ensures i + n <= |s|
    ensures forall k :: i <= k < i + n ==> IsSpace(s[k])
    ensures i + n < |s| ==> !IsSpace(s[i + n])
    decreases |s| - i
  {
    if i < |s| && IsSpace(s[i]) then 1 + SpaceRun(s, i + 1) else 0
  }

  type Captures = map<Field, string>

  /** The first match (in backtracking order) of the pieces `ps` anchored at
      `i`: where it ends and what each directive captured. */
  function MatchFrom(ps: seq<Piece>, s: string, i: nat): (r: Option<(nat, Captures)>)
    requires i <= |s|
    ensures r.Some? ==> i <= r.value.0 <= |s|
    decreases |ps|, 2, 0
  {
    if |ps| == 0 then Some((i, map[]))
    else match ps[0]
      case Literal(c) => if i < |s| && s[i] == c then MatchFrom(ps[1..], s, i + 1) else None
      case Whitespace =>
        var n := SpaceRun(s, i);
        if n == 0 then None else TrySpaces(ps[1..], s, i, i + n)
      case Directive(f) => TryAlts(f, 0, ps[1..], s, i)
  }

  /** `\s+` is greedy: try the longest run first, then give back one character at a time. */
  function TrySpaces(rest: seq<Piece>, s: string, i: nat, j: nat): (r: Option<(nat, Captures)>)
    requires i < j <= |s|
    ensures r.Some? ==> j <= r.value.0 <= |s| || i < r.value.0 <= |s|
    decreases |rest| + 1, 0, j
  {
    match MatchFrom(rest, s, j)
    case Some(x) => Some(x)
    case None => if j - 1 > i then TrySpaces(rest, s, i, j - 1) else None
  }

  /** Try the directive's alternatives from the `k`-th on, each followed by the rest. */
  function TryAlts(f: Field, k: nat, rest: seq<Piece>, s: string, i: nat): (r: Option<(nat, Captures)>)
    requires i <= |s|
    ensures r.Some? ==> i <= r.value.0 <= |s|
    decreases |rest| + 1, 1, |Alternatives(f)| - k
  {
    if k >= |Alternatives(f)| then None
    else match MatchAlt(Alternatives(f)[k], s, i)
      case Some(e) =>
        (match MatchFrom(rest, s, e)
         case Some(x) => Some((x.0, x.1[f := s[i..e]]))
         case None => TryAlts(f, k + 1, rest, s, i))
      case None => TryAlts(f, k + 1, rest, s, i)
  }

  /** `int()` of a captured field: its digits, read in base 10 (a captured
      field holds digits and at most a leading space, which `int` ignores). */
  function FieldValue(t: string): (v: nat)
    decreases |t|
  {
    if |t| == 0 then 0
    else if IsAsciiDigit(t[|t| - 1]) then FieldValue(t[..|t| - 1]) * 10 + (t[|t| - 1] as int - '0' as int)
    else FieldValue(t[..|t| - 1])
  }

  function FieldOr(caps: Captures, f: Field, default: int): int {
    if f in caps then FieldValue(caps[f]) else default
  }

  datatype StrptimeError =
    | NoMatch
    | Unconverted(rest: string)
    | YearOutOfRange(year: int)
    | MonthOutOfRange
    | DayOutOfRange
    | HourOutOfRange
    | MinuteOutOfRange

  /** The `datetime` constructor's argument checks, in CPython's order. */
  function MakeDateTime(y: int, mo: int, d: int, h: int, mi: int): (r: Result<DateTime, StrptimeError>)
    ensures r.Ok? <==> ValidDate(y, mo, d) && 0 <= h < 24 && 0 <= mi < 60
    ensures r.Ok? ==> r.value == DateTime(y, mo, d, h, mi, 0, 0)
  {
    if !(1 <= y <= 9999) then Err(YearOutOfRange(y))
    else if !(1 <= mo <= 12) then Err(MonthOutOfRange)
    else if !(1 <= d <= DaysIn(y, mo)) then Err(DayOutOfRange)
    else if !(0 <= h < 24) then Err(HourOutOfRange)
    else if !(0 <= mi < 60) then Err(MinuteOutOfRange)
    else Ok(DateTime(y, mo, d, h, mi, 0, 0))
  }

  /** `datetime.strptime(s, fmt)`: missing fields default to 1900-01-01 00:00. */
  function Strptime(s: string, fmt: seq<Piece>): (r: Result<DateTime, StrptimeError>)
    ensures r.Ok? ==> ValidDateTime(r.value) && r.value.second == 0 && r.value.micro == 0
    ensures r.Ok? ==> MatchFrom(fmt, s, 0).Some? && MatchFrom(fmt, s, 0).value.0 == |s|
    ensures MatchFrom(fmt, s, 0).None? <==> r == Err(NoMatch)
  {
    match MatchFrom(fmt, s, 0)
    case None => Err(NoMatch)
    case Some((e, caps)) =>
      if e < |s| then Err(Unconverted(s[e..]))
      else MakeDateTime(FieldOr(caps, Year, 1900), FieldOr(caps, Month, 1), FieldOr(caps, Day, 1),
                        FieldOr(caps, Hour, 0), FieldOr(caps, Minute, 0))
  }

  const DateFormat: seq<Piece> := [Directive(Year), Literal('-'), Directive(Month), Literal('-'), Directive(Day)]
  const TimeFormat: seq<Piece> := [Directive(Hour), Literal(':'), Directive(Minute)]
  const DateTimeFormat: seq<Piece> := DateFormat + [Whitespace] + TimeFormat

  /** The message `str(e)` of the `ValueError` raised by `strptime`. */
  function StrptimeMessage(e: StrptimeError, data: string, fmtText: string): string {
    match e
    case NoMatch => "time data " + PyRepr(data) + " does not match format " + PyRepr(fmtText)
    case Unconverted(rest) => "unconverted data remains: " + rest
    case YearOutOfRange(y) => "year " + IntToStr(y) + " is out of range"
    case MonthOutOfRange => "month must be in 1..12"
    case DayOutOfRange => "day is out of range for month"
    case HourOutOfRange => "hour must be in 0..23"
    case MinuteOutOfRange => "minute must be in 0..59"
  }

  /** `repr(s)`: single quotes unless the text holds a single quote and no
      double quote; backslash, the quote, and ASCII control characters escaped. */
  function PyRepr(s: string): string {
    var q := if '\'' in s && '"' !in s then '"' else '\'';
    [q] + ReprBody(s, q) + [q]
  }

  function HexDigit(d: nat): char
    requires d < 16
  {
    if d < 10 then DigitChar(d) else ('a' as int + d - 10) as char
  }

  function ReprBody(s: string, q: char): string
    decreases |s|
  {
    if |s| == 0 then ""
    else
      var c := s[0];
      var esc :=
        if c == '\\' then "\\\\"
        else if c == q then ['\\', q]
        else if c == '\n' then "\\n"
        else if c == '\r' then "\\r"
        else if c == '\t' then "\\t"
        else if c as int < 0x20 || c as int == 0x7F then ['\\', 'x', HexDigit(c as int / 16), HexDigit(c as int % 16)]
        else [c];
      esc + ReprBody(s[1..], q)
  }

  // ---------------------------------------------------------------------
  // src/utils/date_utils.py

  /** `parse_date`: `datetime.strptime(date_str, "%Y-%m-%d")`. */
  function ParseDate(s: string): (r: Result<DateTime, StrptimeError>)
    ensures r.Ok? ==> ValidDate(r.value.year, r.value.month, r.value.day)
    ensures r.Ok? ==> r.value.hour == 0 && r.value.minute == 0 && r.value.second == 0
  {
    var r := Strptime(s, DateFormat);
    if r.Ok? then
      ParsedFieldsOnlyDate(s);
      r
    else r
  }

  /** `.time()` of a parsed `%H:%M`. */
  function ParseHM(s: string): Result<TimeOfDay, StrptimeError> {
    match Strptime(s, TimeFormat)
    case Ok(t) => Ok(TimeOfDay(t.hour, t.minute))
    case Err(e) => Err(e)
  }

  /** `parse_time`: exactly two '-'-separated parts, each stripped and parsed
      as `%H:%M`; every failure becomes "Invalid time format: <input>". */
  function ParseTime(s: string): (r: Result<(TimeOfDay, TimeOfDay), string>)
    ensures r.Err? ==> r.error == "Invalid time format: " + s
    ensures r.Ok? ==> |Split(s, '-')| == 2
    ensures r.Ok? ==> 0 <= r.value.0.hour < 24 && 0 <= r.value.0.minute < 60
    ensures r.Ok? ==> 0 <= r.value.1.hour < 24 && 0 <= r.value.1.minute < 60
  {
    var parts := Split(s, '-');
    if |parts| != 2 then Err("Invalid time format: " + s)
    else
      match (ParseHM(Strip(parts[0])), ParseHM(Strip(parts[1])))
      case (Ok(a), Ok(b)) => Ok((a, b))
      case _ => Err("Invalid time format: " + s)
  }

  /** `is_past_datetime`: the date joined with the stripped part of the time
      before the first '-', parsed as `%Y-%m-%d %H:%M` and compared with `now`;
      a parse failure gives false. */
  function IsPastDatetime(date: string, time: string, now: DateTime): bool {
    var start := Strip(Split(time, '-')[0]);
    match Strptime(date + " " + start, DateTimeFormat)
    case Ok(t) => Before(t, now)
    case Err(_) => false
  }

  /** `compare_to_now` delegates to `is_past_datetime`. */
  function CompareToNow(date: string, time: string, now: DateTime): (r: bool)
    ensures r == IsPastDatetime(date, time, now)
  {
    IsPastDatetime(date, time, now)
  }

  // ---------------------------------------------------------------------
  // Proofs about the matcher

  /** In a `%Y-%m-%d` parse only date fields are captured, so the time is midnight. */
  lemma ParsedFieldsOnlyDate(s: string)
    requires Strptime(s, DateFormat).Ok?
    ensures Strptime(s, DateFormat).value.hour == 0 && Strptime(s, DateFormat).value.minute == 0
  {
    var m := MatchFrom(DateFormat, s, 0);
    CapturesFromFormat(DateFormat, s, 0);
  }

  /** Every captured field is a directive of the format. */
  lemma {:induction false} CapturesFromFormat(ps: seq<Piece>, s: string, i: nat)
    requires i <= |s|
    ensures MatchFrom(ps, s, i).Some? ==> forall f :: f in MatchFrom(ps, s, i).value.1 ==> Directive(f) in ps
    decreases |ps|, 2, 0
  {
    if |ps| > 0 {
      match ps[0]
      case Literal(c) =>
        if i < |s| && s[i] == c {
          CapturesFromFormat(ps[1..], s, i + 1);
          SubPieces(ps);
        }
      case Whitespace =>
        var n := SpaceRun(s, i);
        if n > 0 {
          CapturesTrySpaces(ps[1..], s, i, i + n);
          SubPieces(ps);
        }
      case Directive(f) =>
        CapturesTryAlts(f, 0, ps[1..], s, i);
        SubPieces(ps);
    }
  }

  lemma SubPieces(ps: seq<Piece>)
    requires |ps| > 0
    ensures forall p :: p in ps[1..] ==> p in ps
  {
  }

  lemma {:induction false} CapturesTrySpaces(rest: seq<Piece>, s: string, i: nat, j: nat)
    requires i < j <= |s|
    ensures TrySpaces(rest, s, i, j).Some? ==> forall f :: f in TrySpaces(rest, s, i, j).value.1 ==> Directive(f) in rest
    decreases |rest| + 1, 0, j
  {
    CapturesFromFormat(rest, s, j);
    if MatchFrom(rest, s, j).None? && j - 1 > i {
      CapturesTrySpaces(rest, s, i, j - 1);
    }
  }

  lemma {:induction false} CapturesTryAlts(f: Field, k: nat, rest: seq<Piece>, s: string, i: nat)
    requires i <= |s|
    ensures TryAlts(f, k, rest, s, i).Some? ==>
      forall g :: g in TryAlts(f, k, rest, s, i).value.1 ==> g == f || Directive(g) in rest
    decreases |rest| + 1, 1, |Alternatives(f)| - k
  {
    if k < |Alternatives(f)| {
      var m := MatchAlt(Alternatives(f)[k], s, i);
      if m.Some? {
        CapturesFromFormat(rest, s, m.value);
      }
      CapturesTryAlts(f, k + 1, rest, s, i);
    }
  }

  /** A successful directive match took some alternative `a`, ending at `e`,
      and the rest matched from there. */
  lemma {:induction false} TryAltsResult(f: Field, k: nat, rest: seq<Piece>, s: string, i: nat) returns (a: nat, e: nat)
    requires i <= |s| && TryAlts(f, k, rest, s, i).Some?
    ensures k <= a < |Alternatives(f)| && MatchAlt(Alternatives(f)[a], s, i) == Some(e)
    ensures i <= e <= |s| && MatchFrom(rest, s, e).Some?
    ensures TryAlts(f, k, rest, s, i).value == (MatchFrom(rest, s, e).value.0, MatchFrom(rest, s, e).value.1[f := s[i..e]])
    decreases |Alternatives(f)| - k
  {
    var m := MatchAlt(Alternatives(f)[k], s, i);
    if m.Some? && MatchFrom(rest, s, m.value).Some? {
      a, e := k, m.value;
    } else {
      a, e := TryAltsResult(f, k + 1, rest, s, i);
    }
  }

  /** Unfolding one directive at the head of a format that matched. */
  lemma DirectiveResult(f: Field, rest: seq<Piece>, s: string, i: nat) returns (a: nat, e: nat)
    requires i <= |s| && MatchFrom([Directive(f)] + rest, s, i).Some?
    ensures a < |Alternatives(f)| && MatchAlt(Alternatives(f)[a], s, i) == Some(e)
    ensures i <= e <= |s| && MatchFrom(rest, s, e).Some?
    ensures MatchFrom([Directive(f)] + rest, s, i).value == (MatchFrom(rest, s, e).value.0, MatchFrom(rest, s, e).value.1[f := s[i..e]])
  {
    assert ([Directive(f)] + rest)[1..] == rest;
    a, e := TryAltsResult(f, 0, rest, s, i);
  }

  /** Every alternative of `%m`, `%d`, `%H` and `%M` is one or two characters long. */
  lemma ShortAlternatives(f: Field, a: nat)
    requires f != Year && a < |Alternatives(f)|
    ensures 1 <= |Alternatives(f)[a]| <= 2
  {
  }

  predicate AllDigits(t: string) {
    forall k :: 0 <= k < |t| ==> IsAsciiDigit(t[k])
  }

  /** Two digits read as a number and written back with `Two` give the same text. */
  lemma TwoOfDigits(t: string)
    requires |t| == 2 && AllDigits(t)
    ensures FieldValue(t) < 100 && Two(FieldValue(t)) == t
  {
    assert IsAsciiDigit(t[0]) && IsAsciiDigit(t[1]);
    var a := t[0] as int - '0' as int;
    var b := t[1] as int - '0' as int;
    assert t[..1][..0] == [];
    assert FieldValue(t[..1]) == a;
    assert FieldValue(t) == a * 10 + b;
    assert (a * 10 + b) / 10 == a && (a * 10 + b) % 10 == b;
    assert DigitChar(a) == t[0] && DigitChar(b) == t[1];
  }

  /** Four digits read as a number and written back with `Four` give the same text. */
  lemma FourOfDigits(t: string)
    requires |t| == 4 && AllDigits(t)
    ensures FieldValue(t) < 10000 && Four(FieldValue(t)) == t
  {
    assert IsAsciiDigit(t[0]) && IsAsciiDigit(t[1]) && IsAsciiDigit(t[2]) && IsAsciiDigit(t[3]);
    var a := t[0] as int - '0' as int;
    var b := t[1] as int - '0' as int;
    var c := t[2] as int - '0' as int;
    var d := t[3] as int - '0' as int;
    assert t[..1][..0] == [];
    assert t[..2][..1] == t[..1];
    assert t[..3][..2] == t[..2];
    assert t[..4][..3] == t[..3];
    assert t[..4] == t;
    assert FieldValue(t[..1]) == a;
    assert FieldValue(t[..2]) == a * 10 + b;
    assert FieldValue(t[..3]) == (a * 10 + b) * 10 + c;
    var v := ((a * 10 + b) * 10 + c) * 10 + d;
    assert FieldValue(t) == v;
    assert v == a * 1000 + b * 100 + c * 10 + d;
    assert v / 1000 == a;
    assert v / 100 == a * 10 + b;
    assert v / 100 % 10 == b;
    assert v / 10 == (a * 10 + b) * 10 + c;
    assert v / 10 % 10 == c;
    assert v % 10 == d;
    assert DigitChar(a) == t[0] && DigitChar(b) == t[1] && DigitChar(c) == t[2] && DigitChar(d) == t[3];
  }

  /** A literal character that is there is consumed. */
  lemma LiteralStep(c: char, rest: seq<Piece>, s: string, i: nat)
    requires i < |s| && s[i] == c
    ensures MatchFrom([Literal(c)] + rest, s, i) == MatchFrom(rest, s, i + 1)
  {
    assert ([Literal(c)] + rest)[1..] == rest;
  }

  /** A literal character that is not there fails the match. */
  lemma NoLiteralHere(c: char, rest: seq<Piece>, s: string, i: nat)
    requires i < |s| && s[i] != c
    ensures MatchFrom([Literal(c)] + rest, s, i).None?
  {
  }

  /** A single whitespace character followed by a non-space is one `\s+`. */
  lemma WhitespaceStep(rest: seq<Piece>, s: string, i: nat)
    requires i + 1 < |s| && IsSpace(s[i]) && !IsSpace(s[i + 1])
    ensures MatchFrom([Whitespace] + rest, s, i) == MatchFrom(rest, s, i + 1)
  {
    assert ([Whitespace] + rest)[1..] == rest;
    assert SpaceRun(s, i + 1) == 0;
    assert SpaceRun(s, i) == 1;
  }

  /** When the first `k` alternatives do not match at `i` and the `k`-th does,
      and the rest then matches, the directive takes the `k`-th alternative. */
  lemma {:induction false} TryAltsPick(f: Field, j: nat, k: nat, rest: seq<Piece>, s: string, i: nat)
    requires i <= |s| && j <= k < |Alternatives(f)|
    requires forall a :: j <= a < k ==> MatchAlt(Alternatives(f)[a], s, i).None?
    requires MatchAlt(Alternatives(f)[k], s, i).Some?
    requires MatchFrom(rest, s, MatchAlt(Alternatives(f)[k], s, i).value).Some?
    ensures var e := MatchAlt(Alternatives(f)[k], s, i).value;
            var x := MatchFrom(rest, s, e).value;
            TryAlts(f, j, rest, s, i) == Some((x.0, x.1[f := s[i..e]]))
    decreases k - j
  {
    if j < k {
      TryAltsPick(f, j + 1, k, rest, s, i);
    }
  }

  /** The directive step, from the alternative index picked for the text at `i`. */
  lemma DirectiveStep(f: Field, k: nat, rest: seq<Piece>, s: string, i: nat)
    requires i <= |s| && k < |Alternatives(f)|
    requires forall a :: 0 <= a < k ==> MatchAlt(Alternatives(f)[a], s, i).None?
    requires MatchAlt(Alternatives(f)[k], s, i).Some?
    requires MatchFrom(rest, s, MatchAlt(Alternatives(f)[k], s, i).value).Some?
    ensures var e := MatchAlt(Alternatives(f)[k], s, i).value;
            var x := MatchFrom(rest, s, e).value;
            MatchFrom([Directive(f)] + rest, s, i) == Some((x.0, x.1[f := s[i..e]]))
  {
    assert ([Directive(f)] + rest)[1..] == rest;
    TryAltsPick(f, 0, k, rest, s, i);
  }

  lemma DigitCharFacts(d: nat)
    requires d < 10
    ensures IsAsciiDigit(DigitChar(d)) && DigitChar(d) as int - '0' as int == d
  {
  }

  /** Appending a digit shifts the value one decimal place. */
  lemma FieldValueSnoc(t: string, c: char)
    requires IsAsciiDigit(c)
    ensures FieldValue(t + [c]) == FieldValue(t) * 10 + (c as int - '0' as int)
  {
    assert (t + [c])[..|t|] == t;
  }

  lemma FieldValueTwo(n: int)
    requires 0 <= n < 100
    ensures FieldValue(Two(n)) == n
  {
    var a, b := DigitChar(n / 10), DigitChar(n % 10);
    DigitCharFacts(n / 10);
    DigitCharFacts(n % 10);
    FieldValueSnoc([], a);
    assert [] + [a] == [a];
    FieldValueSnoc([a], b);
    assert [a] + [b] == Two(n);
  }

  lemma FieldValueOfDigits(a: nat, b: nat, c: nat, d: nat)
    requires a < 10 && b < 10 && c < 10 && d < 10
    ensures FieldValue([DigitChar(a), DigitChar(b), DigitChar(c), DigitChar(d)]) == ((a * 10 + b) * 10 + c) * 10 + d
  {
    var ca, cb, cc, cd := DigitChar(a), DigitChar(b), DigitChar(c), DigitChar(d);
    DigitCharFacts(a);
    DigitCharFacts(b);
    DigitCharFacts(c);
    DigitCharFacts(d);
    FieldValueSnoc([], ca);
    assert [] + [ca] == [ca];
    FieldValueSnoc([ca], cb);
    assert [ca] + [cb] == [ca, cb];
    FieldValueSnoc([ca, cb], cc);
    assert [ca, cb] + [cc] == [ca, cb, cc];
    FieldValueSnoc([ca, cb, cc], cd);
    assert [ca, cb, cc] + [cd] == [ca, cb, cc, cd];
  }

  lemma DecimalFour(n: int)
    requires 0 <= n < 10000
    ensures ((n / 1000 * 10 + n / 100 % 10) * 10 + n / 10 % 10) * 10 + n % 10 == n
  {
    var q1, q2, q3 := n / 10, n / 100, n / 1000;
    assert n == q1 * 10 + n % 10;
    assert q2 == q1 / 10 && q1 == q2 * 10 + q1 % 10 && q1 % 10 == n / 10 % 10;
    assert q3 == q2 / 10 && q2 == q3 * 10 + q2 % 10;
  }

  lemma FieldValueFour(n: int)
    requires 0 <= n < 10000
    ensures FieldValue(Four(n)) == n
  {
    FieldValueOfDigits(n / 1000, n / 100 % 10, n / 10 % 10, n % 10);
    DecimalFour(n);
  }

  /** `Two(n)` at `i` selects the month alternative for `n`. */
  lemma MonthAlt(n: int, s: string, i: nat) returns (k: nat)
    requires 1 <= n <= 12 && i + 2 <= |s| && s[i..i + 2] == Two(n)
    ensures k < |Alternatives(Month)|
    ensures forall a :: 0 <= a < k ==> MatchAlt(Alternatives(Month)[a], s, i).None?
    ensures MatchAlt(Alternatives(Month)[k], s, i) == Some(i + 2)
  {
    assert s[i] == Two(n)[0] && s[i + 1] == Two(n)[1];
    if n >= 10 {
      k := 0;
    } else {
      assert !AtomMatches(Alternatives(Month)[0][0], s[i]);
      k := 1;
    }
  }

  lemma DayAlt(n: int, s: string, i: nat) returns (k: nat)
    requires 1 <= n <= 31 && i + 2 <= |s| && s[i..i + 2] == Two(n)
    ensures k < |Alternatives(Day)|
    ensures forall a :: 0 <= a < k ==> MatchAlt(Alternatives(Day)[a], s, i).None?
    ensures MatchAlt(Alternatives(Day)[k], s, i) == Some(i + 2)
  {
    assert s[i] == Two(n)[0] && s[i + 1] == Two(n)[1];
    if n >= 30 {
      k := 0;
    } else if n >= 10 {
      assert !AtomMatches(Alternatives(Day)[0][0], s[i]);
      k := 1;
    } else {
      assert !AtomMatches(Alternatives(Day)[0][0], s[i]);
      assert !AtomMatches(Alternatives(Day)[1][0], s[i]);
      k := 2;
    }
  }

  lemma HourAlt(n: int, s: string, i: nat) returns (k: nat)
    requires 0 <= n < 24 && i + 2 <= |s| && s[i..i + 2] == Two(n)
    ensures k < |Alternatives(Hour)|
    ensures forall a :: 0 <= a < k ==> MatchAlt(Alternatives(Hour)[a], s, i).None?
    ensures MatchAlt(Alternatives(Hour)[k], s, i) == Some(i + 2)
  {
    assert s[i] == Two(n)[0] && s[i + 1] == Two(n)[1];
    if n >= 20 {
      k := 0;
    } else {
      assert !AtomMatches(Alternatives(Hour)[0][0], s[i]);
      k := 1;
    }
  }

  lemma MinuteAlt(n: int, s: string, i: nat)
    requires 0 <= n < 60 && i + 2 <= |s| && s[i..i + 2] == Two(n)
    ensures MatchAlt(Alternatives(Minute)[0], s, i) == Some(i + 2)
  {
    assert s[i] == Two(n)[0] && s[i + 1] == Two(n)[1];
  }

  lemma YearAlt(n: int, s: string, i: nat)
    requires 0 <= n < 10000 && i + 4 <= |s| && s[i..i + 4] == Four(n)
    ensures MatchAlt(Alternatives(Year)[0], s, i) == Some(i + 4)
  {
    forall j | 0 <= j < 4 ensures AtomMatches(Alternatives(Year)[0][j], s[i + j]) {
      assert s[i + j] == Four(n)[j];
    }
  }

  /** Matching `%H:%M` on a formatted time at `i`, up to the end of the text. */
  lemma MatchTime(h: int, m: int, s: string, i: nat)
    requires 0 <= h < 24 && 0 <= m < 60 && i + 5 == |s| && s[i..] == FormatHM(h, m)
    ensures MatchFrom(TimeFormat, s, i) == Some((|s|, map[Minute := Two(m), Hour := Two(h)]))
  {
    var t := FormatHM(h, m);
    assert s[i + 3..i + 5] == t[3..5] == Two(m);
    assert s[i..i + 2] == t[0..2] == Two(h);
    assert s[i + 2] == t[2] == ':';
    var minRest: seq<Piece> := [];
    MinuteAlt(m, s, i + 3);
    DirectiveStep(Minute, 0, minRest, s, i + 3);
    assert [Directive(Minute)] + minRest == [Directive(Minute)];
    LiteralStep(':', [Directive(Minute)], s, i + 2);
    var k := HourAlt(h, s, i);
    DirectiveStep(Hour, k, [Literal(':'), Directive(Minute)], s, i);
    assert TimeFormat == [Directive(Hour)] + [Literal(':'), Directive(Minute)];
    assert [Literal(':')] + [Directive(Minute)] == [Literal(':'), Directive(Minute)];
  }

  lemma FormatDateParts(y: int, mo: int, d: int)
    requires ValidDate(y, mo, d)
    ensures var t := FormatDate(y, mo, d);
            t[0..4] == Four(y) && t[4] == '-' && t[5..7] == Two(mo) && t[7] == '-' && t[8..10] == Two(d)
  {
    var t := FormatDate(y, mo, d);
    assert t[5] == Two(mo)[0] && t[6] == Two(mo)[1];
    assert t[8] == Two(d)[0] && t[9] == Two(d)[1];
  }

  /** The pieces of a formatted date found at position `i` of a longer text. */
  lemma DateTextAt(y: int, mo: int, d: int, s: string, i: nat)
    requires ValidDate(y, mo, d) && i + 10 <= |s| && s[i..i + 10] == FormatDate(y, mo, d)
    ensures s[i..i + 4] == Four(y) && s[i + 4] == '-' && s[i + 5..i + 7] == Two(mo)
    ensures s[i + 7] == '-' && s[i + 8..i + 10] == Two(d)
  {
    var t := s[i..i + 10];
    FormatDateParts(y, mo, d);
    assert s[i..i + 4] == t[0..4];
    assert s[i + 5] == t[5] && s[i + 6] == t[6];
    assert s[i + 5..i + 7] == t[5..7];
    assert s[i + 8] == t[8] && s[i + 9] == t[9];
    assert s[i + 8..i + 10] == t[8..10];
    assert s[i + 4] == t[4] && s[i + 7] == t[7];
  }

  const MonthDayFormat: seq<Piece> := [Literal('-'), Directive(Month), Literal('-'), Directive(Day)]

  /** Matching `-%m-%d` followed by `rest` on "-MM-DD" at `i`. */
  lemma MatchMonthDay(mo: int, d: int, rest: seq<Piece>, s: string, i: nat)
    requires 1 <= mo <= 12 && 1 <= d <= 31 && i + 6 <= |s|
    requires s[i] == '-' && s[i + 1..i + 3] == Two(mo) && s[i + 3] == '-' && s[i + 4..i + 6] == Two(d)
    requires MatchFrom(rest, s, i + 6).Some?
    ensures var x := MatchFrom(rest, s, i + 6).value;
            MatchFrom(MonthDayFormat + rest, s, i) == Some((x.0, x.1[Day := Two(d)][Month := Two(mo)]))
  {
    var kd := DayAlt(d, s, i + 4);
    DirectiveStep(Day, kd, rest, s, i + 4);
    var r1 := [Directive(Day)] + rest;
    LiteralStep('-', r1, s, i + 3);
    var r2 := [Literal('-')] + r1;
    var km := MonthAlt(mo, s, i + 1);
    DirectiveStep(Month, km, r2, s, i + 1);
    var r3 := [Directive(Month)] + r2;
    LiteralStep('-', r3, s, i);
    assert MonthDayFormat + rest == [Literal('-')] + r3;
  }

  /** Matching `%Y-%m-%d` followed by `rest` on "YYYY-MM-DD" at `i`. */
  lemma MatchDateText(y: int, mo: int, d: int, rest: seq<Piece>, s: string, i: nat)
    requires 0 <= y < 10000 && 1 <= mo <= 12 && 1 <= d <= 31 && i + 10 <= |s|
    requires s[i..i + 4] == Four(y) && s[i + 4] == '-' && s[i + 5..i + 7] == Two(mo)
    requires s[i + 7] == '-' && s[i + 8..i + 10] == Two(d)
    requires MatchFrom(rest, s, i + 10).Some?
    ensures var x := MatchFrom(rest, s, i + 10).value;
            MatchFrom(DateFormat + rest, s, i) == Some((x.0, x.1[Day := Two(d)][Month := Two(mo)][Year := Four(y)]))
  {
    MatchMonthDay(mo, d, rest, s, i + 4);
    YearAlt(y, s, i);
    DirectiveStep(Year, 0, MonthDayFormat + rest, s, i);
    assert DateFormat + rest == [Directive(Year)] + (MonthDayFormat + rest);
  }

  /** Matching `%Y-%m-%d` followed by `rest` on a formatted date at `i`. */
  lemma MatchDate(y: int, mo: int, d: int, rest: seq<Piece>, s: string, i: nat)
    requires ValidDate(y, mo, d) && i + 10 <= |s| && s[i..i + 10] == FormatDate(y, mo, d)
    requires MatchFrom(rest, s, i + 10).Some?
    ensures var x := MatchFrom(rest, s, i + 10).value;
            MatchFrom(DateFormat + rest, s, i) == Some((x.0, x.1[Day := Two(d)][Month := Two(mo)][Year := Four(y)]))
  {
    DateTextAt(y, mo, d, s, i);
    MatchDateText(y, mo, d, rest, s, i);
  }

  // ---------------------------------------------------------------------
  // Properties of date_utils.py

  /** `parse_date` accepts every formatted calendar date and gives it back. */
  lemma ParseDateRoundTrip(y: int, m: int, d: int)
    requires ValidDate(y, m, d)
    ensures ParseDate(FormatDate(y, m, d)) == Ok(DateTime(y, m, d, 0, 0, 0, 0))
  {
    var s := FormatDate(y, m, d);
    var empty: seq<Piece> := [];
    MatchDate(y, m, d, empty, s, 0);
    assert DateFormat + empty == DateFormat;
    FieldValueFour(y);
    FieldValueTwo(m);
    FieldValueTwo(d);
  }

  /** `parse_date` accepts exactly the strings it can match whose fields form a
      real calendar date: a parsed result is always a valid date, and the
      day-of-month check rejects 29 February outside leap years. */
  lemma ParseDateRejectsNonLeapFebruary29(y: int)
    requires 1 <= y <= 9999 && !IsLeap(y)
    ensures ParseDate(Four(y) + "-02-29") == Err(DayOutOfRange)
  {
    var s := Four(y) + "-02-29";
    var empty: seq<Piece> := [];
    February29Text(y);
    MatchDateText(y, 2, 29, empty, s, 0);
    assert DateFormat + empty == DateFormat;
    FieldValueFour(y);
    FieldValueTwo(2);
    FieldValueTwo(29);
  }

  lemma February29Text(y: int)
    requires 0 <= y < 10000
    ensures var s := Four(y) + "-02-29";
      |s| == 10 && s[0..4] == Four(y) && s[4] == '-' && s[5..7] == Two(2) && s[7] == '-' && s[8..10] == Two(29)
  {
    var s := Four(y) + "-02-29";
    assert Two(2) == "02" && Two(29) == "29";
    assert s[4..10] == "-02-29";
    assert s[5..7] == s[4..10][1..3];
    assert s[8..10] == s[4..10][4..6];
  }

  /** `parse_time` accepts two formatted times in either order. */
  lemma ParseTimeRoundTrip(h1: int, m1: int, h2: int, m2: int)
    requires 0 <= h1 < 24 && 0 <= m1 < 60 && 0 <= h2 < 24 && 0 <= m2 < 60
    ensures ParseTime(FormatHM(h1, m1) + "-" + FormatHM(h2, m2)) == Ok((TimeOfDay(h1, m1), TimeOfDay(h2, m2)))
  {
    var a := FormatHM(h1, m1);
    var b := FormatHM(h2, m2);
    SplitAfterFirst(a, '-', b);
    SplitNoSep(b, '-');
    var s := a + "-" + b;
    assert s == a + ['-'] + b;
    assert Split(s, '-') == [a, b];
    StripFormattedHM(h1, m1);
    StripFormattedHM(h2, m2);
    ParseHMRoundTrip(h1, m1);
    ParseHMRoundTrip(h2, m2);
  }

  lemma StripFormattedHM(h: int, m: int)
    requires 0 <= h < 24 && 0 <= m < 60
    ensures Strip(FormatHM(h, m)) == FormatHM(h, m)
  {
    var t := FormatHM(h, m);
    assert !IsSpace(t[0]) && !IsSpace(t[4]);
    assert LStripBy(t, IsSpace) == t;
    assert RStripBy(t, IsSpace) == t;
  }

  lemma ParseHMRoundTrip(h: int, m: int)
    requires 0 <= h < 24 && 0 <= m < 60
    ensures ParseHM(FormatHM(h, m)) == Ok(TimeOfDay(h, m))
  {
    var s := FormatHM(h, m);
    MatchTime(h, m, s, 0);
    FieldValueTwo(h);
    FieldValueTwo(m);
  }

  /** `%Y-%m-%d %H:%M` matches a formatted date and time in full. */
  lemma DateTimeMatch(y: int, mo: int, d: int, h: int, mi: int)
    requires ValidDate(y, mo, d) && 0 <= h < 24 && 0 <= mi < 60
    ensures MatchFrom(DateTimeFormat, FormatDate(y, mo, d) + " " + FormatHM(h, mi), 0)
      == Some((16, map[Minute := Two(mi), Hour := Two(h)][Day := Two(d)][Month := Two(mo)][Year := Four(y)]))
  {
    var a := FormatHM(h, mi);
    var s := FormatDate(y, mo, d) + " " + a;
    assert |s| == 16;
    assert s[11..] == a;
    MatchTime(h, mi, s, 11);
    assert a[0] == Two(h)[0];
    WhitespaceStep(TimeFormat, s, 10);
    assert s[0..10] == FormatDate(y, mo, d);
    MatchDate(y, mo, d, [Whitespace] + TimeFormat, s, 0);
    assert DateTimeFormat == DateFormat + ([Whitespace] + TimeFormat);
  }

  /** `%Y-%m-%d %H:%M` reads a formatted date and time back. */
  lemma DateTimeRoundTrip(y: int, mo: int, d: int, h: int, mi: int)
    requires ValidDate(y, mo, d) && 0 <= h < 24 && 0 <= mi < 60
    ensures Strptime(FormatDate(y, mo, d) + " " + FormatHM(h, mi), DateTimeFormat) == Ok(DateTime(y, mo, d, h, mi, 0, 0))
  {
    DateTimeMatch(y, mo, d, h, mi);
    FieldValueFour(y);
    FieldValueTwo(mo);
    FieldValueTwo(d);
    FieldValueTwo(h);
    FieldValueTwo(mi);
  }

  /** `is_past_datetime` on a formatted date and a time range starting with a
      formatted time is exactly "that start is before now". */
  lemma IsPastDatetimeExact(y: int, mo: int, d: int, h: int, mi: int, tail: string, now: DateTime)
    requires ValidDate(y, mo, d) && 0 <= h < 24 && 0 <= mi < 60
    ensures IsPastDatetime(FormatDate(y, mo, d), FormatHM(h, mi) + "-" + tail, now)
            <==> Before(DateTime(y, mo, d, h, mi, 0, 0), now)
  {
    var a := FormatHM(h, mi);
    SplitAfterFirst(a, '-', tail);
    assert a + "-" + tail == a + ['-'] + tail;
    StripFormattedHM(h, mi);
    DateTimeRoundTrip(y, mo, d, h, mi);
  }

  // ---------------------------------------------------------------------
  // Pinned inputs

  lemma ParseDateLeapDay()
    ensures ParseDate("2024-02-29") == Ok(DateTime(2024, 2, 29, 0, 0, 0, 0))
  {
    FormattedLeapDay();
    ParseDateRoundTrip(2024, 2, 29);
  }

  lemma FormattedLeapDay()
    ensures FormatDate(2024, 2, 29) == "2024-02-29"
  {
    assert Four(2024) == "2024";
    assert Two(2) == "02" && Two(29) == "29";
  }

  /** A directive fails when each alternative either does not match or is not
      followed by a match of the rest. */
  lemma {:induction false} TryAltsFails(f: Field, j: nat, rest: seq<Piece>, s: string, i: nat)
    requires i <= |s|
    requires forall a :: j <= a < |Alternatives(f)| ==>
      MatchAlt(Alternatives(f)[a], s, i).None? || MatchFrom(rest, s, MatchAlt(Alternatives(f)[a], s, i).value).None?
    ensures TryAlts(f, j, rest, s, i).None?
    decreases |Alternatives(f)| - j
  {
    if j < |Alternatives(f)| {
      TryAltsFails(f, j + 1, rest, s, i);
    }
  }

  /** A month field "13" to "19" is no month: `1` is taken as the month and
      the '-' that must follow it is missing, so nothing matches. */
  lemma ParseDateRejectsMonthAbove12(y: int, c: char, tail: string)
    requires 0 <= y < 10000 && '3' <= c <= '9'
    ensures ParseDate(Four(y) + "-1" + [c] + tail) == Err(NoMatch)
  {
    var s := Four(y) + "-1" + [c] + tail;
    assert s[4] == '-' && s[5] == '1' && s[6] == c;
    var afterMonth := DateFormat[3..];
    assert MatchFrom(afterMonth, s, 6).None? by {
      assert afterMonth[0] == Literal('-');
    }
    assert MatchAlt(Alternatives(Month)[0], s, 5).None? by { assert !AtomMatches(Alternatives(Month)[0][1], s[6]); }
    assert MatchAlt(Alternatives(Month)[1], s, 5).None? by { assert !AtomMatches(Alternatives(Month)[1][0], s[5]); }
    TryAltsFails(Month, 0, afterMonth, s, 5);
    assert MatchFrom(DateFormat[2..], s, 5).None? by { assert DateFormat[2..][1..] == afterMonth; }
    assert MatchFrom(DateFormat[1..], s, 4).None? by { assert DateFormat[1..][1..] == DateFormat[2..]; }
    TryAltsFails(Year, 0, DateFormat[1..], s, 0);
  }

  /** Text whose first four characters are not all digits has no `%Y`. */
  lemma ParseDateRejectsNonDigitYear(s: string, k: nat)
    requires k < 4 && k < |s| && !IsAsciiDigit(s[k])
    ensures ParseDate(s) == Err(NoMatch)
  {
    assert MatchAlt(Alternatives(Year)[0], s, 0).None? by { assert !AtomMatches(Alternatives(Year)[0][k], s[k]); }
    TryAltsFails(Year, 0, DateFormat[1..], s, 0);
  }

  /** A time whose first two characters are no hour and whose second is not ':'
      does not match `%H:%M`. */
  lemma HourThenNoColon(s: string)
    requires |s| >= 2 && IsAsciiDigit(s[0]) && s[0] >= '2' && s[1] != ':'
    requires !('0' <= s[1] <= '3') || s[0] != '2'
    ensures ParseHM(s) == Err(NoMatch)
  {
    var rest := TimeFormat[1..];
    assert MatchFrom(rest, s, 1).None? by { assert rest[0] == Literal(':'); }
    assert MatchAlt(Alternatives(Hour)[0], s, 0).None? by {
      if s[0] == '2' { assert !AtomMatches(Alternatives(Hour)[0][1], s[1]); }
      else { assert !AtomMatches(Alternatives(Hour)[0][0], s[0]); }
    }
    assert MatchAlt(Alternatives(Hour)[1], s, 0).None? by { assert !AtomMatches(Alternatives(Hour)[1][0], s[0]); }
    TryAltsFails(Hour, 0, rest, s, 0);
  }

  /** A range whose start begins with an hour of 24 or more (or a digit from
      2 up not followed by ':') is rejected, e.g. "25:00-26:00" and "2pm-4pm". */
  lemma ParseTimeRejectsBadStartHour(a: string, b: string)
    requires '-' !in a && '-' !in b
    requires |a| >= 2 && IsAsciiDigit(a[0]) && a[0] >= '2' && a[1] != ':' && (!('0' <= a[1] <= '3') || a[0] != '2')
    requires !IsSpace(a[|a| - 1])
    ensures ParseTime(a + "-" + b) == Err("Invalid time format: " + a + "-" + b)
  {
    SplitAfterFirst(a, '-', b);
    SplitNoSep(b, '-');
    assert a + "-" + b == a + ['-'] + b;
    StripNoSpaceEnds(a);
    HourThenNoColon(a);
    var s := a + "-" + b;
    assert Split(s, '-') == [a, b];
    assert ParseHM(Strip(a)).Err?;
    assert "Invalid time format: " + a + "-" + b == "Invalid time format: " + s;
  }

  /** Without a '-' there is no range, e.g. "14:00". */
  lemma ParseTimeNeedsDash(s: string)
    requires '-' !in s
    ensures ParseTime(s) == Err("Invalid time format: " + s)
  {
    SplitNoSep(s, '-');
  }

  lemma StripNoSpaceEnds(t: string)
    requires |t| > 0 && !IsSpace(t[0]) && !IsSpace(t[|t| - 1])
    ensures Strip(t) == t
  {
    assert LStripBy(t, IsSpace) == t;
    assert RStripBy(t, IsSpace) == t;
  }
}
