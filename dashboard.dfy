/**
  The session dashboard: the order the session cards appear in, the category
  chips above them (which are offered, which one is selected, whether all are
  shown), which sessions a category keeps, and how the cards are laid out in
  rows.  The clock reading `now` and the widgets' answers are parameters; the
  two `st.session_state` entries the page keeps are the fields of
  `DashboardState`.
 */
module Dashboard {
  import opened Wrappers
  import opened PyText
  import opened DateUtils
  import opened SessionModel

  const AllCategory := "全選"
  const MaxVisible := 5
  const CardsPerRow := 4
  const LoadErrorPrefix := "載入議程時發生錯誤: "

  // ---------------------------------------------------------------------
  // _chunk

  /** The concatenation of the batches. */
  function Flatten<T>(batches: seq<seq<T>>): seq<T>
    decreases |batches|
  {
    if batches == [] then [] else Flatten(batches[..|batches| - 1]) + batches[|batches| - 1]
  }

  /** `_chunk(items, size)`: consecutive batches of `size` items, the last one
      possibly shorter; no batch is empty, and a size of zero yields none. */
  method Chunk<T>(items: seq<T>, size: nat) returns (batches: seq<seq<T>>)
    ensures size == 0 ==> batches == []
    ensures size > 0 ==> Flatten(batches) == items
    ensures forall k :: 0 <= k < |batches| ==> 0 < |batches[k]| <= size
    ensures forall k :: 0 <= k < |batches| - 1 ==> |batches[k]| == size
  {
    batches := [];
    var pos := 0;
    while true
      invariant 0 <= pos <= |items|
      invariant Flatten(batches) == items[..pos]
      invariant size == 0 ==> batches == []
      invariant forall k :: 0 <= k < |batches| ==> 0 < |batches[k]| <= size
      invariant forall k :: 0 <= k < |batches| ==> |batches[k]| == size || (k == |batches| - 1 && pos == |items|)
      decreases |items| - pos
    {
      var end := if pos + size <= |items| then pos + size else |items|;
      var batch := items[pos..end];
      if batch == [] {
        break;
      }
      assert (batches + [batch])[..|batches|] == batches;
      assert items[..pos] + batch == items[..end];
      batches := batches + [batch];
      pos := end;
    }
    assert size > 0 ==> items[..pos] == items;
  }

  // ---------------------------------------------------------------------
  // _session_sort_key

  /** `time.strip().upper() == "TBD"` */
  predicate IsTbdTime(time: string) {
    Upper(Strip(time)) == "TBD"
  }

  predicate IsTbd(s: Session) {
    IsTbdTime(s.time)
  }

  /** `strptime(f"{date} 00:00", "%Y-%m-%d %H:%M")` */
  function MidnightOf(date: string): Result<DateTime, StrptimeError> {
    Strptime(date + " 00:00", DateTimeFormat)
  }

  /** The start written in the time field, on the given date. */
  function WrittenStart(date: string, time: string): Result<DateTime, StrptimeError> {
    Strptime(date + " " + Strip(Split(Strip(time), '-')[0]), DateTimeFormat)
  }

  /** The start the dashboard sorts by: the written start, or midnight of the
      date for a "TBD" time or a time that does not parse.  Only a date that
      does not parse is an error, and it propagates. */
  function StartOf(date: string, time: string): (r: Result<DateTime, StrptimeError>)
    ensures r.Err? <==> (IsTbdTime(time) || WrittenStart(date, time).Err?) && MidnightOf(date).Err?
    ensures !IsTbdTime(time) && WrittenStart(date, time).Ok? ==> r == WrittenStart(date, time)
    ensures IsTbdTime(time) || WrittenStart(date, time).Err? ==> r == MidnightOf(date)
  {
    if IsTbdTime(time) then MidnightOf(date)
    else
      match WrittenStart(date, time)
      case Ok(t) => Ok(t)
      case Err(_) => MidnightOf(date)
  }

  function SortStart(s: Session): Result<DateTime, StrptimeError> {
    StartOf(s.date, s.time)
  }

  /** A time range that starts with a formatted time is already stripped. */
  lemma {:induction false} FormattedRangeStripped(h: int, mi: int, tail: string)
    requires 0 <= h < 24 && 0 <= mi < 60
    requires tail == [] || !IsSpace(tail[|tail| - 1])
    ensures Strip(FormatHM(h, mi) + "-" + tail) == FormatHM(h, mi) + "-" + tail
  {
    var time := FormatHM(h, mi) + "-" + tail;
    assert time[0] == Two(h)[0];
    assert time[|time| - 1] == (if tail == [] then '-' else tail[|tail| - 1]);
    StripNoop(time, IsSpace);
  }

  /** A time that starts with a digit is not "TBD". */
  lemma {:induction false} DigitFirstNotTbd(time: string)
    requires Strip(time) != [] && IsAsciiDigit(Strip(time)[0])
    ensures !IsTbdTime(time)
  {
    assert Upper(Strip(time))[0] != 'T';
  }

  /** A time range that starts with a formatted time is not "TBD", and its
      first piece is that time. */
  lemma {:induction false} FormattedRangeStart(h: int, mi: int, tail: string)
    requires 0 <= h < 24 && 0 <= mi < 60
    requires tail == [] || !IsSpace(tail[|tail| - 1])
    ensures var time := FormatHM(h, mi) + "-" + tail;
      !IsTbdTime(time) && Strip(Split(Strip(time), '-')[0]) == FormatHM(h, mi)
  {
    var a := FormatHM(h, mi);
    var time := a + "-" + tail;
    FormattedRangeStripped(h, mi, tail);
    assert time[0] == Two(h)[0];
    DigitFirstNotTbd(time);
    SplitAfterFirst(a, '-', tail);
    assert time == a + ['-'] + tail;
    StripFormattedHM(h, mi);
  }

  /** A formatted date and a time range starting with a formatted time sort
      by that start. */
  lemma {:induction false} TimedSortStart(y: int, mo: int, d: int, h: int, mi: int, tail: string)
    requires ValidDate(y, mo, d) && 0 <= h < 24 && 0 <= mi < 60
    requires tail == [] || !IsSpace(tail[|tail| - 1])
    ensures StartOf(FormatDate(y, mo, d), FormatHM(h, mi) + "-" + tail) == Ok(DateTime(y, mo, d, h, mi, 0, 0))
  {
    FormattedRangeStart(h, mi, tail);
    DateTimeRoundTrip(y, mo, d, h, mi);
  }

  /** A "TBD" time, or a time that does not parse, sorts as midnight of a
      date that does. */
  lemma {:induction false} UntimedSortsAtMidnight(y: int, mo: int, d: int, time: string)
    requires ValidDate(y, mo, d)
    requires IsTbdTime(time) || WrittenStart(FormatDate(y, mo, d), time).Err?
    ensures StartOf(FormatDate(y, mo, d), time) == Ok(DateTime(y, mo, d, 0, 0, 0, 0))
  {
    MidnightRoundTrip(y, mo, d);
  }

  /** Midnight of a formatted date parses back to that date. */
  lemma {:induction false} MidnightRoundTrip(y: int, mo: int, d: int)
    requires ValidDate(y, mo, d)
    ensures MidnightOf(FormatDate(y, mo, d)) == Ok(DateTime(y, mo, d, 0, 0, 0, 0))
  {
    assert " " + FormatHM(0, 0) == " 00:00";
    assert FormatDate(y, mo, d) + " 00:00" == FormatDate(y, mo, d) + " " + FormatHM(0, 0);
    DateTimeRoundTrip(y, mo, d, 0, 0);
  }

  /** `-dt.timestamp()`, componentwise: the start's fields, negated. */
  function Negated(a: seq<int>): (r: seq<int>)
    ensures |r| == |a| && forall i :: 0 <= i < |a| ==> r[i] == -a[i]
  {
    seq(|a|, i requires 0 <= i < |a| => -a[i])
  }

  /** Negating every component reverses the lexicographic order. */
  lemma {:induction false} NegatedLexLess(a: seq<int>, b: seq<int>)
    requires |a| == |b|
    ensures LexLess(Negated(a), Negated(b)) <==> LexLess(b, a)
    decreases |a|
  {
    if |a| > 0 {
      NegatedLexLess(a[1..], b[1..]);
      assert Negated(a)[1..] == Negated(a[1..]);
      assert Negated(b)[1..] == Negated(b[1..]);
    }
  }

  const KeyLength := 9

  /** `_session_sort_key(session)`: (expired, active and TBD, -start), the
      tuple compared lexicographically; `now` is the clock `status()` reads. */
  function SessionSortKey(s: Session, now: DateTime): (r: Result<seq<int>, StrptimeError>)
    ensures r.Err? <==> SortStart(s).Err?
    ensures r.Ok? ==> (|r.value| == KeyLength
      && r.value[0] == (if IsPast(s, now) then 1 else 0)
      && r.value[1] == (if !IsPast(s, now) && IsTbd(s) then 1 else 0)
      && r.value[2..] == Negated(Key(SortStart(s).value)))
  {
    match SortStart(s)
    case Err(e) => Err(e)
    case Ok(t) =>
      var expired := Status(s, now) == "expired";
      var primary := if expired then 1 else 0;
      var secondary := if !expired && IsTbd(s) then 1 else 0;
      var key := [primary, secondary] + Negated(Key(t));
      assert key[2..] == Negated(Key(t));
      Ok(key)
  }

  /** How two sessions compare: expired ones come last; among active ones a
      timed session comes before a "TBD" one; otherwise the later start comes
      first. */
  lemma {:induction false} SortKeyOrder(a: Session, b: Session, now: DateTime)
    requires SessionSortKey(a, now).Ok? && SessionSortKey(b, now).Ok?
    ensures var ka := SessionSortKey(a, now).value; var kb := SessionSortKey(b, now).value;
      (!IsPast(a, now) && IsPast(b, now) ==> LexLess(ka, kb))
      && (!IsPast(a, now) && !IsPast(b, now) && !IsTbd(a) && IsTbd(b) ==> LexLess(ka, kb))
      && (IsPast(a, now) == IsPast(b, now) && (IsPast(a, now) || IsTbd(a) == IsTbd(b))
          ==> (LexLess(ka, kb) <==> Before(SortStart(b).value, SortStart(a).value)))
  {
    var ka := SessionSortKey(a, now).value;
    var kb := SessionSortKey(b, now).value;
    assert ka[1..][1..] == ka[2..] && kb[1..][1..] == kb[2..];
    NegatedLexLess(Key(SortStart(a).value), Key(SortStart(b).value));
  }

  // ---------------------------------------------------------------------
  // sorted(sessions, key=_session_sort_key)

  /** A session with its computed sort key. */
  datatype Keyed = Keyed(key: seq<int>, session: Session)

  predicate KeysOk(ks: seq<Keyed>) {
    forall k :: 0 <= k < |ks| ==> |ks[k].key| == KeyLength
  }

  predicate SortedByKey(ks: seq<Keyed>)
    requires KeysOk(ks)
  {
    forall i, j :: 0 <= i < j < |ks| ==> !LexLess(ks[j].key, ks[i].key)
  }

  function Sessions(ks: seq<Keyed>): (r: seq<Session>)
    ensures |r| == |ks| && forall k :: 0 <= k < |ks| ==> r[k] == ks[k].session
  {
    seq(|ks|, k requires 0 <= k < |ks| => ks[k].session)
  }

  lemma {:induction false} SessionsCons(x: Keyed, ks: seq<Keyed>)
    ensures Sessions([x] + ks) == [x.session] + Sessions(ks)
  {
  }

  /** The keys of all sessions, computed in order; the first failure is the
      exception `sorted` raises. */
  function KeySessions(sessions: seq<Session>, now: DateTime): (r: Result<seq<Keyed>, StrptimeError>)
    ensures (forall k :: 0 <= k < |sessions| ==> SessionSortKey(sessions[k], now).Ok?) ==> r.Ok?
    ensures r.Ok? ==> |r.value| == |sessions|
    ensures r.Ok? ==> forall k :: 0 <= k < |sessions| ==>
      r.value[k].session == sessions[k] && SessionSortKey(sessions[k], now) == Ok(r.value[k].key)
  {
    var keys := seq(|sessions|, k requires 0 <= k < |sessions| => SessionSortKey(sessions[k], now));
    match AllOk(keys)
    case Err(e) => Err(e)
    case Ok(vs) => Ok(seq(|vs|, k requires 0 <= k < |vs| => Keyed(vs[k], sessions[k])))
  }

  /** The values of a list of results, or the first error among them. */
  function AllOk<T, E>(rs: seq<Result<T, E>>): (r: Result<seq<T>, E>)
    ensures (forall k :: 0 <= k < |rs| ==> rs[k].Ok?) ==> r.Ok?
    ensures r.Ok? ==> |r.value| == |rs| && forall k :: 0 <= k < |rs| ==> rs[k] == Ok(r.value[k])
    decreases |rs|
  {
    if rs == [] then Ok([])
    else
      match rs[0]
      case Err(e) => Err(e)
      case Ok(v) =>
        match AllOk(rs[1..])
        case Err(e) => Err(e)
        case Ok(vs) => Ok([v] + vs)
  }

  /** The keys computed for the sessions are the sort keys, each of the
      fixed length. */
  lemma {:induction false} KeyedSessions(sessions: seq<Session>, now: DateTime)
    requires KeySessions(sessions, now).Ok?
    ensures KeysOk(KeySessions(sessions, now).value)
    ensures Sessions(KeySessions(sessions, now).value) == sessions
  {
    var ks := KeySessions(sessions, now).value;
    forall k | 0 <= k < |ks| ensures |ks[k].key| == KeyLength {
      assert SessionSortKey(sessions[k], now) == Ok(ks[k].key);
    }
  }

  /** Puts `x` in front of the first entry whose key is not smaller. */
  function InsertByKey(x: Keyed, sorted: seq<Keyed>): (r: seq<Keyed>)
    requires |x.key| == KeyLength && KeysOk(sorted)
    ensures KeysOk(r)
    ensures multiset(r) == multiset(sorted) + multiset{x}
    decreases |sorted|
  {
    if sorted == [] || !LexLess(sorted[0].key, x.key) then [x] + sorted
    else
      assert sorted == [sorted[0]] + sorted[1..];
      [sorted[0]] + InsertByKey(x, sorted[1..])
  }

  /** No entry of `ks` has a key below `b`. */
  predicate NoneBelow(b: seq<int>, ks: seq<Keyed>)
    requires |b| == KeyLength && KeysOk(ks)
  {
    forall k :: 0 <= k < |ks| ==> !LexLess(ks[k].key, b)
  }

  lemma {:induction false} InsertKeepsFloor(b: seq<int>, x: Keyed, sorted: seq<Keyed>)
    requires |b| == KeyLength && |x.key| == KeyLength && KeysOk(sorted)
    requires NoneBelow(b, sorted) && !LexLess(x.key, b)
    ensures NoneBelow(b, InsertByKey(x, sorted))
    decreases |sorted|
  {
    if !(sorted == [] || !LexLess(sorted[0].key, x.key)) {
      InsertKeepsFloor(b, x, sorted[1..]);
    }
  }

  /** `a <= b` and `b <= c` give `a <= c` for keys. */
  lemma {:induction false} KeyNotBelowTransitive(a: seq<int>, b: seq<int>, c: seq<int>)
    requires |a| == |b| == |c|
    requires !LexLess(b, a) && !LexLess(c, b)
    ensures !LexLess(c, a)
  {
    LexLessTotal(a, b);
    if LexLess(c, a) {
      if a == b {
      } else {
        LexLessTransitive(c, a, b);
      }
    }
  }

  lemma {:induction false} InsertKeepsSorted(x: Keyed, sorted: seq<Keyed>)
    requires |x.key| == KeyLength && KeysOk(sorted) && SortedByKey(sorted)
    ensures SortedByKey(InsertByKey(x, sorted))
    decreases |sorted|
  {
    var r := InsertByKey(x, sorted);
    if sorted == [] || !LexLess(sorted[0].key, x.key) {
      assert r == [x] + sorted;
      forall i, j | 0 <= i < j < |r| ensures !LexLess(r[j].key, r[i].key) {
        if i == 0 && j == 1 {
          assert r[j] == sorted[0];
        } else if i == 0 {
          assert r[j] == sorted[j - 1];
          KeyNotBelowTransitive(x.key, sorted[0].key, r[j].key);
        } else {
          assert r[i] == sorted[i - 1] && r[j] == sorted[j - 1];
        }
      }
    } else {
      var head := sorted[0];
      var rest := InsertByKey(x, sorted[1..]);
      InsertKeepsSorted(x, sorted[1..]);
      LexLessTotal(head.key, x.key);
      LexLessIrreflexive(head.key);
      if LexLess(x.key, head.key) {
        LexLessTransitive(x.key, head.key, x.key);
        LexLessIrreflexive(x.key);
      }
      InsertKeepsFloor(head.key, x, sorted[1..]);
      assert r == [head] + rest;
      forall i, j | 0 <= i < j < |r| ensures !LexLess(r[j].key, r[i].key) {
        if i > 0 {
          assert r[i] == rest[i - 1] && r[j] == rest[j - 1];
        } else {
          assert r[j] == rest[j - 1];
        }
      }
    }
  }

  /** Python's stable `sorted` by key. */
  function SortByKey(ks: seq<Keyed>): (r: seq<Keyed>)
    requires KeysOk(ks)
    ensures KeysOk(r) && SortedByKey(r)
    ensures multiset(r) == multiset(ks)
    decreases |ks|
  {
    if ks == [] then []
    else
      assert ks == [ks[0]] + ks[1..];
      InsertKeepsSorted(ks[0], SortByKey(ks[1..]));
      InsertByKey(ks[0], SortByKey(ks[1..]))
  }

  /** Inserting adds the entry's session to the sessions. */
  lemma {:induction false} InsertAddsSession(x: Keyed, sorted: seq<Keyed>)
    requires |x.key| == KeyLength && KeysOk(sorted)
    ensures multiset(Sessions(InsertByKey(x, sorted))) == multiset(Sessions(sorted)) + multiset{x.session}
    decreases |sorted|
  {
    if sorted == [] || !LexLess(sorted[0].key, x.key) {
      SessionsCons(x, sorted);
    } else {
      assert sorted == [sorted[0]] + sorted[1..];
      InsertAddsSession(x, sorted[1..]);
      SessionsCons(sorted[0], sorted[1..]);
      SessionsCons(sorted[0], InsertByKey(x, sorted[1..]));
    }
  }

  /** Sorting permutes the sessions. */
  lemma {:induction false} SortPermutesSessions(ks: seq<Keyed>)
    requires KeysOk(ks)
    ensures multiset(Sessions(SortByKey(ks))) == multiset(Sessions(ks))
    decreases |ks|
  {
    if ks != [] {
      assert ks == [ks[0]] + ks[1..];
      SortPermutesSessions(ks[1..]);
      InsertAddsSession(ks[0], SortByKey(ks[1..]));
      SessionsCons(ks[0], ks[1..]);
    }
  }

  /** Sorting an already sorted list changes nothing, so the stable re-sort
      of a filtered list keeps it as it is. */
  lemma {:induction false} SortSortedIsIdentity(ks: seq<Keyed>)
    requires KeysOk(ks) && SortedByKey(ks)
    ensures SortByKey(ks) == ks
    decreases |ks|
  {
    if ks != [] {
      var rest := ks[1..];
      assert SortedByKey(rest) by {
        forall i, j | 0 <= i < j < |rest| ensures !LexLess(rest[j].key, rest[i].key) {
          assert rest[i] == ks[i + 1] && rest[j] == ks[j + 1];
        }
      }
      SortSortedIsIdentity(rest);
      if rest != [] {
        assert rest[0] == ks[1];
      }
    }
  }

  /** `sorted(sessions, key=_session_sort_key)`: the sessions with their keys,
      sorted; the first key that cannot be computed is the error. */
  function SortSessions(sessions: seq<Session>, now: DateTime): (r: Result<seq<Keyed>, StrptimeError>)
    ensures r.Ok? <==> KeySessions(sessions, now).Ok?
    ensures r.Ok? ==> (KeysOk(r.value) && SortedByKey(r.value)
      && multiset(Sessions(r.value)) == multiset(sessions))
    ensures r.Ok? ==> (r.value == [] <==> sessions == [])
  {
    match KeySessions(sessions, now)
    case Err(e) => Err(e)
    case Ok(ks) =>
      KeyedSessions(sessions, now);
      var sorted := SortByKey(ks);
      SortPermutesSessions(ks);
      assert |sorted| == |multiset(sorted)| == |multiset(ks)| == |ks|;
      Ok(sorted)
  }

  // ---------------------------------------------------------------------
  // Categories

  /** Every tag of every session, in order. */
  function AllTags(sessions: seq<Session>): (r: seq<string>)
    ensures forall t :: t in r <==> exists k :: 0 <= k < |sessions| && t in sessions[k].tags
    decreases |sessions|
  {
    if sessions == [] then []
    else
      var rest := AllTags(sessions[1..]);
      assert forall k :: 1 <= k < |sessions| ==> sessions[k] == sessions[1..][k - 1];
      sessions[0].tags + rest
  }

  predicate StrictlyIncreasing(r: seq<string>) {
    forall i, j :: 0 <= i < j < |r| ==> StrLess(r[i], r[j])
  }

  predicate AllAbove(b: string, r: seq<string>) {
    forall k :: 0 <= k < |r| ==> StrLess(b, r[k])
  }

  /** Adds `t` to a strictly increasing list unless it is there. */
  function InsertTag(t: string, sorted: seq<string>): (r: seq<string>)
    ensures forall u :: u in r <==> u == t || u in sorted
    decreases |sorted|
  {
    if sorted == [] then [t]
    else if t == sorted[0] then sorted
    else if StrLess(t, sorted[0]) then [t] + sorted
    else [sorted[0]] + InsertTag(t, sorted[1..])
  }

  lemma {:induction false} InsertTagAbove(b: string, t: string, sorted: seq<string>)
    requires AllAbove(b, sorted) && StrLess(b, t)
    ensures AllAbove(b, InsertTag(t, sorted))
    decreases |sorted|
  {
    if sorted != [] && t != sorted[0] && !StrLess(t, sorted[0]) {
      InsertTagAbove(b, t, sorted[1..]);
    }
  }

  lemma {:induction false} InsertTagSorted(t: string, sorted: seq<string>)
    requires StrictlyIncreasing(sorted)
    ensures StrictlyIncreasing(InsertTag(t, sorted))
    decreases |sorted|
  {
    var r := InsertTag(t, sorted);
    if sorted == [] || t == sorted[0] {
    } else if StrLess(t, sorted[0]) {
      forall j | 0 < j < |r| ensures StrLess(r[0], r[j]) {
        if j > 1 { StrLessTransitive(t, sorted[0], sorted[j - 1]); }
      }
    } else {
      var head := sorted[0];
      var rest := InsertTag(t, sorted[1..]);
      InsertTagSorted(t, sorted[1..]);
      StrLessTotal(t, head);
      InsertTagAbove(head, t, sorted[1..]);
      assert r == [head] + rest;
      forall i, j | 0 <= i < j < |r| ensures StrLess(r[i], r[j]) {
        if i > 0 {
          assert r[i] == rest[i - 1] && r[j] == rest[j - 1];
        } else {
          assert r[j] == rest[j - 1];
        }
      }
    }
  }

  /** `sorted(set(tags))` */
  function SortedDistinct(tags: seq<string>): (r: seq<string>)
    ensures StrictlyIncreasing(r)
    ensures forall t :: t in r <==> t in tags
    decreases |tags|
  {
    if tags == [] then []
    else
      InsertTagSorted(tags[0], SortedDistinct(tags[1..]));
      assert forall t :: t in tags <==> t == tags[0] || t in tags[1..];
      InsertTag(tags[0], SortedDistinct(tags[1..]))
  }

  /** `["全選"] + sorted({tag for session in sessions for tag in session.tags})` */
  function Categories(sessions: seq<Session>): (r: seq<string>)
    ensures r != [] && r[0] == AllCategory
    ensures StrictlyIncreasing(r[1..])
    ensures forall t :: t in r[1..] <==> exists k :: 0 <= k < |sessions| && t in sessions[k].tags
  {
    var r := [AllCategory] + SortedDistinct(AllTags(sessions));
    assert r[1..] == SortedDistinct(AllTags(sessions));
    r
  }

  predicate Distinct(v: seq<string>) {
    forall i, j :: 0 <= i < j < |v| ==> v[i] != v[j]
  }

  /** Unless a session is itself tagged "全選", no category is offered twice. */
  lemma {:induction false} CategoriesDistinct(sessions: seq<Session>)
    requires forall k :: 0 <= k < |sessions| ==> AllCategory !in sessions[k].tags
    ensures Distinct(Categories(sessions))
  {
    var r := Categories(sessions);
    forall i, j | 0 <= i < j < |r| ensures r[i] != r[j] {
      if i == 0 {
        assert r[j] in r[1..];
      } else {
        assert r[i] == r[1..][i - 1] && r[j] == r[1..][j - 1];
        StrLessIrreflexive(r[i]);
      }
    }
  }

  /** `list(dict.fromkeys(v))`: the first occurrence of each entry. */
  function Dedup(v: seq<string>): (r: seq<string>)
    ensures forall x :: x in r <==> x in v
    ensures Distinct(r)
    ensures |r| <= |v|
    decreases |v|
  {
    if v == [] then []
    else
      var d := Dedup(v[..|v| - 1]);
      assert forall x :: x in v <==> x in v[..|v| - 1] || x == v[|v| - 1];
      if v[|v| - 1] in d then d else d + [v[|v| - 1]]
  }

  /** A list without repeats is its own `dict.fromkeys`. */
  lemma {:induction false} DedupDistinct(v: seq<string>)
    requires Distinct(v)
    ensures Dedup(v) == v
    decreases |v|
  {
    if v != [] {
      var init := v[..|v| - 1];
      assert Distinct(init) by {
        forall i, j | 0 <= i < j < |init| ensures init[i] != init[j] {
          assert init[i] == v[i] && init[j] == v[j];
        }
      }
      DedupDistinct(init);
      assert v[|v| - 1] !in init by {
        forall i | 0 <= i < |init| ensures init[i] != v[|v| - 1] {
          assert init[i] == v[i];
        }
      }
      assert init + [v[|v| - 1]] == v;
    }
  }

  /** The stored category, defaulting to "全選" and reset to the first
      category when it is no longer offered. */
  function ResolveCategory(stored: Option<string>, categories: seq<string>): (r: string)
    requires categories != []
    ensures r in categories
    ensures stored.Some? && stored.value in categories ==> r == stored.value
  {
    var c := if stored.Some? then stored.value else AllCategory;
    if c in categories then c else categories[0]
  }

  /** The chips shown: every category when all are shown; otherwise the first
      five, with the selected category taking the fifth place when it is not
      among them, without repeats. */
  function VisibleCategories(categories: seq<string>, showAll: bool, selected: string): (r: seq<string>)
    ensures showAll ==> r == categories
    ensures !showAll ==> Distinct(r) && |r| <= MaxVisible
    ensures forall x :: x in r ==> x in categories
    ensures selected in categories ==> selected in r
  {
    if showAll then categories
    else
      var first := PyTake(categories, MaxVisible);
      var v := if selected !in first && selected in categories then PyTake(categories, MaxVisible - 1) + [selected] else first;
      Dedup(v)
  }

  /** With distinct categories, the chips are exactly the first five, or the
      first four and the selected one. */
  lemma {:induction false} VisibleReplacesFifth(categories: seq<string>, selected: string)
    requires Distinct(categories)
    ensures selected !in PyTake(categories, MaxVisible) && selected in categories ==>
      VisibleCategories(categories, false, selected) == PyTake(categories, MaxVisible - 1) + [selected]
    ensures selected in PyTake(categories, MaxVisible) || selected !in categories ==>
      VisibleCategories(categories, false, selected) == PyTake(categories, MaxVisible)
  {
    var first := PyTake(categories, MaxVisible);
    var four := PyTake(categories, MaxVisible - 1);
    assert Distinct(first) by {
      forall i, j | 0 <= i < j < |first| ensures first[i] != first[j] {
        assert first[i] == categories[i] && first[j] == categories[j];
      }
    }
    DedupDistinct(first);
    if selected !in first && selected in categories {
      var v := four + [selected];
      assert Distinct(v) by {
        forall i, j | 0 <= i < j < |v| ensures v[i] != v[j] {
          assert v[i] == categories[i];
          if j < |four| {
            assert v[j] == categories[j];
          } else {
            assert v[i] in first;
          }
        }
      }
      DedupDistinct(v);
    }
  }

  /** What the category radio returns: the chip clicked, else the default. */
  function RadioChoice(visible: seq<string>, default: string, clicked: Option<string>): (r: string)
    ensures r == default || r in visible
  {
    if clicked.Some? && clicked.value in visible then clicked.value else default
  }

  /** The resolved category is always among the chips, so the reset to the
      first chip that follows it never fires. */
  lemma {:induction false} ResolvedCategoryVisible(stored: Option<string>, categories: seq<string>, showAll: bool)
    requires categories != []
    ensures ResolveCategory(stored, categories) in VisibleCategories(categories, showAll, ResolveCategory(stored, categories))
  {
  }

  // ---------------------------------------------------------------------
  // Filtering

  /** The sessions carrying tag `category`, in order. */
  function OnlyTagged(ks: seq<Keyed>, category: string): (r: seq<Keyed>)
    requires KeysOk(ks)
    ensures KeysOk(r)
    ensures forall x :: x in r <==> x in ks && category in x.session.tags
    decreases |ks|
  {
    if ks == [] then []
    else
      assert forall x :: x in ks <==> x == ks[0] || x in ks[1..];
      (if category in ks[0].session.tags then [ks[0]] else []) + OnlyTagged(ks[1..], category)
  }

  lemma {:induction false} SortedTail(ks: seq<Keyed>)
    requires ks != [] && KeysOk(ks) && SortedByKey(ks)
    ensures SortedByKey(ks[1..]) && NoneBelow(ks[0].key, ks[1..])
  {
    var rest := ks[1..];
    forall i, j | 0 <= i < j < |rest| ensures !LexLess(rest[j].key, rest[i].key) {
      assert rest[i] == ks[i + 1] && rest[j] == ks[j + 1];
    }
    forall k | 0 <= k < |rest| ensures !LexLess(rest[k].key, ks[0].key) {
      assert rest[k] == ks[k + 1];
    }
  }

  /** Filtering keeps the order of a sorted list. */
  lemma {:induction false} OnlyTaggedSorted(ks: seq<Keyed>, category: string)
    requires KeysOk(ks) && SortedByKey(ks)
    ensures SortedByKey(OnlyTagged(ks, category))
    decreases |ks|
  {
    if ks != [] {
      var rest := OnlyTagged(ks[1..], category);
      SortedTail(ks);
      OnlyTaggedSorted(ks[1..], category);
      var r := OnlyTagged(ks, category);
      if category in ks[0].session.tags {
        assert r == [ks[0]] + rest;
        forall i, j | 0 <= i < j < |r| ensures !LexLess(r[j].key, r[i].key) {
          assert r[j] == rest[j - 1] && r[j] in ks[1..];
          if i > 0 {
            assert r[i] == rest[i - 1];
          }
        }
      }
    }
  }

  /** The cards of a category: all for "全選", otherwise the sessions with that
      tag, sorted again by key. */
  function FilterByCategory(ks: seq<Keyed>, category: string): (r: seq<Keyed>)
    requires KeysOk(ks)
    ensures KeysOk(r)
    ensures forall x :: x in r <==> x in ks && (category == AllCategory || category in x.session.tags)
  {
    if category == AllCategory then ks
    else
      var tagged := OnlyTagged(ks, category);
      var r := SortByKey(tagged);
      assert forall x :: x in r <==> x in multiset(tagged);
      r
  }

  /** On the sorted list the page holds, filtering keeps the order and the
      re-sort changes nothing. */
  lemma {:induction false} FilterKeepsOrder(ks: seq<Keyed>, category: string)
    requires KeysOk(ks) && SortedByKey(ks)
    ensures SortedByKey(FilterByCategory(ks, category))
    ensures category != AllCategory ==> FilterByCategory(ks, category) == OnlyTagged(ks, category)
  {
    if category != AllCategory {
      OnlyTaggedSorted(ks, category);
      SortSortedIsIdentity(OnlyTagged(ks, category));
    }
  }

  // ---------------------------------------------------------------------
  // render_dashboard

  /** What the page shows below its header. */
  datatype DashboardView =
    | LoadError(message: string)
    | NoSessions
    | Rerun
    | EmptyCategory(chips: seq<string>, selected: string)
    | Cards(chips: seq<string>, selected: string, toggleShown: bool, rows: seq<seq<Session>>)

  /** The category in force before the radio: the stored one, if offered. */
  function CurrentCategory(sorted: seq<Keyed>, stored: Option<string>): string {
    ResolveCategory(stored, Categories(Sessions(sorted)))
  }

  /** The chips offered on a sorted, non-empty list. */
  function ChipsOf(sorted: seq<Keyed>, stored: Option<string>, showAll: bool): seq<string> {
    VisibleCategories(Categories(Sessions(sorted)), showAll, CurrentCategory(sorted, stored))
  }

  /** The category the radio ends on. */
  function SelectedOf(sorted: seq<Keyed>, stored: Option<string>, showAll: bool, clicked: Option<string>): (r: string)
    ensures r in Categories(Sessions(sorted))
  {
    ResolvedCategoryVisible(stored, Categories(Sessions(sorted)), showAll);
    RadioChoice(ChipsOf(sorted, stored, showAll), CurrentCategory(sorted, stored), clicked)
  }

  /** The "..." / "收合" button is shown only when there are more than five
      categories. */
  predicate ToggleShown(sorted: seq<Keyed>) {
    |Categories(Sessions(sorted))| > MaxVisible
  }

  /** Cards laid out four to a row, in order, no row empty. */
  predicate LaidOut(rows: seq<seq<Session>>, shown: seq<Session>) {
    Flatten(rows) == shown
    && (forall k :: 0 <= k < |rows| ==> 0 < |rows[k]| <= CardsPerRow)
    && (forall k :: 0 <= k < |rows| - 1 ==> |rows[k]| == CardsPerRow)
  }

  /** The two entries of `st.session_state` the dashboard keeps. */
  class DashboardState {
    var category: Option<string>
    var showAllTags: Option<bool>

    /** A fresh browser session holds neither entry. */
    constructor()
      ensures category == None && showAllTags == None
    {
      category := None;
      showAllTags := None;
    }

    /** `render_dashboard`: `loaded` is what `get_all_sessions` returned or
        the text of its exception, `clicked` the chip the visitor picked and
        `toggleClicked` whether the "..." / "收合" button was pressed.  An
        unparseable session date raises out of the sort. */
    method Render(loaded: Result<seq<Session>, string>, now: DateTime, clicked: Option<string>, toggleClicked: bool)
        returns (r: Result<DashboardView, StrptimeError>)
      modifies this
      ensures loaded.Err? ==> r == Ok(LoadError(LoadErrorPrefix + loaded.error)) && unchanged(this)
      ensures loaded.Ok? && SortSessions(loaded.value, now).Err? ==>
        r == Err(SortSessions(loaded.value, now).error) && unchanged(this)
      ensures loaded.Ok? && loaded.value == [] ==> r == Ok(NoSessions) && unchanged(this)
      ensures loaded.Ok? && loaded.value != [] && SortSessions(loaded.value, now).Ok? ==>
        var sorted := SortSessions(loaded.value, now).value;
        var showAll := old(showAllTags).Some? && old(showAllTags).value;
        var chips := ChipsOf(sorted, old(category), showAll);
        var selected := SelectedOf(sorted, old(category), showAll, clicked);
        var toggled := ToggleShown(sorted) && toggleClicked;
        var shown := Sessions(FilterByCategory(sorted, selected));
        category == Some(selected)
        && showAllTags == Some(if toggled then !showAll else showAll)
        && (toggled ==> r == Ok(Rerun))
        && (!toggled && shown == [] ==> r == Ok(EmptyCategory(chips, selected)))
        && (!toggled && shown != [] ==>
              r.Ok? && r.value.Cards? && r.value.chips == chips && r.value.selected == selected
              && r.value.toggleShown == ToggleShown(sorted) && LaidOut(r.value.rows, shown))
    {
      if loaded.Err? {
        return Ok(LoadError(LoadErrorPrefix + loaded.error));
      }
      var sorting := SortSessions(loaded.value, now);
      if sorting.Err? {
        return Err(sorting.error);
      }
      var sorted := sorting.value;
      if sorted == [] {
        return Ok(NoSessions);
      }
      var showAll := showAllTags.Some? && showAllTags.value;
      var chips := ChipsOf(sorted, category, showAll);
      var selected := SelectedOf(sorted, category, showAll, clicked);
      category := Some(selected);
      showAllTags := Some(showAll);
      if ToggleShown(sorted) && toggleClicked {
        showAllTags := Some(!showAll);
        return Ok(Rerun);
      }
      var shown := Sessions(FilterByCategory(sorted, selected));
      if shown == [] {
        return Ok(EmptyCategory(chips, selected));
      }
      var rows := Chunk(shown, CardsPerRow);
      return Ok(Cards(chips, selected, ToggleShown(sorted), rows));
    }
  }
}
