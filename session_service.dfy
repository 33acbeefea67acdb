/**
  The session store: the list of session records held in `data/sessions.json`,
  a cache of the sessions loaded from it, the queries over the loaded
  sessions, and the operations that rewrite the records (count-only
  registration, creation with a generated id, update with an immutable id,
  deletion).  The file is an in-memory value that each operation reads and
  replaces whole; locking, backups and the JSON encoding are not modelled.
 */
module SessionService {
  import opened Wrappers
  import opened PyText
  import opened Records
  import opened DateUtils
  import opened SpeakerModel
  import opened RegistrantModel
  import opened SessionModel
  import Validation

  /** One entry of the file's "sessions" list: a JSON object. */
  type Record = map<string, Json>

  /** Why loading a record into a `Session` fails: a `KeyError`, a value of
      the wrong JSON type, or a `ValueError` from a model's own checks. */
  datatype LoadError = MissingKey(key: string) | WrongType(key: string) | Invalid(msg: string)

  // ---------------------------------------------------------------------
  // Loading records into sessions (`get_all_sessions`)

  /** The values of `keys`, each looked up with `m[key]`, in order. */
  function FetchAll(keys: seq<string>, m: Record): (r: Result<seq<Json>, LoadError>)
    ensures r.Ok? <==> FirstMissing(keys, m) == |keys|
    ensures r.Ok? ==> |r.value| == |keys| && forall i :: 0 <= i < |keys| ==> keys[i] in m && r.value[i] == m[keys[i]]
    ensures r.Err? ==> r.error == MissingKey(keys[FirstMissing(keys, m)])
    decreases |keys|
  {
    if |keys| == 0 then Ok([])
    else if keys[0] !in m then Err(MissingKey(keys[0]))
    else match FetchAll(keys[1..], m)
      case Err(e) => Err(e)
      case Ok(vs) =>
        assert forall i :: 1 <= i < |keys| ==> keys[i] == keys[1..][i - 1];
        Ok([m[keys[0]]] + vs)
  }

  /** The texts of a list of JSON strings. */
  function Texts(items: seq<Json>): (r: Option<seq<string>>)
    ensures r.Some? <==> forall i :: 0 <= i < |items| ==> items[i].JStr?
    ensures r.Some? ==> |r.value| == |items| && forall i :: 0 <= i < |items| ==> items[i] == JStr(r.value[i])
    decreases |items|
  {
    if |items| == 0 then Some([])
    else if !items[0].JStr? then None
    else match Texts(items[1..])
      case None => None
      case Some(ts) => Some([items[0].s] + ts)
  }

  const SpeakerKeys: seq<string> := ["name", "photo", "bio"]

  /** `Speaker(name=sd["name"], photo=sd["photo"], bio=sd["bio"])` where
      `sd = record.get("speaker", {})`. */
  function LoadSpeaker(rec: Record): (r: Result<Speaker, LoadError>)
    ensures r.Ok? ==> SpeakerOk(r.value)
  {
    var sd := if "speaker" in rec then rec["speaker"] else JObj(map[]);
    if !sd.JObj? then Err(WrongType("speaker"))
    else match FetchAll(SpeakerKeys, sd.fields)
      case Err(e) => Err(e)
      case Ok(vs) =>
        match Texts(vs)
        case None => Err(WrongType("speaker"))
        case Some(ts) =>
          match NewSpeaker(ts[0], ts[1], ts[2])
          case Err(msg) => Err(Invalid(msg))
          case Ok(sp) => Ok(sp)
  }

  /** `Registrant(name=reg["name"], registered_at=reg["registered_at"])` */
  function LoadRegistrant(v: Json, isIso: string -> bool): (r: Result<Registrant, LoadError>)
    ensures r.Ok? ==> RegistrantOk(r.value, isIso)
  {
    if !v.JObj? then Err(WrongType("registrants"))
    else match FetchAll(["name", "registered_at"], v.fields)
      case Err(e) => Err(e)
      case Ok(vs) =>
        if !vs[0].JStr? || !vs[1].JStr? then Err(WrongType("registrants"))
        else match NewRegistrant(vs[0].s, vs[1].s, isIso)
          case Err(msg) => Err(Invalid(msg))
          case Ok(reg) => Ok(reg)
  }

  /** The registrants of a record, loaded one after the other. */
  function LoadRegistrants(items: seq<Json>, isIso: string -> bool): (r: Result<seq<Registrant>, LoadError>)
    ensures r.Ok? ==> |r.value| == |items| && forall i :: 0 <= i < |items| ==> LoadRegistrant(items[i], isIso) == Ok(r.value[i])
    decreases |items|
  {
    if |items| == 0 then Ok([])
    else match LoadRegistrant(items[0], isIso)
      case Err(e) => Err(e)
      case Ok(reg) =>
        match LoadRegistrants(items[1..], isIso)
        case Err(e) => Err(e)
        case Ok(rest) =>
          assert forall i :: 1 <= i < |items| ==> items[i] == items[1..][i - 1];
          Ok([reg] + rest)
  }

  /** The keyword arguments of `Session(...)` read with `record[key]`, in order. */
  const SessionKeys: seq<string> := ["id", "title", "description", "date", "time", "location",
    "level", "tags", "learning_outcomes", "capacity", "registered"]

  /** How a loaded session's identity, date, time and counts sit in its record. */
  predicate Stored(rec: Record, s: Session) {
    "id" in rec && rec["id"] == JStr(s.id)
    && "date" in rec && rec["date"] == JStr(s.date)
    && "time" in rec && rec["time"] == JStr(s.time)
    && "capacity" in rec && IsInt(rec["capacity"]) && IntValue(rec["capacity"]) == s.capacity
    && "registered" in rec && IsInt(rec["registered"]) && IntValue(rec["registered"]) == s.registered
  }

  /** The `Session(...)` call once its keyword arguments are fetched: the
      values must have the JSON types the dataclass declares, then the
      constructor's own checks run. */
  function BuildSession(vs: seq<Json>, sp: Speaker, regs: seq<Registrant>, start: Json): (r: Result<Session, LoadError>)
    requires |vs| == |SessionKeys|
    ensures r.Ok? ==> SessionOk(r.value) && r.value.speaker == sp && r.value.registrants == regs
    ensures r.Ok? ==> vs[0] == JStr(r.value.id) && vs[3] == JStr(r.value.date) && vs[4] == JStr(r.value.time)
    ensures r.Ok? ==> IsInt(vs[9]) && IntValue(vs[9]) == r.value.capacity && IsInt(vs[10]) && IntValue(vs[10]) == r.value.registered
  {
    if !(vs[0].JStr? && vs[1].JStr? && vs[2].JStr? && vs[3].JStr? && vs[4].JStr? && vs[5].JStr?
         && vs[6].JStr? && vs[7].JList? && vs[8].JStr? && IsInt(vs[9]) && IsInt(vs[10]))
    then Err(WrongType("session"))
    else if !(start.JNull? || start.JStr?) then Err(WrongType("registration_start_date"))
    else match Texts(vs[7].items)
      case None => Err(WrongType("tags"))
      case Some(tags) =>
        var s := Session(vs[0].s, vs[1].s, vs[2].s, vs[3].s, vs[4].s, vs[5].s, vs[6].s, tags, vs[8].s,
                         IntValue(vs[9]), IntValue(vs[10]), sp, regs,
                         if start.JStr? then Some(start.s) else None);
        match NewSession(s)
        case Err(msg) => Err(Invalid(msg))
        case Ok(ok) => Ok(ok)
  }

  /** The registrants of a record: `record.get("registrants", [])`, loaded. */
  function LoadRecordRegistrants(rec: Record, isIso: string -> bool): (r: Result<seq<Registrant>, LoadError>)
    ensures r.Ok? ==> forall i :: 0 <= i < |r.value| ==> RegistrantOk(r.value[i], isIso)
  {
    var rd := if "registrants" in rec then rec["registrants"] else JList([]);
    if !rd.JList? then Err(WrongType("registrants")) else LoadRegistrants(rd.items, isIso)
  }

  /** The session's own fields of a record, fetched in keyword order and built. */
  function LoadSessionFields(rec: Record, sp: Speaker, regs: seq<Registrant>): (r: Result<Session, LoadError>)
    ensures r.Ok? ==> SessionOk(r.value) && r.value.speaker == sp && r.value.registrants == regs && Stored(rec, r.value)
  {
    match FetchAll(SessionKeys, rec)
    case Err(e) => Err(e)
    case Ok(vs) =>
      var start := if "registration_start_date" in rec then rec["registration_start_date"] else JNull;
      FetchedSessionFields(rec, vs);
      BuildSession(vs, sp, regs, start)
  }

  lemma FetchedSessionFields(rec: Record, vs: seq<Json>)
    requires FetchAll(SessionKeys, rec) == Ok(vs)
    ensures |vs| == |SessionKeys|
    ensures "id" in rec && vs[0] == rec["id"] && "date" in rec && vs[3] == rec["date"]
    ensures "time" in rec && vs[4] == rec["time"]
    ensures "capacity" in rec && vs[9] == rec["capacity"] && "registered" in rec && vs[10] == rec["registered"]
  {
    assert SessionKeys[0] == "id" && SessionKeys[3] == "date" && SessionKeys[4] == "time";
    assert SessionKeys[9] == "capacity" && SessionKeys[10] == "registered";
  }

  /** One record of the file as a `Session`: the speaker first, then the
      registrants, then the session's own fields, then its checks. */
  function LoadSession(rec: Record, isIso: string -> bool): (r: Result<Session, LoadError>)
    ensures r.Ok? ==> SessionOk(r.value) && SpeakerOk(r.value.speaker) && Stored(rec, r.value)
    ensures r.Ok? ==> forall i :: 0 <= i < |r.value.registrants| ==> RegistrantOk(r.value.registrants[i], isIso)
  {
    var sp := LoadSpeaker(rec);
    if sp.Err? then Err(sp.error)
    else
      var regs := LoadRecordRegistrants(rec, isIso);
      if regs.Err? then Err(regs.error)
      else LoadSessionFields(rec, sp.value, regs.value)
  }

  /** Every record loaded, in file order; the first failure is the result. */
  function LoadAll(recs: seq<Record>, isIso: string -> bool): (r: Result<seq<Session>, LoadError>)
    ensures r.Ok? ==> |r.value| == |recs|
    decreases |recs|
  {
    if |recs| == 0 then Ok([])
    else
      var init := LoadAll(recs[..|recs| - 1], isIso);
      if init.Err? then init
      else
        var last := LoadSession(recs[|recs| - 1], isIso);
        if last.Err? then Err(last.error) else Ok(init.value + [last.value])
  }

  /** Each loaded session is its own record, loaded. */
  lemma {:induction false} LoadAllEach(recs: seq<Record>, isIso: string -> bool, i: nat)
    requires LoadAll(recs, isIso).Ok? && i < |recs|
    ensures LoadSession(recs[i], isIso) == Ok(LoadAll(recs, isIso).value[i])
    decreases |recs|
  {
    var init := recs[..|recs| - 1];
    LoadAllLast(recs, isIso);
    if i < |recs| - 1 {
      LoadAllEach(init, isIso, i);
      assert init[i] == recs[i];
    }
  }

  lemma {:induction false} LoadAllLast(recs: seq<Record>, isIso: string -> bool)
    requires |recs| > 0 && LoadAll(recs, isIso).Ok?
    ensures var init := recs[..|recs| - 1]; var last := LoadSession(recs[|recs| - 1], isIso);
      LoadAll(init, isIso).Ok? && last.Ok? && LoadAll(recs, isIso).value == LoadAll(init, isIso).value + [last.value]
  {
  }

  /** Each loaded session carries the id, date, time and counts of its record. */
  lemma LoadAllStored(recs: seq<Record>, isIso: string -> bool, i: nat)
    requires LoadAll(recs, isIso).Ok? && i < |recs|
    ensures Stored(recs[i], LoadAll(recs, isIso).value[i])
  {
    LoadAllEach(recs, isIso, i);
  }

  /** A failure in a prefix is the failure of the whole list. */
  lemma {:induction false} LoadAllPrefixErr(recs: seq<Record>, i: nat, isIso: string -> bool)
    requires i <= |recs| && LoadAll(recs[..i], isIso).Err?
    ensures LoadAll(recs, isIso) == LoadAll(recs[..i], isIso)
    decreases |recs| - i
  {
    if i < |recs| {
      assert recs[..i + 1][..i] == recs[..i];
      LoadAllPrefixErr(recs, i + 1, isIso);
    } else {
      assert recs[..i] == recs;
    }
  }

  // ---------------------------------------------------------------------
  // Queries over the loaded sessions

  /** The position of the first session with the id, or the length. */
  function FirstWithId(all: seq<Session>, id: string): (k: nat)
    ensures k <= |all|
    ensures forall j :: 0 <= j < k ==> all[j].id != id
    ensures k < |all| ==> all[k].id == id
    decreases |all|
  {
    if |all| == 0 || all[0].id == id then 0 else 1 + FirstWithId(all[1..], id)
  }

  /** `get_session_by_id` on the loaded sessions: the first match or None. */
  function SessionById(all: seq<Session>, id: string): (r: Option<Session>)
    ensures r.None? <==> forall j :: 0 <= j < |all| ==> all[j].id != id
    ensures r.Some? ==> exists k :: 0 <= k < |all| && all[k] == r.value && r.value.id == id
                                   && forall j :: 0 <= j < k ==> all[j].id != id
  {
    var k := FirstWithId(all, id);
    if k < |all| then Some(all[k]) else None
  }

  /** The elements satisfying `keep`, in their original order (a list comprehension). */
  function Keep<T(!new)>(xs: seq<T>, keep: T -> bool): (r: seq<T>)
    ensures |r| <= |xs|
    decreases |xs|
  {
    if |xs| == 0 then [] else (if keep(xs[0]) then [xs[0]] else []) + Keep(xs[1..], keep)
  }

  /** The filter keeps every copy of a kept element and no copy of another. */
  lemma {:induction false} KeepCounts<T(!new)>(xs: seq<T>, keep: T -> bool)
    ensures forall x :: multiset(Keep(xs, keep))[x] == if keep(x) then multiset(xs)[x] else 0
    decreases |xs|
  {
    if |xs| > 0 {
      KeepCounts(xs[1..], keep);
      assert xs == [xs[0]] + xs[1..];
    }
  }

  /** `a` sorts strictly before `b` on the string key, ascending or descending. */
  predicate Precedes<T>(a: T, b: T, key: T -> string, descending: bool) {
    if descending then StrLess(key(b), key(a)) else StrLess(key(a), key(b))
  }

  lemma PrecedesTransitive<T>(a: T, b: T, c: T, key: T -> string, descending: bool)
    requires Precedes(a, b, key, descending) && Precedes(b, c, key, descending)
    ensures Precedes(a, c, key, descending)
  {
    if descending { StrLessTransitive(key(c), key(b), key(a)); } else { StrLessTransitive(key(a), key(b), key(c)); }
  }

  lemma PrecedesIrreflexive<T>(a: T, b: T, key: T -> string, descending: bool)
    requires key(a) == key(b)
    ensures !Precedes(a, b, key, descending)
  {
    StrLessIrreflexive(key(a));
  }

  /** No element comes after one it should precede. */
  predicate SortedBy<T>(xs: seq<T>, key: T -> string, descending: bool) {
    forall i, j :: 0 <= i < j < |xs| ==> !Precedes(xs[j], xs[i], key, descending)
  }

  /** One step of a stable insertion sort: `x` goes before the first element
      it strictly precedes, so after every element with an equal key. */
  function Insert<T>(x: T, ys: seq<T>, key: T -> string, descending: bool): (r: seq<T>)
    ensures multiset(r) == multiset(ys) + multiset{x}
    ensures |r| == |ys| + 1
    decreases |ys|
  {
    if |ys| == 0 then [x]
    else if Precedes(x, ys[0], key, descending) then [x] + ys
    else
      assert ys == [ys[0]] + ys[1..];
      [ys[0]] + Insert(x, ys[1..], key, descending)
  }

  /** `list.sort(key=key, reverse=descending)`: Python's sort is stable in
      both directions. */
  function SortBy<T>(xs: seq<T>, key: T -> string, descending: bool): (r: seq<T>)
    ensures multiset(r) == multiset(xs)
    decreases |xs|
  {
    if |xs| == 0 then []
    else
      assert xs == xs[..|xs| - 1] + [xs[|xs| - 1]];
      Insert(xs[|xs| - 1], SortBy(xs[..|xs| - 1], key, descending), key, descending)
  }

  /** Every element of `Insert(x, ys)` is `x` or an element of `ys`. */
  lemma InsertMembers<T>(x: T, ys: seq<T>, key: T -> string, descending: bool, j: nat)
    requires j < |ys| + 1
    ensures Insert(x, ys, key, descending)[j] == x || exists m :: 0 <= m < |ys| && ys[m] == Insert(x, ys, key, descending)[j]
  {
    var r := Insert(x, ys, key, descending);
    assert r[j] in multiset(r);
    if r[j] != x {
      assert r[j] in multiset(ys);
    }
  }

  /** Inserting in front of the first element that `x` precedes keeps the order. */
  lemma InsertFrontSorted<T>(x: T, ys: seq<T>, key: T -> string, descending: bool)
    requires |ys| > 0 && SortedBy(ys, key, descending) && Precedes(x, ys[0], key, descending)
    ensures SortedBy([x] + ys, key, descending)
  {
    var r := [x] + ys;
    forall i, j | 0 <= i < j < |r| ensures !Precedes(r[j], r[i], key, descending) {
      if i == 0 {
        assert r[j] == ys[j - 1];
        if Precedes(r[j], x, key, descending) {
          PrecedesTransitive(r[j], x, ys[0], key, descending);
          if j == 1 { PrecedesIrreflexive(ys[0], ys[0], key, descending); }
        }
      } else {
        assert r[i] == ys[i - 1] && r[j] == ys[j - 1];
      }
    }
  }

  lemma SortedTail<T>(ys: seq<T>, key: T -> string, descending: bool)
    requires |ys| > 0 && SortedBy(ys, key, descending)
    ensures SortedBy(ys[1..], key, descending)
  {
    var tail := ys[1..];
    forall i, j | 0 <= i < j < |tail| ensures !Precedes(tail[j], tail[i], key, descending) {
      assert tail[i] == ys[i + 1] && tail[j] == ys[j + 1];
    }
  }

  /** Putting `y` in front of a sorted list none of whose elements precede it. */
  lemma ConsSorted<T>(y: T, rest: seq<T>, key: T -> string, descending: bool)
    requires SortedBy(rest, key, descending)
    requires forall j :: 0 <= j < |rest| ==> !Precedes(rest[j], y, key, descending)
    ensures SortedBy([y] + rest, key, descending)
  {
    var r := [y] + rest;
    forall i, j | 0 <= i < j < |r| ensures !Precedes(r[j], r[i], key, descending) {
      if i == 0 {
        assert r[j] == rest[j - 1];
      } else {
        assert r[i] == rest[i - 1] && r[j] == rest[j - 1];
      }
    }
  }

  lemma {:induction false} InsertSorted<T>(x: T, ys: seq<T>, key: T -> string, descending: bool)
    requires SortedBy(ys, key, descending)
    ensures SortedBy(Insert(x, ys, key, descending), key, descending)
    decreases |ys|
  {
    if |ys| == 0 {
    } else if Precedes(x, ys[0], key, descending) {
      InsertFrontSorted(x, ys, key, descending);
    } else {
      var tail := ys[1..];
      SortedTail(ys, key, descending);
      InsertSorted(x, tail, key, descending);
      var rest := Insert(x, tail, key, descending);
      forall j | 0 <= j < |rest| ensures !Precedes(rest[j], ys[0], key, descending) {
        InsertMembers(x, tail, key, descending, j);
        if rest[j] != x {
          var m :| 0 <= m < |tail| && tail[m] == rest[j];
          assert ys[m + 1] == rest[j];
        }
      }
      ConsSorted(ys[0], rest, key, descending);
    }
  }

  lemma {:induction false} SortBySorted<T>(xs: seq<T>, key: T -> string, descending: bool)
    ensures SortedBy(SortBy(xs, key, descending), key, descending)
    decreases |xs|
  {
    if |xs| > 0 {
      SortBySorted(xs[..|xs| - 1], key, descending);
      InsertSorted(xs[|xs| - 1], SortBy(xs[..|xs| - 1], key, descending), key, descending);
    }
  }

  /** The elements whose key is `d`, in order. */
  function WithKey<T>(xs: seq<T>, key: T -> string, d: string): seq<T>
    decreases |xs|
  {
    if |xs| == 0 then [] else (if key(xs[0]) == d then [xs[0]] else []) + WithKey(xs[1..], key, d)
  }

  lemma {:induction false} WithKeyAppend<T>(xs: seq<T>, ys: seq<T>, key: T -> string, d: string)
    ensures WithKey(xs + ys, key, d) == WithKey(xs, key, d) + WithKey(ys, key, d)
    decreases |xs|
  {
    if |xs| > 0 {
      assert (xs + ys)[1..] == xs[1..] + ys;
      WithKeyAppend(xs[1..], ys, key, d);
    } else {
      assert xs + ys == ys;
    }
  }

  lemma {:induction false} WithKeyNone<T>(xs: seq<T>, key: T -> string, d: string)
    requires forall i :: 0 <= i < |xs| ==> key(xs[i]) != d
    ensures WithKey(xs, key, d) == []
    decreases |xs|
  {
    if |xs| > 0 { WithKeyNone(xs[1..], key, d); }
  }

  /** When `x` precedes the head of a sorted list, no element shares its key. */
  lemma NoneShareKey<T>(x: T, ys: seq<T>, key: T -> string, descending: bool)
    requires |ys| > 0 && SortedBy(ys, key, descending) && Precedes(x, ys[0], key, descending)
    ensures forall i :: 0 <= i < |ys| ==> key(ys[i]) != key(x)
  {
    StrLessIrreflexive(key(x));
  }

  lemma InsertStableFront<T>(x: T, ys: seq<T>, key: T -> string, descending: bool, d: string)
    requires |ys| > 0 && SortedBy(ys, key, descending) && Precedes(x, ys[0], key, descending)
    ensures WithKey([x] + ys, key, d) == WithKey(ys, key, d) + WithKey([x], key, d)
  {
    WithKeyAppend([x], ys, key, d);
    if key(x) == d {
      NoneShareKey(x, ys, key, descending);
      WithKeyNone(ys, key, d);
    }
  }

  lemma {:induction false} InsertStable<T>(x: T, ys: seq<T>, key: T -> string, descending: bool, d: string)
    requires SortedBy(ys, key, descending)
    ensures WithKey(Insert(x, ys, key, descending), key, d) == WithKey(ys, key, d) + WithKey([x], key, d)
    decreases |ys|
  {
    if |ys| == 0 {
      assert Insert(x, ys, key, descending) == [x];
    } else if Precedes(x, ys[0], key, descending) {
      InsertStableFront(x, ys, key, descending, d);
    } else {
      SortedTail(ys, key, descending);
      InsertStable(x, ys[1..], key, descending, d);
      InsertStableBehind(x, ys, key, descending, d);
    }
  }

  lemma {:induction false} InsertStableBehind<T>(x: T, ys: seq<T>, key: T -> string, descending: bool, d: string)
    requires |ys| > 0 && !Precedes(x, ys[0], key, descending)
    requires WithKey(Insert(x, ys[1..], key, descending), key, d) == WithKey(ys[1..], key, d) + WithKey([x], key, d)
    ensures WithKey(Insert(x, ys, key, descending), key, d) == WithKey(ys, key, d) + WithKey([x], key, d)
  {
    var rest := Insert(x, ys[1..], key, descending);
    assert Insert(x, ys, key, descending) == [ys[0]] + rest;
    WithKeyAppend([ys[0]], rest, key, d);
    WithKeyAppend([ys[0]], ys[1..], key, d);
    assert [ys[0]] + ys[1..] == ys;
    var w0, wt, wx := WithKey([ys[0]], key, d), WithKey(ys[1..], key, d), WithKey([x], key, d);
    assert w0 + (wt + wx) == (w0 + wt) + wx;
  }

  /** Stability: restricted to any one key, the sorted list is the input. */
  lemma {:induction false} SortByStable<T>(xs: seq<T>, key: T -> string, descending: bool, d: string)
    ensures WithKey(SortBy(xs, key, descending), key, d) == WithKey(xs, key, d)
    decreases |xs|
  {
    if |xs| > 0 {
      var init := xs[..|xs| - 1];
      SortByStable(init, key, descending, d);
      SortBySorted(init, key, descending);
      InsertStable(xs[|xs| - 1], SortBy(init, key, descending), key, descending, d);
      WithKeyAppend(init, [xs[|xs| - 1]], key, d);
      assert init + [xs[|xs| - 1]] == xs;
    }
  }

  function DateOf(s: Session): string { s.date }

  /** The query shape shared by the two listings: filter, stable sort,
      then `[:limit]`. */
  function FirstSorted<T(!new)>(xs: seq<T>, keep: T -> bool, key: T -> string, descending: bool, limit: int): (r: seq<T>)
    ensures forall x :: x in r ==> x in xs && keep(x)
    ensures SortedBy(r, key, descending)
    ensures limit >= 0 ==> |r| == if limit < |Keep(xs, keep)| then limit else |Keep(xs, keep)|
  {
    var kept := Keep(xs, keep);
    KeepCounts(xs, keep);
    var sorted := SortBy(kept, key, descending);
    SortBySorted(kept, key, descending);
    var r := PyTake(sorted, limit);
    PrefixSorted(sorted, SliceIndex(|sorted|, limit), key, descending);
    forall x | x in r ensures x in xs && keep(x) {
      assert x in sorted;
      assert x in multiset(kept);
    }
    r
  }

  /** A prefix of a sorted list is sorted and holds only its elements. */
  lemma PrefixSorted<T>(xs: seq<T>, n: nat, key: T -> string, descending: bool)
    requires n <= |xs| && SortedBy(xs, key, descending)
    ensures SortedBy(xs[..n], key, descending)
    ensures forall x :: x in xs[..n] ==> x in xs
  {
    var p := xs[..n];
    forall i, j | 0 <= i < j < |p| ensures !Precedes(p[j], p[i], key, descending) {
      assert p[i] == xs[i] && p[j] == xs[j];
    }
  }

  /** `get_past_sessions(limit)`: the sessions for which `isPast` holds (the
      session's `is_past` at the time of the call), latest date first, at
      most `limit` of them. */
  function PastSessions(all: seq<Session>, isPast: Session -> bool, limit: int): (r: seq<Session>)
    ensures forall s :: s in r ==> s in all && isPast(s)
    ensures SortedBy(r, DateOf, true)
    ensures limit >= 0 ==> |r| == if limit < |Keep(all, isPast)| then limit else |Keep(all, isPast)|
  {
    FirstSorted(all, isPast, DateOf, true, limit)
  }

  /** `get_upcoming_sessions(limit)`: the sessions for which `isPast` fails,
      earliest date first, at most `limit` of them. */
  function UpcomingSessions(all: seq<Session>, isPast: Session -> bool, limit: int): (r: seq<Session>)
    ensures forall s :: s in r ==> s in all && !isPast(s)
    ensures SortedBy(r, DateOf, false)
    ensures limit >= 0 ==> |r| == if limit < |Keep(all, s => !isPast(s))| then limit else |Keep(all, s => !isPast(s))|
  {
    FirstSorted(all, s => !isPast(s), DateOf, false, limit)
  }

  // ---------------------------------------------------------------------
  // Reading raw records

  /** An exception raised by an operation of the service. */
  datatype ServiceError =
    | LoadFailed(cause: LoadError)
    | SessionNotFound(msg: string)
    | RecordKeyError(key: string)
    | RecordTypeError(key: string)
    | ValidationFailed(failure: Validation.Failure)

  /** `record["id"] == session_id`, when the record has an id. */
  predicate HasId(rec: Record, id: string) {
    "id" in rec && rec["id"] == JStr(id)
  }

  /** Where a `for record in sessions: if record["id"] == session_id` loop
      stops: at the first match, at the first record without an id (a
      `KeyError`), or at the end. */
  function ScanIds(recs: seq<Record>, id: string): (k: nat)
    ensures k <= |recs|
    ensures forall j :: 0 <= j < k ==> "id" in recs[j] && !HasId(recs[j], id)
    ensures k < |recs| ==> "id" !in recs[k] || HasId(recs[k], id)
    decreases |recs|
  {
    if |recs| == 0 || "id" !in recs[0] || HasId(recs[0], id) then 0 else 1 + ScanIds(recs[1..], id)
  }

  /** The capacity re-check and `record["registered"] += 1` on the matched
      record: None when it is full, else the updated record. */
  function CountUpdate(rec: Record): (r: Result<Option<Record>, ServiceError>)
    ensures r.Ok? <==> "registered" in rec && "capacity" in rec && IsInt(rec["registered"]) && IsInt(rec["capacity"])
    ensures r.Ok? ==> (r.value.None? <==> IntValue(rec["registered"]) >= IntValue(rec["capacity"]))
    ensures r.Ok? && r.value.Some? ==>
              r.value.value == rec["registered" := JInt(IntValue(rec["registered"]) + 1)]
  {
    if "registered" !in rec then Err(RecordKeyError("registered"))
    else if "capacity" !in rec then Err(RecordKeyError("capacity"))
    else if !IsInt(rec["registered"]) || !IsInt(rec["capacity"]) then Err(RecordTypeError("registered"))
    else if IntValue(rec["registered"]) >= IntValue(rec["capacity"]) then Ok(None)
    else Ok(Some(rec["registered" := JInt(IntValue(rec["registered"]) + 1)]))
  }

  /** Every record stores the session at its position. */
  predicate StoredAll(recs: seq<Record>, all: seq<Session>) {
    |recs| == |all| && forall j :: 0 <= j < |recs| ==> Stored(recs[j], all[j])
  }

  /** A file that loads stores what it loads to. */
  lemma LoadAllStoredAll(recs: seq<Record>, isIso: string -> bool)
    requires LoadAll(recs, isIso).Ok?
    ensures StoredAll(recs, LoadAll(recs, isIso).value)
  {
    forall j | 0 <= j < |recs| ensures Stored(recs[j], LoadAll(recs, isIso).value[j]) {
      LoadAllStored(recs, isIso, j);
    }
  }

  /** Over records that store the sessions, the scan of the records stops
      at the first session with the id. */
  lemma ScanFindsLoaded(recs: seq<Record>, all: seq<Session>, id: string)
    requires StoredAll(recs, all)
    ensures ScanIds(recs, id) == FirstWithId(all, id)
  {
    forall j | 0 <= j < |recs| ensures "id" in recs[j] && (HasId(recs[j], id) <==> all[j].id == id) {
      assert Stored(recs[j], all[j]);
    }
  }

  /** When the session found is not full and the records store the sessions
      (no stale cache), the re-check passes and the update adds one to the
      count of that record. */
  lemma RegisterCountUpdatesLoaded(recs: seq<Record>, all: seq<Session>, id: string)
    requires StoredAll(recs, all)
    requires FirstWithId(all, id) < |all| && !IsFull(all[FirstWithId(all, id)])
    ensures ScanIds(recs, id) == FirstWithId(all, id)
    ensures var k := FirstWithId(all, id);
            CountUpdate(recs[k]) == Ok(Some(recs[k]["registered" := JInt(all[k].registered + 1)]))
  {
    ScanFindsLoaded(recs, all, id);
    var k := FirstWithId(all, id);
    assert Stored(recs[k], all[k]);
    CountUpdateOfStored(recs[k], all[k]);
  }

  /** The file half of `register_for_session` on the records `recs`: the
      answer and the records written back.  A record without an id stops
      the scan with a `KeyError`; when no record matches, the file is saved
      unchanged and the answer is still success. */
  function CountInFileOutcome(recs: seq<Record>, id: string): (o: (Result<(bool, string), ServiceError>, seq<Record>))
    ensures |o.1| == |recs|
    ensures forall j :: 0 <= j < |recs| && j != ScanIds(recs, id) ==> o.1[j] == recs[j]
  {
    var k := ScanIds(recs, id);
    if k == |recs| then (Ok((true, CountedMessage)), recs)
    else if "id" !in recs[k] then (Err(RecordKeyError("id")), recs)
    else match CountUpdate(recs[k])
      case Err(e) => (Err(e), recs)
      case Ok(None) => (Ok((false, FullMessage)), recs)
      case Ok(Some(rec)) => (Ok((true, CountedMessage)), recs[k := rec])
  }

  const CountedMessage: string := "報名成功！"
  const FullMessage: string := "此議程已額滿，無法報名"
  const PastMessage: string := "此議程已過期，無法報名"

  /** `session_service.register_for_session(session_id)` as a function of
      what `get_all_sessions` answers (`current`), the records and the clock:
      an expired or a full session is refused before the file is read. */
  function RegisterCountOutcome(current: Result<seq<Session>, LoadError>, recs: seq<Record>, id: string, now: DateTime)
    : (o: (Result<(bool, string), ServiceError>, seq<Record>))
    ensures o.0.Ok? && !o.0.value.0 ==> o.1 == recs
    ensures o.0.Err? ==> o.1 == recs
  {
    if current.Err? then (Err(LoadFailed(current.error)), recs)
    else match SessionById(current.value, id)
      case None => (Err(SessionNotFound("找不到議程: " + id)), recs)
      case Some(s) =>
        if IsPast(s, now) then (Ok((false, PastMessage)), recs)
        else if IsFull(s) then (Ok((false, FullMessage)), recs)
        else CountInFileOutcome(recs, id)
  }

  /** Over records that store the loaded sessions, a session that is found,
      not expired and not full is counted: exactly its record gains one. */
  lemma RegisterCountSucceeds(recs: seq<Record>, all: seq<Session>, id: string, now: DateTime)
    requires StoredAll(recs, all)
    requires SessionById(all, id).Some?
    requires var s := SessionById(all, id).value; !IsPast(s, now) && !IsFull(s)
    ensures var k := FirstWithId(all, id);
      RegisterCountOutcome(Ok(all), recs, id, now)
        == (Ok((true, CountedMessage)), recs[k := recs[k]["registered" := JInt(all[k].registered + 1)]])
  {
    RegisterCountUpdatesLoaded(recs, all, id);
    var k := FirstWithId(all, id);
    assert Stored(recs[k], all[k]);
  }

  /** A count never takes a record past its capacity, and the counted
      record keeps every other field. */
  lemma CountWithinCapacity(recs: seq<Record>, id: string)
    requires CountInFileOutcome(recs, id).0 == Ok((true, CountedMessage))
    requires ScanIds(recs, id) < |recs|
    ensures var k := ScanIds(recs, id); var rec := CountInFileOutcome(recs, id).1[k];
      "capacity" in rec && IsInt(rec["capacity"]) && IsInt(rec["registered"])
      && IntValue(rec["registered"]) <= IntValue(rec["capacity"])
      && IntValue(rec["registered"]) == IntValue(recs[k]["registered"]) + 1
      && rec.Keys == recs[k].Keys
      && forall key :: key in rec && key != "registered" ==> rec[key] == recs[k][key]
  {
  }

  /** `n` counts in a row on the same records. */
  function CountTimes(recs: seq<Record>, id: string, n: nat): seq<Record>
    decreases n
  {
    if n == 0 then recs else CountTimes(CountInFileOutcome(recs, id).1, id, n - 1)
  }

  /** Filling a session: a matched record with `registered` seats taken out
      of `capacity` accepts exactly `capacity - registered` more counts, each
      a success, and then refuses with the full message. */
  lemma {:induction false} FillsToCapacity(recs: seq<Record>, id: string, n: nat)
    requires ScanIds(recs, id) < |recs| && HasId(recs[ScanIds(recs, id)], id)
    requires var rec := recs[ScanIds(recs, id)];
      "registered" in rec && "capacity" in rec && rec["registered"].JInt? && rec["capacity"].JInt?
      && rec["registered"].i + n == rec["capacity"].i
    ensures var k := ScanIds(recs, id); var after := CountTimes(recs, id, n);
      ScanIds(after, id) == k && |after| == |recs|
      && after[k] == recs[k]["registered" := JInt(recs[k]["capacity"].i)]
      && CountInFileOutcome(after, id) == (Ok((false, FullMessage)), after)
    decreases n
  {
    var k := ScanIds(recs, id);
    if n > 0 {
      var next := CountInFileOutcome(recs, id).1;
      assert next[k] == recs[k]["registered" := JInt(recs[k]["registered"].i + 1)];
      ScanIdsSameIds(recs, next, id, k);
      FillsToCapacity(next, id, n - 1);
    }
  }

  /** Replacing the matched record by another with the id leaves the scan
      where it was. */
  lemma ScanIdsSameIds(recs: seq<Record>, next: seq<Record>, id: string, k: nat)
    requires k == ScanIds(recs, id) < |recs| && |next| == |recs|
    requires forall j :: 0 <= j < |recs| && j != k ==> next[j] == recs[j]
    requires HasId(next[k], id)
    ensures ScanIds(next, id) == k
  {
    ScanUnique(next, id, k);
  }

  /** The re-check of a record that stores a session with a free seat. */
  lemma CountUpdateOfStored(rec: Record, s: Session)
    requires Stored(rec, s) && !IsFull(s)
    ensures CountUpdate(rec) == Ok(Some(rec["registered" := JInt(s.registered + 1)]))
  {
  }

  /** The number after "session_" in an id, when `int()` accepts the text
      between the first and the second underscore. */
  function SuffixNumber(id: string): Option<int> {
    if StartsWith(id, "session_") then
      SessionPrefixSplit(id);
      ParseInt(Split(id, '_')[1])
    else None
  }

  lemma SessionPrefixSplit(id: string)
    requires StartsWith(id, "session_")
    ensures Split(id, '_') == ["session"] + Split(id[8..], '_')
  {
    assert id == "session" + ['_'] + id[8..];
    SplitAfterFirst("session", '_', id[8..]);
  }

  /** `record.get("id", "")`, which must be a string for `startswith`. */
  function IdText(rec: Record): Result<string, ServiceError> {
    if "id" !in rec then Ok("")
    else if rec["id"].JStr? then Ok(rec["id"].s)
    else Err(RecordTypeError("id"))
  }

  /** `max_id` after the loop of `create_session` over `recs`. */
  function MaxSuffix(recs: seq<Record>): (r: Result<nat, ServiceError>)
    ensures r.Ok? ==> forall j :: 0 <= j < |recs| ==> IdText(recs[j]).Ok?
    ensures r.Ok? ==> forall j, n :: 0 <= j < |recs| && SuffixNumber(IdText(recs[j]).value) == Some(n) ==> n <= r.value
    decreases |recs|
  {
    if |recs| == 0 then Ok(0)
    else
      var init := MaxSuffix(recs[..|recs| - 1]);
      var last := IdText(recs[|recs| - 1]);
      if init.Err? then init
      else if last.Err? then Err(last.error)
      else
        assert forall j :: 0 <= j < |recs| - 1 ==> recs[..|recs| - 1][j] == recs[j];
        match SuffixNumber(last.value)
        case Some(n) => Ok(if n > init.value then n else init.value)
        case None => init
  }

  /** "session_" followed by the number, zero-padded to three digits. */
  function NewId(n: nat): string {
    "session_" + ZeroPad(n, 3)
  }

  /** The number of a generated id reads back. */
  lemma NewIdSuffix(n: nat)
    ensures SuffixNumber(NewId(n)) == Some(n)
  {
    var z := ZeroPad(n, 3);
    var id := NewId(n);
    assert id[8..] == z;
    assert StartsWith(id, "session_");
    SessionPrefixSplit(id);
    assert '_' !in z by {
      forall i | 0 <= i < |z| ensures z[i] != '_' { assert IsAsciiDigit(z[i]); }
    }
    SplitNoSep(z, '_');
    ParseIntDigits(z);
    ZeroPadValue(n, 3);
  }

  /** The generated id is the id of no record in the file. */
  lemma GeneratedIdIsFresh(recs: seq<Record>)
    requires MaxSuffix(recs).Ok?
    ensures forall j :: 0 <= j < |recs| ==> !HasId(recs[j], NewId(MaxSuffix(recs).value + 1))
  {
    var m := MaxSuffix(recs).value;
    NewIdSuffix(m + 1);
  }

  /** `{"id": new_id, "registered": 0, **payload}`: the payload wins. */
  function CreatedRecord(newId: string, payload: Record): (m: Record)
    ensures m.Keys == payload.Keys + {"id", "registered"}
    ensures forall k :: k in payload ==> m[k] == payload[k]
    ensures "id" !in payload ==> m["id"] == JStr(newId)
    ensures "registered" !in payload ==> m["registered"] == JInt(0)
  {
    map["id" := JStr(newId), "registered" := JInt(0)] + payload
  }

  /** `session_data[key] = value` for every key of `updates` but "id". */
  function Updated(rec: Record, updates: Record): (m: Record)
    ensures m.Keys == rec.Keys + (updates.Keys - {"id"})
    ensures "id" in rec ==> m["id"] == rec["id"]
    ensures forall k :: k in updates && k != "id" ==> m[k] == updates[k]
    ensures forall k :: k in rec && k !in updates ==> m[k] == rec[k]
  {
    rec + (updates - {"id"})
  }

  /** What `create_session` does: the new id and the record appended, or
      the exception. The record is the payload over the generated id and a
      zero count; it validates, and when the payload carries no id of its
      own, its id is the id of no earlier record. */
  function CreateOutcome(recs: seq<Record>, payload: Record, validate: Json -> Validation.Check): (r: Result<(string, Record), ServiceError>)
    ensures MaxSuffix(recs).Err? ==> r == Err(MaxSuffix(recs).error)
    ensures r.Ok? ==> MaxSuffix(recs).Ok? && r.value.0 == NewId(MaxSuffix(recs).value + 1)
    ensures r.Ok? ==> r.value.1 == CreatedRecord(r.value.0, payload) && validate(JObj(r.value.1)).Ok?
    ensures r.Ok? && "id" !in payload ==> forall j :: 0 <= j < |recs| ==> !HasId(recs[j], r.value.1["id"].s)
    ensures MaxSuffix(recs).Ok? && r.Err? ==>
      var rec := CreatedRecord(NewId(MaxSuffix(recs).value + 1), payload);
      validate(JObj(rec)).Err? && r.error == ValidationFailed(validate(JObj(rec)).error)
  {
    var m := MaxSuffix(recs);
    if m.Err? then Err(m.error)
    else
      var newId := NewId(m.value + 1);
      var rec := CreatedRecord(newId, payload);
      var check := validate(JObj(rec));
      if check.Err? then Err(ValidationFailed(check.error))
      else
        GeneratedIdIsFresh(recs);
        Ok((newId, rec))
  }

  /** What `update_session` does: the new list of records, or the exception.
      The updated record passes `validate` and keeps its id. */
  function UpdateOutcome(recs: seq<Record>, id: string, updates: Record, validate: Json -> Validation.Check): (r: Result<seq<Record>, ServiceError>)
    ensures ScanIds(recs, id) == |recs| ==> r == Err(SessionNotFound("找不到議程: " + id))
    ensures ScanIds(recs, id) < |recs| && "id" !in recs[ScanIds(recs, id)] ==> r == Err(RecordKeyError("id"))
    ensures r.Ok? ==>
      var k := ScanIds(recs, id);
      k < |recs| && HasId(recs[k], id) && r.value == recs[k := Updated(recs[k], updates)]
      && HasId(r.value[k], id) && validate(JObj(r.value[k])).Ok?
    ensures r.Err? && ScanIds(recs, id) < |recs| && HasId(recs[ScanIds(recs, id)], id) ==>
      var rec := Updated(recs[ScanIds(recs, id)], updates);
      validate(JObj(rec)).Err? && r.error == ValidationFailed(validate(JObj(rec)).error)
  {
    var k := ScanIds(recs, id);
    if k == |recs| then Err(SessionNotFound("找不到議程: " + id))
    else if "id" !in recs[k] then Err(RecordKeyError("id"))
    else
      var rec := Updated(recs[k], updates);
      var check := validate(JObj(rec));
      if check.Err? then Err(ValidationFailed(check.error)) else Ok(recs[k := rec])
  }

  /** With the validator of the service, a created record is a valid session. */
  lemma CreatedIsValid(recs: seq<Record>, payload: Record)
    requires CreateOutcome(recs, payload, Validation.ValidateSession).Ok?
    ensures Validation.SessionValid(JObj(CreateOutcome(recs, payload, Validation.ValidateSession).value.1))
  {
  }

  /** With the validator of the service, an updated record is a valid session. */
  lemma UpdatedIsValid(recs: seq<Record>, id: string, updates: Record)
    requires UpdateOutcome(recs, id, updates, Validation.ValidateSession).Ok?
    ensures var r := UpdateOutcome(recs, id, updates, Validation.ValidateSession).value;
      Validation.SessionValid(JObj(r[ScanIds(recs, id)]))
  {
  }

  /** The test of the comprehension in `delete_session`: `s.get("id") != session_id`. */
  predicate KeepsRecord(rec: Record, id: string) {
    !HasId(rec, id)
  }

  /** Deletion changes the number of records exactly when some record has the id. */
  lemma {:induction false} DeleteShrinks(recs: seq<Record>, id: string)
    ensures |Keep(recs, r => KeepsRecord(r, id))| == |recs| <==> forall j :: 0 <= j < |recs| ==> !HasId(recs[j], id)
  {
    var keep := r => KeepsRecord(r, id);
    KeepAllLength(recs, keep);
    assert forall j :: 0 <= j < |recs| ==> (keep(recs[j]) <==> !HasId(recs[j], id));
  }

  /** A filter keeps the length exactly when it keeps every element. */
  lemma {:induction false} KeepAllLength<T(!new)>(xs: seq<T>, keep: T -> bool)
    ensures |Keep(xs, keep)| == |xs| <==> forall j :: 0 <= j < |xs| ==> keep(xs[j])
  {
    if forall j :: 0 <= j < |xs| ==> keep(xs[j]) {
      KeepAllKept(xs, keep);
    } else {
      var j :| 0 <= j < |xs| && !keep(xs[j]);
      KeepDropShorter(xs, keep, j);
    }
  }

  lemma {:induction false} KeepAllKept<T(!new)>(xs: seq<T>, keep: T -> bool)
    requires forall j :: 0 <= j < |xs| ==> keep(xs[j])
    ensures Keep(xs, keep) == xs
    decreases |xs|
  {
    if |xs| > 0 {
      var rest := xs[1..];
      assert forall j :: 0 <= j < |rest| ==> rest[j] == xs[j + 1];
      KeepAllKept(rest, keep);
      assert Keep(xs, keep) == [xs[0]] + Keep(rest, keep);
      assert [xs[0]] + rest == xs;
    }
  }

  lemma {:induction false} KeepDropShorter<T(!new)>(xs: seq<T>, keep: T -> bool, j: nat)
    requires j < |xs| && !keep(xs[j])
    ensures |Keep(xs, keep)| < |xs|
    decreases |xs|
  {
    if j > 0 {
      assert xs[1..][j - 1] == xs[j];
      KeepDropShorter(xs[1..], keep, j - 1);
    }
  }

  // ---------------------------------------------------------------------
  // The store

  /** The sessions file and the module-level cache `_sessions_cache`. */
  class SessionStore {
    var records: seq<Record>
    var cache: Option<seq<Session>>
    /** `datetime.fromisoformat`'s acceptance, used by `Registrant`. */
    const isIso: string -> bool
    /** `validate_session`, which create and update call. */
    const validate: Json -> Validation.Check

    /** A filled cache holds what the file loads to. */
    ghost predicate Valid()
      reads this
    {
      cache.Some? ==> LoadAll(records, isIso) == Ok(cache.value)
    }

    /** What `get_all_sessions` answers: the cache, or the file loaded. */
    function Current(): Result<seq<Session>, LoadError>
      reads this
    {
      if cache.Some? then Ok(cache.value) else LoadAll(records, isIso)
    }

    constructor (initial: seq<Record>, isIso: string -> bool)
      ensures records == initial && cache == None && this.isIso == isIso
      ensures validate == Validation.ValidateSession
      ensures Valid()
    {
      records := initial;
      cache := None;
      this.isIso := isIso;
      validate := Validation.ValidateSession;
    }

    /** `_clear_cache()` */
    method ClearCache()
      modifies this
      ensures records == old(records) && cache == None
      ensures Valid()
    {
      cache := None;
    }

    /** The loop of `load_sessions`: every record loaded, in order, up to
        the first that fails. */
    method LoadRecords() returns (r: Result<seq<Session>, LoadError>)
      ensures r == LoadAll(records, isIso)
    {
      var sessions: seq<Session> := [];
      var i := 0;
      while i < |records|
        invariant 0 <= i <= |records|
        invariant LoadAll(records[..i], isIso) == Ok(sessions)
      {
        var s := LoadSession(records[i], isIso);
        LoadAllStep(records, i, isIso, sessions);
        if s.Err? {
          return Err(s.error);
        }
        sessions := sessions + [s.value];
        i := i + 1;
      }
      assert records[..i] == records;
      return Ok(sessions);
    }

    /** `get_all_sessions()`: the cache when filled; otherwise the file
        loaded, and the cache filled only when every record loads. */
    method GetAllSessions() returns (r: Result<seq<Session>, LoadError>)
      modifies this
      ensures r == old(Current())
      ensures records == old(records)
      ensures cache == if old(cache).Some? then old(cache) else if r.Ok? then Some(r.value) else None
      ensures old(Valid()) ==> Valid()
    {
      if cache.Some? {
        return Ok(cache.value);
      }
      r := LoadRecords();
      if r.Ok? {
        cache := Some(r.value);
      }
    }

    /** `get_session_by_id(session_id)` */
    method GetSessionById(id: string) returns (r: Result<Option<Session>, LoadError>)
      modifies this
      ensures old(Current()).Err? ==> r == Err(old(Current()).error)
      ensures old(Current()).Ok? ==> r == Ok(SessionById(old(Current()).value, id))
      ensures records == old(records)
      ensures old(Valid()) ==> Valid()
    {
      var all := GetAllSessions();
      if all.Err? {
        return Err(all.error);
      }
      return Ok(SessionById(all.value, id));
    }

    /** The scan of a `for` loop over the records for the id. */
    method FindRecord(id: string) returns (k: nat)
      ensures k == ScanIds(records, id)
    {
      k := 0;
      while k < |records| && "id" in records[k] && !HasId(records[k], id)
        invariant k <= |records|
        invariant forall j :: 0 <= j < k ==> "id" in records[j] && !HasId(records[j], id)
      {
        k := k + 1;
      }
      ScanUnique(records, id, k);
    }

    /** `session_service.register_for_session(session_id)`: refuses an
        expired or a full session, otherwise re-checks the matched record of
        the file and adds one to its count, as `RegisterCountOutcome` says.
        `now` is the clock reading. */
    method RegisterCount(id: string, now: DateTime) returns (r: Result<(bool, string), ServiceError>)
      modifies this
      ensures (r, records) == RegisterCountOutcome(old(Current()), old(records), id, now)
      ensures r == Ok((true, CountedMessage)) ==> cache == None
      ensures old(Valid()) ==> Valid()
    {
      var found := GetSessionById(id);
      if found.Err? {
        return Err(LoadFailed(found.error));
      }
      if found.value.None? {
        return Err(SessionNotFound("找不到議程: " + id));
      }
      var s := found.value.value;
      if IsPast(s, now) {
        return Ok((false, PastMessage));
      }
      if IsFull(s) {
        return Ok((false, FullMessage));
      }
      r := CountInFile(id);
    }

    /** The file half of `register_for_session`: re-check the matched record
        and add one to its count, clearing the cache on success, as
        `CountInFileOutcome` says. */
    method CountInFile(id: string) returns (r: Result<(bool, string), ServiceError>)
      modifies this
      ensures (r, records) == CountInFileOutcome(old(records), id)
      ensures cache == if r == Ok((true, CountedMessage)) then None else old(cache)
      ensures old(Valid()) ==> Valid()
    {
      var k := FindRecord(id);
      if k < |records| {
        if "id" !in records[k] {
          return Err(RecordKeyError("id"));
        }
        var upd := CountUpdate(records[k]);
        if upd.Err? {
          return Err(upd.error);
        }
        if upd.value.None? {
          return Ok((false, FullMessage));
        }
        records := records[k := upd.value.value];
      }
      cache := None;
      return Ok((true, CountedMessage));
    }

    /** The loop of `create_session` that finds the largest numeric suffix. */
    method MaxRecordSuffix() returns (r: Result<nat, ServiceError>)
      ensures r == MaxSuffix(records)
    {
      var maxId: nat := 0;
      var i := 0;
      while i < |records|
        invariant 0 <= i <= |records|
        invariant MaxSuffix(records[..i]) == Ok(maxId)
      {
        var t := IdText(records[i]);
        MaxSuffixStep(records, i, maxId);
        if t.Err? {
          return Err(t.error);
        }
        var n := SuffixNumber(t.value);
        if n.Some? && n.value > maxId {
          maxId := n.value;
        }
        i := i + 1;
      }
      assert records[..i] == records;
      return Ok(maxId);
    }

    /** `create_session(session_data)`: the file with the new record
        appended, as `CreateOutcome` computes it. */
    method CreateSession(payload: Record) returns (r: Result<string, ServiceError>)
      modifies this
      ensures var o := CreateOutcome(old(records), payload, validate);
        (o.Err? ==> r == Err(o.error) && records == old(records) && cache == old(cache))
        && (o.Ok? ==> r == Ok(o.value.0) && records == old(records) + [o.value.1] && cache == None)
      ensures old(Valid()) ==> Valid()
    {
      var maxId := MaxRecordSuffix();
      if maxId.Err? {
        return Err(maxId.error);
      }
      var newId := NewId(maxId.value + 1);
      var rec := CreatedRecord(newId, payload);
      var check := validate(JObj(rec));
      if check.Err? {
        return Err(ValidationFailed(check.error));
      }
      records := records + [rec];
      cache := None;
      return Ok(newId);
    }

    /** `update_session(session_id, updates)`: the file with the matched
        record updated, as `UpdateOutcome` computes it. */
    method UpdateSession(id: string, updates: Record) returns (r: Result<bool, ServiceError>)
      modifies this
      ensures var o := UpdateOutcome(old(records), id, updates, validate);
        (o.Err? ==> r == Err(o.error) && records == old(records) && cache == old(cache))
        && (o.Ok? ==> r == Ok(true) && records == o.value && cache == None)
      ensures old(Valid()) ==> Valid()
    {
      var k := FindRecord(id);
      if k == |records| {
        return Err(SessionNotFound("找不到議程: " + id));
      }
      if "id" !in records[k] {
        return Err(RecordKeyError("id"));
      }
      var rec := Updated(records[k], updates);
      var check := validate(JObj(rec));
      if check.Err? {
        return Err(ValidationFailed(check.error));
      }
      records := records[k := rec];
      cache := None;
      return Ok(true);
    }

    /** `delete_session(session_id)`: every record with the id removed;
        false, with nothing changed, when there was none. */
    method DeleteSession(id: string) returns (r: bool)
      modifies this
      ensures r <==> exists j :: 0 <= j < |old(records)| && HasId(old(records)[j], id)
      ensures !r ==> records == old(records) && cache == old(cache)
      ensures r ==> records == Keep(old(records), rec => KeepsRecord(rec, id)) && cache == None
      ensures forall j :: 0 <= j < |records| ==> !HasId(records[j], id)
      ensures old(Valid()) ==> Valid()
    {
      var kept := Keep(records, rec => KeepsRecord(rec, id));
      KeepCounts(records, rec => KeepsRecord(rec, id));
      DeleteShrinks(records, id);
      forall j | 0 <= j < |kept| ensures !HasId(kept[j], id) {
        assert kept[j] in multiset(kept);
      }
      if |kept| == |records| {
        return false;
      }
      records := kept;
      cache := None;
      return true;
    }
  }

  /** The loop's exit test and the scan agree. */
  lemma {:induction false} ScanUnique(recs: seq<Record>, id: string, k: nat)
    requires k <= |recs|
    requires forall j :: 0 <= j < k ==> "id" in recs[j] && !HasId(recs[j], id)
    requires k < |recs| ==> "id" !in recs[k] || HasId(recs[k], id)
    ensures k == ScanIds(recs, id)
    decreases k
  {
    if k > 0 {
      ScanUnique(recs[1..], id, k - 1);
    }
  }

  /** A failure in a prefix is the failure of the whole loop. */
  lemma {:induction false} MaxSuffixPrefixErr(recs: seq<Record>, i: nat)
    requires i <= |recs| && MaxSuffix(recs[..i]).Err?
    ensures MaxSuffix(recs) == MaxSuffix(recs[..i])
    decreases |recs| - i
  {
    if i < |recs| {
      assert recs[..i + 1][..i] == recs[..i];
      MaxSuffixPrefixErr(recs, i + 1);
    } else {
      assert recs[..i] == recs;
    }
  }

  /** One step of the loading loop. */
  lemma {:induction false} LoadAllStep(recs: seq<Record>, i: nat, isIso: string -> bool, sessions: seq<Session>)
    requires i < |recs| && LoadAll(recs[..i], isIso) == Ok(sessions)
    ensures LoadSession(recs[i], isIso).Err? ==> LoadAll(recs, isIso) == Err(LoadSession(recs[i], isIso).error)
    ensures LoadSession(recs[i], isIso).Ok? ==> LoadAll(recs[..i + 1], isIso) == Ok(sessions + [LoadSession(recs[i], isIso).value])
  {
    assert recs[..i + 1][..i] == recs[..i];
    if LoadSession(recs[i], isIso).Err? {
      LoadAllPrefixErr(recs, i + 1, isIso);
    }
  }

  /** One step of the suffix loop. */
  lemma {:induction false} MaxSuffixStep(recs: seq<Record>, i: nat, m: nat)
    requires i < |recs| && MaxSuffix(recs[..i]) == Ok(m)
    ensures IdText(recs[i]).Err? ==> MaxSuffix(recs) == Err(IdText(recs[i]).error)
    ensures IdText(recs[i]).Ok? ==> MaxSuffix(recs[..i + 1]) == Ok(
      match SuffixNumber(IdText(recs[i]).value)
      case Some(n) => if n > m then n else m
      case None => m)
  {
    assert recs[..i + 1][..i] == recs[..i];
    if IdText(recs[i]).Err? {
      MaxSuffixPrefixErr(recs, i + 1);
    }
  }
}
