/**
  Attendee registration: a named attendee is appended to a session's
  `registrants` list and the `registered` count is re-synchronised with the
  list's length; an attendee can be removed again by position.  Both work
  on the records of the session store and clear its cache.  The name check
  `validate_name` and the business rule `Session.can_register` are defined
  outside the modelled code: they are parameters here.
 */
module RegistrationService {
  import opened Wrappers
  import opened Records
  import opened SessionModel
  import opened SessionService

  const Registered: string := "報名成功"
  const NoSession: string := "找不到議程"
  const NoRegistrant: string := "找不到報名紀錄"
  const Unexpected: string := "發生未預期的錯誤"
  const DefaultName: string := "報名者"

  /** `registered == len(registrants)`, with `registrants` a list. */
  predicate CountInSync(rec: Record) {
    "registrants" in rec && rec["registrants"].JList?
    && "registered" in rec && rec["registered"] == JInt(|rec["registrants"].items|)
  }

  /** The registrants of a record, `[]` when it has none yet. */
  function RegistrantsOf(rec: Record): Json {
    if "registrants" in rec then rec["registrants"] else JList([])
  }

  /** `{"name": name, "registered_at": stamp}` */
  function Entry(name: string, stamp: string): Json {
    JObj(map["name" := JStr(name), "registered_at" := JStr(stamp)])
  }

  /** The in-place update of the matched record: the entry appended to the
      registrants and the count set to their number; None when the stored
      registrants are not a list (`append` raises). */
  function AddRegistrant(rec: Record, name: string, stamp: string): (r: Option<Record>)
    ensures r.Some? <==> RegistrantsOf(rec).JList?
    ensures r.Some? ==> CountInSync(r.value)
    ensures r.Some? ==> r.value["registrants"].items == RegistrantsOf(rec).items + [Entry(name, stamp)]
    ensures r.Some? ==> r.value.Keys == rec.Keys + {"registrants", "registered"}
    ensures r.Some? ==> forall k :: k in rec && k != "registrants" && k != "registered" ==> r.value[k] == rec[k]
  {
    var regs := RegistrantsOf(rec);
    if !regs.JList? then None
    else
      var items := regs.items + [Entry(name, stamp)];
      Some(rec["registrants" := JList(items)]["registered" := JInt(|items|)])
  }

  /** `len(v)` for the JSON values that have one. */
  function Len(v: Json): Option<nat> {
    match v
    case JStr(s) => Some(|s|)
    case JList(xs) => Some(|xs|)
    case JObj(m) => Some(|m|)
    case _ => None
  }

  /** The outcome of `registrants.pop(index)` on the matched record: the
      record with that one entry gone and the count re-synchronised, with
      the removed entry; or the message returned with nothing changed. */
  function RemoveAt(rec: Record, index: nat): (r: Result<(Record, Json), string>)
    ensures r.Ok? ==> RegistrantsOf(rec).JList? && index < |RegistrantsOf(rec).items|
    ensures r.Ok? ==> r.value.0.Keys == rec.Keys + {"registrants", "registered"}
    ensures r.Ok? ==>
      var items := RegistrantsOf(rec).items;
      r.value.0["registrants"].JList?
      && r.value.0["registrants"].items == items[..index] + items[index + 1..]
      && r.value.1 == items[index]
      && CountInSync(r.value.0)
    ensures r.Ok? ==> forall k :: k in rec && k != "registrants" && k != "registered" ==> r.value.0[k] == rec[k]
    ensures Len(RegistrantsOf(rec)).Some? && index >= Len(RegistrantsOf(rec)).value ==> r == Err(NoRegistrant)
    ensures r.Err? ==> r.error == NoRegistrant || r.error == Unexpected
  {
    var regs := RegistrantsOf(rec);
    var n := Len(regs);
    if n.None? then Err(Unexpected)
    else if index >= n.value then Err(NoRegistrant)
    else if !regs.JList? then Err(Unexpected)
    else
      var items := regs.items[..index] + regs.items[index + 1..];
      Ok((rec["registrants" := JList(items)]["registered" := JInt(|items|)], regs.items[index]))
  }

  /** `str(v)` for a string, integer, boolean or null name; a float, list or
      object name is outside the model and gives the empty text. */
  function NameText(v: Json): string {
    match v
    case JStr(s) => s
    case JInt(_) => IntText(v)
    case JBool(_) => IntText(v)
    case JNull => "None"
    case _ => ""
  }

  /** `removed.get("name", "報名者")` in the success message; an entry that is
      not an object makes `get` raise after the record was already saved. */
  function RemovedMessage(removed: Json): (r: (bool, string))
    ensures r.0 <==> removed.JObj?
    ensures removed.JObj? && "name" !in removed.fields ==> r.1 == "已移除 " + DefaultName
    ensures removed.JObj? && "name" in removed.fields && removed.fields["name"].JStr? ==>
      r.1 == "已移除 " + removed.fields["name"].s
  {
    if !removed.JObj? then (false, Unexpected)
    else if "name" in removed.fields then (true, "已移除 " + NameText(removed.fields["name"]))
    else (true, "已移除 " + DefaultName)
  }

  /** Removing the entry just added restores the registrants and the count
      of a record whose count was in sync. */
  lemma AddThenRemove(rec: Record, name: string, stamp: string)
    requires CountInSync(rec)
    ensures var added := AddRegistrant(rec, name, stamp);
      added.Some?
      && RemoveAt(added.value, |rec["registrants"].items|).Ok?
      && var back := RemoveAt(added.value, |rec["registrants"].items|).value;
         back.0["registrants"] == rec["registrants"]
         && back.0["registered"] == rec["registered"]
         && back.1 == Entry(name, stamp)
         && back.0 == rec
  {
    var items := rec["registrants"].items;
    var added := AddRegistrant(rec, name, stamp).value;
    var back := RemoveAt(added, |items|).value;
    assert (items + [Entry(name, stamp)])[..|items|] == items;
    assert (items + [Entry(name, stamp)])[|items| + 1..] == [];
    assert back.0.Keys == rec.Keys;
  }

  /** The first record whose `get("id")` is the id (no `KeyError` here). */
  function FirstHasId(recs: seq<Record>, id: string): (k: nat)
    ensures k <= |recs|
    ensures forall j :: 0 <= j < k ==> !HasId(recs[j], id)
    ensures k < |recs| ==> HasId(recs[k], id)
    decreases |recs|
  {
    if |recs| == 0 || HasId(recs[0], id) then 0 else 1 + FirstHasId(recs[1..], id)
  }

  /** `register_for_session(session_id, attendee_name)` as a function of the
      name check's answer, what `get_session_by_id` loads (`current`), the
      records of the file and `can_register`: the answer and the records
      written back.  The file is scanned with `session_data["id"]`, so a
      record without an id raises and is reported as unexpected. */
  function RegisterOutcome(check: (bool, string), current: Result<seq<Session>, LoadError>,
                           recs: seq<Record>, id: string, name: string,
                           canRegister: (Session, string) -> (bool, string), stamp: string)
    : (o: (Result<(bool, string), LoadError>, seq<Record>))
    ensures |o.1| == |recs|
    ensures o.0 != Ok((true, Registered)) ==> o.1 == recs
  {
    if !check.0 then (Ok((false, check.1)), recs)
    else if current.Err? then (Err(current.error), recs)
    else match SessionById(current.value, id)
      case None => (Ok((false, NoSession)), recs)
      case Some(s) =>
        var allowed := canRegister(s, name);
        if !allowed.0 then (Ok((false, allowed.1)), recs)
        else
          var k := ScanIds(recs, id);
          if k == |recs| then (Ok((false, NoSession)), recs)
          else if "id" !in recs[k] then (Ok((false, Unexpected)), recs)
          else match AddRegistrant(recs[k], name, stamp)
            case None => (Ok((false, Unexpected)), recs)
            case Some(rec) => (Ok((true, Registered)), recs[k := rec])
  }

  /** Over records that store the loaded sessions, a valid name, a found
      session, an approving `can_register` and registrants held in a list
      give success, and exactly the session's record gains the entry. */
  lemma RegisterSucceeds(check: (bool, string), all: seq<Session>, recs: seq<Record>, id: string, name: string,
                         canRegister: (Session, string) -> (bool, string), stamp: string)
    requires check.0 && StoredAll(recs, all)
    requires SessionById(all, id).Some? && canRegister(SessionById(all, id).value, name).0
    requires RegistrantsOf(recs[FirstWithId(all, id)]).JList?
    ensures var k := FirstWithId(all, id);
      RegisterOutcome(check, Ok(all), recs, id, name, canRegister, stamp)
        == (Ok((true, Registered)), recs[k := AddRegistrant(recs[k], name, stamp).value])
  {
    ScanFindsLoaded(recs, all, id);
    assert Stored(recs[FirstWithId(all, id)], all[FirstWithId(all, id)]);
  }

  /** When `can_register` refuses a full session, as its callers' tests
      expect ("已額滿"), a full session is refused and nothing is written. */
  lemma RegisterRefusesFull(check: (bool, string), all: seq<Session>, recs: seq<Record>, id: string, name: string,
                            canRegister: (Session, string) -> (bool, string), stamp: string)
    requires forall s: Session, n: string :: IsFull(s) ==> canRegister(s, n) == (false, "已額滿")
    requires check.0 && SessionById(all, id).Some? && IsFull(SessionById(all, id).value)
    ensures RegisterOutcome(check, Ok(all), recs, id, name, canRegister, stamp) == (Ok((false, "已額滿")), recs)
  {
  }

  /** Registration never takes a session past its capacity: when
      `can_register` refuses full sessions and the stored count is in sync
      with the registrants, the new count is at most the capacity. */
  lemma RegisterWithinCapacity(check: (bool, string), all: seq<Session>, recs: seq<Record>, id: string, name: string,
                               canRegister: (Session, string) -> (bool, string), stamp: string)
    requires forall s: Session, n: string :: IsFull(s) ==> !canRegister(s, n).0
    requires StoredAll(recs, all) && forall j :: 0 <= j < |recs| ==> CountInSync(recs[j])
    requires RegisterOutcome(check, Ok(all), recs, id, name, canRegister, stamp).0 == Ok((true, Registered))
    ensures var k := FirstWithId(all, id); var rec := RegisterOutcome(check, Ok(all), recs, id, name, canRegister, stamp).1[k];
      k < |recs| && CountInSync(rec)
      && rec["registered"].i == all[k].registered + 1 <= all[k].capacity
  {
    ScanFindsLoaded(recs, all, id);
    var k := FirstWithId(all, id);
    assert Stored(recs[k], all[k]);
    assert !IsFull(all[k]);
  }

  /** `register_for_session(session_id, attendee_name)`.  `validateName` is
      `validate_name`, `canRegister` is `Session.can_register`, and `stamp`
      is the clock's ISO 8601 reading. */
  method RegisterAttendee(store: SessionStore, id: string, name: string,
                          validateName: string -> (bool, string),
                          canRegister: (Session, string) -> (bool, string),
                          stamp: string)
    returns (r: Result<(bool, string), LoadError>)
    modifies store
    ensures (r, store.records)
      == RegisterOutcome(validateName(name), old(store.Current()), old(store.records), id, name, canRegister, stamp)
    ensures r == Ok((true, Registered)) ==> store.cache == None
    ensures !validateName(name).0 ==> unchanged(store)
    ensures old(store.Valid()) ==> store.Valid()
  {
    var check := validateName(name);
    if !check.0 {
      return Ok((false, check.1));
    }
    var found := store.GetSessionById(id);
    if found.Err? {
      return Err(found.error);
    }
    if found.value.None? {
      return Ok((false, NoSession));
    }
    var allowed := canRegister(found.value.value, name);
    if !allowed.0 {
      return Ok((false, allowed.1));
    }
    var k := store.FindRecord(id);
    if k == |store.records| {
      return Ok((false, NoSession));
    }
    if "id" !in store.records[k] {
      return Ok((false, Unexpected));
    }
    var updated := AddRegistrant(store.records[k], name, stamp);
    if updated.None? {
      return Ok((false, Unexpected));
    }
    store.records := store.records[k := updated.value];
    store.cache := None;
    return Ok((true, Registered));
  }

  /** `remove_registrant(session_id, registrant_index)` as a function of what
      `get_session_by_id` loads (`current`) and the records of the file: the
      answer and the records written back.  The file is scanned with
      `session_data.get("id")`; when the removed entry is not an object the
      record was already saved and the answer is the unexpected error. */
  function RemoveOutcome(index: int, current: Result<seq<Session>, LoadError>, recs: seq<Record>, id: string)
    : (o: (Result<(bool, string), LoadError>, seq<Record>))
    ensures |o.1| == |recs|
    ensures forall j :: 0 <= j < |recs| && j != FirstHasId(recs, id) ==> o.1[j] == recs[j]
  {
    if index < 0 then (Ok((false, NoRegistrant)), recs)
    else if current.Err? then (Err(current.error), recs)
    else if SessionById(current.value, id).None? then (Ok((false, NoSession)), recs)
    else
      var k := FirstHasId(recs, id);
      if k == |recs| then (Ok((false, NoSession)), recs)
      else match RemoveAt(recs[k], index)
        case Err(msg) => (Ok((false, msg)), recs)
        case Ok(removal) => (Ok(RemovedMessage(removal.1)), recs[k := removal.0])
  }

  /** Over records that store the loaded sessions, a found session whose
      registrants are a list: an index past the end gives "找不到報名紀錄"
      with nothing written; a valid index removes exactly that entry of the
      session's record and names it in the answer. */
  lemma RemoveCases(index: nat, all: seq<Session>, recs: seq<Record>, id: string)
    requires StoredAll(recs, all) && SessionById(all, id).Some?
    requires RegistrantsOf(recs[FirstWithId(all, id)]).JList?
    ensures var k := FirstWithId(all, id); var items := RegistrantsOf(recs[k]).items;
      var o := RemoveOutcome(index, Ok(all), recs, id);
      (index >= |items| ==> o == (Ok((false, NoRegistrant)), recs))
      && (index < |items| ==>
            o.0 == Ok(RemovedMessage(items[index]))
            && o.1[k]["registrants"].items == items[..index] + items[index + 1..]
            && CountInSync(o.1[k]))
  {
    var k := FirstWithId(all, id);
    forall j | 0 <= j < |recs| ensures HasId(recs[j], id) <==> all[j].id == id {
      assert Stored(recs[j], all[j]);
    }
    FirstHasIdUnique(recs, id, k);
  }

  /** `remove_registrant(session_id, registrant_index)`. */
  method RemoveRegistrant(store: SessionStore, id: string, index: int)
    returns (r: Result<(bool, string), LoadError>)
    modifies store
    ensures (r, store.records) == RemoveOutcome(index, old(store.Current()), old(store.records), id)
    ensures store.records != old(store.records) ==> store.cache == None
    ensures index < 0 ==> unchanged(store)
    ensures old(store.Valid()) ==> store.Valid()
  {
    if index < 0 {
      return Ok((false, NoRegistrant));
    }
    var found := store.GetSessionById(id);
    if found.Err? {
      return Err(found.error);
    }
    if found.value.None? {
      return Ok((false, NoSession));
    }
    var k := 0;
    while k < |store.records| && !HasId(store.records[k], id)
      invariant k <= |store.records|
      invariant forall j :: 0 <= j < k ==> !HasId(store.records[j], id)
    {
      k := k + 1;
    }
    assert k == FirstHasId(store.records, id) by { FirstHasIdUnique(store.records, id, k); }
    if k == |store.records| {
      return Ok((false, NoSession));
    }
    var removal := RemoveAt(store.records[k], index);
    if removal.Err? {
      return Ok((false, removal.error));
    }
    store.records := store.records[k := removal.value.0];
    store.cache := None;
    return Ok(RemovedMessage(removal.value.1));
  }

  /** The loop's exit test and `FirstHasId` agree. */
  lemma {:induction false} FirstHasIdUnique(recs: seq<Record>, id: string, k: nat)
    requires k <= |recs|
    requires forall j :: 0 <= j < k ==> !HasId(recs[j], id)
    requires k < |recs| ==> HasId(recs[k], id)
    ensures k == FirstHasId(recs, id)
    decreases k
  {
    if k > 0 {
      FirstHasIdUnique(recs[1..], id, k - 1);
    }
  }
}
