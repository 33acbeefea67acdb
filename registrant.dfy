/**
  A person registered for a session (`Registrant` dataclass): a name that is
  not blank and at most 50 characters long, measured on the raw text, and an
  ISO 8601 registration time.  Whether a text is ISO 8601 is decided by
  `datetime.fromisoformat`, which is not part of this model: it is the
  parameter `isIso`, applied after every "Z" has become "+00:00".
 */
module RegistrantModel {
  import opened Wrappers
  import opened PyText

  datatype Registrant = Registrant(name: string, registeredAt: string)

  const MaxNameLength: nat := 50

  /** The text handed to `fromisoformat`. */
  function IsoText(registeredAt: string): string {
    ReplaceAll(registeredAt, "Z", "+00:00")
  }

  predicate RegistrantOk(r: Registrant, isIso: string -> bool) {
    !IsBlank(r.name) && |r.name| <= MaxNameLength && isIso(IsoText(r.registeredAt))
  }

  /** `Registrant(name, registered_at)` with its `__post_init__` checks. */
  function NewRegistrant(name: string, registeredAt: string, isIso: string -> bool): (r: Result<Registrant, string>)
    ensures r.Ok? <==> RegistrantOk(Registrant(name, registeredAt), isIso)
    ensures r.Ok? ==> r.value == Registrant(name, registeredAt)
    ensures IsBlank(name) ==> r == Err("Name cannot be empty")
    ensures !IsBlank(name) && |name| > MaxNameLength ==> r == Err("Name cannot exceed 50 characters")
    ensures !IsBlank(name) && |name| <= MaxNameLength && !isIso(IsoText(registeredAt)) ==>
      r == Err("Invalid timestamp format: " + registeredAt)
  {
    if IsBlank(name) then Err("Name cannot be empty")
    else if |name| > MaxNameLength then Err("Name cannot exceed 50 characters")
    else if !isIso(IsoText(registeredAt)) then Err("Invalid timestamp format: " + registeredAt)
    else Ok(Registrant(name, registeredAt))
  }

  /** The length limit counts surrounding spaces: a 49-character name padded
      with two spaces is refused although its stripped text is short. */
  lemma PaddingCounts(core: string, registeredAt: string, isIso: string -> bool)
    requires |core| == 49 && !IsBlank(core)
    ensures NewRegistrant(" " + core + " ", registeredAt, isIso) == Err("Name cannot exceed 50 characters")
  {
    var name := " " + core + " ";
    var k :| 0 <= k < |core| && !IsSpace(core[k]);
    assert name[k + 1] == core[k];
  }
}
