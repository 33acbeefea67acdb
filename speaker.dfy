/**
  The speaker of a session (`Speaker` dataclass): three text fields whose
  construction rejects blank values, checked name, then photo, then bio.
  Unlike the dictionary validator, the photo path has no format check here.
 */
module SpeakerModel {
  import opened Wrappers
  import opened PyText

  datatype Speaker = Speaker(name: string, photo: string, bio: string)

  /** What a constructed `Speaker` always satisfies. */
  predicate SpeakerOk(s: Speaker) {
    !IsBlank(s.name) && !IsBlank(s.photo) && !IsBlank(s.bio)
  }

  /** `Speaker(name, photo, bio)` with its `__post_init__` checks; the error
      is the `ValueError` message of the first failing check. */
  function NewSpeaker(name: string, photo: string, bio: string): (r: Result<Speaker, string>)
    ensures r.Ok? <==> SpeakerOk(Speaker(name, photo, bio))
    ensures r.Ok? ==> r.value == Speaker(name, photo, bio)
    ensures IsBlank(name) ==> r == Err("Speaker name cannot be empty")
    ensures !IsBlank(name) && IsBlank(photo) ==> r == Err("Speaker photo path cannot be empty")
    ensures !IsBlank(name) && !IsBlank(photo) && IsBlank(bio) ==> r == Err("Speaker bio cannot be empty")
  {
    if IsBlank(name) then Err("Speaker name cannot be empty")
    else if IsBlank(photo) then Err("Speaker photo path cannot be empty")
    else if IsBlank(bio) then Err("Speaker bio cannot be empty")
    else Ok(Speaker(name, photo, bio))
  }

  /** Any non-blank photo text is accepted, whatever its form. */
  lemma AnyPhotoAccepted(name: string, photo: string, bio: string)
    requires !IsBlank(name) && !IsBlank(bio) && |photo| > 0 && !IsSpace(photo[0])
    ensures NewSpeaker(name, photo, bio) == Ok(Speaker(name, photo, bio))
  {
  }
}
