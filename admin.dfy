/**
  Administrator credentials (`Admin` dataclass): a username of at least three
  characters and a password of at least six, the username checked first.
 */
module AdminModel {
  import opened Wrappers

  datatype Admin = Admin(username: string, password: string)

  const MinUsername: nat := 3
  const MinPassword: nat := 6

  predicate AdminOk(a: Admin) {
    |a.username| >= MinUsername && |a.password| >= MinPassword
  }

  /** `Admin(username, password)` with its `__post_init__` checks. An empty
      string is falsy and also shorter than the minimum, so one length test
      covers both halves of each condition. */
  function NewAdmin(username: string, password: string): (r: Result<Admin, string>)
    ensures r.Ok? <==> AdminOk(Admin(username, password))
    ensures r.Ok? ==> r.value == Admin(username, password)
    ensures |username| < MinUsername ==> r == Err("Username must be at least 3 characters")
    ensures |username| >= MinUsername && |password| < MinPassword ==> r == Err("Password must be at least 6 characters")
  {
    if username == "" || |username| < MinUsername then Err("Username must be at least 3 characters")
    else if password == "" || |password| < MinPassword then Err("Password must be at least 6 characters")
    else Ok(Admin(username, password))
  }

  /** The minimum lengths are inclusive. */
  lemma ShortestAccepted(username: string, password: string)
    requires |username| == 3 && |password| == 6
    ensures NewAdmin(username, password).Ok?
  {
  }
}
