/**
  Administrator authentication: the credentials come from the process
  environment, which a `.env` file may complete once (without overriding
  what is already set); logging in sets a flag in the UI session state and
  logging out removes it.  The environment, the `.env` file (as its lines)
  and the session state are fields of one object here.
 */
module AdminService {
  import opened Wrappers
  import opened PyText

  const UsernameKey: string := "ADMIN_USERNAME"
  const PasswordKey: string := "ADMIN_PASSWORD"
  const AdminKeys: set<string> := {UsernameKey, PasswordKey}
  const DefaultUsername: string := "admin"
  const DefaultPassword: string := ""

  /** The characters of `strip('"\'')`. */
  predicate IsQuote(c: char) { c == '"' || c == '\'' }

  /** The position of the first `c` in `s`, or `|s|`. */
  function IndexOf(s: string, c: char): (i: nat)
    ensures i <= |s|
    ensures forall k :: 0 <= k < i ==> s[k] != c
    ensures i < |s| ==> s[i] == c
    decreases |s|
  {
    if |s| == 0 || s[0] == c then 0 else 1 + IndexOf(s[1..], c)
  }

  lemma IndexOfFound(s: string, c: char)
    ensures IndexOf(s, c) < |s| <==> c in s
  {
    if c in s {
      var k :| 0 <= k < |s| && s[k] == c;
      assert IndexOf(s, c) <= k;
    }
  }

  /** One line of the `.env` file: skipped (None) when blank, a comment or
      without '='; otherwise the stripped key before the first '=' and the
      stripped value after it with quote characters trimmed from both ends. */
  function ParseEnvLine(raw: string): (r: Option<(string, string)>)
    ensures var line := Strip(raw); r.Some? <==> line != "" && line[0] != '#' && '=' in line
    ensures r.Some? ==> '=' !in r.value.0
  {
    var line := Strip(raw);
    var i := IndexOf(line, '=');
    IndexOfFound(line, '=');
    if line == "" || line[0] == '#' || i == |line| then None
    else
      StripKeepsAbsent(line[..i], IsSpace, '=');
      Some((Strip(line[..i]), StripBy(Strip(line[i + 1..]), IsQuote)))
  }

  /** A line written as `key=value`, with a key and a value that need no
      stripping, reads back as that key and that value. */
  lemma ParseCleanLine(key: string, value: string)
    requires key != [] && '=' !in key && key[0] != '#'
    requires !IsSpace(key[0]) && !IsSpace(key[|key| - 1])
    requires value != [] ==> !IsSpace(value[0]) && !IsSpace(value[|value| - 1])
    requires value != [] ==> !IsQuote(value[0]) && !IsQuote(value[|value| - 1])
    ensures ParseEnvLine(key + "=" + value) == Some((key, value))
  {
    CleanLineParts(key, value);
    StripNoop(key, IsSpace);
    StripNoop(value, IsSpace);
    StripNoop(value, IsQuote);
  }

  lemma CleanLineParts(key: string, value: string)
    requires key != [] && '=' !in key
    requires !IsSpace(key[0]) && (value != [] ==> !IsSpace(value[|value| - 1]))
    ensures var line := key + "=" + value;
      Strip(line) == line && IndexOf(line, '=') == |key|
      && line[..|key|] == key && line[|key| + 1..] == value
  {
    var line := key + "=" + value;
    assert line[0] == key[0];
    assert line[|line| - 1] == if value == [] then '=' else value[|value| - 1];
    StripNoop(line, IsSpace);
    IndexOfAfter(key, '=', value);
    assert line[..|key|] == key;
    assert line[|key| + 1..] == value;
  }

  lemma {:induction false} IndexOfAfter(a: string, c: char, b: string)
    requires c !in a
    ensures IndexOf(a + [c] + b, c) == |a|
    decreases |a|
  {
    if a != [] {
      assert (a + [c] + b)[1..] == a[1..] + [c] + b;
      IndexOfAfter(a[1..], c, b);
    }
  }

  /** One line applied to the environment: an administrator key that is not
      set yet takes the line's value; everything else is left alone. */
  function ApplyLine(env: map<string, string>, p: Option<(string, string)>): (r: map<string, string>)
    ensures forall k :: k in env ==> k in r && r[k] == env[k]
    ensures r.Keys <= env.Keys + AdminKeys
  {
    if p.Some? && p.value.0 in AdminKeys && p.value.0 !in env then env[p.value.0 := p.value.1] else env
  }

  /** The environment after the `.env` lines, read in order: existing
      values survive and only the two administrator keys can appear. */
  function LoadEnvLines(env: map<string, string>, lines: seq<string>): (r: map<string, string>)
    ensures forall k :: k in env ==> k in r && r[k] == env[k]
    ensures r.Keys <= env.Keys + AdminKeys
    decreases |lines|
  {
    if |lines| == 0 then env else LoadEnvLines(ApplyLine(env, ParseEnvLine(lines[0])), lines[1..])
  }

  /** One step of the loop over the lines. */
  lemma LoadEnvStep(env: map<string, string>, lines: seq<string>, i: nat)
    requires i < |lines|
    ensures LoadEnvLines(env, lines[i..]) == LoadEnvLines(ApplyLine(env, ParseEnvLine(lines[i])), lines[i + 1..])
  {
    assert lines[i..][1..] == lines[i + 1..];
  }

  /** An administrator key takes its value from the first line that sets it. */
  lemma FirstLineWins(env: map<string, string>, lines: seq<string>, key: string, value: string)
    requires |lines| > 0 && ParseEnvLine(lines[0]) == Some((key, value))
    requires key in AdminKeys && key !in env
    ensures LoadEnvLines(env, lines)[key] == value
  {
    var e := ApplyLine(env, Some((key, value)));
    assert e == env[key := value];
    assert LoadEnvLines(env, lines) == LoadEnvLines(e, lines[1..]);
  }

  /** `os.getenv(key, default)` */
  function GetEnv(env: map<string, string>, key: string, default: string): string {
    if key in env then env[key] else default
  }

  /** The comparison of `authenticate_admin` once the environment is loaded. */
  predicate Authenticates(env: map<string, string>, username: string, password: string) {
    username == GetEnv(env, UsernameKey, DefaultUsername)
    && password == GetEnv(env, PasswordKey, DefaultPassword)
  }

  /** With neither key set, exactly ("admin", "") is accepted. */
  lemma DefaultCredentials(env: map<string, string>, username: string, password: string)
    requires UsernameKey !in env && PasswordKey !in env
    ensures Authenticates(env, username, password) <==> username == "admin" && password == ""
  {
  }

  /** A password set in the process environment wins over the `.env` file. */
  lemma EnvironmentWins(env: map<string, string>, lines: seq<string>, username: string, password: string)
    requires UsernameKey in env && PasswordKey in env
    ensures Authenticates(LoadEnvLines(env, lines), username, password)
            <==> username == env[UsernameKey] && password == env[PasswordKey]
  {
  }

  /** The loop of `_load_admin_env` over the lines of `.env`, on a copy of
      the environment. */
  method ReadEnvLines(env: map<string, string>, lines: seq<string>) returns (r: map<string, string>)
    ensures r == LoadEnvLines(env, lines)
  {
    r := env;
    var i := 0;
    while i < |lines|
      invariant 0 <= i <= |lines|
      invariant LoadEnvLines(r, lines[i..]) == LoadEnvLines(env, lines)
    {
      var parsed := ParseEnvLine(lines[i]);
      LoadEnvStep(r, lines, i);
      if parsed.Some? && parsed.value.0 in AdminKeys && parsed.value.0 !in r {
        r := r[parsed.value.0 := parsed.value.1];
      }
      i := i + 1;
    }
  }

  /** The process environment, the `.env` file and the UI session state. */
  class AdminState {
    /** `os.environ` */
    var environ: map<string, string>
    /** `_ENV_LOADED` */
    var envLoaded: bool
    /** The lines of `.env`, or None when there is no such file. */
    const envFile: Option<seq<string>>
    /** `st.session_state["admin_authenticated"]`, None when absent. */
    var authFlag: Option<bool>

    constructor (environ: map<string, string>, envFile: Option<seq<string>>)
      ensures this.environ == environ && this.envFile == envFile
      ensures !envLoaded && authFlag == None
    {
      this.environ := environ;
      this.envFile := envFile;
      envLoaded := false;
      authFlag := None;
    }

    /** The environment once `_load_admin_env` has run. */
    function LoadedEnv(): map<string, string>
      reads this
    {
      if envLoaded || envFile.None? then environ else LoadEnvLines(environ, envFile.value)
    }

    /** `_load_admin_env()`: the file is read at most once. */
    method LoadAdminEnv()
      modifies this
      ensures environ == old(LoadedEnv())
      ensures envLoaded && authFlag == old(authFlag)
    {
      if envLoaded {
        return;
      }
      if envFile.Some? {
        environ := ReadEnvLines(environ, envFile.value);
      }
      envLoaded := true;
    }

    /** `authenticate_admin(username, password)` */
    method AuthenticateAdmin(username: string, password: string) returns (ok: bool)
      modifies this
      ensures environ == old(LoadedEnv()) && envLoaded && authFlag == old(authFlag)
      ensures ok <==> Authenticates(environ, username, password)
    {
      LoadAdminEnv();
      ok := username == GetEnv(environ, UsernameKey, DefaultUsername)
            && password == GetEnv(environ, PasswordKey, DefaultPassword);
    }

    /** `is_admin_authenticated()` */
    method IsAdminAuthenticated() returns (b: bool)
      ensures b <==> authFlag == Some(true)
    {
      b := authFlag == Some(true);
    }

    /** `login_admin(username, password)`: the flag is set only on success. */
    method LoginAdmin(username: string, password: string) returns (ok: bool, msg: string)
      modifies this
      ensures environ == old(LoadedEnv()) && envLoaded
      ensures ok <==> Authenticates(environ, username, password)
      ensures ok ==> authFlag == Some(true) && msg == "登入成功"
      ensures !ok ==> authFlag == old(authFlag) && msg == "帳號或密碼錯誤"
    {
      ok := AuthenticateAdmin(username, password);
      if ok {
        authFlag := Some(true);
        msg := "登入成功";
      } else {
        msg := "帳號或密碼錯誤";
      }
    }

    /** `logout_admin()`: the flag is removed, whether or not it was set. */
    method LogoutAdmin()
      modifies this
      ensures authFlag == None
      ensures environ == old(environ) && envLoaded == old(envLoaded)
    {
      authFlag := None;
    }
  }
}
