/**
 * `Settings.Validate` (DiscourseApi/Settings.cs): the list of missing-field
 * messages for a configuration.
 */
module Settings {
  import opened Wrappers

  /** The configuration fields `Validate` looks at; `None` is a null reference. */
  datatype Settings = Settings(
    serverUri: Option<string>,
    applicationName: Option<string>,
    apiKey: Option<string>,
    apiUsername: Option<string>)

  /** `string.IsNullOrEmpty`. */
  predicate NullOrEmpty(s: Option<string>)
  {
    s.None? || s.value == ""
  }

  /** The four checks, in the order `Validate` makes them. */
  datatype Check = ServerUriCheck | ApplicationNameCheck | ApiKeyCheck | ApiUsernameCheck

  const Checks: seq<Check> := [ServerUriCheck, ApplicationNameCheck, ApiKeyCheck, ApiUsernameCheck]

  /**
   * Whether a check fails. The server URI and the API key are rejected only
   * when null; the application name and the user name also when empty.
   */
  predicate Fails(s: Settings, c: Check)
  {
    match c
    case ServerUriCheck => s.serverUri.None?
    case ApplicationNameCheck => NullOrEmpty(s.applicationName)
    case ApiKeyCheck => s.apiKey.None?
    case ApiUsernameCheck => NullOrEmpty(s.apiUsername)
  }

  /** The message of a failing check. Note the capital N of "ApiUserName". */
  function Message(c: Check): string
  {
    match c
    case ServerUriCheck => "ServerUri missing"
    case ApplicationNameCheck => "ApplicationName missing"
    case ApiKeyCheck => "ApiKey missing"
    case ApiUsernameCheck => "ApiUserName missing"
  }

  /** The messages of the failing checks among `cs`, in the order of `cs`. */
  function Failures(s: Settings, cs: seq<Check>): seq<string>
  {
    if |cs| == 0 then []
    else (if Fails(s, cs[0]) then [Message(cs[0])] else []) + Failures(s, cs[1..])
  }

  /** Every field the client needs is present. */
  predicate Complete(s: Settings)
  {
    s.serverUri.Some? && !NullOrEmpty(s.applicationName) && s.apiKey.Some? && !NullOrEmpty(s.apiUsername)
  }

  /** `Validate()`: one message per failing check, in a fixed order. */
  method Validate(s: Settings) returns (errors: seq<string>)
    ensures errors == Failures(s, Checks)
    ensures |errors| == 0 <==> Complete(s)
  {
    errors := [];
    if s.serverUri.None? {
      errors := errors + ["ServerUri missing"];
    }
    if NullOrEmpty(s.applicationName) {
      errors := errors + ["ApplicationName missing"];
    }
    if s.apiKey.None? {
      errors := errors + ["ApiKey missing"];
    }
    if NullOrEmpty(s.apiUsername) {
      errors := errors + ["ApiUserName missing"];
    }
    Unfold(s);
  }

  /** `Failures` over the four checks, one check at a time. */
  lemma Unfold(s: Settings)
    ensures Failures(s, Checks) ==
      (if Fails(s, ServerUriCheck) then [Message(ServerUriCheck)] else []) +
      (if Fails(s, ApplicationNameCheck) then [Message(ApplicationNameCheck)] else []) +
      (if Fails(s, ApiKeyCheck) then [Message(ApiKeyCheck)] else []) +
      (if Fails(s, ApiUsernameCheck) then [Message(ApiUsernameCheck)] else [])
  {
    var c1: seq<Check> := [ApplicationNameCheck, ApiKeyCheck, ApiUsernameCheck];
    var c2: seq<Check> := [ApiKeyCheck, ApiUsernameCheck];
    var c3: seq<Check> := [ApiUsernameCheck];
    assert Checks[1..] == c1 && c1[1..] == c2 && c2[1..] == c3 && c3[1..] == [];
    var f0 := if Fails(s, ServerUriCheck) then [Message(ServerUriCheck)] else [];
    var f1 := if Fails(s, ApplicationNameCheck) then [Message(ApplicationNameCheck)] else [];
    var f2 := if Fails(s, ApiKeyCheck) then [Message(ApiKeyCheck)] else [];
    var f3 := if Fails(s, ApiUsernameCheck) then [Message(ApiUsernameCheck)] else [];
    assert Failures(s, c3) == f3 + Failures(s, []) == f3;
    assert Failures(s, c2) == f2 + f3;
    assert Failures(s, c1) == f1 + (f2 + f3);
    assert Failures(s, Checks) == f0 + (f1 + (f2 + f3));
  }

  /** How many of the checks `cs` fail. */
  function FailCount(s: Settings, cs: seq<Check>): nat
  {
    if |cs| == 0 then 0 else (if Fails(s, cs[0]) then 1 else 0) + FailCount(s, cs[1..])
  }

  /**
   * Each check adds at most one message, so the number of messages is the
   * number of failing checks, and a message is present exactly when its
   * check fails (the four messages are distinct).
   */
  lemma {:induction false} FailuresCount(s: Settings, cs: seq<Check>)
    ensures |Failures(s, cs)| == FailCount(s, cs)
    ensures forall c :: c in cs ==> (Message(c) in Failures(s, cs) <==> Fails(s, c))
  {
    if |cs| > 0 {
      FailuresCount(s, cs[1..]);
      forall c | c in cs
        ensures Message(c) in Failures(s, cs) <==> Fails(s, c)
      {
        if c == cs[0] {
          if c in cs[1..] {
          } else {
            MessageOutside(s, c, cs[1..]);
          }
        } else {
          assert c in cs[1..];
          assert Message(c) != Message(cs[0]);
        }
      }
    }
  }

  lemma {:induction false} MessageOutside(s: Settings, c: Check, cs: seq<Check>)
    requires c !in cs
    ensures Message(c) !in Failures(s, cs)
  {
    if |cs| > 0 {
      assert Message(c) != Message(cs[0]);
      MessageOutside(s, c, cs[1..]);
    }
  }

  /** An empty string passes the API-key check, but not the user-name check. */
  lemma EmptyKeyAccepted(server: string, app: string)
    requires app != ""
    ensures Failures(Settings(Some(server), Some(app), Some(""), Some("")), Checks) == ["ApiUserName missing"]
  {
    Unfold(Settings(Some(server), Some(app), Some(""), Some("")));
  }
}
