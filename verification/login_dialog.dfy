/** LoginDialog: the offline login accepts a username of ASCII letters, digits and
    underscores and turns it into a session; anything else leaves the session unset. */
module LoginDialog {
  import opened Wrappers

  /** The character class [a-zA-Z0-9_]. */
  predicate IsUsernameChar(c: char) {
    ('a' <= c <= 'z') || ('A' <= c <= 'Z') || ('0' <= c <= '9') || c == '_'
  }

  /** Where a greedy run of [a-zA-Z0-9_] starting at i ends. */
  function ClassRunEnd(s: string, i: nat): (r: nat)
    requires i <= |s|
    ensures i <= r <= |s|
    decreases |s| - i
  {
    if i < |s| && IsUsernameChar(s[i]) then ClassRunEnd(s, i + 1) else i
  }

  /** username.matches("^[a-zA-Z0-9_]*$"): matches() must consume the whole input, so the
      run of class characters from the start has to reach the end. */
  predicate MatchesUsernamePattern(s: string) {
    ClassRunEnd(s, 0) == |s|
  }

  /** The run ends exactly at the first character outside the class. */
  lemma {:induction false} ClassRunEndIsFirstOutside(s: string, i: nat)
    requires i <= |s|
    ensures forall k :: i <= k < ClassRunEnd(s, i) ==> IsUsernameChar(s[k])
    ensures ClassRunEnd(s, i) < |s| ==> !IsUsernameChar(s[ClassRunEnd(s, i)])
    decreases |s| - i
  {
    if i < |s| && IsUsernameChar(s[i]) {
      ClassRunEndIsFirstOutside(s, i + 1);
    }
  }

  /** The pattern matches exactly the strings made only of class characters. */
  lemma PatternMatchesClassStrings(s: string)
    ensures MatchesUsernamePattern(s) <==> forall k :: 0 <= k < |s| ==> IsUsernameChar(s[k])
  {
    ClassRunEndIsFirstOutside(s, 0);
  }

  /** The test prepareLogin applies: not empty, and matching the pattern. */
  predicate AcceptsUsername(username: string) {
    |username| > 0 && MatchesUsernamePattern(username)
  }

  /** The same test with a loop over the characters. */
  method CheckUsername(username: string) returns (ok: bool)
    ensures ok <==> |username| > 0 && forall k :: 0 <= k < |username| ==> IsUsernameChar(username[k])
    ensures ok <==> AcceptsUsername(username)
  {
    PatternMatchesClassStrings(username);
    if |username| == 0 {
      return false;
    }
    var i := 0;
    while i < |username|
      invariant 0 <= i <= |username|
      invariant forall k :: 0 <= k < i ==> IsUsernameChar(username[k])
    {
      if !IsUsernameChar(username[i]) {
        return false;
      }
      i := i + 1;
    }
    return true;
  }

  /** OfflineSession: a session carrying only the name entered. */
  datatype Session = OfflineSession(username: string)

  /** prepareLogin with the session field's current value (None for null): an accepted
      name becomes the session, a rejected one shows an error and leaves it as it was. */
  function PrepareLogin(username: string, session: Option<Session>): (r: Option<Session>)
    ensures AcceptsUsername(username) ==> r == Some(OfflineSession(username))
    ensures !AcceptsUsername(username) ==> r == session
  {
    if AcceptsUsername(username) then Some(OfflineSession(username)) else session
  }

  /** showLoginRequest: the session is null until a name is accepted; accepting one
      disposes the dialog, so the names entered are tried in order up to the first
      accepted one, and later entries are never seen. */
  function LoginOutcome(attempts: seq<string>): (r: Option<Session>)
  {
    if |attempts| == 0 then None
    else if AcceptsUsername(attempts[0]) then PrepareLogin(attempts[0], None)
    else LoginOutcome(attempts[1..])
  }

  /** The dialog yields no session exactly when every name entered is rejected; otherwise
      its session carries the first accepted name, which consists of class characters. */
  lemma {:induction false} LoginOutcomeIsFirstAccepted(attempts: seq<string>)
    ensures LoginOutcome(attempts).None? <==> forall k :: 0 <= k < |attempts| ==> !AcceptsUsername(attempts[k])
    ensures LoginOutcome(attempts).Some? ==>
      (exists k :: 0 <= k < |attempts|
        && LoginOutcome(attempts).value.username == attempts[k]
        && AcceptsUsername(attempts[k])
        && forall j :: 0 <= j < k ==> !AcceptsUsername(attempts[j]))
  {
    if |attempts| > 0 && !AcceptsUsername(attempts[0]) {
      var rest := attempts[1..];
      LoginOutcomeIsFirstAccepted(rest);
      forall k | 1 <= k < |attempts| ensures attempts[k] == rest[k - 1] {
      }
      if LoginOutcome(rest).Some? {
        var k :| 0 <= k < |rest| && LoginOutcome(rest).value.username == rest[k]
          && AcceptsUsername(rest[k]) && forall j :: 0 <= j < k ==> !AcceptsUsername(rest[j]);
        assert attempts[k + 1] == rest[k];
        assert forall j :: 0 <= j < k + 1 ==> !AcceptsUsername(attempts[j]) by {
          forall j | 0 < j < k + 1 ensures !AcceptsUsername(attempts[j]) {
            assert attempts[j] == rest[j - 1];
          }
        }
      }
    } else if |attempts| > 0 {
      assert LoginOutcome(attempts).value.username == attempts[0];
    }
  }

  /** Every session the dialog produces names a non-empty string of [a-zA-Z0-9_]. */
  lemma SessionUsernameValid(attempts: seq<string>)
    requires LoginOutcome(attempts).Some?
    ensures var u := LoginOutcome(attempts).value.username;
      |u| > 0 && forall k :: 0 <= k < |u| ==> IsUsernameChar(u[k])
  {
    LoginOutcomeIsFirstAccepted(attempts);
    PatternMatchesClassStrings(LoginOutcome(attempts).value.username);
  }

  /** Names outside the class are rejected: a space, a hyphen, a non-ASCII letter, or a
      trailing newline (the pattern's end anchor does not let matches() stop before it). */
  lemma RejectedExamples()
    ensures !AcceptsUsername("")
    ensures !AcceptsUsername("a b")
    ensures !AcceptsUsername("a-b")
    ensures !AcceptsUsername("é")
    ensures !AcceptsUsername("steve\n")
    ensures AcceptsUsername("Steve_99")
  {
    PatternMatchesClassStrings("a b");
    assert !IsUsernameChar("a b"[1]);
    PatternMatchesClassStrings("a-b");
    assert !IsUsernameChar("a-b"[1]);
    PatternMatchesClassStrings("é");
    assert !IsUsernameChar("é"[0]);
    PatternMatchesClassStrings("steve\n");
    assert !IsUsernameChar("steve\n"[5]);
    PatternMatchesClassStrings("Steve_99");
  }
}
