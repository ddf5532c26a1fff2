/**
 * The two input validators of the flat-file backend: the e-mail pattern
 * `^[^\s@]+@[^\s@]+\.[^\s@]+$` and the minimum password length.
 */
module Validation {
  import opened Wrappers
  import opened JsText

  /** A character of the class `[^\s@]`. */
  predicate IsWordChar(c: char) {
    !IsSpace(c) && c != '@'
  }

  /** `s` matches `[^\s@]+`. */
  predicate IsRun(s: string) {
    |s| > 0 && forall i :: 0 <= i < |s| ==> IsWordChar(s[i])
  }

  /** The pattern `^[^\s@]+@[^\s@]+\.[^\s@]+$` read as its own structure: a
      run, an '@' at `at`, a run, a '.' at `dot`, a run, and nothing else. */
  ghost predicate MatchesEmailPattern(s: string) {
    exists at, dot ::
      && 0 < at && at + 1 < dot && dot + 1 < |s|
      && s[at] == '@' && s[dot] == '.'
      && IsRun(s[..at]) && IsRun(s[at + 1..dot]) && IsRun(s[dot + 1..])
  }

  /** What follows the '@': a run holding a '.' that is neither its first nor its last character. */
  predicate IsDomain(d: string) {
    |d| >= 3 && IsRun(d) && '.' in d[1..|d| - 1]
  }

  /** `validateEmail`, decided by one scan for the '@'. */
  function ValidateEmail(email: string): bool {
    var at := IndexOf(email, '@');
    at < |email| && IsRun(email[..at]) && IsDomain(email[at + 1..])
  }

  /** `validatePassword`: `password && password.length >= 6`, read for its truth value;
      `None` is an absent (undefined or null) password. */
  function ValidatePassword(password: Option<string>): (ok: bool)
    ensures ok <==> password.Some? && |password.value| >= 6
  {
    password.Some? && password.value != "" && |password.value| >= 6
  }

  lemma RunSlice(s: string, i: int, j: int)
    requires IsRun(s) && 0 <= i < j <= |s|
    ensures IsRun(s[i..j])
  {
    assert forall k :: 0 <= k < j - i ==> s[i..j][k] == s[i + k];
  }

  /** The validator accepts exactly the strings the regular expression matches. */
  lemma ValidateEmailIsPattern(s: string)
    ensures ValidateEmail(s) <==> MatchesEmailPattern(s)
  {
    if ValidateEmail(s) {
      AcceptedMatches(s);
    }
    if MatchesEmailPattern(s) {
      var at, dot :| && 0 < at && at + 1 < dot && dot + 1 < |s|
                     && s[at] == '@' && s[dot] == '.'
                     && IsRun(s[..at]) && IsRun(s[at + 1..dot]) && IsRun(s[dot + 1..]);
      MatchedAccepted(s, at, dot);
    }
  }

  lemma AcceptedMatches(s: string)
    requires ValidateEmail(s)
    ensures MatchesEmailPattern(s)
  {
    var at := IndexOf(s, '@');
    var d := s[at + 1..];
    var j :| 0 <= j < |d| - 2 && d[1..|d| - 1][j] == '.';
    var dot := at + 2 + j;
    assert s[dot] == '.';
    RunSlice(d, 0, j + 1);
    assert s[at + 1..dot] == d[..j + 1];
    RunSlice(d, j + 2, |d|);
    assert s[dot + 1..] == d[j + 2..];
  }

  lemma MatchedAccepted(s: string, at: int, dot: int)
    requires && 0 < at && at + 1 < dot && dot + 1 < |s|
             && s[at] == '@' && s[dot] == '.'
             && IsRun(s[..at]) && IsRun(s[at + 1..dot]) && IsRun(s[dot + 1..])
    ensures ValidateEmail(s)
  {
    assert forall k :: 0 <= k < at ==> s[..at][k] == s[k];
    assert IndexOf(s, '@') == at;
    var d := s[at + 1..];
    forall k | 0 <= k < |d| ensures IsWordChar(d[k]) {
      if k < dot - at - 1 {
        assert d[k] == s[at + 1..dot][k];
      } else if k > dot - at - 1 {
        assert d[k] == s[dot + 1..][k - (dot - at)];
      }
    }
    assert d[1..|d| - 1][dot - at - 2] == '.';
  }

  /** No string holding a white-space character is accepted. */
  lemma EmailRejectsSpace(s: string, i: int)
    requires 0 <= i < |s| && IsSpace(s[i])
    ensures !ValidateEmail(s)
  {
  }

  /** An accepted address has exactly one '@', and it is not the first character. */
  lemma EmailHasOneAt(s: string)
    requires ValidateEmail(s)
    ensures exists at :: 0 < at < |s| && s[at] == '@' && forall k :: 0 <= k < |s| && k != at ==> s[k] != '@'
  {
    var at := IndexOf(s, '@');
    forall k | 0 <= k < |s| && k != at ensures s[k] != '@' {
      if k > at {
        assert s[at + 1..][k - at - 1] == s[k];
      }
    }
  }

  /** After the '@' of an accepted address comes a '.' that is neither the
      first character after the '@' nor the last character of the address. */
  lemma EmailDomainHasInnerDot(s: string, at: int)
    requires ValidateEmail(s) && 0 <= at < |s| && s[at] == '@'
    ensures exists dot :: at + 1 < dot < |s| - 1 && s[dot] == '.'
  {
    EmailHasOneAt(s);
    assert IndexOf(s, '@') == at;
    var d := s[at + 1..];
    var j :| 0 <= j < |d| - 2 && d[1..|d| - 1][j] == '.';
    assert s[at + 2 + j] == '.';
  }

  /** Both validators reject an empty input. */
  lemma EmptyRejected()
    ensures !ValidateEmail("")
    ensures !ValidatePassword(Some("")) && !ValidatePassword(None)
  {
  }
}
