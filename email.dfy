/**
 * The address check shared by both waitlist handlers and the survey handler:
 * the regular expression `^[^\s@]+@[^\s@]+\.[^\s@]+$`.
 */
module Email {
  import opened Text

  /** The character class `[^\s@]`. */
  predicate IsAddressChar(c: char) {
    !IsWhitespace(c) && c != '@'
  }

  /** The pattern `[^\s@]+`. */
  predicate IsRun(t: string) {
    |t| > 0 && forall k :: 0 <= k < |t| ==> IsAddressChar(t[k])
  }

  /**
   * `isValidEmail` / `validEmail`: the regular expression matches the whole
   * string. Backtracking tries every split `run '@' run '.' run`, so the test
   * holds iff some split works.
   */
  predicate IsValidEmail(s: string): (valid: bool)
    ensures valid ==> |s| >= 5 && s[0] != '@' && s[|s| - 1] != '@'
  {
    exists i, j | 0 < i < j < |s| ::
      s[i] == '@' && s[j] == '.' && IsRun(s[..i]) && IsRun(s[i + 1..j]) && IsRun(s[j + 1..])
  }

  /** The only '@' in `s` is at index `i`. */
  predicate OnlyAtSignAt(s: string, i: int) {
    forall m :: 0 <= m < |s| && s[m] == '@' ==> m == i
  }

  /** A '.' that is neither the first nor the last character. */
  predicate HasInnerDot(d: string) {
    exists k | 0 < k < |d| - 1 :: d[k] == '.'
  }

  /**
   * The same language described by its parts: no whitespace anywhere, exactly
   * one '@', a non-empty local part before it, and a domain after it holding a
   * '.' that is neither its first nor its last character.
   */
  predicate HasAddressShape(s: string) {
    NoWhitespace(s) &&
    exists i | 0 < i < |s| :: s[i] == '@' && OnlyAtSignAt(s, i) && HasInnerDot(s[i + 1..])
  }

  /** A slice is a run exactly when it is non-empty and every character in it is an address character. */
  lemma RunSlice(s: string, a: int, b: int)
    requires 0 <= a <= b <= |s|
    ensures IsRun(s[a..b]) <==> a < b && forall m :: a <= m < b ==> IsAddressChar(s[m])
  {
    var t := s[a..b];
    assert forall m :: a <= m < b ==> s[m] == t[m - a];
  }

  /** The two separators of the pattern are not whitespace. */
  lemma SeparatorsAreNotWhitespace()
    ensures !IsWhitespace('@') && !IsWhitespace('.')
  {
  }

  lemma MatchHasShape(s: string)
    requires IsValidEmail(s)
    ensures HasAddressShape(s)
  {
    var i, j :| 0 < i < j < |s| && s[i] == '@' && s[j] == '.' &&
      IsRun(s[..i]) && IsRun(s[i + 1..j]) && IsRun(s[j + 1..]);
    RunSlice(s, 0, i);
    RunSlice(s, i + 1, j);
    RunSlice(s, j + 1, |s|);
    assert s[..i] == s[0..i] && s[j + 1..] == s[j + 1..|s|];
    SeparatorsAreNotWhitespace();
    assert NoWhitespace(s) && OnlyAtSignAt(s, i) by {
      forall m | 0 <= m < |s|
        ensures !IsWhitespace(s[m]) && (s[m] == '@' ==> m == i)
      {
        if m != i && m != j {
          assert IsAddressChar(s[m]);
        }
      }
    }
    var d := s[i + 1..];
    assert 0 < j - i - 1 < |d| - 1 && d[j - i - 1] == '.';
    assert HasInnerDot(d);
  }

  lemma ShapeHasMatch(s: string)
    requires HasAddressShape(s)
    ensures IsValidEmail(s)
  {
    var i :| 0 < i < |s| && s[i] == '@' && OnlyAtSignAt(s, i) && HasInnerDot(s[i + 1..]);
    var d := s[i + 1..];
    var k :| 0 < k < |d| - 1 && d[k] == '.';
    var j := i + 1 + k;
    assert s[j] == d[k];
    assert forall m :: 0 <= m < |s| && m != i ==> IsAddressChar(s[m]);
    RunSlice(s, 0, i);
    RunSlice(s, i + 1, j);
    RunSlice(s, j + 1, |s|);
    assert s[..i] == s[0..i] && s[j + 1..] == s[j + 1..|s|];
    assert IsRun(s[..i]) && IsRun(s[i + 1..j]) && IsRun(s[j + 1..]);
  }

  lemma ValidEmailIffShape(s: string)
    ensures IsValidEmail(s) <==> HasAddressShape(s)
  {
    if IsValidEmail(s) {
      MatchHasShape(s);
    }
    if HasAddressShape(s) {
      ShapeHasMatch(s);
    }
  }

  /** The empty string is never a valid address, so `!email || !isValidEmail(email)` is just `!isValidEmail(email)`. */
  lemma EmptyIsInvalid()
    ensures !IsValidEmail("")
  {
  }

  /** A string without a '.' never matches. */
  lemma NoDotIsInvalid(s: string)
    requires forall m :: 0 <= m < |s| ==> s[m] != '.'
    ensures !IsValidEmail(s)
  {
  }

  /** A string whose only '@' is its first character never matches: the local part would be empty. */
  lemma LeadingAtSignIsInvalid(s: string)
    requires forall m :: 0 < m < |s| ==> s[m] != '@'
    ensures !IsValidEmail(s)
  {
  }

  /** Lower-case ASCII letters are address characters. */
  lemma LowercaseRun(t: string)
    requires |t| > 0 && forall k :: 0 <= k < |t| ==> 'a' <= t[k] <= 'z'
    ensures IsRun(t)
  {
  }

  /** A plain address is accepted. */
  lemma AcceptedExample()
    ensures IsValidEmail("user@example.com")
  {
    var s := "user@example.com";
    assert s[4] == '@' && s[12] == '.';
    assert s[..4] == "user" && s[5..12] == "example" && s[13..] == "com";
    LowercaseRun("user");
    LowercaseRun("example");
    LowercaseRun("com");
  }

  /** A missing domain, a domain without a dot, an empty local part and the empty string are rejected. */
  lemma RejectedExamples()
    ensures !IsValidEmail("user@")
    ensures !IsValidEmail("user@example")
    ensures !IsValidEmail("@example.com")
    ensures !IsValidEmail("")
  {
    NoDotIsInvalid("user@");
    NoDotIsInvalid("user@example");
    LeadingAtSignIsInvalid("@example.com");
  }
}
