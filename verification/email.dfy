/** The email check of the contact: PHP's falsy test followed by the
    unanchored regular expression `.+@.+\..+` in UTF-8 mode. Strings are
    sequences of code points; `.` matches every code point except the line
    feed. */
module Email {
  import Php

  /** The pattern matches with its `@` at `i` and its `.` at `k`: one character
      before the `@`, at least one between the `@` and the `.`, one after the
      `.`, and no line feed from the first of these to the last. */
  predicate MatchAt(s: string, i: int, k: int) {
    && 1 <= i && i + 2 <= k && k + 1 < |s|
    && s[i] == '@' && s[k] == '.'
    && forall j :: i - 1 <= j <= k + 1 ==> s[j] != '\n'
  }

  /** `preg_match("/.+@.+\..+/u", s)`: some substring of `s` matches. */
  predicate PatternMatches(s: string) {
    exists i, k | 0 <= i < |s| && 0 <= k < |s| :: MatchAt(s, i, k)
  }

  /** `validateEmail`: the address is truthy and the pattern matches. */
  predicate ValidEmail(s: string) {
    !Php.Falsy(s) && PatternMatches(s)
  }

  /** A single left-to-right pass deciding the pattern: it remembers the
      earliest `@` of the current line that has a character before it, and
      accepts at the first `.` far enough after it with a character following
      on the same line. */
  method Matches(s: string) returns (b: bool)
    ensures b <==> PatternMatches(s)
  {
    var lineStart := 0;
    var at := -1;
    var j := 0;
    while j < |s|
      invariant 0 <= lineStart <= j <= |s|
      invariant lineStart == 0 || s[lineStart - 1] == '\n'
      invariant forall t :: lineStart <= t < j ==> s[t] != '\n'
      invariant at == -1 ==> forall t :: lineStart + 1 <= t < j ==> s[t] != '@'
      invariant at != -1 ==> lineStart + 1 <= at < j && s[at] == '@'
      invariant at != -1 ==> forall t :: lineStart + 1 <= t < at ==> s[t] != '@'
      invariant forall i, k :: 0 <= k < j ==> !MatchAt(s, i, k)
    {
      if s[j] == '\n' {
        lineStart := j + 1;
        at := -1;
      } else if s[j] == '@' {
        if at == -1 && lineStart + 1 <= j {
          at := j;
        }
      } else if s[j] == '.' && at != -1 && at + 2 <= j && j + 1 < |s| && s[j + 1] != '\n' {
        assert MatchAt(s, at, j);
        return true;
      }
      j := j + 1;
    }
    return false;
  }

  /** The falsy test adds nothing: "" and "0" never match the pattern. */
  lemma FalsyNeverMatches(s: string)
    ensures ValidEmail(s) <==> PatternMatches(s)
  {
  }

  /** A string with no `@` is rejected. */
  lemma NoAtRejected(s: string)
    requires forall t :: 0 <= t < |s| ==> s[t] != '@'
    ensures !ValidEmail(s)
  {
  }

  /** A string with no `.` after any `@` is rejected. */
  lemma NoDotAfterAtRejected(s: string)
    requires forall i, k :: 0 <= i < k < |s| && s[i] == '@' ==> s[k] != '.'
    ensures !ValidEmail(s)
  {
  }

  predicate NoLineFeed(s: string) {
    forall t :: 0 <= t < |s| ==> s[t] != '\n'
  }

  /** `local@domain.tld` with non-empty parts free of line feeds is accepted. */
  lemma ShapeAccepted(local: string, domain: string, tld: string)
    requires |local| >= 1 && |domain| >= 1 && |tld| >= 1
    requires NoLineFeed(local) && NoLineFeed(domain) && NoLineFeed(tld)
    ensures ValidEmail(local + "@" + domain + "." + tld)
  {
    var s := local + "@" + domain + "." + tld;
    var i := |local|;
    var k := |local| + 1 + |domain|;
    assert s[i] == '@' && s[k] == '.';
    assert forall j :: i - 1 <= j <= k + 1 ==> s[j] != '\n' by {
      forall j | i - 1 <= j <= k + 1 ensures s[j] != '\n' {
        if j < i {
          assert s[j] == local[j];
        } else if i < j < k {
          assert s[j] == domain[j - i - 1];
        } else if j == k + 1 {
          assert s[j] == tld[0];
        }
      }
    }
    assert MatchAt(s, i, k);
  }

  /** The pattern is not anchored: text around an accepted address keeps it accepted. */
  lemma SurroundingTextAccepted(prefix: string, s: string, suffix: string)
    requires ValidEmail(s)
    ensures ValidEmail(prefix + s + suffix)
  {
    var i, k :| 0 <= i < |s| && 0 <= k < |s| && MatchAt(s, i, k);
    var w := prefix + s + suffix;
    var p := |prefix|;
    assert forall j :: 0 <= j < |s| ==> w[p + j] == s[j];
    assert MatchAt(w, p + i, p + k);
  }

  /** A line feed right before the `@` breaks the match, though every part is non-empty. */
  lemma LineFeedBeforeAtRejected()
    ensures !ValidEmail("a\n@b.c")
  {
    var s := "a\n@b.c";
    forall i, k | 0 <= i < |s| && 0 <= k < |s| ensures !MatchAt(s, i, k) {
      if s[i] == '@' {
        assert i == 2 && s[1] == '\n';
      }
    }
  }
}
