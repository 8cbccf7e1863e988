/**
 * The contact form's e-mail check, `isValidEmail`, which tests the trimmed address against
 * the pattern ^[a-zA-Z0-9._%+-]+@[a-zA-Z0-9.-]+\.[a-zA-Z]{2,}$ (no flags).
 */
module Email {
  import opened Options

  predicate IsAsciiLetter(c: char) {
    'a' <= c <= 'z' || 'A' <= c <= 'Z'
  }

  predicate IsAsciiDigit(c: char) {
    '0' <= c <= '9'
  }

  /** The class [a-zA-Z0-9._%+-] of the local part. */
  predicate IsLocalChar(c: char) {
    IsAsciiLetter(c) || IsAsciiDigit(c) || c == '.' || c == '_' || c == '%' || c == '+' || c == '-'
  }

  /** The class [a-zA-Z0-9.-] of the domain. */
  predicate IsDomainChar(c: char) {
    IsAsciiLetter(c) || IsAsciiDigit(c) || c == '.' || c == '-'
  }

  predicate AllLocal(s: string) {
    forall k | 0 <= k < |s| :: IsLocalChar(s[k])
  }

  predicate AllDomain(s: string) {
    forall k | 0 <= k < |s| :: IsDomainChar(s[k])
  }

  predicate AllLetters(s: string) {
    forall k | 0 <= k < |s| :: IsAsciiLetter(s[k])
  }

  /**
   * The reading of the pattern that a backtracking matcher finds: `s` is split at the `@`
   * at index `at` and the `.` at index `dot` into a local part of one or more local
   * characters, a domain of one or more domain characters and a top-level domain of two
   * or more letters running to the end of the string.
   */
  ghost predicate SplitsAsEmail(s: string, at: int, dot: int) {
    && 1 <= at && at + 2 <= dot && dot + 3 <= |s|
    && s[at] == '@' && s[dot] == '.'
    && AllLocal(s[..at]) && AllDomain(s[at + 1..dot]) && AllLetters(s[dot + 1..])
  }

  /** The language of the pattern. */
  ghost predicate MatchesEmailPattern(s: string) {
    exists at, dot :: SplitsAsEmail(s, at, dot)
  }

  /** The first index of `c` in `s`. */
  function IndexOf(s: string, c: char): (r: Option<nat>)
    ensures r.Some? ==> r.value < |s| && s[r.value] == c && c !in s[..r.value]
    ensures r.None? ==> c !in s
  {
    if s == [] then None
    else if s[0] == c then Some(0)
    else
      match IndexOf(s[1..], c)
      case None => None
      case Some(i) =>
        assert s[..i + 1] == [s[0]] + s[1..][..i];
        Some(i + 1)
  }

  /** The last index of `c` in `s`. */
  function LastIndexOf(s: string, c: char): (r: Option<nat>)
    ensures r.Some? ==> r.value < |s| && s[r.value] == c && c !in s[r.value + 1..]
    ensures r.None? ==> c !in s
  {
    if s == [] then None
    else if s[|s| - 1] == c then Some(|s| - 1)
    else
      var r := LastIndexOf(s[..|s| - 1], c);
      assert r.Some? ==> s[r.value + 1..] == s[..|s| - 1][r.value + 1..] + [s[|s| - 1]];
      assert s == s[..|s| - 1] + [s[|s| - 1]];
      r
  }

  /** The part after the `@`: a domain, then a final `.` and at least two letters. */
  predicate IsDomainAndTld(d: string) {
    match LastIndexOf(d, '.')
    case None => false
    case Some(dot) => 1 <= dot && dot + 3 <= |d| && AllDomain(d[..dot]) && AllLetters(d[dot + 1..])
  }

  /**
   * The pattern test written out by hand: none of the three character classes after the
   * local part contains `@`, so the only `@` is the first one; the top-level domain holds
   * no `.`, so the dot that ends the domain is the last one.
   */
  predicate IsValidEmail(s: string) {
    match IndexOf(s, '@')
    case None => false
    case Some(at) => 1 <= at && AllLocal(s[..at]) && IsDomainAndTld(s[at + 1..])
  }

  /** The hand-written test accepts exactly the language of the pattern. */
  lemma IsValidEmailMatchesPattern(s: string)
    ensures IsValidEmail(s) <==> MatchesEmailPattern(s)
  {
    if IsValidEmail(s) {
      ValidEmailIsMatch(s);
    }
    if MatchesEmailPattern(s) {
      var at, dot :| SplitsAsEmail(s, at, dot);
      MatchIsValidEmail(s, at, dot);
    }
  }

  lemma ValidEmailIsMatch(s: string)
    requires IsValidEmail(s)
    ensures MatchesEmailPattern(s)
  {
    var at := IndexOf(s, '@').value;
    var d := s[at + 1..];
    var dot := LastIndexOf(d, '.').value;
    assert d[..dot] == s[at + 1..at + 1 + dot];
    assert d[dot + 1..] == s[at + 1 + dot + 1..];
    assert SplitsAsEmail(s, at, at + 1 + dot);
  }

  lemma MatchIsValidEmail(s: string, at: int, dot: int)
    requires SplitsAsEmail(s, at, dot)
    ensures IsValidEmail(s)
  {
    AtIsFirst(s, at);
    DomainAndTldAfterAt(s, at, dot);
  }

  lemma AtIsFirst(s: string, at: nat)
    requires at < |s| && s[at] == '@' && AllLocal(s[..at])
    ensures IndexOf(s, '@') == Some(at)
  {
  }

  lemma DomainAndTldAfterAt(s: string, at: int, dot: int)
    requires SplitsAsEmail(s, at, dot)
    ensures IsDomainAndTld(s[at + 1..])
  {
    var d := s[at + 1..];
    var j := dot - at - 1;
    forall k | j < k < |d| ensures d[k] != '.' {
      assert d[k] == s[dot + 1..][k - j - 1];
    }
    LastIndexIs(d, '.', j);
    assert d[..j] == s[at + 1..dot];
    assert d[j + 1..] == s[dot + 1..];
  }

  /** Every string the test accepts holds exactly one `@`. */
  lemma ValidEmailHasOneAt(s: string)
    requires IsValidEmail(s)
    ensures exists at | 0 <= at < |s| :: s[at] == '@' && forall k | 0 <= k < |s| :: s[k] == '@' <==> k == at
  {
  }

  /** The index search finds the first occurrence, and no other. */
  lemma FirstIndexIs(s: string, c: char, i: nat)
    requires i < |s| && s[i] == c
    requires forall k | 0 <= k < i :: s[k] != c
    ensures IndexOf(s, c) == Some(i)
  {
  }

  /** The backward index search finds the last occurrence, and no other. */
  lemma LastIndexIs(s: string, c: char, i: nat)
    requires i < |s| && s[i] == c
    requires forall k | i < k < |s| :: s[k] != c
    ensures LastIndexOf(s, c) == Some(i)
  {
  }
}
