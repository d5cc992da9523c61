/**
 * The password policy of `PasswordValidator.isValidPassword`: a single Java
 * regular expression matched against the whole password with `matches()`.
 *
 * `RegexMatches` follows the structure of the pattern, one predicate per
 * group, with Java's default (no flags) meaning of `.`, `\s`, `\d` and `$`.
 * `MeetsPolicy` is the flat character-class statement of the same policy.
 * The lemma `RegexMatchesIffPolicy` proves them equivalent, and the method
 * `IsValidPassword` decides the policy in one pass over the password.
 *
 * A password is a sequence of Unicode code points, which is also the unit
 * Java's regex engine steps over (a surrogate pair is one `.`).
 */
module PasswordPolicy {

  /** The minimum length, from `.{8,}`. */
  const MinLength: nat := 8

  /** Java's `\s` without UNICODE_CHARACTER_CLASS: `[ \t\n\x0B\f\r]`. */
  predicate IsWhitespace(c: char) {
    c == ' ' || c == '\t' || c == '\n' || c == '\U{000B}' || c == '\U{000C}' || c == '\r'
  }

  /** The line terminators Java's `.` refuses when neither DOTALL nor UNIX_LINES is set. */
  predicate IsLineTerminator(c: char) {
    c == '\n' || c == '\r' || c == '\U{0085}' || c == '\U{2028}' || c == '\U{2029}'
  }

  /** What one `.` matches. */
  predicate IsDot(c: char) {
    !IsLineTerminator(c)
  }

  /** The four character classes the lookaheads demand. */
  datatype Requirement = Lower | Upper | Digit | Special

  /** `[a-z]`, `[A-Z]`, `\d` (ASCII only without flags) and `[@#$%^&+=!]`. */
  predicate Satisfies(c: char, k: Requirement) {
    match k
    case Lower => 'a' <= c <= 'z'
    case Upper => 'A' <= c <= 'Z'
    case Digit => '0' <= c <= '9'
    case Special => c == '@' || c == '#' || c == '$' || c == '%' || c == '^' || c == '&' || c == '+' || c == '=' || c == '!'
  }

  // ---------------------------------------------------------------------
  // The pattern `^(?=.*[a-z])(?=.*[A-Z])(?=.*\d)(?=.*[@#$%^&+=!])(?=\S+$).{8,}$`,
  // group by group. `^` pins every lookahead to position 0.
  // ---------------------------------------------------------------------

  /** Every character before position `j` is matched by `.`. */
  predicate DotsUpTo(s: string, j: nat)
    requires j <= |s|
  {
    forall i :: 0 <= i < j ==> IsDot(s[i])
  }

  /** Every character before position `k` is matched by `\S`. */
  predicate NonSpaceUpTo(s: string, k: nat)
    requires k <= |s|
  {
    forall i :: 0 <= i < k ==> !IsWhitespace(s[i])
  }

  /** `(?=.*X)` at position 0: `.*` reaches some character of class X. */
  predicate LookaheadDotStar(s: string, k: Requirement) {
    exists j :: 0 <= j < |s| && DotsUpTo(s, j) && Satisfies(s[j], k)
  }

  /**
   * Java's `$` without MULTILINE at position `i`: the end of input, or just
   * before a line terminator that ends the input (but not between the `\r`
   * and `\n` of a final `\r\n`), or just before a final `\r\n`.
   */
  predicate DollarAt(s: string, i: nat)
    requires i <= |s|
  {
    || i == |s|
    || (i == |s| - 1 && IsLineTerminator(s[i]) && !(s[i] == '\n' && i > 0 && s[i - 1] == '\r'))
    || (i == |s| - 2 && s[i] == '\r' && s[i + 1] == '\n')
  }

  /** `(?=\S+$)` at position 0. */
  predicate LookaheadNonSpacePlusDollar(s: string) {
    exists k :: 1 <= k <= |s| && NonSpaceUpTo(s, k) && DollarAt(s, k)
  }

  /**
   * `.{8,}$` under `matches()`: the consumed part must end where the input
   * ends, so `.` must match all of it.
   */
  predicate DotsToEnd(s: string) {
    |s| >= MinLength && DotsUpTo(s, |s|) && DollarAt(s, |s|)
  }

  /** `Pattern.compile(regex).matcher(s).matches()`. */
  predicate RegexMatches(s: string) {
    && LookaheadDotStar(s, Lower)
    && LookaheadDotStar(s, Upper)
    && LookaheadDotStar(s, Digit)
    && LookaheadDotStar(s, Special)
    && LookaheadNonSpacePlusDollar(s)
    && DotsToEnd(s)
  }

  // ---------------------------------------------------------------------
  // The policy as a conjunction of character-class conditions.
  // ---------------------------------------------------------------------

  /** Some character of `s` belongs to class `k`. */
  predicate Contains(s: string, k: Requirement) {
    exists i :: 0 <= i < |s| && Satisfies(s[i], k)
  }

  /** No character of `s` is whitespace or a line terminator. */
  predicate FreeOfBlanks(s: string) {
    forall i :: 0 <= i < |s| ==> !IsWhitespace(s[i]) && !IsLineTerminator(s[i])
  }

  /** At least 8 characters, one of each class, no blank anywhere, no upper bound. */
  predicate MeetsPolicy(s: string) {
    && |s| >= MinLength
    && Contains(s, Lower)
    && Contains(s, Upper)
    && Contains(s, Digit)
    && Contains(s, Special)
    && FreeOfBlanks(s)
  }

  /** Once no character is a line terminator, `$` holds only at the very end. */
  lemma DollarOnlyAtEnd(s: string, k: nat)
    requires k <= |s|
    requires DotsUpTo(s, |s|)
    requires DollarAt(s, k)
    ensures k == |s|
  {
  }

  /** The regular expression accepts exactly the passwords the policy describes. */
  lemma RegexMatchesIffPolicy(s: string)
    ensures RegexMatches(s) <==> MeetsPolicy(s)
  {
    if RegexMatches(s) {
      var k :| 1 <= k <= |s| && NonSpaceUpTo(s, k) && DollarAt(s, k);
      DollarOnlyAtEnd(s, k);
      forall r: Requirement ensures Contains(s, r) {
        var j :| 0 <= j < |s| && DotsUpTo(s, j) && Satisfies(s[j], r);
      }
      assert FreeOfBlanks(s);
    }
    if MeetsPolicy(s) {
      forall r: Requirement ensures LookaheadDotStar(s, r) {
        var j :| 0 <= j < |s| && Satisfies(s[j], r);
        assert DotsUpTo(s, j);
      }
      assert NonSpaceUpTo(s, |s|) && DollarAt(s, |s|);
    }
  }

  /**
   * `isValidPassword`: one scan that records which classes were seen and
   * whether a blank occurred.
   */
  method IsValidPassword(password: string) returns (valid: bool)
    ensures valid <==> MeetsPolicy(password)
    ensures valid <==> RegexMatches(password)
    ensures |password| < MinLength ==> !valid
    ensures !Contains(password, Lower) ==> !valid
    ensures !Contains(password, Upper) ==> !valid
    ensures !Contains(password, Digit) ==> !valid
    ensures !Contains(password, Special) ==> !valid
    ensures (exists i :: 0 <= i < |password| && (IsWhitespace(password[i]) || IsLineTerminator(password[i]))) ==> !valid
  {
    var lower, upper, digit, special, blank := false, false, false, false, false;
    var i := 0;
    while i < |password|
      invariant 0 <= i <= |password|
      invariant lower <==> exists j :: 0 <= j < i && Satisfies(password[j], Lower)
      invariant upper <==> exists j :: 0 <= j < i && Satisfies(password[j], Upper)
      invariant digit <==> exists j :: 0 <= j < i && Satisfies(password[j], Digit)
      invariant special <==> exists j :: 0 <= j < i && Satisfies(password[j], Special)
      invariant blank <==> exists j :: 0 <= j < i && (IsWhitespace(password[j]) || IsLineTerminator(password[j]))
    {
      var c := password[i];
      lower := lower || Satisfies(c, Lower);
      upper := upper || Satisfies(c, Upper);
      digit := digit || Satisfies(c, Digit);
      special := special || Satisfies(c, Special);
      blank := blank || IsWhitespace(c) || IsLineTerminator(c);
      i := i + 1;
    }
    valid := |password| >= MinLength && lower && upper && digit && special && !blank;
    RegexMatchesIffPolicy(password);
  }

  /** The sample password of `PasswordValidator.main` is accepted. */
  lemma SamplePasswordAccepted()
    ensures RegexMatches("StrongP@ss1")
  {
    var s := "StrongP@ss1";
    assert Satisfies(s[1], Lower) && Satisfies(s[0], Upper);
    assert Satisfies(s[10], Digit) && Satisfies(s[7], Special);
    assert FreeOfBlanks(s) by {
      forall i | 0 <= i < |s| ensures !IsWhitespace(s[i]) && !IsLineTerminator(s[i]) { }
    }
    assert MeetsPolicy(s);
    RegexMatchesIffPolicy(s);
  }

  /** Non-ASCII lower-case letters do not satisfy `[a-z]`. */
  lemma NonAsciiLowerDoesNotCount()
    ensures !RegexMatches("PÄSSWÖRT1@ä")
  {
  }

  /**
   * A final line terminator is refused even though `$` may match before it
   * and U+2028 is not a `\s` character.
   */
  lemma TrailingLineTerminatorRejected()
    ensures !RegexMatches("StrongP@ss1\U{2028}")
    ensures !RegexMatches("StrongP@ss1\n")
  {
    var s := "StrongP@ss1\U{2028}";
    assert !IsDot(s[11]);
    var t := "StrongP@ss1\n";
    assert !IsDot(t[11]);
  }
}
