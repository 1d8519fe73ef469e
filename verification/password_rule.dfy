/**
 * The password pattern shared by the registration form and the server-side
 * `RegisterDto`:
 *
 *   /((?=.*\d)|(?=.*\W+))(?![.\n])(?=.*[A-Z])(?=.*[a-z]).*$/
 *
 * used with `test`, so without `^` it may match from any position. At a start
 * position i every lookahead reads the rest of the string up to the first line
 * terminator, and `.*$` must then reach the end of the input, so the suffix
 * from i must be one line. The rule is stated here as that search, and its
 * meaning is proved as lemmas.
 *
 * JavaScript runs the pattern over UTF-16 code units; here it runs over
 * characters. A character above U+FFFF and each half of its surrogate pair are
 * all matched by `\W` and none is '.' or a line terminator, so both readings
 * give the same answer.
 */
module PasswordRule {
  import opened Common

  predicate HasUpper(s: string) { exists i :: 0 <= i < |s| && IsUpper(s[i]) }
  predicate HasLower(s: string) { exists i :: 0 <= i < |s| && IsLower(s[i]) }
  predicate HasDigit(s: string) { exists i :: 0 <= i < |s| && IsDigit(s[i]) }

  /** Some character is matched by `\W`. */
  predicate HasNonWord(s: string) { exists i :: 0 <= i < |s| && !IsWordChar(s[i]) }

  predicate SingleLine(s: string) { forall i :: 0 <= i < |s| ==> !IsLineTerminator(s[i]) }

  /** What the error message asks for: an uppercase and a lowercase letter, and a digit or a special character. */
  predicate HasRequiredClasses(s: string) {
    HasUpper(s) && HasLower(s) && (HasDigit(s) || HasNonWord(s))
  }

  /** The pattern matches starting at position i. */
  function MatchesAt(s: string, i: int): (b: bool)
    requires 0 <= i <= |s|
    // a match needs a character to start at, and the whole text then has the three classes
    ensures b ==> i < |s| && HasRequiredClasses(s)
  {
    if && SingleLine(s[i..])                              // `.*$`
       && (i < |s| ==> s[i] != '.' && s[i] != '\n')       // `(?![.\n])`
       && HasRequiredClasses(s[i..])                      // the three lookaheads
    then
      ClassesOfSuffix(s, 0, i);
      assert s[0..] == s;
      true
    else false
  }

  /** `passwordRegex.test(s)`. */
  function Matches(s: string): (b: bool)
    ensures b ==> s != "" && HasRequiredClasses(s)
  {
    exists i :: 0 <= i <= |s| && MatchesAt(s, i)
  }

  /** The number of '.' characters the string starts with. */
  function LeadingDots(s: string): (n: nat)
    ensures n <= |s|
    ensures forall i :: 0 <= i < n ==> s[i] == '.'
    ensures n < |s| ==> s[n] != '.'
  {
    if s != [] && s[0] == '.' then
      var n := 1 + LeadingDots(s[1..]);
      assert forall i :: 1 <= i < n ==> s[i] == s[1..][i - 1];
      n
    else 0
  }

  /** A longer suffix keeps every character class of a shorter one. */
  lemma ClassesOfSuffix(s: string, j: nat, i: nat)
    requires j <= i <= |s| && HasRequiredClasses(s[i..])
    ensures HasRequiredClasses(s[j..])
  {
    forall k | 0 <= k < |s[i..]| ensures s[i..][k] == s[j..][k + i - j] { }
    var u :| 0 <= u < |s[i..]| && IsUpper(s[i..][u]);
    assert IsUpper(s[j..][u + i - j]);
    var l :| 0 <= l < |s[i..]| && IsLower(s[i..][l]);
    assert IsLower(s[j..][l + i - j]);
    if HasDigit(s[i..]) {
      var d :| 0 <= d < |s[i..]| && IsDigit(s[i..][d]);
      assert IsDigit(s[j..][d + i - j]);
    } else {
      var w :| 0 <= w < |s[i..]| && !IsWordChar(s[i..][w]);
      assert !IsWordChar(s[j..][w + i - j]);
    }
  }

  /**
   * On a one-line password the pattern holds exactly when the part after the
   * leading dots has the three character classes.
   */
  lemma SingleLineMatches(s: string)
    requires SingleLine(s)
    ensures Matches(s) <==> HasRequiredClasses(s[LeadingDots(s)..])
  {
    var j := LeadingDots(s);
    if HasRequiredClasses(s[j..]) {
      var u :| 0 <= u < |s[j..]| && IsUpper(s[j..][u]);
      assert j < |s|;
      assert MatchesAt(s, j);
    }
    if Matches(s) {
      var i :| 0 <= i <= |s| && MatchesAt(s, i);
      var u :| 0 <= u < |s[i..]| && IsUpper(s[i..][u]);
      assert i < |s| && s[i] != '.';
      assert j <= i;
      ClassesOfSuffix(s, j, i);
    }
  }

  /** For a one-line password that does not start with '.', the pattern is just the three classes. */
  lemma PlainPasswordMatches(s: string)
    requires SingleLine(s) && (s == [] || s[0] != '.')
    ensures Matches(s) <==> HasRequiredClasses(s)
  {
    SingleLineMatches(s);
    assert LeadingDots(s) == 0;
    assert s[0..] == s;
  }

  /**
   * A leading dot is not counted: ".Abcdefg" has all three classes (the dot is
   * the special character) and is still refused.
   */
  lemma LeadingDotRefused()
    ensures HasRequiredClasses(".Abcdefg") && !Matches(".Abcdefg")
  {
    var s := ".Abcdefg";
    var rest := "Abcdefg";
    assert !IsWordChar(s[0]) && IsUpper(s[1]) && IsLower(s[2]);
    assert SingleLine(s);
    assert LeadingDots(s) == 1 by {
      assert s[1..] == rest;
      assert LeadingDots(rest) == 0;
    }
    assert s[1..] == rest;
    assert forall k :: 0 <= k < |rest| ==> IsWordChar(rest[k]) && !IsDigit(rest[k]);
    SingleLineMatches(s);
  }
}
