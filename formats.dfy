/**
 * The field formats shared by the registration page, the account routes and the User schema.
 * Each is the JavaScript regular expression written out over characters:
 *   password   /^(?=.*[a-z])(?=.*[A-Z])(?=.*\d)(?=.*[!@#$%^&*()_+])[A-Za-z\d!@#$%^&*()_+]{6,}$/
 *   student id /^202\d{6}$/
 *   email      /^[^\s@]+@[^\s@]+\.[^\s@]+$/
 *   mobile     /^1[3-9]\d{9}$/
 */
module Formats {
  import Sequences

  /** `\d` in a JavaScript regular expression. */
  predicate IsDigit(c: char) { '0' <= c <= '9' }

  predicate IsLower(c: char) { 'a' <= c <= 'z' }

  predicate IsUpper(c: char) { 'A' <= c <= 'Z' }

  /** The symbol class `[!@#$%^&*()_+]` of the password rule. */
  predicate IsPasswordSymbol(c: char) {
    c == '!' || c == '@' || c == '#' || c == '$' || c == '%' || c == '^' ||
    c == '&' || c == '*' || c == '(' || c == ')' || c == '_' || c == '+'
  }

  /** `[A-Za-z\d!@#$%^&*()_+]`. */
  predicate IsPasswordChar(c: char) {
    IsLower(c) || IsUpper(c) || IsDigit(c) || IsPasswordSymbol(c)
  }

  /** The characters `.` does not match: the ECMAScript line terminators. */
  predicate IsLineTerminator(c: char) {
    c == '\n' || c == '\r' || c == '\U{2028}' || c == '\U{2029}'
  }

  /** `\s` in ECMAScript: white space and line terminators. */
  predicate IsJsSpace(c: char) {
    c == '\t' || c == '\n' || c == '\U{000B}' || c == '\U{000C}' || c == '\r' || c == ' ' ||
    c == '\U{00A0}' || c == '\U{1680}' || ('\U{2000}' <= c <= '\U{200A}') ||
    c == '\U{2028}' || c == '\U{2029}' || c == '\U{202F}' || c == '\U{205F}' ||
    c == '\U{3000}' || c == '\U{FEFF}'
  }

  /** `[^\s@]`. */
  predicate IsEmailChar(c: char) { !IsJsSpace(c) && c != '@' }

  /** `\d*` anchored at both ends, matched left to right. */
  function Digits(s: string): (ok: bool)
    ensures ok <==> forall k :: 0 <= k < |s| ==> IsDigit(s[k])
  {
    if s == [] then true else IsDigit(s[0]) && Digits(s[1..])
  }

  /** `/^202\d{6}$/.test(s)`: the student number format. */
  function ValidStudentId(s: string): (ok: bool)
    ensures ok <==> |s| == 9 && s[0] == '2' && s[1] == '0' && s[2] == '2' &&
                    forall k :: 3 <= k < 9 ==> IsDigit(s[k])
  {
    |s| == 9 && s[..3] == "202" && Digits(s[3..])
  }

  /** `/^1[3-9]\d{9}$/.test(s)`: the mainland mobile number format. */
  function ValidPhone(s: string): (ok: bool)
    ensures ok <==> |s| == 11 && s[0] == '1' && '3' <= s[1] <= '9' &&
                    forall k :: 0 <= k < |s| ==> IsDigit(s[k])
  {
    |s| == 11 && s[0] == '1' && '3' <= s[1] <= '9' && Digits(s[2..])
  }

  /** `[A-Za-z\d!@#$%^&*()_+]*` anchored at both ends. */
  function PasswordChars(s: string): (ok: bool)
    ensures ok <==> forall k :: 0 <= k < |s| ==> IsPasswordChar(s[k])
  {
    if s == [] then true else IsPasswordChar(s[0]) && PasswordChars(s[1..])
  }

  /** The lookahead `(?=.*[class])` at the start of `s`: a class character after a run of non-terminators. */
  function Lookahead(s: string, inClass: char -> bool): bool
  {
    s != [] && (inClass(s[0]) || (!IsLineTerminator(s[0]) && Lookahead(s[1..], inClass)))
  }

  lemma {:induction false} LookaheadOverPasswordChars(s: string, inClass: char -> bool)
    requires forall k :: 0 <= k < |s| ==> IsPasswordChar(s[k])
    ensures Lookahead(s, inClass) <==> exists k :: 0 <= k < |s| && inClass(s[k])
  {
    if s != [] {
      LookaheadOverPasswordChars(s[1..], inClass);
      if exists k :: 0 <= k < |s| && inClass(s[k]) {
        var k :| 0 <= k < |s| && inClass(s[k]);
        if k > 0 { assert inClass(s[1..][k - 1]); }
      }
      if exists k :: 0 <= k < |s[1..]| && inClass(s[1..][k]) {
        var k :| 0 <= k < |s[1..]| && inClass(s[1..][k]);
        assert inClass(s[k + 1]);
      }
    }
  }

  /** The password regular expression, evaluated the way it is written: four lookaheads, then the run. */
  function ValidPassword(p: string): (ok: bool)
    ensures ok <==>
      |p| >= 6 &&
      (forall k :: 0 <= k < |p| ==> IsPasswordChar(p[k])) &&
      (exists k :: 0 <= k < |p| && IsLower(p[k])) &&
      (exists k :: 0 <= k < |p| && IsUpper(p[k])) &&
      (exists k :: 0 <= k < |p| && IsDigit(p[k])) &&
      (exists k :: 0 <= k < |p| && IsPasswordSymbol(p[k]))
  {
    var run := |p| >= 6 && PasswordChars(p);
    if run then
      LookaheadOverPasswordChars(p, IsLower);
      LookaheadOverPasswordChars(p, IsUpper);
      LookaheadOverPasswordChars(p, IsDigit);
      LookaheadOverPasswordChars(p, IsPasswordSymbol);
      Lookahead(p, IsLower) && Lookahead(p, IsUpper) && Lookahead(p, IsDigit) && Lookahead(p, IsPasswordSymbol)
    else false
  }

  predicate AllEmailChars(s: string) {
    forall k :: 0 <= k < |s| ==> IsEmailChar(s[k])
  }

  /** The domain part `[^\s@]+\.[^\s@]+`: no blank or '@', and a '.' that is neither first nor last. */
  predicate ValidDomain(d: string) {
    AllEmailChars(d) && exists i :: 0 < i < |d| - 1 && d[i] == '.'
  }

  /**
   * `/^[^\s@]+@[^\s@]+\.[^\s@]+$/.test(s)`, read over characters: the text before the first '@'
   * is a non-empty local part and the text after it is a valid domain.
   */
  predicate ValidEmail(s: string) {
    var at := Sequences.FirstIndex(s, (c: char) => c == '@');
    at > 0 && AllEmailChars(s[..at]) && ValidDomain(s[at + 1..])
  }

  /** The regular expression's own reading: three non-empty runs separated by '@' and '.'. */
  ghost predicate EmailPattern(s: string) {
    exists i, j :: 0 < i && i + 1 < j && j + 1 < |s| && s[i] == '@' && s[j] == '.' &&
      AllEmailChars(s[..i]) && AllEmailChars(s[i + 1..j]) && AllEmailChars(s[j + 1..])
  }

  lemma {:induction false} EmailToPattern(s: string)
    requires ValidEmail(s)
    ensures EmailPattern(s)
  {
    var at := Sequences.FirstIndex(s, (c: char) => c == '@');
    var d := s[at + 1..];
    var i :| 0 < i < |d| - 1 && d[i] == '.';
    var j := at + 1 + i;
    assert s[j] == '.';
    assert s[at + 1..j] == d[..i];
    assert s[j + 1..] == d[i + 1..];
  }

  lemma {:induction false} PatternToEmail(s: string, i: nat, j: nat)
    requires 0 < i && i + 1 < j && j + 1 < |s| && s[i] == '@' && s[j] == '.'
    requires AllEmailChars(s[..i]) && AllEmailChars(s[i + 1..j]) && AllEmailChars(s[j + 1..])
    ensures ValidEmail(s)
  {
    var isAt := (c: char) => c == '@';
    assert forall k :: 0 <= k < i ==> s[..i][k] == s[k] && !isAt(s[k]);
    assert Sequences.FirstIndex(s, isAt) == i;
    var d := s[i + 1..];
    assert d[j - i - 1] == '.';
    forall k | 0 <= k < |d| ensures IsEmailChar(d[k]) {
      if k < j - i - 1 {
        assert d[k] == s[i + 1..j][k];
      } else if k > j - i - 1 {
        assert d[k] == s[j + 1..][k - (j - i)];
      }
    }
  }

  /** The character-level reading and the regular expression accept the same strings. */
  lemma EmailMatchesPattern(s: string)
    ensures ValidEmail(s) <==> EmailPattern(s)
  {
    if ValidEmail(s) {
      EmailToPattern(s);
    }
    if EmailPattern(s) {
      var i, j :| 0 < i && i + 1 < j && j + 1 < |s| && s[i] == '@' && s[j] == '.' &&
        AllEmailChars(s[..i]) && AllEmailChars(s[i + 1..j]) && AllEmailChars(s[j + 1..]);
      PatternToEmail(s, i, j);
    }
  }

  /** A valid address holds exactly one '@'. */
  lemma {:induction false} EmailHasOneAt(s: string, a: nat, b: nat)
    requires ValidEmail(s)
    requires a < |s| && b < |s| && s[a] == '@' && s[b] == '@'
    ensures a == b
  {
    var at := Sequences.FirstIndex(s, (c: char) => c == '@');
    assert a >= at && b >= at;
  }
}
