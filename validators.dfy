/** The regular expressions of `src/models/validators.ts`, and the email
    pattern the login and register screens write inline, as predicates on
    characters. Each predicate follows the structure of its pattern; the
    lemmas state what the pattern accepts in plain terms. */
module Validators {

  import opened Text

  // PASSWORD_REGEXP  ^(?=.*[a-z])(?=.*[A-Z])(?=.*\d)[A-Za-z\d@$!%*?&;]{8,20}$

  /** `.` in a JavaScript pattern: any character but a line terminator. */
  predicate IsLineTerminator(c: char) {
    c == '\n' || c == '\r' || c == '\U{2028}' || c == '\U{2029}'
  }

  /** `(?=.*C)`: some character of class C is reached from the start
      without crossing a line terminator. */
  predicate LookaheadFinds(s: string, charClass: char -> bool) {
    exists i :: 0 <= i < |s| && charClass(s[i]) && forall k :: 0 <= k < i ==> !IsLineTerminator(s[k])
  }

  /** `[A-Za-z\d@$!%*?&;]` */
  predicate IsPasswordChar(c: char) {
    IsLetter(c) || IsDigit(c) || c in "@$!%*?&;"
  }

  predicate IsPassword(s: string) {
    && LookaheadFinds(s, IsLower)
    && LookaheadFinds(s, IsUpper)
    && LookaheadFinds(s, IsDigit)
    && 8 <= |s| <= 20
    && forall i :: 0 <= i < |s| ==> IsPasswordChar(s[i])
  }

  /** PASSWORD accepts exactly the strings of 8 to 20 characters from its
      class that hold a lower-case letter, an upper-case letter and a digit. */
  lemma PasswordIff(s: string)
    ensures IsPassword(s) <==>
      && 8 <= |s| <= 20
      && (forall i :: 0 <= i < |s| ==> IsPasswordChar(s[i]))
      && (exists i :: 0 <= i < |s| && IsLower(s[i]))
      && (exists i :: 0 <= i < |s| && IsUpper(s[i]))
      && (exists i :: 0 <= i < |s| && IsDigit(s[i]))
  {
    if (forall i :: 0 <= i < |s| ==> IsPasswordChar(s[i])) {
      assert forall i :: 0 <= i < |s| ==> !IsLineTerminator(s[i]);
    }
  }

  // NUMBER_REGEXP  ^(0|[1-9][0-9]*)$

  predicate IsNumber(s: string) {
    s == "0" || (|s| >= 1 && '1' <= s[0] <= '9' && AllDigits(s[1..]))
  }

  /** NUMBER accepts exactly "0" and the digit strings without a leading zero. */
  lemma NumberIff(s: string)
    ensures IsNumber(s) <==> s == "0" || (|s| >= 1 && AllDigits(s) && s[0] != '0')
  {
    if |s| >= 1 && AllDigits(s) {
      assert forall i :: 0 <= i < |s| - 1 ==> s[1..][i] == s[i + 1];
    }
  }

  /** The decimal rendering of every non-negative integer is a NUMBER. */
  lemma NumberOfNatToString(n: nat)
    ensures IsNumber(NatToString(n))
  {
    var r := NatToString(n);
    assert forall i :: 0 <= i < |r| - 1 ==> r[1..][i] == r[i + 1];
  }

  // NAME  ^[A-Za-z]+([A-Za-z\s'.-]*[A-Za-z])?$

  /** `[A-Za-z\s'.-]` */
  predicate IsNameChar(c: char) {
    IsLetter(c) || IsWhitespace(c) || c == '\'' || c == '.' || c == '-'
  }

  predicate AllLetters(s: string) {
    forall i :: 0 <= i < |s| ==> IsLetter(s[i])
  }

  predicate IsName(s: string) {
    exists k :: 1 <= k <= |s| && AllLetters(s[..k]) &&
      (k == |s| || (IsLetter(s[|s| - 1]) && forall i :: k <= i < |s| - 1 ==> IsNameChar(s[i])))
  }

  /** NAME refuses a string that does not begin with a letter. */
  lemma NotNameWithoutLetterStart(s: string)
    requires |s| >= 1 && !IsLetter(s[0])
    ensures !IsName(s)
  {
    assert forall k :: 1 <= k <= |s| ==> s[..k][0] == s[0];
  }

  /** NAME accepts exactly the non-empty strings over its class that begin
      and end with a letter. */
  lemma NameIff(s: string)
    ensures IsName(s) <==>
      |s| >= 1 && IsLetter(s[0]) && IsLetter(s[|s| - 1]) && forall i :: 0 <= i < |s| ==> IsNameChar(s[i])
  {
    if IsName(s) {
      var k :| 1 <= k <= |s| && AllLetters(s[..k]) &&
        (k == |s| || (IsLetter(s[|s| - 1]) && forall i :: k <= i < |s| - 1 ==> IsNameChar(s[i])));
      assert s[..k][0] == s[0];
      assert forall i :: 0 <= i < k ==> s[..k][i] == s[i];
    }
    if |s| >= 1 && IsLetter(s[0]) && IsLetter(s[|s| - 1]) && forall i :: 0 <= i < |s| ==> IsNameChar(s[i]) {
      assert AllLetters(s[..1]);
    }
  }

  // EMAIL  ^\w+([\.-]?\w+)*@\w+([\.-]?\w+)*(\.\w{2,10})+$

  predicate IsSeparator(c: char) { c == '.' || c == '-' }

  /** `\w+([\.-]?\w+)*`: word characters, single `.` or `-` between them,
      beginning and ending with a word character. */
  predicate IsDottedWords(s: string) {
    && |s| >= 1 && IsWordChar(s[0]) && IsWordChar(s[|s| - 1])
    && (forall i :: 0 <= i < |s| ==> IsWordChar(s[i]) || IsSeparator(s[i]))
    && (forall i :: 0 <= i < |s| - 1 ==> !(IsSeparator(s[i]) && IsSeparator(s[i + 1])))
  }

  predicate AllWordChars(s: string) {
    forall i :: 0 <= i < |s| ==> IsWordChar(s[i])
  }

  /** `(\.\w{2,10})+` */
  predicate IsSuffixGroups(s: string)
    decreases |s|
  {
    exists k :: 3 <= k <= 11 && k <= |s| && s[0] == '.' && AllWordChars(s[1..k]) &&
      (k == |s| || IsSuffixGroups(s[k..]))
  }

  /** The part after `@`: `\w+([\.-]?\w+)*(\.\w{2,10})+` */
  predicate IsEmailDomain(d: string) {
    exists j :: 1 <= j < |d| && IsDottedWords(d[..j]) && IsSuffixGroups(d[j..])
  }

  predicate IsEmail(s: string) {
    exists k :: 0 <= k < |s| && s[k] == '@' && IsDottedWords(s[..k]) && IsEmailDomain(s[k + 1..])
  }

  predicate NoAt(s: string) {
    forall i :: 0 <= i < |s| ==> s[i] != '@'
  }

  /** `s` ends with `.` and the `m` word characters after it. */
  predicate EndsWithGroup(s: string, m: int) {
    2 <= m <= 10 && m < |s| && s[|s| - m - 1] == '.' && AllWordChars(s[|s| - m..])
  }

  lemma NoAtConcat(a: string, b: string)
    requires NoAt(a) && NoAt(b)
    ensures NoAt(a + b)
  {
    assert forall i :: |a| <= i < |a + b| ==> (a + b)[i] == b[i - |a|];
  }

  lemma EndsWithGroupAfter(a: string, b: string, m: int)
    requires EndsWithGroup(b, m)
    ensures EndsWithGroup(a + b, m)
  {
    var s := a + b;
    assert s[|s| - m - 1] == b[|b| - m - 1];
    assert s[|s| - m..] == b[|b| - m..];
  }

  /** The groups end with `.` and 2 to 10 word characters, and hold no `@`. */
  lemma {:induction false} SuffixGroupsShape(s: string)
    requires IsSuffixGroups(s)
    ensures NoAt(s)
    ensures exists m :: EndsWithGroup(s, m)
    decreases |s|
  {
    var k :| 3 <= k <= 11 && k <= |s| && s[0] == '.' && AllWordChars(s[1..k]) &&
      (k == |s| || IsSuffixGroups(s[k..]));
    var head := s[..k];
    assert forall i :: 1 <= i < k ==> s[1..k][i - 1] == head[i];
    assert NoAt(head);
    if k == |s| {
      assert head == s;
      assert s[|s| - (k - 1)..] == s[1..k];
      assert EndsWithGroup(s, k - 1);
    } else {
      var t := s[k..];
      SuffixGroupsShape(t);
      assert s == head + t;
      NoAtConcat(head, t);
      var m :| EndsWithGroup(t, m);
      EndsWithGroupAfter(head, t, m);
    }
  }

  lemma DottedWordsNoAt(s: string)
    requires IsDottedWords(s)
    ensures NoAt(s)
  {
  }

  /** The domain holds no `@` and ends with a suffix group. */
  lemma DomainShape(d: string) returns (m: int)
    requires IsEmailDomain(d)
    ensures NoAt(d) && EndsWithGroup(d, m)
  {
    var j :| 1 <= j < |d| && IsDottedWords(d[..j]) && IsSuffixGroups(d[j..]);
    var w, g := d[..j], d[j..];
    SuffixGroupsShape(g);
    DottedWordsNoAt(w);
    assert d == w + g;
    NoAtConcat(w, g);
    m :| EndsWithGroup(g, m);
    EndsWithGroupAfter(w, g, m);
  }

  /** Splits an accepted address at its `@`: neither side holds another
      `@`, and the domain ends with a suffix group. */
  lemma EmailParts(s: string) returns (k: nat, m: int)
    requires IsEmail(s)
    ensures k < |s| && s[k] == '@' && NoAt(s[..k]) && NoAt(s[k + 1..])
    ensures EndsWithGroup(s[k + 1..], m)
  {
    k :| 0 <= k < |s| && s[k] == '@' && IsDottedWords(s[..k]) && IsEmailDomain(s[k + 1..]);
    DottedWordsNoAt(s[..k]);
    m := DomainShape(s[k + 1..]);
  }

  /** An `@` with no other on either side is the only one. */
  lemma UniqueAt(s: string, k: nat)
    requires k < |s| && s[k] == '@' && NoAt(s[..k]) && NoAt(s[k + 1..])
    ensures forall i :: 0 <= i < |s| && s[i] == '@' ==> i == k
  {
    assert forall i :: 0 <= i < k ==> s[..k][i] == s[i];
    assert forall i :: k < i < |s| ==> s[k + 1..][i - k - 1] == s[i];
  }

  lemma EndsWithGroupOfSuffix(s: string, k: nat, m: int)
    requires k < |s| && EndsWithGroup(s[k + 1..], m)
    ensures EndsWithGroup(s, m)
  {
    assert s == s[..k + 1] + s[k + 1..];
    EndsWithGroupAfter(s[..k + 1], s[k + 1..], m);
  }

  /** Whatever EMAIL accepts holds exactly one `@` and ends with `.`
      followed by 2 to 10 word characters. */
  lemma EmailShape(s: string)
    requires IsEmail(s)
    ensures exists k :: 0 <= k < |s| && s[k] == '@' && forall i :: 0 <= i < |s| && s[i] == '@' ==> i == k
    ensures exists m :: EndsWithGroup(s, m)
  {
    var k, m := EmailParts(s);
    UniqueAt(s, k);
    EndsWithGroupOfSuffix(s, k, m);
  }

  // The screens' inline pattern  ^[^\s@]+@[^\s@]+\.[^\s@]+$

  /** `[^\s@]` */
  predicate IsPlainChar(c: char) {
    !IsWhitespace(c) && c != '@'
  }

  predicate AllPlain(s: string) {
    forall i :: 0 <= i < |s| ==> IsPlainChar(s[i])
  }

  predicate IsSimpleEmail(s: string) {
    exists k, j :: 1 <= k < j < |s| - 1 && s[k] == '@' && s[j] == '.' && j > k + 1
      && AllPlain(s[..k]) && AllPlain(s[k + 1..j]) && AllPlain(s[j + 1..])
  }

  /** A blank string never matches the screens' pattern, so their
      "required" check adds no case of its own. */
  lemma SimpleEmailNotBlank(s: string)
    requires IsSimpleEmail(s)
    ensures !AllWhitespace(s)
  {
    var k, j :| 1 <= k < j < |s| - 1 && s[k] == '@' && s[j] == '.' && j > k + 1
      && AllPlain(s[..k]) && AllPlain(s[k + 1..j]) && AllPlain(s[j + 1..]);
    assert s[..k][0] == s[0];
  }
}
