/** The browser-side checks of the sign-in and registration forms: the e-mail and
    password rules, the password strength meter, and which field errors a submission
    raises. A form is sent only when it raises none. */
module AuthClient {
  import opened Outcomes
  import Text
  import AuthController

  // ---------------------------------------------------------------------------
  // E-mail format

  /** A character the e-mail pattern accepts on either side: not white space, not `@`. */
  predicate Plain(c: char) {
    !Text.IsSpace(c) && c != '@'
  }

  predicate AllPlain(s: string) {
    forall k | 0 <= k < |s| :: Plain(s[k])
  }

  /** The first position of `c` in `s`, if any. */
  function IndexOf(s: string, c: char): (r: Option<nat>)
    ensures r.None? <==> c !in s
    ensures r.Some? ==> r.value < |s| && s[r.value] == c && c !in s[..r.value]
  {
    if s == [] then None
    else if s[0] == c then Some(0)
    else match IndexOf(s[1..], c)
      case None => None
      case Some(i) => assert s[..i + 1] == [s[0]] + s[1..][..i]; Some(i + 1)
  }

  /** A dot that is neither the first nor the last character. */
  predicate HasInnerDot(d: string) {
    exists j | 0 < j < |d| - 1 :: d[j] == '.'
  }

  /** `isValidEmail`: the whole string is `local@domain`, neither part empty or holding
      white space or `@`, and the domain holding a dot strictly inside it. */
  predicate IsValidEmail(s: string) {
    match IndexOf(s, '@')
    case None => false
    case Some(i) => 0 < i && AllPlain(s[..i]) && AllPlain(s[i + 1..]) && HasInnerDot(s[i + 1..])
  }

  /** Every string of the shape `a@b.c`, with `a`, `b`, `c` non-empty and plain, is valid. */
  lemma EmailFromParts(a: string, b: string, c: string)
    requires a != [] && b != [] && c != []
    requires AllPlain(a) && AllPlain(b) && AllPlain(c)
    ensures IsValidEmail(a + "@" + b + "." + c)
  {
    var s := a + "@" + b + "." + c;
    assert s[..|a|] == a;
    assert s[|a|] == '@';
    var i := IndexOf(s, '@');
    assert i == Some(|a|);
    var d := s[|a| + 1..];
    assert d == b + "." + c;
    assert d[|b|] == '.';
    forall k | 0 <= k < |d| ensures Plain(d[k]) {
      if k < |b| { assert d[k] == b[k]; }
      else if k > |b| { assert d[k] == c[k - |b| - 1]; }
    }
  }

  /** Conversely every valid string has that shape. */
  lemma EmailParts(s: string) returns (a: string, b: string, c: string)
    requires IsValidEmail(s)
    ensures s == a + "@" + b + "." + c
    ensures a != [] && b != [] && c != []
    ensures AllPlain(a) && AllPlain(b) && AllPlain(c)
  {
    var i := AtPosition(s);
    var d := s[i + 1..];
    var j := DotPosition(d);
    a, b, c := s[..i], d[..j], d[j + 1..];
    PlainSlice(d, 0, j);
    PlainSlice(d, j + 1, |d|);
    assert b == d[0..j] && c == d[j + 1..|d|];
    Reassemble(s, i, j);
  }

  /** The position of the `@` of a valid e-mail, with what validity says about both sides. */
  lemma AtPosition(s: string) returns (i: nat)
    requires IsValidEmail(s)
    ensures 0 < i < |s| && s[i] == '@'
    ensures AllPlain(s[..i]) && AllPlain(s[i + 1..]) && HasInnerDot(s[i + 1..])
  {
    i := IndexOf(s, '@').value;
  }

  lemma DotPosition(d: string) returns (j: nat)
    requires HasInnerDot(d)
    ensures 0 < j < |d| - 1 && d[j] == '.'
  {
    j :| 0 < j < |d| - 1 && d[j] == '.';
  }

  lemma Reassemble(s: string, i: nat, j: nat)
    requires i < |s| && s[i] == '@' && j + 1 < |s[i + 1..]| && s[i + 1..][j] == '.'
    ensures s == s[..i] + "@" + s[i + 1..][..j] + "." + s[i + 1..][j + 1..]
  {
    var d := s[i + 1..];
    SplitAt(d, j);
    SplitAt(s, i);
    assert [s[i]] == "@" && [d[j]] == ".";
  }

  lemma SplitAt(s: string, i: nat)
    requires i < |s|
    ensures s == s[..i] + [s[i]] + s[i + 1..]
  {
  }

  lemma PlainSlice(s: string, lo: nat, hi: nat)
    requires AllPlain(s) && lo <= hi <= |s|
    ensures AllPlain(s[lo..hi])
  {
    forall k | 0 <= k < hi - lo ensures Plain(s[lo..hi][k]) {
      assert s[lo..hi][k] == s[lo + k];
    }
  }

  lemma NoAtInPlain(s: string)
    requires AllPlain(s)
    ensures multiset(s)['@'] == 0
  {
  }

  /** A valid e-mail holds exactly one `@`. */
  lemma ValidEmailHasOneAt(s: string)
    requires IsValidEmail(s)
    ensures multiset(s)['@'] == 1
  {
    var i := IndexOf(s, '@').value;
    assert s == s[..i] + "@" + s[i + 1..];
    NoAtInPlain(s[..i]);
    NoAtInPlain(s[i + 1..]);
    assert multiset(s) == multiset(s[..i]) + multiset("@") + multiset(s[i + 1..]);
  }

  /** A valid e-mail is never blank, so the "required" message and the "invalid" message
      never apply to the same input. */
  lemma ValidEmailIsNotBlank(s: string)
    requires IsValidEmail(s)
    ensures !Text.IsBlank(s)
  {
    var i := IndexOf(s, '@').value;
    assert Plain(s[..i][0]);
  }

  // ---------------------------------------------------------------------------
  // Password rules

  datatype CharClass = Lower | Upper | Digit | Special

  /** The four classes a strong password needs; digits are ASCII, as `\d` is. */
  predicate InClass(c: char, cls: CharClass) {
    match cls
    case Lower => 'a' <= c <= 'z'
    case Upper => 'A' <= c <= 'Z'
    case Digit => '0' <= c <= '9'
    case Special => c in "@$!%*?&"
  }

  predicate Has(s: string, cls: CharClass) {
    exists k | 0 <= k < |s| :: InClass(s[k], cls)
  }

  /** The characters `.` in a pattern refuses: line terminators. */
  predicate IsLineTerminator(c: char) {
    c == '\n' || c == '\r' || c == '\U{2028}' || c == '\U{2029}'
  }

  /** The text before the first line terminator: what a look-ahead `(?=.*x)` anchored at
      the start can see. */
  function FirstLine(s: string): (r: string)
    ensures |r| <= |s| && r == s[..|r|]
    ensures forall k | 0 <= k < |r| :: !IsLineTerminator(r[k])
    ensures |r| < |s| ==> IsLineTerminator(s[|r|])
  {
    if s == [] || IsLineTerminator(s[0]) then [] else [s[0]] + FirstLine(s[1..])
  }

  /** `isStrongPassword`: the look-aheads need a lower-case letter, an upper-case letter,
      a digit and one of `@$!%*?&` before the first line break; the first character must
      itself be a letter, a digit or one of those specials; and the length is at least 8. */
  predicate IsStrongPassword(p: string) {
    var line := FirstLine(p);
    && Has(line, Lower) && Has(line, Upper) && Has(line, Digit) && Has(line, Special)
    && |p| > 0 && (InClass(p[0], Lower) || InClass(p[0], Upper) || InClass(p[0], Digit) || InClass(p[0], Special))
    && Text.JsLength(p) >= 8
  }

  /** For a password without line breaks the rule reads plainly: every class present,
      an allowed first character, at least 8 characters. */
  lemma StrongPasswordWithoutLineBreaks(p: string)
    requires forall k | 0 <= k < |p| :: !IsLineTerminator(p[k])
    ensures IsStrongPassword(p) <==>
      && Has(p, Lower) && Has(p, Upper) && Has(p, Digit) && Has(p, Special)
      && |p| > 0 && (InClass(p[0], Lower) || InClass(p[0], Upper) || InClass(p[0], Digit) || InClass(p[0], Special))
      && Text.JsLength(p) >= 8
  {
    WholeFirstLine(p);
  }

  lemma {:induction false} WholeFirstLine(p: string)
    requires forall k | 0 <= k < |p| :: !IsLineTerminator(p[k])
    ensures FirstLine(p) == p
  {
    if p != [] {
      WholeFirstLine(p[1..]);
    }
  }

  /** A class met before the first line break is met in the whole password. */
  lemma HasInFirstLine(p: string, cls: CharClass)
    requires Has(FirstLine(p), cls)
    ensures Has(p, cls)
  {
    var line := FirstLine(p);
    var k :| 0 <= k < |line| && InClass(line[k], cls);
    assert p[k] == line[k];
  }

  /** A password of every class, starting with a letter, passes. */
  lemma StrongExample()
    ensures IsStrongPassword("Abcdef1!")
  {
    var p := "Abcdef1!";
    assert forall k | 0 <= k < |p| :: 'A' <= p[k] <= 'z' || '!' <= p[k] <= '9';
    WholeFirstLine(p);
    assert InClass(p[0], Upper) && InClass(p[1], Lower) && InClass(p[6], Digit) && InClass(p[7], Special);
  }

  /** The same characters behind a space are refused: the first character must be one of
      the allowed ones. */
  lemma LeadingSpaceRejected()
    ensures !IsStrongPassword(" Abcdef1!")
  {
    var p := " Abcdef1!";
    assert p[0] == ' ';
    assert !InClass(' ', Lower) && !InClass(' ', Upper) && !InClass(' ', Digit);
    assert !InClass(' ', Special);
  }

  /** The same characters behind a line break are refused: the look-aheads stop there. */
  lemma LeadingLineBreakRejected()
    ensures !IsStrongPassword("\nAbcdef1!")
  {
    var p := "\nAbcdef1!";
    assert FirstLine(p) == [];
  }

  // ---------------------------------------------------------------------------
  // Strength meter

  datatype Level = Weak | Medium | GoodLevel | Strong

  datatype Strength = Strength(level: Level, text: string, percentage: int)

  /** The five criteria in the meter's order, each with the hint shown when it is missing. */
  function Criteria(p: string): seq<(bool, string)> {
    [ (Text.JsLength(p) >= 8, "at least 8 characters"),
      (Has(p, Lower), "lowercase letter"),
      (Has(p, Upper), "uppercase letter"),
      (Has(p, Digit), "number"),
      (Has(p, Special), "special character") ]
  }

  /** How many criteria hold. */
  function CountMet(cs: seq<(bool, string)>): (n: nat)
    ensures n <= |cs|
  {
    if cs == [] then 0 else (if cs[0].0 then 1 else 0) + CountMet(cs[1..])
  }

  function Hint(c: (bool, string)): seq<string> {
    if c.0 then [] else [c.1]
  }

  /** The hints of the criteria that fail, in order. */
  function Hints(cs: seq<(bool, string)>): (h: seq<string>)
    ensures |h| <= |cs|
  {
    if cs == [] then [] else Hint(cs[0]) + Hints(cs[1..])
  }

  /** Each criterion either scores or leaves a hint, never both. */
  lemma {:induction false} MetPlusHints(cs: seq<(bool, string)>)
    ensures CountMet(cs) + |Hints(cs)| == |cs|
  {
    if cs != [] {
      MetPlusHints(cs[1..]);
    }
  }

  lemma HintsOfFive(cs: seq<(bool, string)>)
    requires |cs| == 5
    ensures Hints(cs) == Hint(cs[0]) + Hint(cs[1]) + Hint(cs[2]) + Hint(cs[3]) + Hint(cs[4])
  {
    var t4 := [cs[4]];
    var t3 := [cs[3]] + t4;
    var t2 := [cs[2]] + t3;
    var t1 := [cs[1]] + t2;
    assert cs == [cs[0]] + t1;
    HintsCons(cs[4], []);
    HintsCons(cs[3], t4);
    HintsCons(cs[2], t3);
    HintsCons(cs[1], t2);
    HintsCons(cs[0], t1);
  }

  lemma HintsCons(c: (bool, string), rest: seq<(bool, string)>)
    ensures Hints([c] + rest) == Hint(c) + Hints(rest)
  {
    assert ([c] + rest)[1..] == rest;
  }

  function Join(items: seq<string>, sep: string): string {
    if items == [] then "" else if |items| == 1 then items[0] else items[0] + sep + Join(items[1..], sep)
  }

  /** `calculatePasswordStrength`: 25 points per criterion met, the bar capped at 100,
      the level by score bands, and the hints listed (only two of them for a weak one). */
  function PasswordStrength(p: string): (s: Strength)
    ensures var h := |Hints(Criteria(p))|;
      s.percentage == if h == 0 then 100 else 25 * (5 - h)
    ensures s.level == Strong <==> |Hints(Criteria(p))| <= 1
    ensures s.level == GoodLevel <==> |Hints(Criteria(p))| == 2
    ensures s.level == Medium <==> |Hints(Criteria(p))| == 3
    ensures s.level == Weak <==> |Hints(Criteria(p))| >= 4
    ensures s.level == Strong ==> s.text == "Strong password"
    ensures s.level == GoodLevel ==> s.text == "Good - Add: " + Join(Hints(Criteria(p)), ", ")
    ensures s.level == Medium ==> s.text == "Medium - Add: " + Join(Hints(Criteria(p)), ", ")
    ensures s.level == Weak ==> s.text == "Weak - Add: " + Join(Hints(Criteria(p))[..2], ", ")
  {
    var cs := Criteria(p);
    var score := 25 * CountMet(cs);
    var feedback := Hints(cs);
    MetPlusHints(cs);
    var percentage := if score < 100 then score else 100;
    if score < 50 then Strength(Weak, "Weak - Add: " + Join(feedback[..if |feedback| < 2 then |feedback| else 2], ", "), percentage)
    else if score < 75 then Strength(Medium, "Medium - Add: " + Join(feedback, ", "), percentage)
    else if score < 100 then Strength(GoodLevel, "Good - Add: " + Join(feedback, ", "), percentage)
    else Strength(Strong, "Strong password", percentage)
  }

  /** Whatever the form accepts, the meter calls strong. */
  lemma StrongPasswordShowsStrong(p: string)
    requires IsStrongPassword(p)
    ensures PasswordStrength(p).level == Strong && PasswordStrength(p).percentage == 100
  {
    HasInFirstLine(p, Lower);
    HasInFirstLine(p, Upper);
    HasInFirstLine(p, Digit);
    HasInFirstLine(p, Special);
    HintsOfFive(Criteria(p));
  }

  /** The meter and the form disagree the other way: four characters of four classes
      read "Strong password", yet the form refuses them as too short. */
  lemma ShortPasswordShowsStrong()
    ensures PasswordStrength("aB1!").level == Strong && !IsStrongPassword("aB1!")
  {
    var p := "aB1!";
    assert forall k | 0 <= k < |p| :: '!' <= p[k] <= 'z';
    Text.JsLengthOfBmp(p);
    assert InClass(p[0], Lower) && InClass(p[1], Upper) && InClass(p[2], Digit) && InClass(p[3], Special);
    HintsOfFive(Criteria(p));
  }

  /** Likewise eight characters without an upper-case letter. */
  lemma CaselessPasswordShowsStrong()
    ensures PasswordStrength("abcdef1!").level == Strong && !IsStrongPassword("abcdef1!")
  {
    CaselessHints();
    CaselessNotStrong();
  }

  lemma CaselessHints()
    ensures |Hints(Criteria("abcdef1!"))| == 1
  {
    var q := "abcdef1!";
    assert InClass(q[0], Lower) && InClass(q[6], Digit) && InClass(q[7], Special);
    NoUpper(q);
    HintsOfFive(Criteria(q));
  }

  lemma CaselessNotStrong()
    ensures !IsStrongPassword("abcdef1!")
  {
    var q := "abcdef1!";
    assert forall k | 0 <= k < |q| :: 'a' <= q[k] <= 'z' || '!' <= q[k] <= '9';
    NoUpper(q);
    WholeFirstLine(q);
  }

  lemma NoUpper(s: string)
    requires forall k | 0 <= k < |s| :: !('A' <= s[k] <= 'Z')
    ensures !Has(s, Upper)
  {
  }

  // ---------------------------------------------------------------------------
  // Submit handlers

  datatype FieldError =
    | EmailRequired | EmailInvalid
    | PasswordRequired | PasswordTooShort | PasswordWeak
    | PasswordsDiffer

  /** The e-mail field's message, the same on both forms. */
  function EmailError(email: string): (e: Option<FieldError>)
    ensures e.None? <==> IsValidEmail(email)
    ensures e == Some(EmailRequired) <==> Text.IsBlank(email)
    ensures e == Some(EmailInvalid) <==> !Text.IsBlank(email) && !IsValidEmail(email)
  {
    if Text.Trim(email) == [] then Some(EmailRequired)
    else if !IsValidEmail(email) then Some(EmailInvalid)
    else None
  }

  /** The registration form's one password message, by precedence: required, then too
      short, then too weak. */
  function RegisterPasswordError(password: string): (e: Option<FieldError>)
    ensures e.None? <==> IsStrongPassword(password)
    ensures e == Some(PasswordRequired) <==> password == ""
    ensures e == Some(PasswordTooShort) <==> password != "" && Text.JsLength(password) < 8
    ensures e == Some(PasswordWeak) <==> Text.JsLength(password) >= 8 && !IsStrongPassword(password)
  {
    if password == "" then Some(PasswordRequired)
    else if Text.JsLength(password) < 8 then Some(PasswordTooShort)
    else if !IsStrongPassword(password) then Some(PasswordWeak)
    else None
  }

  datatype RegisterErrors = RegisterErrors(email: Option<FieldError>, password: Option<FieldError>, confirm: Option<FieldError>)

  /** The registration submit handler; `confirm` is absent when the page has no
      confirmation field. */
  function ValidateRegister(email: string, password: string, confirm: Option<string>): (r: RegisterErrors)
    ensures r.confirm == Some(PasswordsDiffer) <==> confirm.Some? && confirm.value != password
    ensures r.confirm.None? || r.confirm == Some(PasswordsDiffer)
  {
    RegisterErrors(EmailError(email), RegisterPasswordError(password),
                   if confirm.Some? && confirm.value != password then Some(PasswordsDiffer) else None)
  }

  predicate RegisterSubmits(r: RegisterErrors) {
    r.email.None? && r.password.None? && r.confirm.None?
  }

  /** The registration form is sent exactly when the e-mail is valid, the password strong
      and the confirmation (if any) equal to it. */
  lemma RegisterSubmitsIff(email: string, password: string, confirm: Option<string>)
    ensures RegisterSubmits(ValidateRegister(email, password, confirm)) <==>
      IsValidEmail(email) && IsStrongPassword(password) && (confirm.None? || confirm.value == password)
  {
  }

  /** A registration the form sends always gets past the server's presence and length
      checks: the server can only still refuse it as an e-mail already in use. */
  lemma SubmittedRegistrationPassesServerChecks(email: string, password: string, confirm: Option<string>)
    requires RegisterSubmits(ValidateRegister(email, password, confirm))
    ensures AuthController.Given(Some(email)) && AuthController.Given(Some(password))
    ensures Text.JsLength(password) >= 8
  {
    var i := IndexOf(email, '@').value;
    assert email[..i][0] == email[0];
  }

  datatype LoginErrors = LoginErrors(email: Option<FieldError>, password: Option<FieldError>)

  /** The sign-in submit handler: no strength rule, only a non-empty password. */
  function ValidateLogin(email: string, password: string): (r: LoginErrors)
    ensures r.password.None? <==> password != ""
    ensures r.email.None? <==> IsValidEmail(email)
  {
    LoginErrors(EmailError(email), if password == "" then Some(PasswordRequired) else None)
  }

  predicate LoginSubmits(r: LoginErrors) {
    r.email.None? && r.password.None?
  }

  /** Any password the registration form would send also passes the sign-in form. */
  lemma RegisteredCredentialsPassLogin(email: string, password: string, confirm: Option<string>)
    requires RegisterSubmits(ValidateRegister(email, password, confirm))
    ensures LoginSubmits(ValidateLogin(email, password))
  {
  }
}
