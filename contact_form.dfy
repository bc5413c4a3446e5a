/**
 * The contact form: on submit every field is checked, each one's error text
 * and `aria-invalid` attribute are rewritten, and only when all three pass
 * is a `mailto:` address built for the page to navigate to.
 */
module ContactForm {
  import opened Dom

  /** The character class `[^\s@]`. */
  predicate IsRunChar(c: char) {
    !IsSpace(c) && c != '@'
  }

  /** `[^\s@]+`: one or more characters of that class. */
  predicate IsRun(t: string) {
    |t| > 0 && forall i :: 0 <= i < |t| ==> IsRunChar(t[i])
  }

  /** `t` splits at `j` and `k` into run, `@`, run, `.`, run. */
  predicate SplitsAt(t: string, j: int, k: int)
    requires 0 < j && j + 1 < k && k + 1 < |t|
  {
    IsRun(t[..j]) && t[j] == '@' && IsRun(t[j + 1..k]) && t[k] == '.' && IsRun(t[k + 1..])
  }

  /** The whole of `t` matches `[^\s@]+@[^\s@]+\.[^\s@]+`. */
  predicate EmailShape(t: string) {
    exists j, k | 0 < j < |t| && j + 1 < k < |t| - 1 :: SplitsAt(t, j, k)
  }

  /**
   * `validateEmail`: the pattern has no anchors, so `test` succeeds when
   * some stretch of the input matches it.
   */
  predicate ValidateEmail(s: string) {
    exists i, l | 0 <= i <= l <= |s| :: EmailShape(s[i..l])
  }

  /** The same check, looking only at the `@`, the `.` and their neighbours. */
  predicate EmailAround(s: string, j: int, k: int)
    requires 0 < j && j + 1 < k && k + 1 < |s|
  {
    IsRunChar(s[j - 1]) && s[j] == '@' && IsRun(s[j + 1..k]) && s[k] == '.' && IsRunChar(s[k + 1])
  }

  /** Some `@` with a run character before it, then a run, a `.`, and one more run character. */
  predicate HasEmailAround(s: string) {
    exists j, k | 0 < j < |s| && j + 1 < k < |s| - 1 :: EmailAround(s, j, k)
  }

  /** A match of the whole pattern gives the local shape around its `@` and `.`. */
  lemma EmailShapeGivesAround(s: string, i: int, l: int)
    requires 0 <= i <= l <= |s| && EmailShape(s[i..l])
    ensures HasEmailAround(s)
  {
    var t := s[i..l];
    var j', k' :| 0 < j' < |t| && j' + 1 < k' < |t| - 1 && SplitsAt(t, j', k');
    var j, k := i + j', i + k';
    assert IsRunChar(s[j - 1]) by { assert t[..j'][j' - 1] == s[j - 1]; }
    assert IsRunChar(s[k + 1]) by { assert t[k' + 1..][0] == s[k + 1]; }
    SliceOfSlice(s, i, l, j' + 1, k');
    assert EmailAround(s, j, k);
  }

  /** The local shape is itself a match, from the character before `@` to the one after `.`. */
  lemma AroundGivesEmailShape(s: string, j: int, k: int)
    requires 0 < j < |s| && j + 1 < k < |s| - 1 && EmailAround(s, j, k)
    ensures ValidateEmail(s)
  {
    var t := s[j - 1..k + 2];
    assert t[..1] == [s[j - 1]];
    var mid, run := t[2..k - j + 1], s[j + 1..k];
    forall m | 0 <= m < |mid| ensures mid[m] == run[m] {
      assert mid[m] == t[2 + m];
    }
    assert mid == run;
    assert t[k - j + 2..] == [s[k + 1]];
    assert SplitsAt(t, 1, k - j + 1);
    assert EmailShape(t);
  }

  /**
   * Neither outer run matters beyond its first character next to the `@` or
   * the `.`: an address is found exactly when the local shape is.
   */
  lemma EmailLocalCharacterisation(s: string)
    ensures ValidateEmail(s) <==> HasEmailAround(s)
  {
    if ValidateEmail(s) {
      var i, l :| 0 <= i <= l <= |s| && EmailShape(s[i..l]);
      EmailShapeGivesAround(s, i, l);
    }
    if HasEmailAround(s) {
      var j, k :| 0 < j < |s| && j + 1 < k < |s| - 1 && EmailAround(s, j, k);
      AroundGivesEmailShape(s, j, k);
    }
  }

  /** Text around a match never hides it. */
  lemma EmailUnanchored(s: string, before: string, after: string)
    requires ValidateEmail(s)
    ensures ValidateEmail(before + s + after)
  {
    var i, l :| 0 <= i <= l <= |s| && EmailShape(s[i..l]);
    var u := before + s + after;
    assert u[|before| + i..|before| + l] == s[i..l];
  }

  /** An input without an `@` never passes. */
  lemma NoAtNoEmail(s: string)
    requires forall i :: 0 <= i < |s| ==> s[i] != '@'
    ensures !ValidateEmail(s)
  {
    forall i, l | 0 <= i <= l <= |s| ensures !EmailShape(s[i..l]) {
      var t := s[i..l];
      forall j, k | 0 < j < |t| && j + 1 < k < |t| - 1 ensures !SplitsAt(t, j, k) {
        assert t[j] == s[i + j];
      }
    }
  }

  /** Any input the pattern accepts has something other than white space in it. */
  lemma ValidEmailNotBlank(s: string)
    requires ValidateEmail(s)
    ensures Trim(s) != ""
  {
    var i, l :| 0 <= i <= l <= |s| && EmailShape(s[i..l]);
    var j, k :| 0 < j < l - i && j + 1 < k < l - i - 1 && SplitsAt(s[i..l], j, k);
    assert s[i..l][..j][0] == s[i];
    TrimEmptyIffAllSpace(s);
  }

  const NameMessage: string := "Please enter your name."
  const EmailMessage: string := "Enter a valid email."
  const MessageMessage: string := "Please write a message."

  predicate NameOk(v: string) { Trim(v) != "" }

  /** The email test reads the trimmed value for emptiness and the raw value for the pattern. */
  predicate EmailOk(v: string) { Trim(v) != "" && ValidateEmail(v) }

  predicate MessageOk(v: string) { Trim(v) != "" }

  /** The emptiness test on the email is implied by the pattern test. */
  lemma EmailOkIsPattern(v: string)
    ensures EmailOk(v) <==> ValidateEmail(v)
  {
    if ValidateEmail(v) { ValidEmailNotBlank(v); }
  }

  /** What a submit writes into the three error containers, and the `valid` flag. */
  datatype Verdict = Verdict(nameError: string, emailError: string, messageError: string, valid: bool)

  /**
   * All three checks, each evaluated on its own: a field gets a non-empty
   * message exactly when its own check fails, and the form is valid exactly
   * when all three pass.
   */
  function Check(name: string, email: string, message: string): (v: Verdict)
    ensures v.nameError != "" <==> !NameOk(name)
    ensures v.emailError != "" <==> !EmailOk(email)
    ensures v.messageError != "" <==> !MessageOk(message)
    ensures v.nameError in {"", NameMessage} && v.emailError in {"", EmailMessage}
    ensures v.messageError in {"", MessageMessage}
    ensures v.valid <==> NameOk(name) && EmailOk(email) && MessageOk(message)
  {
    Verdict(if NameOk(name) then "" else NameMessage,
            if EmailOk(email) then "" else EmailMessage,
            if MessageOk(message) then "" else MessageMessage,
            NameOk(name) && EmailOk(email) && MessageOk(message))
  }

  /** Sample submissions and their outcomes. */
  lemma GoodEmailExample()
    ensures ValidateEmail("a@b.co")
  {
    var t := "a@b.co";
    assert IsRun(t[..1]) by { assert t[..1] == "a"; }
    assert IsRun(t[2..3]) by { assert t[2..3] == "b"; }
    assert IsRun(t[4..]) by { assert t[4..] == "co"; }
    assert SplitsAt(t, 1, 3);
    assert EmailShape(t[0..|t|]) by { assert t[0..|t|] == t; }
  }

  lemma BadEmailExample()
    ensures !ValidateEmail("bad")
  {
    var b := "bad";
    assert forall i :: 0 <= i < |b| ==> b[i] != '@';
    NoAtNoEmail(b);
  }

  /** The text values the examples below use, checked one by one. */
  lemma ExampleTextChecks()
    ensures !NameOk("") && NameOk("Jo") && MessageOk("Hi")
  {
    TrimEmptyIffAllSpace("");
    NotBlank("Jo");
    NotBlank("Hi");
  }

  lemma ExampleEmailChecks()
    ensures EmailOk("a@b.co") && !EmailOk("bad")
  {
    GoodEmailExample();
    BadEmailExample();
    EmailOkIsPattern("a@b.co");
    EmailOkIsPattern("bad");
  }

  lemma ExampleFieldChecks()
    ensures !NameOk("") && NameOk("Jo") && MessageOk("Hi")
    ensures EmailOk("a@b.co") && !EmailOk("bad")
  {
    ExampleTextChecks();
    ExampleEmailChecks();
  }

  /** Blank name, good address, a message: only the name is reported. */
  lemma BlankNameExample()
    ensures Check("", "a@b.co", "Hi") == Verdict(NameMessage, "", "", false)
  {
    ExampleFieldChecks();
  }

  /** A name, an address without `@`, a message: only the email is reported. */
  lemma BadEmailFormExample()
    ensures Check("Jo", "bad", "Hi") == Verdict("", EmailMessage, "", false)
  {
    ExampleFieldChecks();
  }

  /** Everything filled in properly: the form is valid. */
  lemma ValidFormExample()
    ensures Check("Jo", "a@b.co", "Hi") == Verdict("", "", "", true)
  {
    ExampleFieldChecks();
  }

  lemma NotBlank(s: string)
    requires |s| > 0 && !IsSpace(s[0])
    ensures Trim(s) != ""
  {
    TrimEmptyIffAllSpace(s);
  }

  const MailtoHead: string := "mailto:youremail@example.com?subject="
  const BodyKey: string := "&body="

  function Subject(name: string): string {
    "Portfolio message from " + Trim(name)
  }

  function Body(name: string, email: string, message: string): string {
    "Name: " + Trim(name) + "\nEmail: " + Trim(email) + "\n\n" + Trim(message)
  }

  /** The compose address built from the already-encoded subject and body. */
  function Mailto(encodedSubject: string, encodedBody: string): (r: string)
    ensures |r| >= |MailtoHead| + |BodyKey| && r[..|MailtoHead|] == MailtoHead
    ensures Contains(r, BodyKey)
  {
    var r := MailtoHead + encodedSubject + BodyKey + encodedBody;
    assert r[..|MailtoHead|] == MailtoHead;
    assert OccursAt(r, BodyKey, |MailtoHead| + |encodedSubject|);
    r
  }

  /** Position of the first `c` in `s`, or `|s|` when there is none. */
  function IndexOf(s: string, c: char): (r: nat)
    ensures r <= |s|
    ensures r < |s| ==> s[r] == c
    ensures forall i :: 0 <= i < r ==> s[i] != c
  {
    if s == [] || s[0] == c then 0 else 1 + IndexOf(s[1..], c)
  }

  /** `IndexOf` finds the first occurrence and no other. */
  lemma {:induction false} IndexOfFirst(s: string, c: char, n: nat)
    requires n < |s| && s[n] == c
    requires forall i :: 0 <= i < n ==> s[i] != c
    ensures IndexOf(s, c) == n
  {
    if n > 0 { IndexOfFirst(s[1..], c, n - 1); }
  }

  /** Reads the subject and body back out of a compose address. */
  function ParseMailto(r: string): Option<(string, string)> {
    if |r| < |MailtoHead| || r[..|MailtoHead|] != MailtoHead then None
    else
      var rest := r[|MailtoHead|..];
      var i := IndexOf(rest, '&');
      if BodyKey <= rest[i..] then Some((rest[..i], rest[i + |BodyKey|..])) else None
  }

  /** The subject ends at its first `&`, which starts the body key. */
  lemma SubjectEnds(encodedSubject: string, encodedBody: string)
    requires forall i :: 0 <= i < |encodedSubject| ==> encodedSubject[i] != '&'
    ensures var rest := encodedSubject + BodyKey + encodedBody;
      IndexOf(rest, '&') == |encodedSubject| && rest[..|encodedSubject|] == encodedSubject
      && rest[|encodedSubject|..] == BodyKey + encodedBody
  {
    var rest := encodedSubject + BodyKey + encodedBody;
    assert rest[|encodedSubject|] == BodyKey[0];
    IndexOfFirst(rest, '&', |encodedSubject|);
    assert rest[|encodedSubject|..] == BodyKey + encodedBody;
  }

  /**
   * A subject without `&` (URI-encoding turns every `&` into `%26`) is read
   * back exactly, and so is the body after it.
   */
  lemma MailtoRoundTrip(encodedSubject: string, encodedBody: string)
    requires forall i :: 0 <= i < |encodedSubject| ==> encodedSubject[i] != '&'
    ensures ParseMailto(Mailto(encodedSubject, encodedBody)) == Some((encodedSubject, encodedBody))
  {
    var rest := encodedSubject + BodyKey + encodedBody;
    var r := Mailto(encodedSubject, encodedBody);
    assert r == MailtoHead + rest;
    assert r[|MailtoHead|..] == rest;
    SubjectEnds(encodedSubject, encodedBody);
    var i := |encodedSubject|;
    assert rest[i..][|BodyKey|..] == encodedBody;
  }

  /** A form field with its value, its error container (if any) and its `aria-invalid` attribute. */
  class Field {
    var value: string
    const hasErrorEl: bool
    var errorText: string
    var ariaInvalid: Option<string>

    constructor (value: string, hasErrorEl: bool)
      ensures this.value == value && this.hasErrorEl == hasErrorEl
      ensures errorText == "" && ariaInvalid == None
    {
      this.value := value;
      this.hasErrorEl := hasErrorEl;
      errorText := "";
      ariaInvalid := None;
    }

    /** `setError`: writes the message where there is a container, and flags the field. */
    method SetError(msg: string)
      modifies this
      ensures value == old(value)
      ensures errorText == (if hasErrorEl then msg else old(errorText))
      ensures ariaInvalid == Some(BoolString(msg != ""))
    {
      if hasErrorEl { errorText := msg; }
      ariaInvalid := Some(if msg != "" then "true" else "false");
    }
  }

  /**
   * One line of the submit handler: a failing check writes the field's
   * message, a passing one clears it.
   */
  method Mark(field: Field, ok: bool, msg: string)
    requires msg != ""
    modifies field
    ensures field.value == old(field.value)
    ensures field.errorText == if field.hasErrorEl then (if ok then "" else msg) else old(field.errorText)
    ensures field.ariaInvalid == Some(BoolString(!ok))
  {
    if !ok { field.SetError(msg); } else { field.SetError(""); }
  }

  /**
   * The submit handler. Every field is re-checked, none is skipped because an
   * earlier one failed; the address to navigate to is returned only when all
   * pass. `encode` stands for `encodeURIComponent`.
   */
  method Submit(nameEl: Field, emailEl: Field, messageEl: Field, encode: string -> string)
    returns (navigation: Option<string>)
    requires nameEl != emailEl && emailEl != messageEl && nameEl != messageEl
    modifies nameEl, emailEl, messageEl
    ensures nameEl.value == old(nameEl.value) && emailEl.value == old(emailEl.value)
    ensures messageEl.value == old(messageEl.value)
    ensures nameEl.errorText == if nameEl.hasErrorEl then Check(nameEl.value, emailEl.value, messageEl.value).nameError else old(nameEl.errorText)
    ensures emailEl.errorText == if emailEl.hasErrorEl then Check(nameEl.value, emailEl.value, messageEl.value).emailError else old(emailEl.errorText)
    ensures messageEl.errorText == if messageEl.hasErrorEl then Check(nameEl.value, emailEl.value, messageEl.value).messageError else old(messageEl.errorText)
    ensures nameEl.ariaInvalid == Some(BoolString(!NameOk(nameEl.value)))
    ensures emailEl.ariaInvalid == Some(BoolString(!EmailOk(emailEl.value)))
    ensures messageEl.ariaInvalid == Some(BoolString(!MessageOk(messageEl.value)))
    ensures navigation == if Check(nameEl.value, emailEl.value, messageEl.value).valid
      then Some(Mailto(encode(Subject(nameEl.value)), encode(Body(nameEl.value, emailEl.value, messageEl.value))))
      else None
  {
    var nameOk := Trim(nameEl.value) != "";
    Mark(nameEl, nameOk, NameMessage);
    var emailOk := !(Trim(emailEl.value) == "" || !ValidateEmail(emailEl.value));
    Mark(emailEl, emailOk, EmailMessage);
    var messageOk := Trim(messageEl.value) != "";
    Mark(messageEl, messageOk, MessageMessage);
    var valid := nameOk && emailOk && messageOk;

    if !valid {
      return None;
    }

    var subject := encode(Subject(nameEl.value));
    var body := encode(Body(nameEl.value, emailEl.value, messageEl.value));
    navigation := Some(Mailto(subject, body));
  }
}
