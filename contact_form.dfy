/**
 * The contact form's client-side validation (SaimonApp.validateForm):
 * three required fields, checked one after the other, each getting at most
 * one error message, and a form that is valid only when no field has one.
 */
module ContactForm {

  /** ECMAScript WhiteSpace and LineTerminator code points: the set that both
      `\s` in a regular expression and String.prototype.trim treat as space. */
  predicate IsSpace(c: char) {
    c == ' ' || c == '\t' || c == '\n' || c == '\r' ||
    c == '\U{000B}' || c == '\U{000C}' || c == '\U{00A0}' || c == '\U{1680}' ||
    ('\U{2000}' <= c <= '\U{200A}') ||
    c == '\U{2028}' || c == '\U{2029}' || c == '\U{202F}' || c == '\U{205F}' ||
    c == '\U{3000}' || c == '\U{FEFF}'
  }

  /** Every character is space (this includes the empty string). */
  predicate Blank(s: string) {
    forall i :: 0 <= i < |s| ==> IsSpace(s[i])
  }

  /** String.prototype.trimStart: drop the leading space. */
  function TrimStart(s: string): (r: string)
    ensures |r| <= |s|
  {
    if s != [] && IsSpace(s[0]) then TrimStart(s[1..]) else s
  }

  /** String.prototype.trimEnd: drop the trailing space. */
  function TrimEnd(s: string): (r: string)
    ensures |r| <= |s|
  {
    if s != [] && IsSpace(s[|s| - 1]) then TrimEnd(s[..|s| - 1]) else s
  }

  /** String.prototype.trim. */
  function Trim(s: string): (r: string)
    ensures |r| <= |s|
  {
    TrimEnd(TrimStart(s))
  }

  /** trimStart keeps a suffix that does not start with space, and what it
      drops is all space. */
  lemma {:induction false} TrimStartDropsSpace(s: string)
    ensures var r := TrimStart(s);
      |r| <= |s| && r == s[|s| - |r|..] && (r == [] || !IsSpace(r[0])) &&
      forall i :: 0 <= i < |s| - |r| ==> IsSpace(s[i])
  {
    if s != [] && IsSpace(s[0]) {
      TrimStartDropsSpace(s[1..]);
      var r := TrimStart(s[1..]);
      assert s[1..][|s| - 1 - |r|..] == s[|s| - |r|..];
      forall i | 0 <= i < |s| - |r| ensures IsSpace(s[i]) {
        if i > 0 {
          assert s[i] == s[1..][i - 1];
        }
      }
    }
  }

  /** trimEnd keeps a prefix that does not end with space, and what it drops
      is all space. */
  lemma {:induction false} TrimEndDropsSpace(s: string)
    ensures var r := TrimEnd(s);
      |r| <= |s| && r == s[..|r|] && (r == [] || !IsSpace(r[|r| - 1])) &&
      forall i :: |r| <= i < |s| ==> IsSpace(s[i])
  {
    if s != [] && IsSpace(s[|s| - 1]) {
      TrimEndDropsSpace(s[..|s| - 1]);
      var r := TrimEnd(s[..|s| - 1]);
      assert s[..|s| - 1][..|r|] == s[..|r|];
      forall i | |r| <= i < |s| ensures IsSpace(s[i]) {
        if i < |s| - 1 {
          assert s[i] == s[..|s| - 1][i];
        }
      }
    }
  }

  /** `!value.trim()` holds exactly for the all-space strings. */
  lemma TrimEmptyIffBlank(s: string)
    ensures Trim(s) == [] <==> Blank(s)
  {
    TrimStartDropsSpace(s);
    var t := TrimStart(s);
    TrimEndDropsSpace(t);
    if t != [] {
      assert !IsSpace(t[0]) && TrimEnd(t)[0] == t[0];
    }
  }

  /** One `[^\s@]+` run of the email pattern. */
  predicate EmailAtom(s: string) {
    |s| > 0 && forall i :: 0 <= i < |s| ==> !IsSpace(s[i]) && s[i] != '@'
  }

  /** An atom cut out of s between lo and hi, stated on s itself. */
  lemma EmailAtomSlice(s: string, lo: int, hi: int)
    requires 0 <= lo <= hi <= |s|
    ensures EmailAtom(s[lo..hi]) <==>
      lo < hi && forall m :: lo <= m < hi ==> !IsSpace(s[m]) && s[m] != '@'
  {
    if lo < hi && forall m :: lo <= m < hi ==> !IsSpace(s[m]) && s[m] != '@' {
      forall i | 0 <= i < hi - lo ensures !IsSpace(s[lo..hi][i]) && s[lo..hi][i] != '@' {
        assert s[lo..hi][i] == s[lo + i];
      }
    }
    if EmailAtom(s[lo..hi]) {
      forall m | lo <= m < hi ensures !IsSpace(s[m]) && s[m] != '@' {
        assert s[m] == s[lo..hi][m - lo];
      }
    }
  }

  /** What `/^[^\s@]+@[^\s@]+\.[^\s@]+$/.test(s)` accepts, read as a
      regular expression: some way to cut s into atom '@' atom '.' atom. */
  ghost predicate MatchesEmailRegex(s: string) {
    exists i, j :: 0 <= i < j < |s| && s[i] == '@' && s[j] == '.' &&
      EmailAtom(s[..i]) && EmailAtom(s[i + 1..j]) && EmailAtom(s[j + 1..])
  }

  /** The shape of an accepted address: no space anywhere, exactly one '@'
      with something before it, and after it a '.' with at least one
      character on each side. */
  predicate ValidEmail(s: string)
    ensures ValidEmail(s) ==> |s| >= 5 && s[0] != '@' && s[|s| - 1] != '@'
  {
    (forall i :: 0 <= i < |s| ==> !IsSpace(s[i])) &&
    exists k :: 0 < k < |s| && s[k] == '@' &&
      (forall i :: 0 <= i < |s| && i != k ==> s[i] != '@') &&
      exists j :: k + 1 < j < |s| - 1 && s[j] == '.'
  }

  /** Every address of that shape matches the pattern. */
  lemma ValidEmailMatchesRegex(s: string)
    requires ValidEmail(s)
    ensures MatchesEmailRegex(s)
  {
    var k :| 0 < k < |s| && s[k] == '@' &&
      (forall i :: 0 <= i < |s| && i != k ==> s[i] != '@') &&
      exists j :: k + 1 < j < |s| - 1 && s[j] == '.';
    var j :| k + 1 < j < |s| - 1 && s[j] == '.';
    EmailAtomSlice(s, 0, k);
    EmailAtomSlice(s, k + 1, j);
    EmailAtomSlice(s, j + 1, |s|);
    assert s[..k] == s[0..k] && s[j + 1..] == s[j + 1..|s|];
  }

  /** Every match of the pattern has that shape. */
  lemma RegexMatchIsValidEmail(s: string)
    requires MatchesEmailRegex(s)
    ensures ValidEmail(s)
  {
    var i, j :| 0 <= i < j < |s| && s[i] == '@' && s[j] == '.' &&
      EmailAtom(s[..i]) && EmailAtom(s[i + 1..j]) && EmailAtom(s[j + 1..]);
    assert s[..i] == s[0..i] && s[j + 1..] == s[j + 1..|s|];
    EmailAtomSlice(s, 0, i);
    EmailAtomSlice(s, i + 1, j);
    EmailAtomSlice(s, j + 1, |s|);
    assert forall m :: 0 <= m < |s| ==> !IsSpace(s[m]) && (m != i ==> s[m] != '@');
    assert i + 1 < j < |s| - 1;
  }

  /** The shape above is exactly the language of the pattern; the dots in the
      domain may be anywhere, because the middle atom may contain dots too. */
  lemma ValidEmailIffRegex(s: string)
    ensures ValidEmail(s) <==> MatchesEmailRegex(s)
  {
    if ValidEmail(s) {
      ValidEmailMatchesRegex(s);
    }
    if MatchesEmailRegex(s) {
      RegexMatchIsValidEmail(s);
    }
  }

  /** Examples of the pattern at work. */
  lemma EmailExamples()
    ensures !ValidEmail("a@b")
    ensures ValidEmail("a@b.c")
    ensures !ValidEmail(" a@b.c")
    ensures !ValidEmail("a@@b.c")
    ensures ValidEmail("a@b.c.d")
  {
    var s := "a@b.c";
    assert s[1] == '@' && s[3] == '.';
    assert forall i :: 0 <= i < |s| && i != 1 ==> s[i] != '@';
    var t := "a@b.c.d";
    assert t[1] == '@' && t[3] == '.';
    assert forall i :: 0 <= i < |t| && i != 1 ==> t[i] != '@';
    var u := "a@@b.c";
    assert u[1] == '@' && u[2] == '@';
    assert " a@b.c"[0] == ' ';
  }

  datatype Kind = Text | Email

  /** One entry of the field table; a `minLength` of 0 stands for "no minimum"
      (the source tests `field.minLength` for truthiness). */
  datatype FieldSpec = FieldSpec(name: string, required: bool, kind: Kind, minLength: nat)

  const NameField := FieldSpec("name", true, Text, 0)
  const EmailField := FieldSpec("email", true, Email, 0)
  const MessageField := FieldSpec("message", true, Text, 10)

  /** The form's field table, in the order the fields are checked. */
  const Fields: seq<FieldSpec> := [NameField, EmailField, MessageField]

  /** String.prototype.toUpperCase on one character, for ASCII letters. */
  function UpperAscii(c: char): char {
    if 'a' <= c <= 'z' then (c as int - 'a' as int + 'A' as int) as char else c
  }

  /** `name.charAt(0).toUpperCase() + name.slice(1)`. */
  function Capitalised(name: string): string {
    if name == [] then [] else [UpperAscii(name[0])] + name[1..]
  }

  /** The decimal digits of n, as a template literal prints it. */
  function Decimal(n: nat): (r: string)
    ensures |r| > 0 && forall i :: 0 <= i < |r| ==> '0' <= r[i] <= '9'
  {
    var d := ['0' + (n % 10) as char];
    if n < 10 then d else Decimal(n / 10) + d
  }

  /** The `${Name} is required.` template. */
  function RequiredMessage(name: string): (r: string)
    ensures |r| > 0
  {
    Capitalised(name) + " is required."
  }

  /** The `${Name} must be at least ${minLength} characters.` template. */
  function MinLengthMessage(name: string, minLength: nat): (r: string)
    ensures |r| > 0
  {
    Capitalised(name) + " must be at least " + Decimal(minLength) + " characters."
  }

  const EmailInvalidMessage: string := "Please enter a valid email address."

  /** The required-field text of the name field. */
  lemma NameRequiredText()
    ensures RequiredMessage("name") == "Name is required."
  {
    assert Capitalised("name") == "Name";
  }

  /** The required-field text of the email field. */
  lemma EmailRequiredText()
    ensures RequiredMessage("email") == "Email is required."
  {
    assert Capitalised("email") == "Email";
  }

  /** The required-field text of the message field. */
  lemma MessageRequiredText()
    ensures RequiredMessage("message") == "Message is required."
  {
    assert Capitalised("message") == "Message";
  }

  /** The minimum-length text of the message field. */
  lemma MinLengthText()
    ensures MinLengthMessage("message", 10) == "Message must be at least 10 characters."
  {
    assert Capitalised("message") == "Message";
    assert Decimal(10) == "10";
    var prefix := "Message" + " must be at least ";
    assert prefix == "Message must be at least ";
    assert prefix + "10" == "Message must be at least 10";
  }

  /** The else-if chain for one field: the message shown, or "" for none. */
  function FieldMessage(f: FieldSpec, value: string): (r: string)
    ensures r == "" || r == RequiredMessage(f.name) || r == EmailInvalidMessage ||
      r == MinLengthMessage(f.name, f.minLength)
    ensures !f.required && f.kind == Text && f.minLength == 0 ==> r == ""
  {
    if f.required && Trim(value) == [] then
      RequiredMessage(f.name)
    else if f.kind == Email && value != [] then
      if ValidEmail(value) then "" else EmailInvalidMessage
    else if f.minLength > 0 && |value| < f.minLength then
      MinLengthMessage(f.name, f.minLength)
    else
      ""
  }

  /** The name field: required, nothing else. */
  lemma NameMessage(name: string)
    ensures FieldMessage(NameField, name) == (if Blank(name) then RequiredMessage("name") else "")
  {
    TrimEmptyIffBlank(name);
  }

  /** The email field: required, then the pattern on the untrimmed value. */
  lemma EmailMessage(email: string)
    ensures FieldMessage(EmailField, email) ==
      (if Blank(email) then RequiredMessage("email")
       else if !ValidEmail(email) then EmailInvalidMessage
       else "")
  {
    TrimEmptyIffBlank(email);
  }

  /** The message field: required, then at least 10 characters untrimmed. */
  lemma MessageMessage(message: string)
    ensures FieldMessage(MessageField, message) ==
      (if Blank(message) then RequiredMessage("message")
       else if |message| < 10 then MinLengthMessage("message", 10)
       else "")
  {
    TrimEmptyIffBlank(message);
  }

  /** The whole form passes when no field has a message. */
  predicate FormValid(values: seq<string>)
    requires |values| == |Fields|
  {
    forall i :: 0 <= i < |Fields| ==> FieldMessage(Fields[i], values[i]) == ""
  }

  /** What validity amounts to for the three fields: each is non-blank, the
      email has the address shape and the message has at least 10 characters. */
  lemma FormValidIff(name: string, email: string, message: string)
    ensures FormValid([name, email, message]) <==>
      !Blank(name) && !Blank(email) && ValidEmail(email) &&
      !Blank(message) && |message| >= 10
  {
    FormValidFields(name, email, message);
    NameMessage(name);
    EmailMessage(email);
    MessageMessage(message);
  }

  /** FormValid over the field table is the three fields' messages being empty. */
  lemma FormValidFields(name: string, email: string, message: string)
    ensures FormValid([name, email, message]) <==>
      FieldMessage(NameField, name) == "" && FieldMessage(EmailField, email) == "" &&
      FieldMessage(MessageField, message) == ""
  {
    var v := [name, email, message];
    var n, e, m := FieldMessage(NameField, name), FieldMessage(EmailField, email), FieldMessage(MessageField, message);
    assert Fields[0] == NameField && Fields[1] == EmailField && Fields[2] == MessageField;
    assert v[0] == name && v[1] == email && v[2] == message;
    if FormValid(v) {
      assert FieldMessage(Fields[0], v[0]) == n;
      assert FieldMessage(Fields[1], v[1]) == e;
      assert FieldMessage(Fields[2], v[2]) == m;
    }
    if n == "" && e == "" && m == "" {
      forall i | 0 <= i < |Fields| ensures FieldMessage(Fields[i], v[i]) == "" {
        assert i == 0 || i == 1 || i == 2;
      }
    }
  }

  /** Length counts every character, so a short message padded with spaces
      meets the minimum. */
  lemma PaddingMeetsMinimum()
    ensures FieldMessage(MessageField, "hi        ") == ""
  {
    MessageMessage("hi        ");
    assert !IsSpace("hi        "[0]);
  }

  /** Ten spaces are long enough but blank, so the message is still missing. */
  lemma SpacesAloneAreMissing()
    ensures FieldMessage(MessageField, "          ") == RequiredMessage("message")
  {
    MessageMessage("          ");
  }

  /**
   * The form's inputs and, per field, its error element and the input's
   * red-border mark, all in the order of `Fields`.
   */
  class FormView {
    var values: seq<string>       // input.value
    var errorText: seq<string>    // the error element's textContent
    var errorHidden: seq<bool>    // the error element has class "hidden"
    var inputFlagged: seq<bool>   // the input has class "border-red-400"

    ghost predicate Valid()
      reads this
    {
      |values| == |Fields| && |errorText| == |Fields| &&
      |errorHidden| == |Fields| && |inputFlagged| == |Fields|
    }

    /** The inputs' values and, per field, the error element's text and
        visibility and the input's flag as the page has them before
        validation. */
    constructor (name: string, email: string, message: string,
                 errorText: seq<string>, errorHidden: seq<bool>, inputFlagged: seq<bool>)
      requires |errorText| == |Fields| && |errorHidden| == |Fields| && |inputFlagged| == |Fields|
      ensures Valid() && values == [name, email, message]
      ensures this.errorText == errorText && this.errorHidden == errorHidden
      ensures this.inputFlagged == inputFlagged
    {
      values := [name, email, message];
      this.errorText := errorText;
      this.errorHidden := errorHidden;
      this.inputFlagged := inputFlagged;
    }

    /** Checks every field, shows each field's message or hides its error
        element, and answers whether the form may be submitted. A hidden
        error element keeps its previous text. */
    method ValidateForm() returns (isValid: bool)
      requires Valid()
      modifies this
      ensures Valid() && values == old(values)
      ensures isValid == FormValid(values)
      ensures forall i :: 0 <= i < |Fields| ==>
        var m := FieldMessage(Fields[i], values[i]);
        errorHidden[i] == (m == "") && inputFlagged[i] == (m != "") &&
        errorText[i] == (if m == "" then old(errorText)[i] else m)
    {
      ghost var vals := values;
      ghost var messages := seq(|Fields|, k requires 0 <= k < |Fields| => FieldMessage(Fields[k], vals[k]));
      isValid := true;
      var i := 0;
      while i < |Fields|
        invariant 0 <= i <= |Fields|
        invariant Valid() && values == old(values)
        invariant forall k :: 0 <= k < |Fields| ==> messages[k] == FieldMessage(Fields[k], values[k])
        invariant isValid == forall k :: 0 <= k < i ==> messages[k] == ""
        invariant forall k :: 0 <= k < i ==>
          errorHidden[k] == (messages[k] == "") && inputFlagged[k] == (messages[k] != "") &&
          errorText[k] == (if messages[k] == "" then old(errorText)[k] else messages[k])
        invariant forall k :: i <= k < |Fields| ==> errorText[k] == old(errorText)[k]
      {
        var errorMessage := FieldMessage(Fields[i], values[i]);
        if errorMessage != "" {
          isValid := false;
          errorText := errorText[i := errorMessage];
          errorHidden := errorHidden[i := false];
          inputFlagged := inputFlagged[i := true];
        } else {
          errorHidden := errorHidden[i := true];
          inputFlagged := inputFlagged[i := false];
        }
        i := i + 1;
      }
    }
  }
}
