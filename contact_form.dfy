/** The contact form's client-side checks (`validateForm`) and what the submit
    handler does with their result (`handleFormSubmission`, up to the network call). */
module ContactForm {
  import opened JsText

  /** The entries of the submitted form; `None` is an entry `FormData.get` reports as null. */
  datatype FormData = FormData(
    firstName: Option<string>,
    lastName: Option<string>,
    email: Option<string>,
    message: Option<string>)

  /** One failed check; the order of the constructors is the order of the checks. */
  datatype FormError = InvalidName | InvalidEmail | InvalidMessage

  const MinNameLength: nat := 2
  const MinMessageLength: nat := 10

  /** How every error text begins. */
  const Prompt: string := "Please enter "

  /** The text shown to the visitor for each failed check: an instruction to fix it. */
  function ErrorText(e: FormError): (text: string)
    ensures |Prompt| < |text| && text[..|Prompt|] == Prompt
  {
    match e
    case InvalidName => Prompt + "a valid name (minimum 2 characters)"
    case InvalidEmail => Prompt + "a valid email address"
    case InvalidMessage => Prompt + "a message (minimum 10 characters)"
  }

  /** Each check has its own text, so the visitor can tell which one failed. */
  lemma ErrorTextsDiffer(e: FormError, other: FormError)
    requires e != other
    ensures ErrorText(e) != ErrorText(other)
  {
    assert |ErrorText(InvalidName)| == 48;
    assert |ErrorText(InvalidEmail)| == 34;
    assert |ErrorText(InvalidMessage)| == 46;
  }

  /** Position of a check in the validator's sequence of checks. */
  function Rank(e: FormError): nat
  {
    match e
    case InvalidName => 0
    case InvalidEmail => 1
    case InvalidMessage => 2
  }

  // ----- The email pattern /^[^S@]+@[^S@]+\.[^S@]+$/ -----

  /** A character of the class `[^S@]`: anything but a capital S and an at sign. */
  predicate InClass(c: char)
  {
    c != 'S' && c != '@'
  }

  /** `[^S@]+`: a non-empty run of class characters. */
  predicate ClassRun(s: string)
  {
    |s| > 0 && forall i | 0 <= i < |s| :: InClass(s[i])
  }

  /** The language of the anchored pattern, read off its structure: a run, an `@`
      at index `i`, a run, a `.` at index `j`, a run, and nothing else. */
  ghost predicate MatchesEmailPattern(s: string)
    ensures MatchesEmailPattern(s) ==> 5 <= |s|
  {
    exists i, j | 0 <= i < j < |s| ::
      s[i] == '@' && s[j] == '.' &&
      ClassRun(s[..i]) && ClassRun(s[i + 1..j]) && ClassRun(s[j + 1..])
  }

  /** The test the validator runs, written out by hand: no capital S anywhere, exactly
      one `@`, at a positive index `k`, and a `.` strictly inside what follows it. */
  predicate EmailPatternTest(s: string)
    ensures EmailPatternTest(s) ==> 5 <= |s| && 'S' !in s && '@' in s
  {
    (forall i | 0 <= i < |s| :: s[i] != 'S') &&
    exists k | 0 < k < |s| ::
      s[k] == '@' &&
      (forall i | 0 <= i < |s| && i != k :: s[i] != '@') &&
      (exists j | k + 1 < j < |s| - 1 :: s[j] == '.')
  }

  /** The hand-written test accepts exactly the language of the pattern. */
  lemma EmailPatternTestCorrect(s: string)
    ensures EmailPatternTest(s) <==> MatchesEmailPattern(s)
  {
    if EmailPatternTest(s) {
      TestMatchesPattern(s);
    }
    if MatchesEmailPattern(s) {
      PatternPassesTest(s);
    }
  }

  lemma TestMatchesPattern(s: string)
    requires EmailPatternTest(s)
    ensures MatchesEmailPattern(s)
  {
    var k :| 0 < k < |s| && s[k] == '@' &&
             (forall i | 0 <= i < |s| && i != k :: s[i] != '@') &&
             (exists j | k + 1 < j < |s| - 1 :: s[j] == '.');
    var j :| k + 1 < j < |s| - 1 && s[j] == '.';
    var local, host, top := s[..k], s[k + 1..j], s[j + 1..];
    assert forall m | 0 <= m < |local| :: local[m] == s[m];
    assert forall m | 0 <= m < |host| :: host[m] == s[k + 1 + m];
    assert forall m | 0 <= m < |top| :: top[m] == s[j + 1 + m];
    assert ClassRun(local) && ClassRun(host) && ClassRun(top);
  }

  lemma PatternPassesTest(s: string)
    requires MatchesEmailPattern(s)
    ensures EmailPatternTest(s)
  {
    var i, j :| 0 <= i < j < |s| && s[i] == '@' && s[j] == '.' &&
                ClassRun(s[..i]) && ClassRun(s[i + 1..j]) && ClassRun(s[j + 1..]);
    var local, host, top := s[..i], s[i + 1..j], s[j + 1..];
    forall m | 0 <= m < |s| && m != i
      ensures s[m] != '@' && s[m] != 'S'
    {
      if m < i {
        assert s[m] == local[m];
      } else if m < j {
        assert s[m] == host[m - (i + 1)];
      } else if m > j {
        assert s[m] == top[m - (j + 1)];
      }
    }
    assert s[i] != 'S';
    assert 0 < i && i + 1 < j < |s| - 1;
  }

  /** The class excludes capital S, so "Sam@example.com" fails while its lower-case
      spelling passes. */
  lemma EmailPatternRejectsCapitalS()
    ensures !EmailPatternTest("Sam@example.com")
    ensures EmailPatternTest("sam@example.com")
  {
    assert "Sam@example.com"[0] == 'S';
    var ok := "sam@example.com";
    assert ok[3] == '@' && ok[11] == '.';
  }

  /** The class does not exclude spaces. */
  lemma EmailPatternAllowsSpaces()
    ensures EmailPatternTest("a b@c.d")
  {
    var spaced := "a b@c.d";
    assert spaced[3] == '@' && spaced[5] == '.';
  }

  /** A second `@`, or nothing between the `@` and the `.`, fails. */
  lemma EmailPatternRejectsMalformed()
    ensures !EmailPatternTest("a@b@c.d")
    ensures !EmailPatternTest("a@.cd")
  {
    var twoAts := "a@b@c.d";
    assert twoAts[1] == '@' && twoAts[3] == '@';
    assert forall k | 0 < k < |twoAts| && twoAts[k] == '@' :: k == 1 || k == 3;
    var noHost := "a@.cd";
    assert forall k | 0 < k < |noHost| && noHost[k] == '@' :: k == 1;
    assert noHost[2] == '.' && noHost[3] != '.';
  }

  // ----- validateForm -----

  /** `!v || v.trim().length < n` is false: the entry is present, non-empty and long enough. */
  predicate LongEnough(v: Option<string>, n: nat)
  {
    v.Some? && v.value != "" && JsLength(Trim(v.value)) >= n
  }

  /** Lengths are UTF-16 lengths: one character outside the Basic Multilingual Plane is
      already a two-unit name. */
  lemma AstralNameIsLongEnough()
    ensures LongEnough(Some("\U{20BB7}"), MinNameLength)
  {
    var astral := "\U{20BB7}";
    TrimUnchanged(astral);
    assert JsLength(astral) == 2 + JsLength(astral[1..]);
  }

  /** Five emoji are a ten-unit message. */
  lemma EmojiMessageIsLongEnough()
    ensures LongEnough(Some("\U{1F600}\U{1F600}\U{1F600}\U{1F600}\U{1F600}"), MinMessageLength)
  {
    var smile := "\U{1F600}";
    assert JsLength(smile) == 2 + JsLength(smile[1..]);
    var emoji := smile + smile + smile + smile + smile;
    JsLengthConcat(smile, smile);
    JsLengthConcat(smile + smile, smile);
    JsLengthConcat(smile + smile + smile, smile);
    JsLengthConcat(smile + smile + smile + smile, smile);
    assert emoji == "\U{1F600}\U{1F600}\U{1F600}\U{1F600}\U{1F600}";
    TrimUnchanged(emoji);
  }

  predicate NameValid(f: FormData)
  {
    LongEnough(f.firstName, MinNameLength)
  }

  predicate EmailValid(f: FormData)
  {
    f.email.Some? && f.email.value != "" && EmailPatternTest(f.email.value)
  }

  predicate MessageValid(f: FormData)
  {
    LongEnough(f.message, MinMessageLength)
  }

  /** The errors pushed for the outcomes of the three checks, in the order they run. */
  function PushedErrors(nameOk: bool, emailOk: bool, messageOk: bool): (errors: seq<FormError>)
    ensures |errors| <= 3
    ensures errors == [] <==> nameOk && emailOk && messageOk
    ensures InvalidName in errors <==> !nameOk
    ensures InvalidEmail in errors <==> !emailOk
    ensures InvalidMessage in errors <==> !messageOk
    ensures forall i, j | 0 <= i < j < |errors| :: Rank(errors[i]) < Rank(errors[j])
  {
    var afterName := if nameOk then [] else [InvalidName];
    var afterEmail := if emailOk then afterName else afterName + [InvalidEmail];
    if messageOk then afterEmail else afterEmail + [InvalidMessage]
  }

  /** The list of failed checks, one per field, in the order name, email, message. */
  function ValidateForm(f: FormData): (errors: seq<FormError>)
    ensures |errors| <= 3
    ensures errors == [] <==> NameValid(f) && EmailValid(f) && MessageValid(f)
    ensures InvalidName in errors <==> !NameValid(f)
    ensures InvalidEmail in errors <==> !EmailValid(f)
    ensures InvalidMessage in errors <==> !MessageValid(f)
    ensures forall i, j | 0 <= i < j < |errors| :: Rank(errors[i]) < Rank(errors[j])
  {
    PushedErrors(NameValid(f), EmailValid(f), MessageValid(f))
  }

  /** An entry the form does not hold fails its check. */
  lemma MissingFieldFails(f: FormData)
    requires f.firstName.None? || f.email.None? || f.message.None?
    ensures ValidateForm(f) != []
  {
  }

  // ----- handleFormSubmission, up to the request -----

  /** What the submit handler does next: show one error, or send the form with the
      added `fullName` entry. */
  datatype Outcome = ShowError(text: string) | Send(fullName: string)

  /** `${firstName} ${lastName}`.trim(): a missing entry prints as "null". */
  function FullName(f: FormData): (name: string)
    ensures |name| <= |TemplateText(f.firstName)| + 1 + |TemplateText(f.lastName)|
    ensures name == [] || (!IsJsSpace(name[0]) && !IsJsSpace(name[|name| - 1]))
  {
    Trim(TemplateText(f.firstName) + " " + TemplateText(f.lastName))
  }

  /** The handler shows the first error only, and sends exactly when there is none. */
  function HandleSubmission(f: FormData): (o: Outcome)
    ensures o.Send? <==> NameValid(f) && EmailValid(f) && MessageValid(f)
    ensures o.Send? ==> o.fullName == FullName(f)
    ensures !NameValid(f) ==> o == ShowError(ErrorText(InvalidName))
    ensures NameValid(f) && !EmailValid(f) ==> o == ShowError(ErrorText(InvalidEmail))
    ensures NameValid(f) && EmailValid(f) && !MessageValid(f) ==> o == ShowError(ErrorText(InvalidMessage))
  {
    var errors := ValidateForm(f);
    if |errors| > 0 then ShowError(ErrorText(errors[0])) else Send(FullName(f))
  }
}
