/** The list of email addresses a message was already sent from, as the contact
    form's `input` and `submit` listeners read and extend it. */
module SentEmails {
  import opened JsText

  /** `value.trim().toLowerCase()`: no surrounding white space and no ASCII capital. */
  function Normalize(raw: string): (email: string)
    ensures |email| <= |raw|
    ensures email == [] <==> Trim(raw) == []
    ensures forall i | 0 <= i < |email| :: !('A' <= email[i] <= 'Z')
    ensures email == [] || (!IsJsSpace(email[0]) && !IsJsSpace(email[|email| - 1]))
  {
    var t := Trim(raw);
    if t != [] then
      LowerCharKeepsSpace(t[0]);
      LowerCharKeepsSpace(t[|t| - 1]);
      ToLower(t)
    else
      []
  }

  /** Normalising a normalised address changes nothing. */
  lemma NormalizeIdempotent(raw: string)
    ensures Normalize(Normalize(raw)) == Normalize(raw)
  {
    var t := Trim(raw);
    var n := ToLower(t);
    if n != [] {
      LowerCharKeepsSpace(t[0]);
      LowerCharKeepsSpace(t[|t| - 1]);
    }
    TrimUnchanged(n);
    ToLowerIdempotent(t);
  }

  /** No address occurs twice. */
  predicate NoDuplicates(emails: seq<string>)
  {
    forall i, j | 0 <= i < j < |emails| :: emails[i] != emails[j]
  }

  /** The list after a submit with the raw field value `raw`: a blank address is
      ignored, a new one is pushed at the end, a known one changes nothing; a non-blank
      address is in the list afterwards. */
  function Recorded(emails: seq<string>, raw: string): (r: seq<string>)
    ensures Normalize(raw) == "" ==> r == emails
    ensures Normalize(raw) != "" && Normalize(raw) !in emails ==> r == emails + [Normalize(raw)]
    ensures Normalize(raw) in emails ==> r == emails
    ensures Normalize(raw) != "" ==> Normalize(raw) in r
  {
    var email := Normalize(raw);
    if email == "" || email in emails then emails else emails + [email]
  }

  /** The list never gains a duplicate. */
  lemma RecordedKeepsNoDuplicates(emails: seq<string>, raw: string)
    requires NoDuplicates(emails)
    ensures NoDuplicates(Recorded(emails, raw))
  {
  }

  /** Submitting the same value twice is the same as submitting it once, and so is
      submitting its normalised form. */
  lemma RecordedIdempotent(emails: seq<string>, raw: string)
    ensures Recorded(Recorded(emails, raw), raw) == Recorded(emails, raw)
    ensures Recorded(emails, Normalize(raw)) == Recorded(emails, raw)
  {
    NormalizeIdempotent(raw);
  }

  /** Whether the "already sent" notice is shown for `raw`: by the `input` listener
      while typing, and by the `submit` listener before it records. */
  predicate AlreadySent(emails: seq<string>, raw: string)
    ensures AlreadySent(emails, raw) ==> Recorded(emails, raw) == emails
    ensures !AlreadySent(emails, raw) && Normalize(raw) != "" ==> |Recorded(emails, raw)| == |emails| + 1
  {
    Normalize(raw) != "" && Normalize(raw) in emails
  }

  /** After one submit, the same address (in any spacing or ASCII case that normalises
      the same) raises the notice. */
  lemma SubmitThenNotice(emails: seq<string>, raw: string, again: string)
    requires Normalize(raw) != "" && Normalize(again) == Normalize(raw)
    ensures AlreadySent(Recorded(emails, raw), again)
  {
  }

  /** The stored list as a field; `Submit` is the `submit` listener. */
  class SentEmailLog {
    var emails: seq<string>

    constructor (stored: seq<string>)
      ensures emails == stored
    {
      emails := stored;
    }

    /** Shows the notice when the address is known, and pushes it when it is new. */
    method Submit(raw: string) returns (notice: bool)
      modifies this
      ensures notice == AlreadySent(old(emails), raw)
      ensures emails == Recorded(old(emails), raw)
    {
      var email := ToLower(Trim(raw));
      if email == "" {
        return false;
      }
      notice := email in emails;
      if email !in emails {
        emails := emails + [email];
      }
    }
  }
}
