/**
 * The contact form's `submit` listener (script.js): a required-field check, a
 * character-class check on the phone number, then a simulated send in which the
 * submit button shows "Sending..." and is disabled until a delayed completion
 * restores it and resets the form. The blocking `alert`s become the returned verdict;
 * the 1500 ms timer becomes the explicit `Complete` step.
 */
module ContactForm {
  import opened Common
  import PhoneFormat

  const NameField := "name"
  const PhoneField := "phone"
  const MessageField := "message"
  const SendingLabel := "Sending..."

  /** `data.key` is truthy: the entry exists and is not the empty string (no trimming). */
  predicate Filled(data: map<string, string>, key: string) {
    key in data && data[key] != ""
  }

  predicate RequiredFilled(data: map<string, string>) {
    Filled(data, NameField) && Filled(data, PhoneField) && Filled(data, MessageField)
  }

  /** JavaScript's `\s`: the WhiteSpace and LineTerminator code points of ECMAScript. */
  predicate IsJsWhitespace(c: char) {
    c in {'\t', '\n', '\U{000B}', '\U{000C}', '\r', ' ', '\U{00A0}', '\U{1680}',
          '\U{2028}', '\U{2029}', '\U{202F}', '\U{205F}', '\U{3000}', '\U{FEFF}'}
    || ('\U{2000}' <= c <= '\U{200A}')
  }

  /** One character of the class `[\d\s\-\+\(\)]`. */
  predicate IsPhoneChar(c: char) {
    PhoneFormat.IsDigit(c) || IsJsWhitespace(c) || c == '-' || c == '+' || c == '(' || c == ')'
  }

  /** `/^[\d\s\-\+\(\)]+$/.test(s)`, read as the regular expression does: one class character, then more. */
  function MatchesPhonePattern(s: string): (r: bool)
    ensures r <==> |s| > 0 && forall i :: 0 <= i < |s| ==> IsPhoneChar(s[i])
  {
    |s| > 0 && IsPhoneChar(s[0]) && (|s| == 1 || MatchesPhonePattern(s[1..]))
  }

  datatype ValidationError = MissingField | InvalidPhone

  datatype Verdict = Accepted | Rejected(error: ValidationError)

  /** The two checks in order; the first failure decides the alert shown. */
  function Validate(data: map<string, string>): (v: Verdict)
    ensures v == Rejected(MissingField) <==> !RequiredFilled(data)
    ensures v == Rejected(InvalidPhone) <==> RequiredFilled(data) && !MatchesPhonePattern(data[PhoneField])
    ensures v == Accepted <==> RequiredFilled(data) && MatchesPhonePattern(data[PhoneField])
  {
    if !RequiredFilled(data) then Rejected(MissingField)
    else if !MatchesPhonePattern(data[PhoneField]) then Rejected(InvalidPhone)
    else Accepted
  }

  /** The form data built from three entries. */
  function Entries(name: string, phone: string, message: string): (data: map<string, string>)
    ensures data.Keys == {NameField, PhoneField, MessageField}
    ensures data[NameField] == name && data[PhoneField] == phone && data[MessageField] == message
  {
    map[NameField := name, PhoneField := phone, MessageField := message]
  }

  /** A phone value the formatter produced, if it is not empty, always passes the phone check. */
  lemma FormattedPhonePasses(raw: string)
    requires PhoneFormat.Format(raw) != ""
    ensures MatchesPhonePattern(PhoneFormat.Format(raw))
  {
    PhoneFormat.FormatAlphabet(raw);
  }

  /** With a name and a message, a formatted phone number is accepted whatever was typed. */
  lemma FormattedEntriesAccepted(name: string, raw: string, message: string)
    requires name != "" && message != "" && PhoneFormat.Format(raw) != ""
    ensures Validate(Entries(name, PhoneFormat.Format(raw), message)) == Accepted
  {
    FormattedPhonePasses(raw);
  }

  /** No trimming: fields holding only spaces pass both checks. */
  lemma BlankFieldsAccepted()
    ensures Validate(Entries("   ", "   ", "   ")) == Accepted
  {
    assert MatchesPhonePattern("   ");
  }

  /** Any ASCII letter in the phone number is rejected once the required fields are filled. */
  lemma LetterInPhoneRejected(name: string, phone: string, message: string, i: nat)
    requires name != "" && message != ""
    requires i < |phone| && ('a' <= phone[i] <= 'z' || 'A' <= phone[i] <= 'Z')
    ensures Validate(Entries(name, phone, message)) == Rejected(InvalidPhone)
  {
    assert !IsPhoneChar(phone[i]);
  }

  /**
   * The form as the submit path sees it: the field values, the values `reset()`
   * restores, and the submit button's text and `disabled` flag. `pending` holds the
   * text saved by an accepted submit whose delayed completion has not yet run.
   */
  class Form {
    var fields: map<string, string>
    const defaults: map<string, string>
    var buttonText: string
    var disabled: bool
    var pending: Option<string>

    /** The button is disabled exactly while a completion is pending. */
    ghost predicate Valid()
      reads this
    {
      disabled <==> pending.Some?
    }

    constructor (defaults: map<string, string>, buttonText: string)
      ensures Valid()
      ensures this.defaults == defaults && fields == defaults
      ensures this.buttonText == buttonText && !disabled && pending == None
    {
      this.defaults := defaults;
      fields := defaults;
      this.buttonText := buttonText;
      disabled := false;
      pending := None;
    }

    /** The user edits a field other than the phone number. */
    method Input(key: string, value: string)
      requires key != PhoneField
      modifies this
      ensures fields == old(fields)[key := value]
      ensures buttonText == old(buttonText) && disabled == old(disabled) && pending == old(pending)
    {
      fields := fields[key := value];
    }

    /** The user edits the phone number: the `input` listener rewrites it with the mask. */
    method InputPhone(raw: string)
      modifies this
      ensures fields == old(fields)[PhoneField := PhoneFormat.Format(raw)]
      ensures buttonText == old(buttonText) && disabled == old(disabled) && pending == old(pending)
    {
      fields := fields[PhoneField := PhoneFormat.Format(raw)];
    }

    /**
     * The `submit` listener. A rejected submit touches nothing; an accepted one saves
     * the buttonText, shows "Sending..." and disables the button. The browser fires no
     * submit while the submit button is disabled.
     */
    method Submit() returns (v: Verdict)
      requires Valid() && !disabled
      modifies this
      ensures Valid()
      ensures v == Validate(old(fields))
      ensures fields == old(fields)
      ensures v.Rejected? ==> buttonText == old(buttonText) && !disabled && pending == None
      ensures v.Accepted? ==> buttonText == SendingLabel && disabled && pending == Some(old(buttonText))
    {
      v := Validate(fields);
      if v.Rejected? {
        return;
      }
      var originalText := buttonText;
      buttonText := SendingLabel;
      disabled := true;
      pending := Some(originalText);
    }

    /** The delayed completion: the form is reset and the saved buttonText and enabled state come back. */
    method Complete()
      requires Valid() && pending.Some?
      modifies this
      ensures Valid()
      ensures fields == defaults
      ensures buttonText == old(pending).value && !disabled && pending == None
    {
      fields := defaults;
      buttonText := pending.value;
      disabled := false;
      pending := None;
    }
  }

  /**
   * The accepted lifecycle end to end on a fresh form: Idle, then Sending with the
   * button disabled, then Idle again with the original text and the default fields.
   */
  method SubmitLifecycle(defaults: map<string, string>, text: string, name: string, raw: string, message: string)
    returns (v: Verdict, sendingText: string, sendingDisabled: bool, finalText: string, finalDisabled: bool, finalFields: map<string, string>)
    requires name != "" && message != "" && PhoneFormat.Format(raw) != ""
    ensures v == Accepted
    ensures sendingText == SendingLabel && sendingDisabled
    ensures finalText == text && !finalDisabled && finalFields == defaults
  {
    var form := new Form(defaults, text);
    form.Input(NameField, name);
    form.Input(MessageField, message);
    form.InputPhone(raw);
    assert form.fields == defaults[NameField := name][MessageField := message][PhoneField := PhoneFormat.Format(raw)];
    FormattedPhonePasses(raw);
    v := form.Submit();
    sendingText, sendingDisabled := form.buttonText, form.disabled;
    form.Complete();
    finalText, finalDisabled, finalFields := form.buttonText, form.disabled, form.fields;
  }
}
