/**
 * The contact form's submit handler: the three fields are trimmed, checked for emptiness
 * in the order name, e-mail, message, and only then is the e-mail address checked; the
 * first check that fails rejects the form with its notice and moves the focus to its field.
 */
module ContactForm {
  import opened Text
  import opened Email

  datatype Field = NameField | EmailField | MessageField

  datatype Verdict =
    | Accepted(name: string, email: string, message: string)
    | Rejected(notice: string, focus: Field)

  const NameMissing := "Please enter your name."
  const EmailMissing := "Please enter your email address."
  const MessageMissing := "Please enter a message."
  const EmailInvalid := "Please enter a valid email address."

  /** The success notice shown once the simulated sending of an accepted form is over. */
  function ThanksNotice(name: string): (notice: string) {
    "Thank you, " + name + "! Your message has been sent successfully. I'll get back to you soon."
  }

  /**
   * The form is accepted exactly when no field is blank and the trimmed address matches
   * the e-mail pattern; otherwise the verdict names the first failing check in the fixed
   * order, and only that one.
   */
  function Validate(nameValue: string, emailValue: string, messageValue: string): (v: Verdict)
    ensures v.Accepted? <==>
      !IsBlank(nameValue) && !IsBlank(emailValue) && !IsBlank(messageValue) && MatchesEmailPattern(Trim(emailValue))
    ensures v.Accepted? ==> v == Accepted(Trim(nameValue), Trim(emailValue), Trim(messageValue))
    ensures v == Rejected(NameMissing, NameField) <==> IsBlank(nameValue)
    ensures v == Rejected(EmailMissing, EmailField) <==> !IsBlank(nameValue) && IsBlank(emailValue)
    ensures v == Rejected(MessageMissing, MessageField) <==>
      !IsBlank(nameValue) && !IsBlank(emailValue) && IsBlank(messageValue)
    ensures v == Rejected(EmailInvalid, EmailField) <==>
      !IsBlank(nameValue) && !IsBlank(emailValue) && !IsBlank(messageValue) && !MatchesEmailPattern(Trim(emailValue))
  {
    var name := Trim(nameValue);
    var email := Trim(emailValue);
    var message := Trim(messageValue);
    IsValidEmailMatchesPattern(email);
    if name == [] then Rejected(NameMissing, NameField)
    else if email == [] then Rejected(EmailMissing, EmailField)
    else if message == [] then Rejected(MessageMissing, MessageField)
    else if !IsValidEmail(email) then Rejected(EmailInvalid, EmailField)
    else Accepted(name, email, message)
  }
}
