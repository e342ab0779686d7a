/**
 * The sign-up form: four fields checked in a fixed order before the
 * installed callback receives the account details. The form itself never
 * talks to a feed store; whoever opens it installs the callback.
 */
module SignupForm {
  import opened JavaLang

  /** What submit decides. Each rejection shows its own message and leaves
      the form open. */
  datatype Outcome =
    | MissingField
    | PasswordsDiffer
    | PasswordTooShort
    | Accepted(username: string, email: string, password: string)

  /** The shortest password accepted. */
  const MinPasswordLength: nat := 4

  /** The checks of submit, in order: the user name and e-mail address are
      trimmed, the passwords are not; any empty field rejects; then
      different passwords reject; then a password shorter than four
      characters rejects. */
  function Validate(username: string, email: string, password: string, confirmation: string): (o: Outcome)
    ensures var u, e := Trim(username), Trim(email);
      var missing := u == [] || e == [] || password == [] || confirmation == [];
      && (o == MissingField <==> missing)
      && (o == PasswordsDiffer <==> !missing && password != confirmation)
      && (o == PasswordTooShort <==> !missing && password == confirmation && |password| < MinPasswordLength)
      && (o.Accepted? <==> !missing && password == confirmation && |password| >= MinPasswordLength)
      && (o.Accepted? ==> o == Accepted(u, e, password))
  {
    var u, e := Trim(username), Trim(email);
    if u == [] || e == [] || password == [] || confirmation == [] then MissingField
    else if password != confirmation then PasswordsDiffer
    else if |password| < MinPasswordLength then PasswordTooShort
    else Accepted(u, e, password)
  }

  /** An accepted sign-up never carries an empty field or surrounding
      blanks in the name and address. */
  lemma AcceptedIsClean(username: string, email: string, password: string, confirmation: string)
    requires Validate(username, email, password, confirmation).Accepted?
    ensures var o := Validate(username, email, password, confirmation);
      && o.username != [] && o.email != [] && |o.password| >= MinPasswordLength
      && Trim(o.username) == o.username && Trim(o.email) == o.email
  {
    TrimIdempotent(username);
    TrimIdempotent(email);
  }

  /** The installed callback: the do-nothing default, or one supplied by
      the caller (told apart by a name). */
  datatype Callback = NoOp | Handler(name: string)

  /** One call of the callback, with its three arguments. */
  datatype Invocation = Invocation(callback: Callback, username: string, email: string, password: string)

  class SignupDialog {
    /** The contents of the four fields. */
    var usernameField: string
    var emailField: string
    var passwordField: string
    var confirmationField: string
    var onSubmit: Callback
    /** Every call made to a callback so far. */
    var invocations: seq<Invocation>
    var disposed: bool

    /** A new form: empty fields and the do-nothing callback. */
    constructor ()
      ensures usernameField == "" && emailField == "" && passwordField == "" && confirmationField == ""
      ensures onSubmit == NoOp && invocations == [] && !disposed
    {
      usernameField, emailField, passwordField, confirmationField := "", "", "", "";
      onSubmit := NoOp;
      invocations := [];
      disposed := false;
    }

    /** What the user types into the four fields. */
    method Fill(username: string, email: string, password: string, confirmation: string)
      modifies this
      ensures usernameField == username && emailField == email
      ensures passwordField == password && confirmationField == confirmation
      ensures onSubmit == old(onSubmit) && invocations == old(invocations) && disposed == old(disposed)
    {
      usernameField, emailField, passwordField, confirmationField := username, email, password, confirmation;
    }

    /** Cancel: the form closes without calling the callback. */
    method Cancel()
      modifies this
      ensures disposed && invocations == old(invocations) && onSubmit == old(onSubmit)
      ensures usernameField == old(usernameField) && emailField == old(emailField)
      ensures passwordField == old(passwordField) && confirmationField == old(confirmationField)
    {
      disposed := true;
    }

    /** onSubmit(cb): installs `cb`, or the do-nothing callback for null,
        and returns the form itself for chaining. */
    method OnSubmit(cb: Option<Callback>) returns (self: SignupDialog)
      modifies this
      ensures self == this
      ensures onSubmit == if cb.None? then NoOp else cb.value
      ensures usernameField == old(usernameField) && emailField == old(emailField)
      ensures passwordField == old(passwordField) && confirmationField == old(confirmationField)
      ensures invocations == old(invocations) && disposed == old(disposed)
    {
      onSubmit := if cb.None? then NoOp else cb.value;
      self := this;
    }

    /** submit: on a rejection nothing is called and the form stays open;
        on acceptance the callback is called exactly once with the trimmed
        name, the trimmed address and the password, and the form closes. */
    method Submit() returns (o: Outcome)
      modifies this
      ensures o == Validate(old(usernameField), old(emailField), old(passwordField), old(confirmationField))
      ensures !o.Accepted? ==> invocations == old(invocations) && disposed == old(disposed)
      ensures o.Accepted? ==>
        invocations == old(invocations) + [Invocation(old(onSubmit), o.username, o.email, o.password)] && disposed
      ensures usernameField == old(usernameField) && emailField == old(emailField)
      ensures passwordField == old(passwordField) && confirmationField == old(confirmationField)
      ensures onSubmit == old(onSubmit)
    {
      o := Validate(usernameField, emailField, passwordField, confirmationField);
      if o.Accepted? {
        invocations := invocations + [Invocation(onSubmit, o.username, o.email, o.password)];
        disposed := true;
      }
    }
  }
}
