/** The sign-up page's form state: the five inputs, the error messages shown
    under them, and the requests it has sent. `validate` runs in the browser
    before the request; the server's own checks are in module Auth. */
module SignupForm {
  import opened JsText
  import opened FormRules
  import Auth

  datatype Field = FirstName | LastName | Email | Password | ConfirmPassword

  datatype FormData = FormData(firstName: string, lastName: string, email: string, password: string, confirmPassword: string)

  const EmptyForm := FormData("", "", "", "", "")

  /** The body posted to `/api/auth/signup`: everything but the confirmation. */
  datatype Request = Request(firstName: string, lastName: string, email: string, password: string)

  const FirstNameRequired := "First name is required"
  const LastNameRequired := "Last name is required"
  const PasswordsDiffer := "Passwords do not match"

  /** `{...formData, [id]: value}`. */
  function SetField(d: FormData, f: Field, value: string): (r: FormData)
    ensures f == FirstName ==> r == d.(firstName := value)
    ensures f == LastName ==> r == d.(lastName := value)
    ensures f == Email ==> r == d.(email := value)
    ensures f == Password ==> r == d.(password := value)
    ensures f == ConfirmPassword ==> r == d.(confirmPassword := value)
  {
    match f
    case FirstName => d.(firstName := value)
    case LastName => d.(lastName := value)
    case Email => d.(email := value)
    case Password => d.(password := value)
    case ConfirmPassword => d.(confirmPassword := value)
  }

  /** The name checks: each blank name gets its message. */
  function NameErrors(d: FormData): map<Field, string> {
    var e := if AllSpaces(d.firstName) then map[FirstName := FirstNameRequired] else map[];
    if AllSpaces(d.lastName) then e[LastName := LastNameRequired] else e
  }

  function WithEmailError(d: FormData, e: map<Field, string>): map<Field, string> {
    if EmailError(d.email).Some? then e[Email := EmailError(d.email).value] else e
  }

  /** The password is missing only when empty: it is not trimmed. */
  function WithPasswordError(d: FormData, e: map<Field, string>): map<Field, string> {
    if d.password == [] then e[Password := PasswordRequired]
    else if |d.password| < 8 then e[Password := PasswordTooShort]
    else e
  }

  function WithConfirmError(d: FormData, e: map<Field, string>): map<Field, string> {
    if d.confirmPassword != d.password then e[ConfirmPassword := PasswordsDiffer] else e
  }

  /** The map `validate` returns, built in the order it makes its checks. */
  function Errors(d: FormData): map<Field, string> {
    WithConfirmError(d, WithPasswordError(d, WithEmailError(d, NameErrors(d))))
  }

  /** Which fields are in error, and why. */
  lemma ErrorsMeaning(d: FormData)
    ensures var e := Errors(d);
      && (FirstName in e <==> AllSpaces(d.firstName))
      && (LastName in e <==> AllSpaces(d.lastName))
      && (Email in e <==> EmailError(d.email).Some?)
      && (Password in e <==> |d.password| < 8)
      && (ConfirmPassword in e <==> d.confirmPassword != d.password)
      && (FirstName in e ==> e[FirstName] == FirstNameRequired)
      && (LastName in e ==> e[LastName] == LastNameRequired)
      && (Email in e ==> e[Email] == EmailError(d.email).value)
      && (Password in e ==> e[Password] == (if d.password == [] then PasswordRequired else PasswordTooShort))
      && (ConfirmPassword in e ==> e[ConfirmPassword] == PasswordsDiffer)
  {
  }

  class SignupPage {
    var formData: FormData
    var errors: map<Field, string>
    /** The requests sent so far, oldest first. */
    var sent: seq<Request>

    /** The errors on screen are none, or those of the current input: they
        are set only from `validate` and cleared by every edit. */
    predicate Consistent()
      reads this
    {
      errors == map[] || errors == Errors(formData)
    }

    constructor()
      ensures formData == EmptyForm && errors == map[] && sent == []
      ensures Consistent()
    {
      formData := EmptyForm;
      errors := map[];
      sent := [];
    }

    /** `validate`: fills the error map one check after another. */
    method Validate() returns (newErrors: map<Field, string>)
      ensures newErrors == Errors(formData)
    {
      var d := formData;
      newErrors := map[];
      if AllSpaces(d.firstName) {
        newErrors := newErrors[FirstName := FirstNameRequired];
      }
      if AllSpaces(d.lastName) {
        newErrors := newErrors[LastName := LastNameRequired];
      }
      assert newErrors == NameErrors(d);
      ghost var before := newErrors;
      if AllSpaces(d.email) {
        newErrors := newErrors[Email := EmailRequired];
      } else if !Auth.IsValidEmail(d.email) {
        newErrors := newErrors[Email := InvalidEmail];
      }
      assert newErrors == WithEmailError(d, before);
      before := newErrors;
      if d.password == [] {
        newErrors := newErrors[Password := PasswordRequired];
      } else if |d.password| < 8 {
        newErrors := newErrors[Password := PasswordTooShort];
      }
      assert newErrors == WithPasswordError(d, before);
      before := newErrors;
      if d.confirmPassword != d.password {
        newErrors := newErrors[ConfirmPassword := PasswordsDiffer];
      }
    }

    /** `handleChange`: replaces the one field edited and clears every error. */
    method HandleChange(f: Field, value: string)
      requires Consistent()
      modifies this
      ensures formData == SetField(old(formData), f, value)
      ensures errors == map[] && sent == old(sent)
      ensures Consistent()
    {
      formData := SetField(formData, f, value);
      errors := map[];
    }

    /** `handleSubmit`: with any error, shows them and sends nothing;
        otherwise sends the request, and empties the form when the server
        accepts it (`serverAccepts` stands for the outcome of the post). */
    method HandleSubmit(serverAccepts: bool)
      requires Consistent()
      modifies this
      ensures Errors(old(formData)) != map[] ==>
        errors == Errors(old(formData)) && formData == old(formData) && sent == old(sent)
      ensures Errors(old(formData)) == map[] ==>
        && sent == old(sent) + [Request(old(formData).firstName, old(formData).lastName, old(formData).email, old(formData).password)]
        && errors == map[]
        && formData == (if serverAccepts then EmptyForm else old(formData))
      ensures Consistent()
    {
      var newErrors := Validate();
      if |newErrors| > 0 {
        errors := newErrors;
        return;
      }
      sent := sent + [Request(formData.firstName, formData.lastName, formData.email, formData.password)];
      if serverAccepts {
        formData := EmptyForm;
      }
    }
  }

  /** Every request the page sends has non-blank names, a well-formed email
      and a password of at least eight characters. */
  lemma SentRequestsPassChecks(d: FormData)
    requires Errors(d) == map[]
    ensures !AllSpaces(d.firstName) && !AllSpaces(d.lastName)
    ensures !AllSpaces(d.email) && Auth.EmailShape(d.email)
    ensures |d.password| >= 8 && d.confirmPassword == d.password
  {
    assert FirstName !in Errors(d) && LastName !in Errors(d) && Email !in Errors(d);
    assert Password !in Errors(d) && ConfirmPassword !in Errors(d);
  }

  /** Every password the server accepts passes the form's length check. */
  lemma StrongPasswordPassesForm(d: FormData)
    requires Auth.IsStrongPassword(d.password)
    ensures Password !in Errors(d)
  {
  }

  /** ... but not conversely: eight or more lower-case letters, such as
      "abcdefgh", pass the form and are refused by the server. */
  lemma FormWeakerThanServer(d: FormData)
    requires |d.password| >= 8 && forall i :: 0 <= i < |d.password| ==> Auth.IsLowerAscii(d.password[i])
    ensures Password !in Errors(d)
    ensures !Auth.IsStrongPassword(d.password)
  {
    assert !Auth.StrongShape(d.password) by {
      assert forall i :: 0 <= i < |d.password| ==> !Auth.IsUpperAscii(d.password[i]);
    }
  }

  /** Two empty passwords agree, so only the missing password is reported. */
  lemma EmptyPasswordsOneError(d: FormData)
    requires d.password == [] && d.confirmPassword == []
    ensures Errors(d)[Password] == PasswordRequired
    ensures ConfirmPassword !in Errors(d)
  {
  }

  /** A password of spaces is not missing here (the form does not trim it). */
  lemma SpacesPasswordTooShort(d: FormData)
    requires d.password != [] && |d.password| < 8 && AllSpaces(d.password)
    ensures Errors(d)[Password] == PasswordTooShort
  {
  }
}
