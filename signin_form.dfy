/** The sign-in page's form state: email and password, the error messages
    shown under them, the requests it has sent, and the logged-in flag it sets
    in the shared session context. */
module SigninForm {
  import opened JsText
  import opened FormRules
  import Auth

  datatype Field = Email | Password

  /** The form's state; it is also the body posted to `/api/auth/signin`. */
  datatype FormData = FormData(email: string, password: string)

  const EmptyForm := FormData("", "")

  /** `{...formData, [id]: value}`. */
  function SetField(d: FormData, f: Field, value: string): (r: FormData)
    ensures f == Email ==> r == FormData(value, d.password)
    ensures f == Password ==> r == FormData(d.email, value)
  {
    match f
    case Email => d.(email := value)
    case Password => d.(password := value)
  }

  /** The password is missing when blank after trimming, but its length is
      that of the untrimmed value. */
  function PasswordError(password: string): Option<string> {
    if AllSpaces(password) then Some(PasswordRequired)
    else if |password| < 8 then Some(PasswordTooShort)
    else None
  }

  function WithEmailError(d: FormData): map<Field, string> {
    if EmailError(d.email).Some? then map[Email := EmailError(d.email).value] else map[]
  }

  /** The map `validate` returns, built in the order it makes its checks. */
  function Errors(d: FormData): map<Field, string> {
    var e := WithEmailError(d);
    if PasswordError(d.password).Some? then e[Password := PasswordError(d.password).value] else e
  }

  /** Which fields are in error, and why. */
  lemma ErrorsMeaning(d: FormData)
    ensures var e := Errors(d);
      && (Email in e <==> EmailError(d.email).Some?)
      && (Email in e ==> e[Email] == EmailError(d.email).value)
      && (Password in e <==> AllSpaces(d.password) || |d.password| < 8)
      && (Password in e ==> e[Password] == (if AllSpaces(d.password) then PasswordRequired else PasswordTooShort))
  {
  }

  class SigninPage {
    var formData: FormData
    var errors: map<Field, string>
    /** The requests sent so far, oldest first. */
    var sent: seq<FormData>
    /** The session context's logged-in flag. */
    var isLogged: bool

    /** The errors on screen are none, or those of the current input. */
    predicate Consistent()
      reads this
    {
      errors == map[] || errors == Errors(formData)
    }

    constructor(isLogged: bool)
      ensures formData == EmptyForm && errors == map[] && sent == [] && this.isLogged == isLogged
      ensures Consistent()
    {
      formData := EmptyForm;
      errors := map[];
      sent := [];
      this.isLogged := isLogged;
    }

    /** `validate`: fills the error map one check after another. */
    method Validate() returns (newErrors: map<Field, string>)
      ensures newErrors == Errors(formData)
    {
      var d := formData;
      newErrors := map[];
      if AllSpaces(d.email) {
        newErrors := newErrors[Email := EmailRequired];
      } else if !Auth.IsValidEmail(d.email) {
        newErrors := newErrors[Email := InvalidEmail];
      }
      assert newErrors == WithEmailError(d);
      if AllSpaces(d.password) {
        newErrors := newErrors[Password := PasswordRequired];
      } else if |d.password| < 8 {
        newErrors := newErrors[Password := PasswordTooShort];
      }
    }

    /** `handleChange`: replaces the one field edited and clears every error. */
    method HandleChange(f: Field, value: string)
      requires Consistent()
      modifies this
      ensures formData == SetField(old(formData), f, value)
      ensures errors == map[] && sent == old(sent) && isLogged == old(isLogged)
      ensures Consistent()
    {
      formData := SetField(formData, f, value);
      errors := map[];
    }

    /** `handleSubmit`: with any error, shows them and sends nothing;
        otherwise posts the form, and when the server accepts it marks the
        session logged in and empties the form (`serverAccepts` stands for
        the outcome of the post). */
    method HandleSubmit(serverAccepts: bool)
      requires Consistent()
      modifies this
      ensures Errors(old(formData)) != map[] ==>
        && errors == Errors(old(formData)) && formData == old(formData)
        && sent == old(sent) && isLogged == old(isLogged)
      ensures Errors(old(formData)) == map[] ==>
        && sent == old(sent) + [old(formData)]
        && errors == map[]
        && formData == (if serverAccepts then EmptyForm else old(formData))
        && isLogged == (serverAccepts || old(isLogged))
      ensures Consistent()
    {
      var newErrors := Validate();
      if |newErrors| > 0 {
        errors := newErrors;
        return;
      }
      sent := sent + [formData];
      if serverAccepts {
        isLogged := true;
        formData := EmptyForm;
      }
    }
  }

  /** Every request the page sends has a well-formed email and a password
      of at least eight characters that is not all white space. */
  lemma SentRequestsPassChecks(d: FormData)
    requires Errors(d) == map[]
    ensures !AllSpaces(d.email) && Auth.EmailShape(d.email)
    ensures !AllSpaces(d.password) && |d.password| >= 8
  {
    ErrorsMeaning(d);
  }

  /** A password of white space only is missing, however long it is: eight
      spaces do not pass as long enough. Sign-up, which does not trim, calls
      a short run of spaces too short instead. */
  lemma BlankPasswordRequired(d: FormData)
    requires AllSpaces(d.password)
    ensures Errors(d)[Password] == PasswordRequired
  {
    ErrorsMeaning(d);
  }
}
