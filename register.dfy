/** The sign-up form of src/pages/Register.jsx: four fields, two local checks
    in a fixed order, and the body of the account request. */
module RegisterPage {
  import opened JsText
  import opened Entities
  import opened Validators

  const Registered := "¡Registro exitoso! Redirigiendo al login..."
  const RegistrationFailed := "Error al registrar usuario en el servidor"
  const ConnectionError := "Error de conexión con el servidor"

  const RegisterFields: set<string> := {"username", "email", "password", "confirmPassword"}
  const InitialRegisterForm: map<string, string> := map["username" := "", "email" := "", "password" := "", "confirmPassword" := ""]

  /** The body of `POST /api/usuarios`: the user name sent as `nombre`, the
      email and the password; the confirmation is not part of it. */
  datatype RegistrationBody = RegistrationBody(nombre: string, email: string, password: string)

  /** The message that stops `handleSubmit` before the request, if any: the
      mismatch first, then a password shorter than six UTF-16 units. */
  function RegisterCheck(form: map<string, string>): (r: Option<string>)
    requires RegisterFields <= form.Keys
    ensures var p, c := form["password"], form["confirmPassword"];
      && (r == Some(PasswordsDiffer) <==> p != c)
      && (r == Some(PasswordTooShort) <==> p == c && Utf16Length(p) < MinPasswordLength)
      && (r.None? <==> p == c && Utf16Length(p) >= MinPasswordLength)
  {
    if form["password"] != form["confirmPassword"] then Some(PasswordsDiffer)
    else if Utf16Length(form["password"]) < MinPasswordLength then Some(PasswordTooShort)
    else None
  }

  /** The form's checks accept exactly what the shared validators accept, and
      a refusal carries the first failing validator's message, except that an
      empty password is reported as too short rather than as missing. */
  lemma RegisterCheckAgreesWithValidators(form: map<string, string>)
    requires RegisterFields <= form.Keys
    ensures var p, c := form["password"], form["confirmPassword"];
      RegisterCheck(form).None? <==> ValidatePasswordMatch(p, c).Pass? && ValidatePassword(p).Pass?
    ensures var p, c := form["password"], form["confirmPassword"];
      && (ValidatePasswordMatch(p, c).Fail? ==> RegisterCheck(form) == Some(ValidatePasswordMatch(p, c).error))
      && (ValidatePasswordMatch(p, c).Pass? && p != "" && ValidatePassword(p).Fail? ==>
            RegisterCheck(form) == Some(ValidatePassword(p).error))
    ensures form["password"] == "" && form["confirmPassword"] == "" ==>
      RegisterCheck(form) == Some(PasswordTooShort) && ValidatePassword("").error == PasswordRequired
  {
    assert Utf16Length("") == 0;
  }

  /** The message shown when the backend refused the account: its `error` or,
      without one, the generic failure. */
  function RefusalMessage(error: string): (m: string)
    ensures error != "" ==> m == error
    ensures error == "" ==> m == RegistrationFailed
    ensures m != ""
  {
    if error != "" then error else RegistrationFailed
  }

  class Register {
    var formData: map<string, string>
    var error: string
    var success: string

    ghost predicate Valid()
      reads this
    {
      RegisterFields <= formData.Keys
    }

    /** Empty fields, no messages. */
    constructor ()
      ensures Valid()
      ensures formData == InitialRegisterForm && error == "" && success == ""
    {
      formData := InitialRegisterForm;
      error := "";
      success := "";
    }

    /** `handleChange`: only `formData[name]` changes. */
    method HandleChange(name: string, value: string)
      requires Valid()
      modifies this
      ensures Valid()
      ensures formData == old(formData)[name := value]
      ensures error == old(error) && success == old(success)
    {
      formData := formData[name := value];
    }

    /** `handleSubmit`: clear both messages; stop with the local check's
        message, sending nothing; otherwise send the body and show the
        outcome given by `reply`; only an accepted account schedules the
        redirect to the login page. */
    method HandleSubmit(reply: ApiReply) returns (body: Option<RegistrationBody>, redirectScheduled: bool)
      requires Valid()
      modifies this
      ensures Valid() && formData == old(formData)
      ensures body.None? <==> RegisterCheck(formData).Some?
      ensures body.None? ==> error == RegisterCheck(formData).value && success == "" && !redirectScheduled
      ensures body.Some? ==>
        body.value == RegistrationBody(formData["username"], formData["email"], formData["password"])
        && ValidatePassword(body.value.password).Pass?
      ensures body.Some? ==> (redirectScheduled <==> reply.Accepted?)
      ensures body.Some? && reply.Accepted? ==> success == Registered && error == ""
      ensures body.Some? && reply.Rejected? ==> error == RefusalMessage(reply.error) && success == ""
      ensures body.Some? && reply.NoConnection? ==> error == ConnectionError && success == ""
    {
      error := "";
      success := "";
      redirectScheduled := false;
      if formData["password"] != formData["confirmPassword"] {
        error := PasswordsDiffer;
        return None, false;
      }
      if Utf16Length(formData["password"]) < 6 {
        error := PasswordTooShort;
        return None, false;
      }
      body := Some(RegistrationBody(formData["username"], formData["email"], formData["password"]));
      match reply {
        case Accepted =>
          success := Registered;
          redirectScheduled := true;
        case Rejected(message) =>
          error := if message != "" then message else RegistrationFailed;
        case NoConnection =>
          error := ConnectionError;
      }
    }
  }
}
