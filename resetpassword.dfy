/** The reset-password form of src/pages/ResetPassword.jsx: the four fields,
    the per-field error map kept up to date on every keystroke, the submit
    gate, and the `isFormValid` flag that enables the submit button. */
module ResetPasswordPage {
  import opened JsText
  import opened Validators
  import opened Storage
  import opened EmailService
  import opened AuthContext

  const FieldNames: set<string> := {"email", "code", "newPassword", "confirmPassword"}

  /** The verdict `handleSubmit` computes for one field of the form. */
  function FieldCheck(form: map<string, string>, field: string): (v: Validation)
    requires FieldNames <= form.Keys && field in FieldNames
    ensures field == "email" ==> v == ValidateEmail(form["email"])
    ensures field == "code" ==> v == ValidateResetCode(form["code"])
    ensures field == "newPassword" ==> v == ValidatePassword(form["newPassword"])
    ensures field == "confirmPassword" ==> v == ValidatePasswordMatch(form["newPassword"], form["confirmPassword"])
  {
    match field
    case "email" => ValidateEmail(form["email"])
    case "code" => ValidateResetCode(form["code"])
    case "newPassword" => ValidatePassword(form["newPassword"])
    case _ => ValidatePasswordMatch(form["newPassword"], form["confirmPassword"])
  }

  /** The error map `handleSubmit` builds: one entry per failing field, holding its message. */
  function SubmitErrors(form: map<string, string>): (errors: map<string, string>)
    requires FieldNames <= form.Keys
    ensures errors.Keys <= FieldNames
    ensures forall f :: f in FieldNames ==> (f in errors <==> FieldCheck(form, f).Fail?)
    ensures forall f :: f in errors ==> errors[f] == FieldCheck(form, f).error
  {
    map f | f in FieldNames && FieldCheck(form, f).Fail? :: FieldCheck(form, f).error
  }

  /** `if (!v.isValid) errors[field] = v.error`. */
  function AddFailure(errors: map<string, string>, field: string, v: Validation): (r: map<string, string>)
    ensures v.Pass? ==> r == errors
    ensures v.Fail? ==> r == errors[field := v.error]
  {
    if v.Fail? then errors[field := v.error] else errors
  }

  /** Building the error map one validator at a time, in the order of
      `handleSubmit`, gives the map of all failing fields. */
  lemma SubmitErrorsInOrder(form: map<string, string>)
    requires FieldNames <= form.Keys
    ensures SubmitErrors(form) ==
      AddFailure(AddFailure(AddFailure(AddFailure(map[],
        "email", FieldCheck(form, "email")),
        "code", FieldCheck(form, "code")),
        "newPassword", FieldCheck(form, "newPassword")),
        "confirmPassword", FieldCheck(form, "confirmPassword"))
  {
    var built := AddFailure(AddFailure(AddFailure(AddFailure(map[],
        "email", FieldCheck(form, "email")),
        "code", FieldCheck(form, "code")),
        "newPassword", FieldCheck(form, "newPassword")),
        "confirmPassword", FieldCheck(form, "confirmPassword"));
    assert built.Keys == SubmitErrors(form).Keys;
  }

  /** `delete errors[field]` when the check passed, `errors[field] = error` otherwise. */
  function Record(errors: map<string, string>, field: string, v: Validation): (r: map<string, string>)
    ensures v.Pass? ==> r == errors - {field}
    ensures v.Fail? ==> r == errors[field := v.error]
  {
    if v.Pass? then errors - {field} else errors[field := v.error]
  }

  /** The error map after `handleChange(name, value)`, given the form before the change. */
  function ErrorsAfterChange(form: map<string, string>, errors: map<string, string>,
                             name: string, value: string): (r: map<string, string>)
    requires FieldNames <= form.Keys
    ensures forall k :: k in r ==> k in errors || k == name || (name == "newPassword" && k == "confirmPassword")
    ensures name !in FieldNames ==> r == errors
  {
    match name
    case "email" => Record(errors, "email", ValidateEmail(value))
    case "code" => Record(errors, "code", ValidateResetCode(value))
    case "newPassword" =>
      var checked := Record(errors, "newPassword", ValidatePassword(value));
      if form["confirmPassword"] != "" then
        Record(checked, "confirmPassword", ValidatePasswordMatch(value, form["confirmPassword"]))
      else checked
    case "confirmPassword" => Record(errors, "confirmPassword", ValidatePasswordMatch(form["newPassword"], value))
    case _ => errors
  }

  /** `isFormValid`: every field filled in and no error shown. */
  predicate IsFormValid(form: map<string, string>, errors: map<string, string>): (valid: bool)
    requires FieldNames <= form.Keys
    ensures valid <==> (forall f :: f in FieldNames ==> form[f] != "") && errors == map[]
  {
    form["email"] != "" && form["code"] != "" && form["newPassword"] != ""
    && form["confirmPassword"] != "" && |errors| == 0
  }

  /** An entry of a field untouched since load may be missing; any entry shown is current. */
  predicate Tracks(form: map<string, string>, errors: map<string, string>, field: string, v: Validation)
    requires field in form
  {
    && (field in errors ==> v.Fail? && errors[field] == v.error)
    && (field !in errors ==> form[field] == "" || v.Pass?)
  }

  /** What the error map says about the form at every moment: the entries of
      email, code and the new password are those of their validators (or the
      field is still empty); the confirmation's entry, when the confirmation is
      non-empty, is present exactly when it differs from the new password. */
  predicate Synced(form: map<string, string>, errors: map<string, string>) {
    && FieldNames <= form.Keys
    && errors.Keys <= FieldNames
    && Tracks(form, errors, "email", ValidateEmail(form["email"]))
    && Tracks(form, errors, "code", ValidateResetCode(form["code"]))
    && Tracks(form, errors, "newPassword", ValidatePassword(form["newPassword"]))
    && ("confirmPassword" in errors ==> errors["confirmPassword"] == PasswordsDiffer)
    && (form["confirmPassword"] != "" ==>
          ("confirmPassword" in errors <==> form["confirmPassword"] != form["newPassword"]))
  }

  const InitialForm: map<string, string> := map["email" := "", "code" := "", "newPassword" := "", "confirmPassword" := ""]

  /** Typing in one field changes the error entry of that field only, except
      that a new password also re-checks a non-empty confirmation. */
  lemma ChangeIsLocal(form: map<string, string>, errors: map<string, string>, name: string, value: string, k: string)
    requires FieldNames <= form.Keys
    requires k != name && !(name == "newPassword" && k == "confirmPassword")
    ensures k in ErrorsAfterChange(form, errors, name, value) <==> k in errors
    ensures k in errors ==> ErrorsAfterChange(form, errors, name, value)[k] == errors[k]
  {
  }

  /** The entry of the edited field is deleted when its validator passes and holds its error otherwise. */
  lemma ChangeRecordsVerdict(form: map<string, string>, errors: map<string, string>, name: string, value: string)
    requires FieldNames <= form.Keys && name in FieldNames
    ensures var v := FieldCheck(form[name := value], name);
      var r := ErrorsAfterChange(form, errors, name, value);
      && (v.Pass? ==> name !in r)
      && (v.Fail? ==> name in r && r[name] == v.error)
  {
  }

  /** A new password re-checks the confirmation against the new value when
      the confirmation is non-empty, and leaves its entry alone otherwise. */
  lemma NewPasswordRechecksConfirmation(form: map<string, string>, errors: map<string, string>, value: string)
    requires FieldNames <= form.Keys
    ensures var r := ErrorsAfterChange(form, errors, "newPassword", value);
      && (form["confirmPassword"] != "" ==>
            ("confirmPassword" in r <==> value != form["confirmPassword"]))
      && (form["confirmPassword"] == "" ==>
            ("confirmPassword" in r <==> "confirmPassword" in errors)
            && ("confirmPassword" in errors ==> r["confirmPassword"] == errors["confirmPassword"]))
  {
  }

  /** The empty form with no errors is in sync. */
  lemma InitialSynced()
    ensures Synced(InitialForm, map[])
  {
  }

  /** A field whose value and error entry are both unchanged stays tracked. */
  lemma TracksFrame(form: map<string, string>, errors: map<string, string>,
                    form': map<string, string>, errors': map<string, string>, field: string, v: Validation)
    requires field in form && field in form' && form'[field] == form[field]
    requires (field in errors' <==> field in errors) && (field in errors ==> errors'[field] == errors[field])
    requires Tracks(form, errors, field, v)
    ensures Tracks(form', errors', field, v)
  {
  }

  /** Editing the email, the code or an unknown field keeps the map in sync. */
  lemma ChangeOtherKeepsSynced(form: map<string, string>, errors: map<string, string>, name: string, value: string)
    requires Synced(form, errors) && name != "newPassword" && name != "confirmPassword"
    ensures Synced(form[name := value], ErrorsAfterChange(form, errors, name, value))
  {
    var form', errors' := form[name := value], ErrorsAfterChange(form, errors, name, value);
    assert form'["newPassword"] == form["newPassword"] && form'["confirmPassword"] == form["confirmPassword"];
    ChangeIsLocal(form, errors, name, value, "newPassword");
    ChangeIsLocal(form, errors, name, value, "confirmPassword");
    TracksFrame(form, errors, form', errors', "newPassword", ValidatePassword(form["newPassword"]));
    if name == "email" {
      ChangeIsLocal(form, errors, name, value, "code");
      TracksFrame(form, errors, form', errors', "code", ValidateResetCode(form["code"]));
    } else if name == "code" {
      ChangeIsLocal(form, errors, name, value, "email");
      TracksFrame(form, errors, form', errors', "email", ValidateEmail(form["email"]));
    } else {
      assert errors' == errors;
      TracksFrame(form, errors, form', errors', "email", ValidateEmail(form["email"]));
      TracksFrame(form, errors, form', errors', "code", ValidateResetCode(form["code"]));
    }
  }

  /** Editing the new password or its confirmation keeps the map in sync. */
  lemma ChangePasswordKeepsSynced(form: map<string, string>, errors: map<string, string>, name: string, value: string)
    requires Synced(form, errors) && (name == "newPassword" || name == "confirmPassword")
    ensures Synced(form[name := value], ErrorsAfterChange(form, errors, name, value))
  {
    var form', errors' := form[name := value], ErrorsAfterChange(form, errors, name, value);
    assert form'["email"] == form["email"] && form'["code"] == form["code"];
    ChangeIsLocal(form, errors, name, value, "email");
    ChangeIsLocal(form, errors, name, value, "code");
    TracksFrame(form, errors, form', errors', "email", ValidateEmail(form["email"]));
    TracksFrame(form, errors, form', errors', "code", ValidateResetCode(form["code"]));
    if name == "newPassword" {
      NewPasswordRechecksConfirmation(form, errors, value);
    } else {
      ChangeIsLocal(form, errors, name, value, "newPassword");
      TracksFrame(form, errors, form', errors', "newPassword", ValidatePassword(form["newPassword"]));
    }
  }

  /** Every keystroke keeps the error map in sync with the form. */
  lemma ChangeKeepsSynced(form: map<string, string>, errors: map<string, string>, name: string, value: string)
    requires Synced(form, errors)
    ensures Synced(form[name := value], ErrorsAfterChange(form, errors, name, value))
  {
    if name == "newPassword" || name == "confirmPassword" {
      ChangePasswordKeepsSynced(form, errors, name, value);
    } else {
      ChangeOtherKeepsSynced(form, errors, name, value);
    }
  }

  /** A refused submit leaves the error map in sync. */
  lemma SubmitKeepsSynced(form: map<string, string>)
    requires FieldNames <= form.Keys
    ensures Synced(form, SubmitErrors(form))
  {
    assert FieldCheck(form, "confirmPassword") == ValidatePasswordMatch(form["newPassword"], form["confirmPassword"]);
  }

  /** With the error map in sync, the submit button is enabled exactly when
      submitting would pass every validator. */
  lemma FormValidIffSubmitPasses(form: map<string, string>, errors: map<string, string>)
    requires Synced(form, errors)
    ensures IsFormValid(form, errors) <==> |SubmitErrors(form)| == 0
  {
    var submit := SubmitErrors(form);
    if IsFormValid(form, errors) {
      forall f | f in FieldNames ensures FieldCheck(form, f).Pass? {
        assert f !in errors;
      }
      assert submit.Keys == {};
    }
    if |submit| == 0 {
      assert "email" !in submit && "code" !in submit && "newPassword" !in submit && "confirmPassword" !in submit;
      assert errors.Keys == {};
    }
  }

  class ResetPasswordForm {
    var formData: map<string, string>
    var validationErrors: map<string, string>
    const auth: AuthProvider

    ghost predicate Valid()
      reads this, auth, auth.storage
    {
      Synced(formData, validationErrors) && auth.Valid()
    }

    /** Empty fields, no errors. */
    constructor (auth: AuthProvider)
      requires auth.Valid()
      ensures Valid() && this.auth == auth
      ensures formData == InitialForm && validationErrors == map[]
    {
      this.auth := auth;
      formData := InitialForm;
      validationErrors := map[];
    }

    /** `handleChange`: store the value, then update the copied error map field by field. */
    method HandleChange(name: string, value: string)
      requires Valid()
      modifies this
      ensures Valid()
      ensures formData == old(formData)[name := value]
      ensures validationErrors == ErrorsAfterChange(old(formData), old(validationErrors), name, value)
    {
      ChangeKeepsSynced(formData, validationErrors, name, value);
      var previous := formData;
      formData := formData[name := value];
      var newErrors := validationErrors;
      if name == "email" {
        var emailValidation := ValidateEmail(value);
        if emailValidation.Pass? {
          newErrors := newErrors - {"email"};
        } else {
          newErrors := newErrors["email" := emailValidation.error];
        }
      } else if name == "code" {
        var codeValidation := ValidateResetCode(value);
        if codeValidation.Pass? {
          newErrors := newErrors - {"code"};
        } else {
          newErrors := newErrors["code" := codeValidation.error];
        }
      } else if name == "newPassword" {
        var passwordValidation := ValidatePassword(value);
        if passwordValidation.Pass? {
          newErrors := newErrors - {"newPassword"};
        } else {
          newErrors := newErrors["newPassword" := passwordValidation.error];
        }
        if previous["confirmPassword"] != "" {
          var matchValidation := ValidatePasswordMatch(value, previous["confirmPassword"]);
          if matchValidation.Pass? {
            newErrors := newErrors - {"confirmPassword"};
          } else {
            newErrors := newErrors["confirmPassword" := matchValidation.error];
          }
        }
      } else if name == "confirmPassword" {
        var matchValidation := ValidatePasswordMatch(previous["newPassword"], value);
        if matchValidation.Pass? {
          newErrors := newErrors - {"confirmPassword"};
        } else {
          newErrors := newErrors["confirmPassword" := matchValidation.error];
        }
      }
      validationErrors := newErrors;
    }

    /** `handleSubmit`: clear the provider's messages, run all four validators;
        with any failure show exactly the failing fields' errors and stop,
        otherwise call `resetPassword` with the form's email, code and new
        password and schedule the two-second redirect to `/login`, which the
        source schedules whatever `resetPassword` ended with. `request` and
        `clearScheduled` are what `resetPassword` posted and scheduled. */
    method HandleSubmit(now: int, reply: ResetReply)
      returns (submitted: bool, request: Option<ResetRequest>, clearScheduled: bool, redirectScheduled: bool)
      requires Valid()
      modifies this, auth, auth.storage
      ensures Valid()
      ensures formData == old(formData) && auth.user == old(auth.user)
      ensures submitted <==> |SubmitErrors(old(formData))| == 0
      ensures redirectScheduled == submitted
      ensures !submitted ==>
        && validationErrors == SubmitErrors(old(formData))
        && request.None? && !clearScheduled
        && auth.storage.items == old(auth.storage.items)
        && auth.error == "" && auth.success == "" && auth.loading == old(auth.loading)
      ensures submitted ==>
        var verified := VerifyOutcome(old(auth.storage.items), formData["email"], formData["code"], now);
        && validationErrors == old(validationErrors)
        && !auth.loading
        && auth.storage.items == ResetStoreEffect(old(auth.storage.items), formData["email"],
                                                  formData["code"], now, reply)
        && (request.Some? <==> verified)
        && (request.Some? ==> request.value == ResetRequest(formData["email"], formData["code"], formData["newPassword"]))
        && (clearScheduled <==> verified && BackendAccepted(reply))
        && (!verified ==> auth.error == InvalidCode && auth.success == "")
        && (verified && BackendAccepted(reply) ==> auth.error == "" && auth.success == ResetDone)
        && (verified && !BackendAccepted(reply) ==> auth.error == RejectionMessage(reply) && auth.success == "")
    {
      auth.ClearMessages();
      var errors: map<string, string> := map[];
      var emailValidation := ValidateEmail(formData["email"]);
      if emailValidation.Fail? {
        errors := errors["email" := emailValidation.error];
      }
      var codeValidation := ValidateResetCode(formData["code"]);
      if codeValidation.Fail? {
        errors := errors["code" := codeValidation.error];
      }
      var passwordValidation := ValidatePassword(formData["newPassword"]);
      if passwordValidation.Fail? {
        errors := errors["newPassword" := passwordValidation.error];
      }
      var matchValidation := ValidatePasswordMatch(formData["newPassword"], formData["confirmPassword"]);
      if matchValidation.Fail? {
        errors := errors["confirmPassword" := matchValidation.error];
      }
      SubmitErrorsInOrder(formData);
      if |errors| > 0 {
        SubmitKeepsSynced(formData);
        validationErrors := errors;
        return false, None, false, false;
      }
      request, clearScheduled := auth.ResetPassword(formData["email"], formData["code"], formData["newPassword"], now, reply);
      submitted := true;
      redirectScheduled := true;
    }
  }
}
