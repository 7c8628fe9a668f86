/** The profile page of src/pages/Profile.jsx: the personal-data form filled
    from the signed-in user, the loan counters, and the password form with
    its two local checks before the update request. */
module ProfilePage {
  import opened JsText
  import opened Entities
  import opened Paging

  const FillAllFields := "Completa todos los campos"
  const NewPasswordsDiffer := "Las contraseñas nuevas no coinciden"
  const PasswordUpdated := "Contraseña actualizada correctamente"
  const PasswordUpdateFailed := "Error al actualizar la contraseña"
  const ConnectionError := "Error de conexión con el servidor"

  const ProfileFields: set<string> := {"nombre", "email", "telefono"}
  const PasswordFields: set<string> := {"currentPassword", "newPassword", "confirmPassword"}

  /** The password form after load and after a successful update. */
  const EmptyPasswordData: map<string, string> := map["currentPassword" := "", "newPassword" := "", "confirmPassword" := ""]

  /** The personal-data form: `user?.nombre || ""` and likewise for the email
      and the telephone. */
  function InitialProfileForm(user: Option<User>): (form: map<string, string>)
    ensures form.Keys == ProfileFields
    ensures user.None? ==> forall f :: f in form ==> form[f] == ""
    ensures user.Some? ==>
      form["nombre"] == user.value.nombre && form["email"] == user.value.email && form["telefono"] == user.value.telefono
  {
    if user.Some? then map["nombre" := user.value.nombre, "email" := user.value.email, "telefono" := user.value.telefono]
    else map["nombre" := "", "email" := "", "telefono" := ""]
  }

  predicate IsLent(l: Loan) {
    l.estado == "prestado"
  }

  predicate IsReturned(l: Loan) {
    l.estado == "devuelto"
  }

  /** `activeLoans`: the loans whose status is "prestado". */
  function ActiveLoans(loans: seq<Loan>): (n: nat)
    ensures n <= |loans|
  {
    |Filter(loans, IsLent)|
  }

  /** `returnedBooks`: the loans whose status is "devuelto". */
  function ReturnedBooks(loans: seq<Loan>): (n: nat)
    ensures n <= |loans|
  {
    |Filter(loans, IsReturned)|
  }

  /** The counters count loan by loan: one loan adds one to the counter of its
      status, and the counts of a concatenation are the sums of the counts. */
  lemma LoanCountsAdd(front: seq<Loan>, back: seq<Loan>)
    ensures ActiveLoans(front + back) == ActiveLoans(front) + ActiveLoans(back)
    ensures ReturnedBooks(front + back) == ReturnedBooks(front) + ReturnedBooks(back)
  {
    FilterAppend(front, back, IsLent);
    FilterAppend(front, back, IsReturned);
  }

  /** No loan is counted twice: the two counters together never exceed the number of loans. */
  lemma LoanCountsBound(loans: seq<Loan>)
    ensures ActiveLoans(loans) + ReturnedBooks(loans) <= |loans|
  {
    FilterDisjointBound(loans, IsLent, IsReturned);
  }

  /** The counters are the multiplicities of the loans with each status. */
  lemma LoanCountsAreMultiplicities(loans: seq<Loan>, l: Loan)
    ensures multiset(Filter(loans, IsLent))[l] == (if l.estado == "prestado" then multiset(loans)[l] else 0)
    ensures multiset(Filter(loans, IsReturned))[l] == (if l.estado == "devuelto" then multiset(loans)[l] else 0)
  {
    FilterCounts(loans, IsLent);
    FilterCounts(loans, IsReturned);
  }

  /** The body of the update request: the current and the new password, never the confirmation. */
  datatype PasswordRequest = PasswordRequest(currentPassword: string, newPassword: string)

  /** The message that stops `handlePasswordSubmit` before the request, if any:
      an empty field first, then new passwords that differ. */
  function PasswordCheck(passwords: map<string, string>): (r: Option<string>)
    requires PasswordFields <= passwords.Keys
    ensures var anyEmpty := passwords["currentPassword"] == "" || passwords["newPassword"] == "" || passwords["confirmPassword"] == "";
      && (r == Some(FillAllFields) <==> anyEmpty)
      && (r == Some(NewPasswordsDiffer) <==> !anyEmpty && passwords["newPassword"] != passwords["confirmPassword"])
      && (r.None? <==> !anyEmpty && passwords["newPassword"] == passwords["confirmPassword"])
  {
    if passwords["currentPassword"] == "" || passwords["newPassword"] == "" || passwords["confirmPassword"] == "" then
      Some(FillAllFields)
    else if passwords["newPassword"] != passwords["confirmPassword"] then
      Some(NewPasswordsDiffer)
    else None
  }

  /** After a successful update the form is empty again, so submitting it once
      more asks to fill in every field and sends nothing. */
  lemma ResubmitAfterUpdateIsRefused()
    ensures PasswordCheck(EmptyPasswordData) == Some(FillAllFields)
  {
  }

  /** The message shown when the update request was refused: the backend's
      `error` or, without one, the generic failure. */
  function RefusalMessage(error: string): (m: string)
    ensures error != "" ==> m == error
    ensures error == "" ==> m == PasswordUpdateFailed
    ensures m != ""
  {
    if error != "" then error else PasswordUpdateFailed
  }

  class Profile {
    var formData: map<string, string>
    var prestamos: seq<Loan>
    var passwordData: map<string, string>
    var passwordError: string
    var passwordSuccess: string

    /** Every field a form shows is present. */
    ghost predicate Valid()
      reads this
    {
      ProfileFields <= formData.Keys && PasswordFields <= passwordData.Keys
    }

    /** The page as it opens for `user`. */
    constructor (user: Option<User>)
      ensures Valid()
      ensures formData == InitialProfileForm(user) && prestamos == []
      ensures passwordData == EmptyPasswordData && passwordError == "" && passwordSuccess == ""
    {
      formData := InitialProfileForm(user);
      prestamos := [];
      passwordData := EmptyPasswordData;
      passwordError := "";
      passwordSuccess := "";
    }

    /** `fetchPrestamos`: the loans when the request succeeded; a failure is only logged. */
    method LoadPrestamos(data: Option<seq<Loan>>)
      requires Valid()
      modifies this
      ensures Valid()
      ensures prestamos == (if data.Some? then data.value else old(prestamos))
      ensures formData == old(formData) && passwordData == old(passwordData)
      ensures passwordError == old(passwordError) && passwordSuccess == old(passwordSuccess)
    {
      if data.Some? {
        prestamos := data.value;
      }
    }

    /** `handleChange`: only `formData[name]` changes. */
    method HandleChange(name: string, value: string)
      requires Valid()
      modifies this
      ensures Valid()
      ensures formData == old(formData)[name := value]
      ensures prestamos == old(prestamos) && passwordData == old(passwordData)
      ensures passwordError == old(passwordError) && passwordSuccess == old(passwordSuccess)
    {
      formData := formData[name := value];
    }

    /** `handlePasswordChange`: only `passwordData[name]` changes. */
    method HandlePasswordChange(name: string, value: string)
      requires Valid()
      modifies this
      ensures Valid()
      ensures passwordData == old(passwordData)[name := value]
      ensures prestamos == old(prestamos) && formData == old(formData)
      ensures passwordError == old(passwordError) && passwordSuccess == old(passwordSuccess)
    {
      passwordData := passwordData[name := value];
    }

    /** `handlePasswordSubmit`: clear both messages; stop with the local
        check's message when it fails, without a request; otherwise send the
        current and new password and show the outcome given by `reply`. Only a
        successful update empties the form. */
    method HandlePasswordSubmit(reply: ApiReply) returns (request: Option<PasswordRequest>)
      requires Valid()
      modifies this
      ensures Valid()
      ensures formData == old(formData) && prestamos == old(prestamos)
      ensures request.None? <==> PasswordCheck(old(passwordData)).Some?
      ensures request.None? ==>
        passwordError == PasswordCheck(old(passwordData)).value && passwordSuccess == "" && passwordData == old(passwordData)
      ensures request.Some? ==>
        request.value == PasswordRequest(old(passwordData)["currentPassword"], old(passwordData)["newPassword"])
      ensures request.Some? && reply.Accepted? ==>
        passwordSuccess == PasswordUpdated && passwordError == "" && passwordData == EmptyPasswordData
      ensures request.Some? && reply.Rejected? ==>
        passwordError == RefusalMessage(reply.error) && passwordSuccess == "" && passwordData == old(passwordData)
      ensures request.Some? && reply.NoConnection? ==>
        passwordError == ConnectionError && passwordSuccess == "" && passwordData == old(passwordData)
    {
      passwordError := "";
      passwordSuccess := "";
      if passwordData["currentPassword"] == "" || passwordData["newPassword"] == "" || passwordData["confirmPassword"] == "" {
        passwordError := FillAllFields;
        return None;
      }
      if passwordData["newPassword"] != passwordData["confirmPassword"] {
        passwordError := NewPasswordsDiffer;
        return None;
      }
      request := Some(PasswordRequest(passwordData["currentPassword"], passwordData["newPassword"]));
      match reply {
        case Accepted =>
          passwordSuccess := PasswordUpdated;
          passwordData := EmptyPasswordData;
        case Rejected(error) =>
          passwordError := if error != "" then error else PasswordUpdateFailed;
        case NoConnection =>
          passwordError := ConnectionError;
      }
    }
  }
}
