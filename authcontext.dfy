/** The authentication provider of src/context/AuthContext.jsx: the session
    user held in state and mirrored under `currentUser` in `localStorage`, the
    status fields `loading`, `error` and `success`, and the two recovery
    operations that drive the reset-code store. Backend replies and the result
    of the email-existence lookup are inputs. */
module AuthContext {
  import opened JsText
  import opened Entities
  import opened Storage
  import opened EmailService

  const NoAccount := "No existe una cuenta asociada a este correo electrónico"
  const InvalidCode := "Código inválido o expirado"
  const ResetDone := "Contraseña restablecida exitosamente"
  const ResetFailed := "Error al restablecer la contraseña"

  /** What `login` is called with: an object (the user document), or anything
      else (`null`, `undefined`, a string, a number). */
  datatype LoginArg = UserObject(user: User) | NotAnObject

  /** How `POST /api/usuarios/reset-password` ends: a JSON body read after a
      response with status flag `ok` (`message` is `""` when absent), or an
      exception from `fetch` or `response.json()`. */
  datatype ResetReply = ResetJson(ok: bool, success: bool, message: string) | ResetNoReply

  /** The body `resetPassword` posts. */
  datatype ResetRequest = ResetRequest(email: string, code: string, newPassword: string)

  /** The backend accepted the new password (`response.ok && data.success`). */
  predicate BackendAccepted(reply: ResetReply) {
    reply.ResetJson? && reply.ok && reply.success
  }

  /** The error shown when the backend does not accept: `data.message` or the default. */
  function RejectionMessage(reply: ResetReply): (msg: string)
    ensures msg != ""
    ensures reply.ResetJson? && reply.message != "" ==> msg == reply.message
    ensures reply.ResetNoReply? ==> msg == ResetFailed
  {
    if reply.ResetJson? && reply.message != "" then reply.message else ResetFailed
  }

  /** The user a fresh page load would restore from the storage map. */
  function SavedUser(items: map<string, Item>): (u: Option<User>)
    ensures u.Some? <==> CurrentUserKey in items && items[CurrentUserKey].UserData?
  {
    if CurrentUserKey in items && items[CurrentUserKey].UserData? then Some(items[CurrentUserKey].user) else None
  }

  /** The reset-code store after `resetPassword`, before the delayed clear:
      verification's own effect, then marking the code used when the backend
      accepted. */
  function ResetStoreEffect(items: map<string, Item>, email: string, code: string, now: int,
                            reply: ResetReply): map<string, Item>
  {
    var afterVerify := AfterVerify(items, email, now);
    if VerifyOutcome(items, email, code, now) && BackendAccepted(reply) then MarkUsed(afterVerify, email) else afterVerify
  }

  class AuthProvider {
    var user: Option<User>
    var loading: bool
    var error: string
    var success: string
    const storage: LocalStorage

    ghost predicate Valid()
      reads this, storage
    {
      storage.Valid()
    }

    /** The initial state: no user, not loading, no messages. */
    constructor (storage: LocalStorage)
      requires storage.Valid()
      ensures Valid()
      ensures this.storage == storage && storage.items == old(storage.items)
      ensures user == None && !loading && error == "" && success == ""
    {
      this.storage := storage;
      user := None;
      loading := false;
      error := "";
      success := "";
    }

    /** The mount effect: a saved user is restored; a saved value that does not
        parse is removed and the user is left as it was; an absent or empty entry
        changes nothing. */
    method RestoreSavedUser()
      requires Valid()
      modifies this, storage
      ensures Valid()
      ensures loading == old(loading) && error == old(error) && success == old(success)
      ensures SavedUser(old(storage.items)).Some? ==>
        user == SavedUser(old(storage.items)) && storage.items == old(storage.items)
      ensures Present(old(storage.items), CurrentUserKey) && old(storage.items)[CurrentUserKey].Unparsable? ==>
        user == old(user) && storage.items == old(storage.items) - {CurrentUserKey}
      ensures !Present(old(storage.items), CurrentUserKey) ==>
        user == old(user) && storage.items == old(storage.items)
    {
      if Present(storage.items, CurrentUserKey) {
        match storage.items[CurrentUserKey]
        case UserData(saved) =>
          user := Some(saved);
        case Unparsable(_) =>
          storage.RemoveItem(CurrentUserKey);
        case ResetData(r) =>
          ResetKeysDistinct(r.email, r.email);
          assert false;
        case OtherJson(_) =>
          assert false;
      }
    }

    /** `login`: only an object becomes the user and is saved. */
    method Login(arg: LoginArg)
      requires Valid()
      modifies this, storage
      ensures Valid()
      ensures loading == old(loading) && error == old(error) && success == old(success)
      ensures arg.UserObject? ==>
        user == Some(arg.user) && storage.items == old(storage.items)[CurrentUserKey := UserData(arg.user)]
      ensures arg.NotAnObject? ==> user == old(user) && storage.items == old(storage.items)
    {
      if arg.UserObject? {
        user := Some(arg.user);
        storage.SetItem(CurrentUserKey, UserData(arg.user));
      }
    }

    /** `logout`: no user, and no saved user. */
    method Logout()
      requires Valid()
      modifies this, storage
      ensures Valid()
      ensures loading == old(loading) && error == old(error) && success == old(success)
      ensures user == None && storage.items == old(storage.items) - {CurrentUserKey}
    {
      user := None;
      storage.RemoveItem(CurrentUserKey);
    }

    /** `clearMessages`. */
    method ClearMessages()
      modifies this
      ensures user == old(user) && loading == old(loading)
      ensures error == "" && success == ""
    {
      error := "";
      success := "";
    }

    /** `requestPasswordReset`. `accountExists` is what the email lookup answered; the
        remaining parameters are those of sendPasswordResetEmail. An unknown
        email gets the not-found error and no code; a known one always ends with
        an issued code and the service's message as success. */
    method RequestPasswordReset(email: string, accountExists: bool, cfg: EmailConfig, delivered: bool,
                                draw1: int, draw2: int, now: int) returns (sent: Option<SendResult>)
      requires Valid()
      requires CodeMin <= draw1 <= CodeMax && CodeMin <= draw2 <= CodeMax
      modifies this, storage
      ensures Valid()
      ensures user == old(user) && !loading
      ensures !accountExists ==>
        sent == None && error == NoAccount && success == "" && storage.items == old(storage.items)
      ensures accountExists ==>
        sent.Some? && sent.value.success && error == "" && success == sent.value.message
        && storage.items == Issue(old(storage.items), email, IssuedCode(email, cfg, delivered, draw1, draw2), now)
    {
      loading := true;
      error := "";
      success := "";
      if !accountExists {
        error := NoAccount;
        loading := false;
        return None;
      }
      var result := SendPasswordResetEmail(storage, email, cfg, delivered, draw1, draw2, now);
      sent := Some(result);
      // sendPasswordResetEmail always reports success, so the source's
      // `setError(result.message || 'Error al enviar el código')` branch is dead
      assert result.success;
      success := result.message;
      loading := false;
    }

    /** `resetPassword`. Local verification comes first; only a verified code
        leads to the backend request, and only an accepted reply sets success
        and marks the code used. `clearScheduled` reports the one-second timer
        that later runs clearResetCode. */
    method ResetPassword(email: string, code: string, newPassword: string, now: int, reply: ResetReply)
      returns (request: Option<ResetRequest>, clearScheduled: bool)
      requires Valid()
      modifies this, storage
      ensures Valid()
      ensures user == old(user) && !loading
      ensures storage.items == ResetStoreEffect(old(storage.items), email, code, now, reply)
      ensures var verified := VerifyOutcome(old(storage.items), email, code, now);
        && (request.Some? <==> verified)
        && (request.Some? ==> request.value == ResetRequest(email, code, newPassword))
        && (clearScheduled <==> verified && BackendAccepted(reply))
        && (!verified ==> error == InvalidCode && success == "")
        && (verified && BackendAccepted(reply) ==> error == "" && success == ResetDone)
        && (verified && !BackendAccepted(reply) ==> error == RejectionMessage(reply) && success == "")
    {
      loading := true;
      error := "";
      success := "";
      var isValidCode := VerifyResetCode(storage, email, code, now);
      if !isValidCode {
        error := InvalidCode;
        loading := false;
        return None, false;
      }
      request := Some(ResetRequest(email, code, newPassword));
      clearScheduled := false;
      match reply {
        case ResetJson(ok, accepted, message) =>
          if ok && accepted {
            success := ResetDone;
            MarkResetCodeAsUsed(storage, email);
            clearScheduled := true;
          } else {
            error := if message != "" then message else ResetFailed;
          }
        case ResetNoReply =>
          error := ResetFailed;
      }
      loading := false;
    }
  }

  // ---------------------------------------------------------------------
  // Properties of the session store and of the reset gating

  /** Saving a user and reloading restores that user; after logout nothing is
      restored; neither touches any reset record. */
  lemma SessionRoundTrip(items: map<string, Item>, u: User, email: string, code: string, now: int)
    ensures SavedUser(items[CurrentUserKey := UserData(u)]) == Some(u)
    ensures SavedUser(items - {CurrentUserKey}) == None
    ensures VerifyOutcome(items[CurrentUserKey := UserData(u)], email, code, now) == VerifyOutcome(items, email, code, now)
    ensures VerifyOutcome(items - {CurrentUserKey}, email, code, now) == VerifyOutcome(items, email, code, now)
  {
    ResetKeysDistinct(email, email);
  }

  /** A rejected or failed backend request leaves a verified code exactly as it was. */
  lemma RejectionKeepsRecord(items: map<string, Item>, email: string, code: string, now: int, reply: ResetReply)
    requires VerifyOutcome(items, email, code, now) && !BackendAccepted(reply)
    ensures ResetStoreEffect(items, email, code, now, reply) == items
    ensures VerifyOutcome(ResetStoreEffect(items, email, code, now, reply), email, code, now)
  {
  }

  /** After an accepted reset the code is spent: it no longer verifies, at any
      time, with or without the delayed clear, so a second reset with it gets
      the invalid-code error and makes no request. */
  lemma AcceptedResetSpendsCode(items: map<string, Item>, email: string, code: string, now: int,
                                reply: ResetReply, attempt: string, later: int)
    requires VerifyOutcome(items, email, code, now) && BackendAccepted(reply)
    ensures !VerifyOutcome(ResetStoreEffect(items, email, code, now, reply), email, attempt, later)
    ensures !VerifyOutcome(Clear(ResetStoreEffect(items, email, code, now, reply), email), email, attempt, later)
    ensures ResetKey(email) !in Clear(ResetStoreEffect(items, email, code, now, reply), email)
  {
    MarkUsedBlocksVerify(AfterVerify(items, email, now), email, attempt, later);
  }

  /** A code that does not verify makes `resetPassword` change the store only as verification does. */
  lemma UnverifiedResetOnlyVerifies(items: map<string, Item>, email: string, code: string, now: int, reply: ResetReply)
    requires !VerifyOutcome(items, email, code, now)
    ensures ResetStoreEffect(items, email, code, now, reply) == AfterVerify(items, email, now)
  {
  }

  /** Requesting a code for a known email and then resetting with that code
      within fifteen minutes reaches the backend; an accepted reply spends the code. */
  lemma RequestThenReset(items: map<string, Item>, email: string, cfg: EmailConfig, delivered: bool,
                         draw1: int, draw2: int, t: int, now: int, reply: ResetReply)
    requires CodeMin <= draw1 <= CodeMax && CodeMin <= draw2 <= CodeMax
    requires t <= now <= t + ExpiryMs
    ensures var code := IssuedCode(email, cfg, delivered, draw1, draw2);
      var issued := Issue(items, email, code, t);
      && VerifyOutcome(issued, email, code, now)
      && (BackendAccepted(reply) ==> !VerifyOutcome(ResetStoreEffect(issued, email, code, now, reply), email, code, now))
      && (!BackendAccepted(reply) ==> ResetStoreEffect(issued, email, code, now, reply) == issued)
  {
    var code := IssuedCode(email, cfg, delivered, draw1, draw2);
    var issued := Issue(items, email, code, t);
    IssueThenVerify(items, email, code, t, now, code);
    if BackendAccepted(reply) {
      AcceptedResetSpendsCode(issued, email, code, now, reply, code, now);
    }
  }
}
