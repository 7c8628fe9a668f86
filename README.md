# Biblioteca Nexus front end: a Dafny model of its client-side logic

This project models the logic that the Biblioteca Nexus React front end runs in
the browser, and proves properties of it:

- the **password-recovery code store** of `src/services/emailService.js`:
  - six-digit codes kept in `localStorage` under `reset_<email>`;
  - a fifteen-minute expiry;
  - one-time use;
  - the fallback from real delivery to the simulation;
- the **field validators** of `src/utils/validators.js`;
- the **authentication provider** of `src/context/AuthContext.jsx`:
  - the session user mirrored under `currentUser`;
  - `login`, `logout` and the restore on load;
  - the two recovery operations that drive the code store;
- the **reset-password form** of `src/pages/ResetPassword.jsx`:
  - per-field errors kept up to date on every keystroke;
  - the submit gate;
  - the `isFormValid` flag;
- the **catalogue pages**:
  - the authors letter filter and "ver más" prefix (`Escritores.jsx`);
  - the loans list, status classes and labels (`RegisterPrestamo.jsx`);
  - the users list (`RegisterUser.jsx`);
  - the page chunking of the PDF downloads;
- the **profile page** (`Profile.jsx`): initials, loan counters and the password form;
- the **sign-up form** (`Register.jsx`).

The files follow the source:

| file | models |
|---|---|
| `jstext.dfy` | the JavaScript string behaviour the code relies on: UTF-16 `length`, `split`, `includes`, `s[i]` yielding `undefined` past the end, `+` on `undefined` |
| `validators.dfy` | `validators.js` |
| `entities.dfy` | the backend records and the outcome of a request |
| `storage.dfy` | `localStorage`, as a class over a key-value map |
| `emailservice.dfy` | `emailService.js` |
| `authcontext.dfy` | `AuthContext.jsx` |
| `resetpassword.dfy` | `ResetPassword.jsx` |
| `paging.dfy` | the list operations the pages share: `filter`, `slice(0, n)` and the chunk loop |
| `initials.dfy` | the `getInitials` helpers |
| `escritores.dfy` | `Escritores.jsx` |
| `registerprestamo.dfy` | `RegisterPrestamo.jsx` |
| `registeruser.dfy` | `RegisterUser.jsx` |
| `profile.dfy` | `Profile.jsx` |
| `register.dfy` | `Register.jsx` |

Components whose state changes step by step are classes. Each field of the
class is a piece of React state, and each handler is a method. Every method
states its new state outright, usually as a pure function of the old one, and
the lemmas are stated on those functions. All state-changing code shares one
`Storage.LocalStorage` object.

The outside world comes in as parameters:

- the clock reading `now`;
- the integers the random expressions produce;
- whether EmailJS delivered the message;
- what the email lookup answered;
- how each backend request ended (`Entities.ApiReply`, `AuthContext.ResetReply`).

A method that makes a request returns the body it sends.

## Model

| member | source | states |
|---|---|---|
| `Validators.ValidateEmail` | src/utils/validators.js:1-12 | the email passes exactly when it matches `^[^\s@]+@[^\s@]+\.[^\s@]+$`; empty gives "requerido", any other non-match the format error |
| `Validators.EmailShapeIsRegex` | src/utils/validators.js:6-7 | the executable shape test accepts exactly the strings in the language of the regular expression |
| `Validators.ValidatePassword` | src/utils/validators.js:14-24 | passes exactly when the UTF-16 length is at least 6; empty gives "requerida", otherwise too short gives the length error |
| `Validators.ValidatePasswordMatch` | src/utils/validators.js:26-32 | passes exactly when the two strings are equal; a failure carries the mismatch message |
| `Validators.ValidateResetCode` | src/utils/validators.js:34-48 | passes exactly for six ASCII digits; the empty, wrong-length and non-numeric errors in that order |
| `Validators.ResetCodeErrorOrder` | src/utils/validators.js:39-45 | a non-empty failing code gets the length error when its length is not 6 and the digits error otherwise |
| `Storage.ResetKey` | src/services/emailService.js:72 | the key is `reset_` followed by the email, which can be read back from it |
| `Storage.ResetKeysDistinct` | src/services/emailService.js:177 | two emails share a reset key only when equal; no reset key is `currentUser` |
| `EmailService.IsEmailJSConfigured` | src/services/emailService.js:21-28 | true exactly when the three ids are non-empty and none contains its placeholder |
| `EmailService.UnconfiguredSettings` | src/services/emailService.js:4-28 | the default settings, and ids holding the template placeholders, count as not configured |
| `EmailService.GenerateResetCode` | src/services/emailService.js:39-41 | the code is six ASCII digits whose decimal value is the draw, and it passes `validateResetCode` |
| `EmailService.CodesDistinct` | src/services/emailService.js:39-41 | two draws give the same code only when they are equal |
| `EmailService.SendSimulatedEmail` | src/services/emailService.js:149-171 | stores a fresh unused record stamped `now` under the email's key; returns success, the simulation message and the code |
| `EmailService.SendPasswordResetEmail` | src/services/emailService.js:46-146 | always reports success and leaves a fresh record; real delivery only with '@', a usable configuration and a delivered message; otherwise the simulated result, with a second draw after a failed delivery |
| `EmailService.VerifyResetCode` | src/services/emailService.js:176-201 | true exactly for an active record with the same code; only an expired record is deleted; the store otherwise unchanged |
| `EmailService.MarkResetCodeAsUsed` | src/services/emailService.js:206-218 | sets `used` on a parsable record and changes nothing else |
| `EmailService.ClearResetCode` | src/services/emailService.js:223-225 | removes the email's key and nothing else |
| `EmailService.IssueThenVerify` | src/services/emailService.js:184-195 | within 15 minutes a fresh record verifies exactly with its own code, and verifying leaves it in place |
| `EmailService.ExpiryIsStrict` | src/services/emailService.js:186-193 | accepted at exactly 15 minutes; refused and deleted one millisecond later |
| `EmailService.VerifyFailsClosed` | src/services/emailService.js:177-199 | no record, a used record or unparsable text: refused, store unchanged |
| `EmailService.VerifyOnlyPurges` | src/services/emailService.js:176-201 | verification keeps the store or deletes this email's record and answers false; surviving entries are unchanged |
| `EmailService.MarkUsedSetsOnlyUsed` | src/services/emailService.js:206-218 | marking keeps the email, code and timestamp, sets `used`, keeps the key set, and leaves other keys alone |
| `EmailService.MarkUsedBlocksVerify` | src/services/emailService.js:184 | after marking, no code verifies for that email, at any time |
| `EmailService.ClearRemovesOnlyKey` | src/services/emailService.js:223-225 | after clearing the key is gone, nothing verifies, and every other key is unchanged |
| `EmailService.ReissueInvalidatesEarlierCode` | src/services/emailService.js:65-72 | a second issue overwrites the first: the earlier code verifies only if it equals the new one |
| `EmailService.OtherEmailsUnaffected` | src/services/emailService.js:176-225 | issue, verify, mark and clear for one email never change another email's verification |
| `EmailService.PhaseTransitions` | src/services/emailService.js:176-225 | issue makes a record active until it expires; marking makes it used; clearing removes it; verification never leaves it expired |
| `EmailService.RecoveryScenario` | src/services/emailService.js:149-218 | a code verifies five minutes after it is issued, and no longer once marked used |
| `AuthContext.RejectionMessage` | src/context/AuthContext.jsx:108-113 | the backend's non-empty message, otherwise the default; never empty |
| `AuthContext.SavedUser` | src/context/AuthContext.jsx:18-28 | a user is restored exactly when `currentUser` holds a user object |
| `AuthContext.AuthProvider.constructor` | src/context/AuthContext.jsx:12-15 | no user, not loading, no messages, storage untouched |
| `AuthContext.AuthProvider.RestoreSavedUser` | src/context/AuthContext.jsx:18-28 | a saved user is restored; unparsable text is removed and the user kept; an absent or empty entry changes nothing |
| `AuthContext.AuthProvider.Login` | src/context/AuthContext.jsx:30-36 | an object becomes the user and is saved under `currentUser`; anything else changes nothing |
| `AuthContext.AuthProvider.Logout` | src/context/AuthContext.jsx:38-41 | no user, and `currentUser` removed |
| `AuthContext.AuthProvider.ClearMessages` | src/context/AuthContext.jsx:43-46 | both messages empty, user and loading flag unchanged |
| `AuthContext.AuthProvider.RequestPasswordReset` | src/context/AuthContext.jsx:48-74 | an unknown email gets the not-found error and no code; a known one gets a fresh code and the service's message as success; loading ends false |
| `AuthContext.AuthProvider.ResetPassword` | src/context/AuthContext.jsx:76-117 | an unverified code gets the invalid-code error and no request; a verified one sends (email, code, new password); only a backend acceptance sets success, marks the code used and schedules the clear |
| `AuthContext.SessionRoundTrip` | src/context/AuthContext.jsx:30-41 | a saved user is what a reload restores; after logout nothing is; neither changes any code's verification |
| `AuthContext.RejectionKeepsRecord` | src/context/AuthContext.jsx:108-110 | a refused or failed backend request leaves a verified code as it was, still valid |
| `AuthContext.AcceptedResetSpendsCode` | src/context/AuthContext.jsx:102-107 | after an accepted reset the code verifies no more, with or without the delayed clear |
| `AuthContext.UnverifiedResetOnlyVerifies` | src/context/AuthContext.jsx:83-88 | an unverified code changes the store only as verification does |
| `AuthContext.RequestThenReset` | src/context/AuthContext.jsx:48-117 | a code requested for a known email verifies within 15 minutes; an accepted reset spends it, a refused one keeps it |
| `ResetPasswordPage.FieldCheck` | src/pages/ResetPassword.jsx:85-95 | each field is checked by its validator; the confirmation against the new password |
| `ResetPasswordPage.SubmitErrors` | src/pages/ResetPassword.jsx:83-95 | the submit error map holds exactly the failing fields, each with its validator's message |
| `ResetPasswordPage.AddFailure` | src/pages/ResetPassword.jsx:86 | a failure adds its message under the field; a pass leaves the map unchanged |
| `ResetPasswordPage.SubmitErrorsInOrder` | src/pages/ResetPassword.jsx:83-95 | building the map validator by validator, in source order, gives the map of all failing fields |
| `ResetPasswordPage.ErrorsAfterChange` | src/pages/ResetPassword.jsx:29-75 | the error map after a keystroke gains entries only for the edited field, or the confirmation after a new password; an unknown field leaves it unchanged |
| `ResetPasswordPage.IsFormValid` | src/pages/ResetPassword.jsx:115-116 | the flag holds exactly when all four fields are filled in and the error map is empty |
| `ResetPasswordPage.Record` | src/pages/ResetPassword.jsx:33-38 | a passing check deletes the field's entry; a failing one stores its message |
| `ResetPasswordPage.ChangeIsLocal` | src/pages/ResetPassword.jsx:21-76 | a keystroke changes only the edited field's entry, plus the confirmation's after a new password |
| `ResetPasswordPage.ChangeRecordsVerdict` | src/pages/ResetPassword.jsx:29-70 | the edited field's entry is gone when its check on the new value passes, and holds its error otherwise |
| `ResetPasswordPage.NewPasswordRechecksConfirmation` | src/pages/ResetPassword.jsx:48-64 | a new password re-checks a non-empty confirmation and leaves an empty one's entry alone |
| `ResetPasswordPage.InitialSynced` | src/pages/ResetPassword.jsx:11-17 | the empty form with no errors satisfies the sync invariant |
| `ResetPasswordPage.ChangeOtherKeepsSynced` | src/pages/ResetPassword.jsx:31-47 | editing the email, the code or an unknown field keeps the invariant |
| `ResetPasswordPage.ChangePasswordKeepsSynced` | src/pages/ResetPassword.jsx:48-72 | editing either password field keeps the invariant |
| `ResetPasswordPage.ChangeKeepsSynced` | src/pages/ResetPassword.jsx:21-76 | every keystroke keeps the error map in sync with the form |
| `ResetPasswordPage.SubmitKeepsSynced` | src/pages/ResetPassword.jsx:97-99 | the error map a refused submit installs is in sync with the form |
| `ResetPasswordPage.FormValidIffSubmitPasses` | src/pages/ResetPassword.jsx:115-116 | with the map in sync, `isFormValid` holds exactly when a submit would pass all four validators |
| `ResetPasswordPage.ResetPasswordForm.constructor` | src/pages/ResetPassword.jsx:11-17 | four empty fields and no errors |
| `ResetPasswordPage.ResetPasswordForm.HandleChange` | src/pages/ResetPassword.jsx:21-76 | stores the value and updates the error map as the spec function says, keeping the invariant |
| `ResetPasswordPage.ResetPasswordForm.HandleSubmit` | src/pages/ResetPassword.jsx:78-113 | clears the messages; with any failing field shows exactly those errors, posts nothing, schedules nothing and leaves the store alone; otherwise runs `resetPassword` with the form's email, code and new password: the request `(email, code, newPassword)` exactly when the code verifies, the clear scheduled exactly on acceptance, the provider's error and success for each outcome, loading false, and the redirect scheduled in every case; the user is kept on both paths |
| `Initials.SplitInitials` | src/pages/RegisterUser.jsx:6-12 | a name that splits into one part yields its first character, or `undefined` |
| `Initials.ProfileInitials` | src/pages/Profile.jsx:50-57 | the empty name gives `""`; any other name what the helper without the guard gives |
| `Initials.TwoWordInitials` | src/pages/RegisterUser.jsx:6-12 | two words separated by one space give their two first letters, on both pages |
| `Initials.OneWordInitials` | src/pages/Profile.jsx:50-57 | one word gives its first letter; the empty name gives `undefined` on the users page and `""` on the profile |
| `Initials.TrailingSpaceInitials` | src/pages/Profile.jsx:52-54 | a word followed by a space gives its first letter followed by the text "undefined" |
| `Initials.DoubleSpaceInitials` | src/pages/Profile.jsx:50-57 | two words separated by two spaces give the first letter followed by "undefined", on both pages |
| `Initials.LeadingSpaceInitials` | src/pages/RegisterUser.jsx:7-9 | a leading space gives "undefined" followed by the first letter, on both pages |
| `Initials.BlankInitials` | src/pages/RegisterUser.jsx:7-9 | a single space gives `NaN`, on both pages |
| `Initials.WordsAreWords` | src/pages/RegisterUser.jsx:7 | the words of a name are non-empty, hold no space, and take their characters from the name |
| `Initials.WordInitials` | src/pages/RegisterUser.jsx:6-12 | the intended initials: `min(2, number of words)` characters, each from the name and none a space |
| `Initials.InitialsAgreeOnTidyNames` | src/pages/Profile.jsx:50-57 | on a name without empty parts both helpers as written give the intended initials |
| `Initials.WordInitialsTrailingSpace` | src/pages/Profile.jsx:52-54 | with a trailing space the intended initials are the one first letter |
| `Initials.WordInitialsDoubleSpace` | src/pages/RegisterUser.jsx:7-9 | with two spaces the intended initials are both first letters |
| `Initials.WordInitialsBlank` | src/pages/RegisterUser.jsx:7-9 | a name of one space has no intended initials |
| `Paging.Take` | src/pages/RegisterUser.jsx:31 | `slice(0, n)` is a prefix of length `min(n, length)` |
| `Paging.TakeHidesIffShort` | src/pages/Escritores.jsx:256 | the prefix is the whole list exactly when `n` is at least the length |
| `Paging.FilterSatisfies` | src/pages/Escritores.jsx:37 | every entry a filter keeps satisfies its condition |
| `Paging.FilterCounts` | src/pages/Escritores.jsx:37 | a filter keeps each satisfying entry as often as it occurs, and no other |
| `Paging.FilterAppend` | src/pages/Escritores.jsx:37 | filtering a concatenation concatenates the filtered parts, so order is kept |
| `Paging.FilterIdempotent` | src/pages/RegisterPrestamo.jsx:196 | filtering twice by the same condition is filtering once |
| `Paging.FilterKeepsAll` | src/pages/RegisterPrestamo.jsx:196 | a filter whose condition holds everywhere returns the list |
| `Paging.FilterDisjointBound` | src/pages/Profile.jsx:60-61 | two exclusive filters select at most the whole list between them |
| `Paging.ChunkPages` | src/pages/Escritores.jsx:72-75 | the pages concatenate to the list; none is empty or over `perPage`; all but the last are full |
| `Paging.SingletonPages` | src/pages/RegisterPrestamo.jsx:70-73 | pages of one entry are as many as the entries, page `p` holding entry `p` |
| `EscritoresPage.UpperHeadAscii` | src/pages/Escritores.jsx:37 | the ASCII capital `toUpperCase` starts with: ASCII letters map to their capital, other ASCII to none |
| `EscritoresPage.StartsWithLetter` | src/pages/Escritores.jsx:37 | an ASCII capital matches only its own letter and a lower-case ASCII letter only its capital; an empty name matches none |
| `EscritoresPage.LetterFilter` | src/pages/Escritores.jsx:32-38 | the list a letter selects is no longer than the loaded list |
| `EscritoresPage.AllLettersShowsAll` | src/pages/Escritores.jsx:34-35 | "Todos" shows every author |
| `EscritoresPage.LetterFilterSelects` | src/pages/Escritores.jsx:36-38 | a letter keeps exactly the authors whose upper-cased name starts with it, each as often as it occurs |
| `EscritoresPage.LetterFilterKeepsOrder` | src/pages/Escritores.jsx:37 | the filter of a concatenation is the concatenation of the filters |
| `EscritoresPage.LettersAreDisjoint` | src/pages/Escritores.jsx:37 | no author is listed under two letters |
| `EscritoresPage.FilterIgnoresCase` | src/pages/Escritores.jsx:37 | "ana" and "Ana" are under A, "ßeta" under S, "Ángel" under no letter |
| `EscritoresPage.Escritores.constructor` | src/pages/Escritores.jsx:9-13 | empty lists, no letter, six visible |
| `EscritoresPage.Escritores.LoadAutores` | src/pages/Escritores.jsx:19-31 | both lists become the data; the letter and the visible count are kept |
| `EscritoresPage.Escritores.HandleFilter` | src/pages/Escritores.jsx:32-40 | records the letter, shows its filter of the loaded list, and resets the count to 6 |
| `EscritoresPage.Escritores.VisibleAutores` | src/pages/Escritores.jsx:42 | the prefix of length `min(visibleCount, filtered)` |
| `EscritoresPage.Escritores.ShowMoreVisible` | src/pages/Escritores.jsx:256-258 | the button shows exactly when some filtered author is hidden |
| `EscritoresPage.Escritores.HandleShowMore` | src/pages/Escritores.jsx:44-46 | the count becomes the filtered length: all shown, button gone |
| `EscritoresPage.Escritores.DownloadPdfPages` | src/pages/Escritores.jsx:63-75 | one page per author, in order, concatenating to the list |
| `RegisterPrestamoPage.EstadoClass` | src/pages/RegisterPrestamo.jsx:7-12 | the three labels map to their classes, anything else to the base class |
| `RegisterPrestamoPage.EstadoClassesDistinct` | src/pages/RegisterPrestamo.jsx:7-12 | the three known labels get three different non-base classes |
| `RegisterPrestamoPage.EstadoLabel` | src/pages/RegisterPrestamo.jsx:199 | "Activo" exactly for "prestado", "Devuelto" otherwise |
| `RegisterPrestamoPage.CardStatusClass` | src/pages/RegisterPrestamo.jsx:199 | a card's badge only ever gets the active or the returned class |
| `RegisterPrestamoPage.CardClassFollowsLabel` | src/pages/RegisterPrestamo.jsx:199 | a card is styled active exactly for a lent book; an overdue loan is styled as returned |
| `RegisterPrestamoPage.WithLibro` | src/pages/RegisterPrestamo.jsx:37 | the loans with a book are no more than the loans |
| `RegisterPrestamoPage.Visible` | src/pages/RegisterPrestamo.jsx:37 | a prefix of the loans with a book, of length `min(visibleCount, that count)`, all with a book |
| `RegisterPrestamoPage.RenderFilterIsNoOp` | src/pages/RegisterPrestamo.jsx:196 | the render's second filter changes nothing |
| `RegisterPrestamoPage.ShowMoreShown` | src/pages/RegisterPrestamo.jsx:236 | the condition as written: shown exactly when a prefix of the unfiltered list, loans without a book included, would hide some loan |
| `RegisterPrestamoPage.ShowMoreShownWhenHidden` | src/pages/RegisterPrestamo.jsx:236 | whenever a loan with a book is hidden, the button is shown |
| `RegisterPrestamoPage.ShowMoreShownWithNothingHidden` | src/pages/RegisterPrestamo.jsx:236 | six loans with a book and one without, at count 6: button shown, nothing hidden |
| `RegisterPrestamoPage.ShowMoreNeeded` | src/pages/RegisterPrestamo.jsx:236 | the intended condition: shown exactly when a loan with a book is hidden |
| `RegisterPrestamoPage.PdfPages` | src/pages/RegisterPrestamo.jsx:58-73 | no document when some loan lacks a book; otherwise one page per loan, in order |
| `RegisterPrestamoPage.RegisterPrestamo.constructor` | src/pages/RegisterPrestamo.jsx:15-17 | no loans, loading, six visible |
| `RegisterPrestamoPage.RegisterPrestamo.LoadPrestamos` | src/pages/RegisterPrestamo.jsx:23-35 | the data on success, the old list on failure; loading ends either way |
| `RegisterPrestamoPage.RegisterPrestamo.VisiblePrestamos` | src/pages/RegisterPrestamo.jsx:37 | a prefix of the loans with a book, of length `min(visibleCount, that count)` |
| `RegisterPrestamoPage.RegisterPrestamo.ShowMoreVisible` | src/pages/RegisterPrestamo.jsx:236 | shown whenever a loan with a book is hidden, on the unfiltered count |
| `RegisterPrestamoPage.RegisterPrestamo.HandleShowMore` | src/pages/RegisterPrestamo.jsx:54-56 | the count becomes the number of all loans: every loan with a book shown, button gone |
| `RegisterPrestamoPage.RegisterPrestamo.DownloadPdfPages` | src/pages/RegisterPrestamo.jsx:58-73 | the loaded loans, one per page, or no document when one lacks a book |
| `RegisterUserPage.RegisterUser.constructor` | src/pages/RegisterUser.jsx:15-16 | no users, six visible |
| `RegisterUserPage.RegisterUser.LoadUsers` | src/pages/RegisterUser.jsx:19-29 | the data on success, the empty list on failure; count kept |
| `RegisterUserPage.RegisterUser.VisibleUsers` | src/pages/RegisterUser.jsx:31 | the prefix of length `min(visibleCount, users)` |
| `RegisterUserPage.RegisterUser.ShowMoreVisible` | src/pages/RegisterUser.jsx:215-217 | the button shows exactly when some user is hidden |
| `RegisterUserPage.RegisterUser.HandleShowMore` | src/pages/RegisterUser.jsx:33-35 | the count becomes the number of users: all shown, button gone |
| `ProfilePage.InitialProfileForm` | src/pages/Profile.jsx:13-17 | the three fields come from the user, or are all empty without one |
| `ProfilePage.ActiveLoans` | src/pages/Profile.jsx:60 | the "prestado" count is at most the number of loans |
| `ProfilePage.ReturnedBooks` | src/pages/Profile.jsx:61 | the "devuelto" count is at most the number of loans |
| `ProfilePage.LoanCountsAdd` | src/pages/Profile.jsx:60-61 | both counters add up over a concatenation |
| `ProfilePage.LoanCountsBound` | src/pages/Profile.jsx:60-61 | the two counters together never exceed the number of loans |
| `ProfilePage.LoanCountsAreMultiplicities` | src/pages/Profile.jsx:60-61 | each counter keeps exactly the loans with its status, each as often as it occurs |
| `ProfilePage.PasswordCheck` | src/pages/Profile.jsx:113-120 | any empty field gives "Completa todos los campos", checked first; then differing new passwords; otherwise nothing |
| `ProfilePage.ResubmitAfterUpdateIsRefused` | src/pages/Profile.jsx:131-133 | the emptied form is refused with the fill-in message |
| `ProfilePage.RefusalMessage` | src/pages/Profile.jsx:134-137 | the backend's non-empty error, otherwise the generic failure |
| `ProfilePage.Profile.constructor` | src/pages/Profile.jsx:12-45 | the data form from the user, no loans, an empty password form, no messages |
| `ProfilePage.Profile.LoadPrestamos` | src/pages/Profile.jsx:25-35 | the data on success, the old loans on failure |
| `ProfilePage.Profile.HandleChange` | src/pages/Profile.jsx:67-72 | only `formData[name]` changes |
| `ProfilePage.Profile.HandlePasswordChange` | src/pages/Profile.jsx:75-80 | only `passwordData[name]` changes |
| `ProfilePage.Profile.HandlePasswordSubmit` | src/pages/Profile.jsx:109-141 | a failing check shows its message and sends nothing; otherwise sends the current and new password; only success empties the form |
| `RegisterPage.RegisterCheck` | src/pages/Register.jsx:31-39 | a mismatch is reported first; then a UTF-16 length below 6; otherwise nothing |
| `RegisterPage.RegisterCheckAgreesWithValidators` | src/pages/Register.jsx:31-39 | the checks accept exactly what the shared validators accept; an empty password is reported as too short |
| `RegisterPage.RefusalMessage` | src/pages/Register.jsx:58-61 | the backend's non-empty error, otherwise the generic failure |
| `RegisterPage.Register.constructor` | src/pages/Register.jsx:8-15 | four empty fields, no messages |
| `RegisterPage.Register.HandleChange` | src/pages/Register.jsx:18-23 | only `formData[name]` changes |
| `RegisterPage.Register.HandleSubmit` | src/pages/Register.jsx:25-65 | a failing check shows its message and sends nothing; otherwise sends `{nombre: username, email, password}`, whose password passes `validatePassword`; only acceptance shows success and schedules the redirect |

## Left out

- Networking is out: `fetch` and `response.json()`. Each request is reduced to its outcome, given as a parameter.
- EmailJS is out: `emailjs.init` and `emailjs.send` become the boolean `delivered`. So are `debugEmailJSTemplate` and `testEmailJSSend`, which are diagnostics.
- `Math.random` floats are out. Each draw is given as the integer in 100000..999999 that `Math.floor(100000 + r * 900000)` yields.
- `Date.now()` is a parameter `now`. One reading serves both writes of a failed real delivery.
- Timers are not run:
  - The one-second clear after a reset is the `clearScheduled` result. `ClearResetCode` models the clear itself.
  - The two-second redirects are results or implied by `submitted`.
  - `HandleSubmit` of the reset form schedules the redirect to login whatever `resetPassword` did.
  - The simulated delivery's one-second wait has no effect on state.
- The intermediate `loading = true` of the provider and of the loans page is not observable after the operation, so only the final value is stated.
- Rendering is out: jsPDF, html2canvas, `FileReader`, canvas size arithmetic, date formatting, and JSX. The PDF downloads keep only the page-chunking loop and the exception a loan without a book raises.
- `RegisterPrestamoPage.PdfPages` models only the exception from a loan without `libro`. A loan whose book has no `autor` (src/pages/RegisterPrestamo.jsx:136) or that has no `usuario` (src/pages/RegisterPrestamo.jsx:140) also throws in the template. The model's `Book` carries no author and its `Loan` no user, so neither exception is modelled.
- Routing and `navigate` are out.
- `src/pages/ForgotPassword.jsx` is not part of this model. It tests an unawaited `emailExists` and reads a `.message` field that `validateEmail` never sets.
- The email lookup of `src/utils/userHelpers.js` is not part of this model. Its answer is the `accountExists` parameter.
- `AuthContext.AuthProvider.RequestPasswordReset` leaves out two branches of the source because they cannot be reached:
  - the `result.success` false branch, since `sendPasswordResetEmail` always reports success;
  - the catch that would set "Error al enviar el código de recuperación", since `sendPasswordResetEmail` never throws. That holds only because storage writes are assumed never to fail: `Storage.LocalStorage.SetItem` always succeeds, while a browser's `localStorage.setItem` can throw a quota or security error inside `sendSimulatedEmail`. That error, and the catch it would reach, are not modelled.
- `AuthContext.AuthProvider.RestoreSavedUser` does not model these inputs, since no code of the repository stores them:
  - the stored text `null`, which parses to `null` and sets the user to `null`;
  - other JSON under `currentUser`.
- `Storage.LocalStorage` keeps other JSON (the theme, a book being edited) away from the `reset_` keys and from `currentUser`, as every writer in the repository does. A hand-edited JSON value of another shape under those keys is not modelled; text that does not parse is.
- Inputs are strings wherever the source reads `e.target.value` or a backend field. A missing field reads as `""`, which is what `user?.x || ""` on the profile page and `data.error || default` turn it into.
- `RegisterUserPage.RegisterUser` always holds a string `nombre`. A backend user without `nombre` makes `getInitials(user.nombre)` (src/pages/RegisterUser.jsx:204) call `split` on `undefined` and crash the render. The model does not capture that crash.
- `Initials.SplitInitials` takes `s[0]` of a name that starts with a character outside the Basic Multilingual Plane to be that whole character. JavaScript gives a lone surrogate.
- `EscritoresPage.UpperHeadAscii` covers the ASCII letters and the characters whose upper-case mapping begins with an ASCII capital. Any other character, such as "Á", shows under no letter, as it does in the browser. The full Unicode case tables are not modelled.
- `EscritoresPage.Escritores.HandleFilter` requires `""` or a letter A-Z, since the filter bar offers only those.
- A failed `fetchAutores` only logs and leaves the state as it was, so no method models it. `LoadAutores` is the successful load.
- `handleSave` of the profile page and `handleDelete` of the users page are out of scope. They are backend updates whose only local effect is a message.

## Findings

| source | as written | input that shows it | evidently intended | confidence | as-written member | corrected member |
|---|---|---|---|---|---|---|
| src/pages/RegisterUser.jsx:6-12 | `names[1][0]` of `name.split(' ')` also takes empty parts | the name "Ana " (trailing space) gives "Aundefined"; "Ana  Ruiz" gives "Aundefined"; " " gives `NaN` | the first letters of the first two words, ignoring extra spaces | not executed | `Initials.TrailingSpaceInitials` | `Initials.WordInitials` |
| src/pages/Profile.jsx:50-57 | the same expression after the empty-name guard | "Ana  Ruiz" (two spaces) gives "Aundefined" | "AR" | not executed | `Initials.DoubleSpaceInitials` | `Initials.WordInitialsDoubleSpace` |
| src/pages/RegisterPrestamo.jsx:236 | the "ver más" button compares `visibleCount` with the number of all loans, while the list shows only loans with a book | six loans with a book and one without, at the initial count of 6: the button shows and pressing it reveals nothing | compare with the number of loans with a book | not executed | `RegisterPrestamoPage.ShowMoreShownWithNothingHidden` | `RegisterPrestamoPage.ShowMoreNeeded` |

The corrected members are stated beside the models as written. The pages
themselves model the code as it is. `Initials.InitialsAgreeOnTidyNames` shows that
the two definitions agree on names without empty parts.
