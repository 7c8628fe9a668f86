/** The field validators of src/utils/validators.js. Each is a chain of
    guards returning either success or the first error message. */
module Validators {
  import opened JsText

  /** `{isValid: true}` or `{isValid: false, error}`. */
  datatype Validation = Pass | Fail(error: string)

  const EmailRequired := "El email es requerido"
  const EmailBadFormat := "Formato de email inválido"
  const PasswordRequired := "La contraseña es requerida"
  const PasswordTooShort := "La contraseña debe tener al menos 6 caracteres"
  const PasswordsDiffer := "Las contraseñas no coinciden"
  const CodeRequired := "El código es requerido"
  const CodeWrongLength := "El código debe tener 6 dígitos"
  const CodeNotNumeric := "El código solo debe contener números"

  const MinPasswordLength := 6
  const CodeLength := 6

  /** Every character is in the class `[^\s@]`. */
  predicate NoSpaceNoAt(t: string) {
    forall i :: 0 <= i < |t| ==> !IsJsWhitespace(t[i]) && t[i] != '@'
  }

  /** `s` is matched by `^[^\s@]+@[^\s@]+\.[^\s@]+$` with its `@` at `at` and the chosen `.` at `dot`. */
  ghost predicate EmailSplitAt(s: string, at: int, dot: int) {
    && 0 < at && at + 1 < dot && dot + 1 < |s|
    && s[at] == '@' && s[dot] == '.'
    && NoSpaceNoAt(s[..at]) && NoSpaceNoAt(s[at + 1..dot]) && NoSpaceNoAt(s[dot + 1..])
  }

  /** The language of the regular expression `^[^\s@]+@[^\s@]+\.[^\s@]+$`. */
  ghost predicate MatchesEmailRegex(s: string) {
    exists at, dot :: EmailSplitAt(s, at, dot)
  }

  /** Index of the first `c` in `s`, or `|s|` when there is none. */
  function IndexOf(s: string, c: char): (i: nat)
    ensures i <= |s|
    ensures i < |s| ==> s[i] == c
    ensures c !in s[..i]
    ensures forall j :: 0 <= j < i ==> s[j] != c
  {
    if s == [] then 0
    else if s[0] == c then 0
    else
      var j := IndexOf(s[1..], c);
      assert s[..j + 1] == [s[0]] + s[1..][..j];
      j + 1
  }

  predicate NoWhitespace(s: string) {
    forall i :: 0 <= i < |s| ==> !IsJsWhitespace(s[i])
  }

  /** A direct test of the email shape: no whitespace, exactly one `@` with
      something before it, and a `.` strictly inside the part after it. */
  predicate HasEmailShape(s: string) {
    var at := IndexOf(s, '@');
    && NoWhitespace(s)
    && 0 < at && at + 3 < |s|
    && '@' !in s[at + 1..]
    && '.' in s[at + 2..|s| - 1]
  }

  lemma IndexOfIsFirst(s: string, c: char, k: nat)
    requires k < |s| && s[k] == c && c !in s[..k]
    ensures IndexOf(s, c) == k
  {
  }

  /** The direct test accepts exactly the strings the regular expression matches. */
  lemma EmailShapeIsRegex(s: string)
    ensures HasEmailShape(s) <==> MatchesEmailRegex(s)
  {
    if HasEmailShape(s) {
      var at := IndexOf(s, '@');
      var tail := s[at + 2..|s| - 1];
      var j :| 0 <= j < |tail| && tail[j] == '.';
      var dot := at + 2 + j;
      assert s[dot] == '.';
      forall i | 0 <= i < |s[..at]| ensures !IsJsWhitespace(s[..at][i]) && s[..at][i] != '@' {
        assert s[..at][i] == s[i];
        assert s[..at][i] in s[..at];
      }
      var after, mid, top := s[at + 1..], s[at + 1..dot], s[dot + 1..];
      forall i | 0 <= i < |mid| ensures !IsJsWhitespace(mid[i]) && mid[i] != '@' {
        assert mid[i] == s[at + 1 + i] == after[i];
      }
      forall i | 0 <= i < |top| ensures !IsJsWhitespace(top[i]) && top[i] != '@' {
        assert top[i] == s[dot + 1 + i] == after[dot - at + i];
      }
      assert EmailSplitAt(s, at, dot);
    }
    if MatchesEmailRegex(s) {
      var at, dot :| EmailSplitAt(s, at, dot);
      assert '@' !in s[..at] by {
        forall i | 0 <= i < at ensures s[..at][i] != '@' {}
      }
      IndexOfIsFirst(s, '@', at);
      forall i | 0 <= i < |s| ensures !IsJsWhitespace(s[i]) {
        if i < at {
          assert s[i] == s[..at][i];
        } else if at < i < dot {
          assert s[i] == s[at + 1..dot][i - at - 1];
        } else if dot < i {
          assert s[i] == s[dot + 1..][i - dot - 1];
        }
      }
      var after := s[at + 1..];
      assert '@' !in after by {
        forall i | 0 <= i < |after| ensures after[i] != '@' {
          var k := at + 1 + i;
          assert after[i] == s[k];
          if k < dot {
            assert s[k] == s[at + 1..dot][k - at - 1];
          } else if k > dot {
            assert s[k] == s[dot + 1..][k - dot - 1];
          }
        }
      }
      assert s[at + 2..|s| - 1][dot - at - 2] == '.';
    }
  }

  /** validateEmail: an empty string is "required", any other string must match the pattern. */
  function ValidateEmail(email: string): (r: Validation)
    ensures r.Pass? <==> MatchesEmailRegex(email)
    ensures email == "" ==> r == Fail(EmailRequired)
    ensures email != "" && !MatchesEmailRegex(email) ==> r == Fail(EmailBadFormat)
  {
    EmailShapeIsRegex(email);
    if email == "" then Fail(EmailRequired)
    else if !HasEmailShape(email) then Fail(EmailBadFormat)
    else Pass
  }

  /** validatePassword: empty is "required"; fewer than 6 UTF-16 units is "too short". */
  function ValidatePassword(password: string): (r: Validation)
    ensures r.Pass? <==> Utf16Length(password) >= MinPasswordLength
    ensures password == "" ==> r == Fail(PasswordRequired)
    ensures password != "" && Utf16Length(password) < MinPasswordLength ==> r == Fail(PasswordTooShort)
  {
    if password == "" then Fail(PasswordRequired)
    else if Utf16Length(password) < MinPasswordLength then Fail(PasswordTooShort)
    else Pass
  }

  /** validatePasswordMatch: valid exactly when the two strings are identical. */
  function ValidatePasswordMatch(password: string, confirmPassword: string): (r: Validation)
    ensures r.Pass? <==> password == confirmPassword
    ensures r.Fail? ==> r.error == PasswordsDiffer
  {
    if password != confirmPassword then Fail(PasswordsDiffer) else Pass
  }

  /** validateResetCode: empty, then length (in UTF-16 units) other than 6, then `^\d{6}$`. */
  function ValidateResetCode(code: string): (r: Validation)
    ensures r.Pass? <==> |code| == CodeLength && AllAsciiDigits(code)
    ensures code == "" ==> r == Fail(CodeRequired)
    ensures code != "" && Utf16Length(code) != CodeLength ==> r == Fail(CodeWrongLength)
    ensures Utf16Length(code) == CodeLength && !AllAsciiDigits(code) ==> r == Fail(CodeNotNumeric)
  {
    DigitsUtf16Length(code);
    if code == "" then Fail(CodeRequired)
    else if Utf16Length(code) != CodeLength then Fail(CodeWrongLength)
    else if !(|code| == CodeLength && AllAsciiDigits(code)) then Fail(CodeNotNumeric)
    else Pass
  }

  /** The checks of validateResetCode come in order: a 6-unit string of non-digits
      gets the "numbers only" error, not the length error. */
  lemma ResetCodeErrorOrder(code: string)
    requires code != ""
    ensures ValidateResetCode(code).Fail? ==>
      ValidateResetCode(code).error == (if Utf16Length(code) != CodeLength then CodeWrongLength else CodeNotNumeric)
  {
  }
}
