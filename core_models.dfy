/** The account record shared by businesses and users
    (solution/core/models.py): the password policy, the e-mail length bounds
    and the account kind. */
module CoreModels {
  import opened Common

  const PASSWORD_MIN_LENGTH: nat := 8
  const PASSWORD_MAX_LENGTH: nat := 60
  /** `max_length` of the password column. */
  const PASSWORD_COLUMN_LENGTH: nat := 256
  const EMAIL_MIN_LENGTH: nat := 8
  const EMAIL_MAX_LENGTH: nat := 120
  const MODEL_TYPE_CHOICES: seq<string> := ["BUSINESS", "USER"]

  /** The special characters of the password pattern: `@$!%*?&`. */
  const SPECIALS: string := "@$!%*?&"

  predicate IsLower(c: char) { 'a' <= c <= 'z' }
  predicate IsUpper(c: char) { 'A' <= c <= 'Z' }
  predicate IsDigit(c: char) { '0' <= c <= '9' }
  predicate IsSpecial(c: char) { c in SPECIALS }

  /** The class `[A-Za-z\d@$!%*?&]`. */
  predicate IsAllowed(c: char)
  {
    IsLower(c) || IsUpper(c) || IsDigit(c) || IsSpecial(c)
  }

  predicate HasLower(s: string) { exists i :: 0 <= i < |s| && IsLower(s[i]) }
  predicate HasUpper(s: string) { exists i :: 0 <= i < |s| && IsUpper(s[i]) }
  predicate HasDigit(s: string) { exists i :: 0 <= i < |s| && IsDigit(s[i]) }
  predicate HasSpecial(s: string) { exists i :: 0 <= i < |s| && IsSpecial(s[i]) }
  predicate AllAllowed(s: string) { forall i :: 0 <= i < |s| ==> IsAllowed(s[i]) }

  /** What the password pattern demands, read declaratively: one character
      of each of the four classes somewhere, nothing outside them, and at
      least eight characters. */
  predicate PasswordPattern(s: string)
  {
    HasLower(s) && HasUpper(s) && HasDigit(s) && HasSpecial(s) && AllAllowed(s) &&
    |s| >= PASSWORD_MIN_LENGTH
  }

  /** What one pass over a password finds. */
  datatype Classes = Classes(lower: bool, upper: bool, digit: bool, special: bool, allAllowed: bool)

  /** The character classes of `s`, gathered character by character. */
  function Scan(s: string): (c: Classes)
    ensures c.lower <==> HasLower(s)
    ensures c.upper <==> HasUpper(s)
    ensures c.digit <==> HasDigit(s)
    ensures c.special <==> HasSpecial(s)
    ensures c.allAllowed <==> AllAllowed(s)
  {
    if s == [] then Classes(false, false, false, false, true)
    else
      var rest := Scan(s[1..]);
      assert forall i :: 1 <= i < |s| ==> s[i] == s[1..][i - 1];
      assert forall i :: 0 <= i < |s| - 1 ==> s[1..][i] == s[i + 1];
      var h := s[0];
      Classes(IsLower(h) || rest.lower, IsUpper(h) || rest.upper, IsDigit(h) || rest.digit,
              IsSpecial(h) || rest.special, IsAllowed(h) && rest.allAllowed)
  }

  /** The `RegexValidator` on the password, over ASCII classes. */
  function MatchesPasswordRegex(s: string): (r: bool)
    ensures r <==> PasswordPattern(s)
  {
    var c := Scan(s);
    c.lower && c.upper && c.digit && c.special && c.allAllowed && |s| >= PASSWORD_MIN_LENGTH
  }

  /** `password_length_validator`: at most sixty characters. */
  predicate PasswordLengthOk(s: string)
  {
    |s| <= PASSWORD_MAX_LENGTH
  }

  datatype PasswordError = Blank | TooShort | TooLong | PatternMismatch | ColumnTooLong

  /** Every complaint the password field's validation raises on the value it
      validates: an empty one is refused as blank before any validator runs;
      otherwise each validator of the field runs and reports independently.
      A value arriving through a serializer is the one left after trimming
      surrounding whitespace. */
  function PasswordErrors(s: string): (errs: seq<PasswordError>)
    ensures errs == [] <==> s != "" && PASSWORD_MIN_LENGTH <= |s| <= PASSWORD_MAX_LENGTH &&
                            PasswordPattern(s)
    ensures s == "" <==> Blank in errs
    ensures s != "" ==> (TooShort in errs <==> |s| < PASSWORD_MIN_LENGTH)
    ensures s != "" ==> (TooLong in errs <==> |s| > PASSWORD_MAX_LENGTH)
    ensures s != "" ==> (PatternMismatch in errs <==> !PasswordPattern(s))
  {
    if s == "" then [Blank]
    else
      (if |s| < PASSWORD_MIN_LENGTH then [TooShort] else []) +
      (if PasswordLengthOk(s) then [] else [TooLong]) +
      (if MatchesPasswordRegex(s) then [] else [PatternMismatch]) +
      (if |s| <= PASSWORD_COLUMN_LENGTH then [] else [ColumnTooLong])
  }

  /** An accepted password has a character of every class and none other. */
  lemma AcceptedPasswordClasses(s: string)
    requires PasswordErrors(s) == []
    ensures 8 <= |s| <= 60
    ensures exists i :: 0 <= i < |s| && IsLower(s[i])
    ensures exists i :: 0 <= i < |s| && IsUpper(s[i])
    ensures exists i :: 0 <= i < |s| && IsDigit(s[i])
    ensures exists i :: 0 <= i < |s| && s[i] in SPECIALS
    ensures forall i :: 0 <= i < |s| ==> IsAllowed(s[i])
  {
  }

  /** A single character outside the allowed classes rejects the password. */
  lemma ForeignCharacterRejected(s: string, i: nat)
    requires i < |s| && !IsAllowed(s[i])
    ensures PatternMismatch in PasswordErrors(s)
  {
  }

  /** A password without a digit is refused, whatever else it holds. */
  lemma MissingDigitRejected(s: string)
    requires s != "" && forall i :: 0 <= i < |s| ==> !IsDigit(s[i])
    ensures PatternMismatch in PasswordErrors(s)
  {
  }

  /** A password with every class, of allowed characters only, passes. */
  lemma StrongPasswordAccepted()
    ensures PasswordErrors("Passw0rd!") == []
  {
    var s := "Passw0rd!";
    assert IsUpper(s[0]) && IsLower(s[1]) && IsDigit(s[5]) && IsSpecial(s[8]);
    assert AllAllowed(s);
  }

  /** A password of acceptable length without an upper-case letter fails
      the pattern and nothing else. */
  lemma NoUpperRejected(s: string)
    requires PASSWORD_MIN_LENGTH <= |s| <= PASSWORD_MAX_LENGTH
    requires forall i :: 0 <= i < |s| ==> !IsUpper(s[i])
    ensures PasswordErrors(s) == [PatternMismatch]
  {
  }

  /** A short password also fails the pattern, whose repetition asks for eight. */
  lemma ShortPasswordRejectedTwice()
    ensures PasswordErrors("Pa0!") == [TooShort, PatternMismatch]
  {
  }

  /** The bounds on the e-mail column; its format is not modelled. */
  predicate EmailLengthOk(email: string)
  {
    EMAIL_MIN_LENGTH <= |email| <= EMAIL_MAX_LENGTH
  }

  /** `model_type`: null and blank allowed, otherwise one of the choices. */
  predicate ModelTypeOk(modelType: Option<string>)
  {
    modelType.None? || modelType.value == "" || modelType.value in MODEL_TYPE_CHOICES
  }

  /** An `EmailPasswordUser` as far as validation sees it. */
  datatype Account = Account(email: string, password: string, modelType: Option<string>)

  /** Names of the fields of an account that fail validation, in declaration
      order. */
  function AccountErrors(a: Account): (errs: seq<string>)
    ensures errs == [] <==> EmailLengthOk(a.email) && PasswordErrors(a.password) == [] &&
                            ModelTypeOk(a.modelType)
    ensures "email" in errs <==> !EmailLengthOk(a.email)
    ensures "password" in errs <==> PasswordErrors(a.password) != []
    ensures "model_type" in errs <==>
              a.modelType.Some? && a.modelType.value != "" && a.modelType.value != "BUSINESS" &&
              a.modelType.value != "USER"
  {
    (if EmailLengthOk(a.email) then [] else ["email"]) +
    (if PasswordErrors(a.password) == [] then [] else ["password"]) +
    (if ModelTypeOk(a.modelType) then [] else ["model_type"])
  }
}
