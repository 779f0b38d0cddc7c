/** The end-user records (solution/user/models.py): the targeting profile
    attached to each user and the user's own fields, on top of the account
    fields of `EmailPasswordUser`. */
module UserModels {
  import opened Common
  import opened CoreModels

  /** `TargetInfo`: the user's age and two-letter country. */
  datatype TargetInfo = TargetInfo(age: int, country: string)

  /** A `User` row: its account fields, its own fields and its profile. */
  datatype User = User(
    account: Account,
    name: string,
    surname: string,
    avatarUrl: Option<string>,
    other: TargetInfo)

  /** Names of the `TargetInfo` fields that fail validation. The country is
      required (not blank) and at most two characters. */
  function TargetInfoErrors(t: TargetInfo): (errs: seq<string>)
    ensures errs == [] <==> 0 <= t.age <= 100 && 1 <= |t.country| <= 2
    ensures "age" in errs <==> t.age < 0 || t.age > 100
    ensures "country" in errs <==> t.country == "" || |t.country| > 2
  {
    (if 0 <= t.age <= 100 then [] else ["age"]) +
    (if t.country != "" && |t.country| <= 2 then [] else ["country"])
  }

  /** Names of the user's own fields that fail validation, the profile last. */
  function OwnErrors(u: User): (errs: seq<string>)
    ensures errs == [] <==>
              1 <= |u.name| <= 100 && 1 <= |u.surname| <= 120 &&
              (u.avatarUrl.None? || |u.avatarUrl.value| <= 350) &&
              TargetInfoErrors(u.other) == []
    ensures "name" in errs <==> !(1 <= |u.name| <= 100)
    ensures "surname" in errs <==> !(1 <= |u.surname| <= 120)
    ensures "avatar_url" in errs <==> u.avatarUrl.Some? && |u.avatarUrl.value| > 350
    ensures forall f :: f in errs ==> f in ["name", "surname", "avatar_url", "other"]
  {
    (if 1 <= |u.name| <= 100 then [] else ["name"]) +
    (if 1 <= |u.surname| <= 120 then [] else ["surname"]) +
    (if u.avatarUrl.None? || |u.avatarUrl.value| <= 350 then [] else ["avatar_url"]) +
    (if TargetInfoErrors(u.other) == [] then [] else ["other"])
  }

  /** Names of the fields of a user that fail validation: the account's
      (inherited from `EmailPasswordUser`) first, then the user's own. */
  function UserErrors(u: User): (errs: seq<string>)
    ensures errs == [] <==> AccountErrors(u.account) == [] && OwnErrors(u) == []
    ensures "password" in errs <==> PasswordErrors(u.account.password) != []
    ensures "model_type" in errs <==> !ModelTypeOk(u.account.modelType)
    ensures forall f :: f in OwnErrors(u) ==> f in errs
  {
    var own := OwnErrors(u);
    assert "password" !in own && "model_type" !in own;
    AccountErrors(u.account) + own
  }

  /** A user's password is bounded like every account's: over sixty
      characters is refused. */
  lemma UserPasswordBounded(u: User)
    requires |u.account.password| > PASSWORD_MAX_LENGTH
    ensures "password" in UserErrors(u)
    ensures TooLong in PasswordErrors(u.account.password)
  {
  }
}
