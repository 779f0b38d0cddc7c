/** The business-side records (solution/business/models.py): targeting rules,
    promocodes and their code instances, the field bounds Django enforces on
    them, the age guard of `Promocode.save` and the activeness predicate. */
module BusinessModels {
  import opened Common

  const COMMON: string := "COMMON"
  const UNIQUE: string := "UNIQUE"
  const MODE_CHOICES: seq<string> := [COMMON, UNIQUE]
  const MAX_COUNT_LIMIT: int := 100000000

  /** Audience filter of a promocode; a `None` field constrains nothing. */
  datatype Target = Target(
    ageFrom: Option<int>,
    ageUntil: Option<int>,
    country: Option<string>,
    categories: Option<seq<string>>)

  datatype Business = Business(uuid: string, name: string)

  datatype Promocode = Promocode(
    uuid: string,
    company: Business,
    description: string,
    imageUrl: Option<string>,
    target: Option<Target>,
    maxCount: int,
    commonCount: int,
    uniqueCount: int,
    commonActivationsCount: int,
    uniqueActivationsCount: int,
    activeFrom: Option<Instant>,
    activeUntil: Option<Instant>,
    mode: string,
    createdAt: Instant)

  /** A row of PromocodeCommonInstance or PromocodeUniqueInstance (same shape). */
  datatype CodeInstance = CodeInstance(promocode: string, isActivated: bool)

  // ---------------------------------------------------------------------------
  // Field bounds

  predicate AgeOk(age: Option<int>)
  {
    age.None? || 0 <= age.value <= 100
  }

  predicate CategoryOk(category: string)
  {
    2 <= |category| <= 20
  }

  /** The bounds declared on the fields of `Target`. The `max_length` given
      to the categories' `ArrayField` is no validator (only `size` bounds the
      number of items), so any number of categories is accepted. */
  predicate ValidTarget(t: Target)
  {
    && AgeOk(t.ageFrom)
    && AgeOk(t.ageUntil)
    && (t.country.None? || |t.country.value| <= 2)
    && (t.categories.None? ||
        forall i :: 0 <= i < |t.categories.value| ==> CategoryOk(t.categories.value[i]))
  }

  /** The bounds declared on the fields of `Promocode`. */
  predicate ValidPromocode(p: Promocode)
  {
    && 10 <= |p.description| <= 300
    && (p.imageUrl.None? || |p.imageUrl.value| <= 350)
    && (p.target.None? || ValidTarget(p.target.value))
    && 0 <= p.maxCount <= MAX_COUNT_LIMIT
    && p.mode in MODE_CHOICES
  }

  /** The serializer's list field for the categories validates its child
      field on every item and reports the positions of all items that fail. */
  function FailingCategories(categories: seq<string>): (bad: seq<nat>)
    ensures forall i :: i in bad <==> 0 <= i < |categories| && !CategoryOk(categories[i])
    ensures bad == [] <==> forall i :: 0 <= i < |categories| ==> CategoryOk(categories[i])
  {
    if categories == [] then []
    else
      var n := |categories| - 1;
      var front := FailingCategories(categories[..n]);
      assert front != [] ==> front[0] in front;
      front + (if CategoryOk(categories[n]) then [] else [n])
  }

  /** Names of the `Target` fields whose validators fail, in declaration order. */
  function TargetErrors(t: Target): (errs: seq<string>)
    ensures errs == [] <==> ValidTarget(t)
    ensures "age_from" in errs <==> !AgeOk(t.ageFrom)
    ensures "age_until" in errs <==> !AgeOk(t.ageUntil)
  {
    var categoriesOk := t.categories.None? || FailingCategories(t.categories.value) == [];
    (if AgeOk(t.ageFrom) then [] else ["age_from"]) +
    (if AgeOk(t.ageUntil) then [] else ["age_until"]) +
    (if t.country.None? || |t.country.value| <= 2 then [] else ["country"]) +
    (if categoriesOk then [] else ["categories"])
  }

  /** The number of categories is not bounded: twenty-one valid ones pass. */
  lemma ManyCategoriesAccepted(t: Target)
    requires t == Target(None, None, None, Some(seq(21, i => "ab")))
    ensures TargetErrors(t) == []
  {
  }

  /** Names of the `Promocode` fields whose validators fail, in declaration order. */
  function PromocodeErrors(p: Promocode): (errs: seq<string>)
    ensures errs == [] <==> ValidPromocode(p)
    ensures "max_count" in errs <==> !(0 <= p.maxCount <= MAX_COUNT_LIMIT)
    ensures "mode" in errs <==> p.mode != COMMON && p.mode != UNIQUE
  {
    (if 10 <= |p.description| <= 300 then [] else ["description"]) +
    (if p.imageUrl.None? || |p.imageUrl.value| <= 350 then [] else ["image_url"]) +
    (if p.target.None? || TargetErrors(p.target.value) == [] then [] else ["target"]) +
    (if 0 <= p.maxCount <= MAX_COUNT_LIMIT then [] else ["max_count"]) +
    (if p.mode == COMMON || p.mode == UNIQUE then [] else ["mode"])
  }

  /** A code string of either instance table is 5..30 characters long. */
  function CodeInstanceErrors(c: CodeInstance): (errs: seq<string>)
    ensures errs == [] <==> 5 <= |c.promocode| <= 30
  {
    if 5 <= |c.promocode| <= 30 then [] else ["promocode"]
  }

  /** A business name is 5..50 characters long. */
  function BusinessErrors(b: Business): (errs: seq<string>)
    ensures errs == [] <==> 5 <= |b.name| <= 50
  {
    if 5 <= |b.name| <= 50 then [] else ["name"]
  }

  // ---------------------------------------------------------------------------
  // Promocode.save

  /** Python truthiness of a nullable integer: `None` and `0` are both false. */
  predicate Truthy(age: Option<int>)
  {
    age.Some? && age.value != 0
  }

  datatype SaveError = AgeRangeInverted

  /** The guard `Promocode.save` runs before persisting, as written: the age
      range is compared only when both ages are truthy. */
  function Save(p: Promocode): (r: Result<Promocode, SaveError>)
    ensures r.Ok? ==> r.value == p
    ensures r.Err? ==> p.target.Some? && p.target.value.ageFrom.Some? &&
                       p.target.value.ageUntil.Some? &&
                       p.target.value.ageFrom.value > p.target.value.ageUntil.value
    ensures p.target.None? ==> r.Ok?
    ensures p.target.Some? && (p.target.value.ageFrom == Some(0) || p.target.value.ageUntil == Some(0))
            ==> r.Ok?
    ensures p.target.Some? && Truthy(p.target.value.ageFrom) && Truthy(p.target.value.ageUntil) ==>
              (r.Err? <==> p.target.value.ageFrom.value > p.target.value.ageUntil.value)
  {
    if p.target.Some? && Truthy(p.target.value.ageFrom) && Truthy(p.target.value.ageUntil)
       && p.target.value.ageFrom.value > p.target.value.ageUntil.value
    then Err(AgeRangeInverted)
    else Ok(p)
  }

  predicate AgesOrdered(t: Target)
  {
    t.ageFrom.Some? && t.ageUntil.Some? ==> t.ageFrom.value <= t.ageUntil.value
  }

  /** What `save` guarantees about a saved target: its ages are ordered unless
      `age_until` is 0, which the guard mistakes for "unset". */
  lemma SavedAgesOrderedUnlessZero(p: Promocode)
    requires Save(p).Ok? && p.target.Some? && ValidTarget(p.target.value)
    ensures AgesOrdered(p.target.value) || p.target.value.ageUntil == Some(0)
  {
  }

  /** The guard accepts `age_from = 30, age_until = 0`, an empty age range. */
  lemma SaveAcceptsZeroAgeUntil(p: Promocode)
    requires p.target == Some(Target(Some(30), Some(0), None, None))
    ensures Save(p) == Ok(p)
    ensures !AgesOrdered(p.target.value)
  {
  }

  /** The guard as its error message intends it: any two present ages are
      compared, 0 included. */
  function SaveChecked(p: Promocode): (r: Result<Promocode, SaveError>)
    ensures r.Ok? <==> p.target.None? || AgesOrdered(p.target.value)
    ensures r.Ok? ==> r.value == p
  {
    if p.target.Some? && p.target.value.ageFrom.Some? && p.target.value.ageUntil.Some?
       && p.target.value.ageFrom.value > p.target.value.ageUntil.value
    then Err(AgeRangeInverted)
    else Ok(p)
  }

  /** The corrected guard rejects everything the written one rejects. */
  lemma SaveCheckedStricter(p: Promocode)
    ensures Save(p).Err? ==> SaveChecked(p).Err?
    ensures SaveChecked(p).Ok? ==> Save(p).Ok?
  {
  }

  // ---------------------------------------------------------------------------
  // promocode_is_active

  /** The inclusive active window, an absent bound being unbounded. */
  predicate WindowOpen(p: Promocode, now: Instant)
  {
    (p.activeFrom.None? || p.activeFrom.value <= now) &&
    (p.activeUntil.None? || now <= p.activeUntil.value)
  }

  /** The remaining counter of the promocode's own mode is positive; a mode
      that is neither COMMON nor UNIQUE has no counter to check. */
  predicate HasRemaining(p: Promocode)
  {
    (p.mode == COMMON ==> p.commonCount > 0) &&
    (p.mode == UNIQUE ==> p.uniqueCount > 0)
  }

  /** `promocode_is_active(promocode, current_time)`. */
  function IsActive(p: Promocode, now: Instant): (r: bool)
    ensures r <==> WindowOpen(p, now) && HasRemaining(p)
    ensures p.activeFrom.Some? && p.activeFrom.value > now ==> !r
    ensures p.activeUntil.Some? && p.activeUntil.value < now ==> !r
    ensures p.mode == COMMON && p.commonCount <= 0 ==> !r
    ensures p.mode == UNIQUE && p.uniqueCount <= 0 ==> !r
  {
    if p.activeFrom.Some? && p.activeFrom.value > now then false
    else if p.activeUntil.Some? && p.activeUntil.value < now then false
    else if p.mode == COMMON then p.commonCount > 0
    else if p.mode == UNIQUE then p.uniqueCount > 0
    else true
  }

  /** Activeness reads only the counter of the promocode's own mode. */
  lemma IsActiveIgnoresOtherCounter(p: Promocode, now: Instant, n: int)
    ensures p.mode == COMMON ==> IsActive(p.(uniqueCount := n), now) == IsActive(p, now)
    ensures p.mode == UNIQUE ==> IsActive(p.(commonCount := n), now) == IsActive(p, now)
  {
  }

  /** A missing bound imposes nothing: clearing it never turns an active
      promocode inactive. */
  lemma ClearingBoundKeepsActive(p: Promocode, now: Instant)
    requires IsActive(p, now)
    ensures IsActive(p.(activeFrom := None), now)
    ensures IsActive(p.(activeUntil := None), now)
  {
  }
}
