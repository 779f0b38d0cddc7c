/** How the business API renders targets and promocodes and reads its query
    parameters (solution/business/serializers.py). */
module BusinessSerializers {
  import opened Common
  import opened BusinessModels
  import opened CoreSerializers

  /** `PromocodeSerializer.Meta.read_only_fields`, in declaration order. */
  const READ_ONLY_FIELDS: seq<string> := [
    "uuid", "mode", "promo_common", "promo_unique", "promo_id",
    "company_id", "company_name", "like_count", "used_count", "active"]

  datatype SortKey = ByActiveFrom | ByActiveUntil | ByCreatedAt

  /** The choices of `sort_by`, in declaration order. */
  const SORT_BY_CHOICES: seq<string> := ["active_from", "active_until", "created_at"]

  function SortKeyName(k: SortKey): string
  {
    match k
    case ByActiveFrom => "active_from"
    case ByActiveUntil => "active_until"
    case ByCreatedAt => "created_at"
  }

  /** `ListPromocodesQueryParamsSerializer`'s `sort_by`, read from the query
      string: an absent or empty parameter takes the default `created_at`
      (an optional field that allows no blank reads `?sort_by=` as absent);
      any other value outside the choices is a validation error carrying it. */
  function ParseSortBy(sortBy: Option<string>): (r: Result<SortKey, string>)
    ensures r.Ok? <==> sortBy.None? || sortBy.value == "" || sortBy.value in SORT_BY_CHOICES
    ensures sortBy.None? || sortBy == Some("") ==> r == Ok(ByCreatedAt)
    ensures r.Ok? && sortBy.Some? && sortBy.value != "" ==> SortKeyName(r.value) == sortBy.value
    ensures r.Err? ==> sortBy.Some? && r.error == sortBy.value
  {
    match sortBy
    case None => Ok(ByCreatedAt)
    case Some(name) =>
      if name == "" then Ok(ByCreatedAt)
      else if name == "active_from" then Ok(ByActiveFrom)
      else if name == "active_until" then Ok(ByActiveUntil)
      else if name == "created_at" then Ok(ByCreatedAt)
      else Err(name)
  }

  /** Every sort key is accepted under its own name. */
  lemma ParseSortByName(k: SortKey)
    ensures ParseSortBy(Some(SortKeyName(k))) == Ok(k)
  {
  }

  // ---------------------------------------------------------------------------
  // Rendering

  function IntOrNull(v: Option<int>): Json
  {
    if v.Some? then Int(v.value) else Null
  }

  function StrOrNull(v: Option<string>): Json
  {
    if v.Some? then Str(v.value) else Null
  }

  /** A list of strings is rendered as an array of those strings, in order. */
  function StrListOrNull(v: Option<seq<string>>): (r: Json)
    ensures v.None? <==> r == Null
    ensures v.Some? ==> r.Arr? && |r.items| == |v.value| &&
                        forall i :: 0 <= i < |v.value| ==> r.items[i] == Str(v.value[i])
  {
    if v.Some? then Arr(seq(|v.value|, i requires 0 <= i < |v.value| => Str(v.value[i]))) else Null
  }

  /** A datetime is rendered as its instant. */
  function InstantOrNull(v: Option<Instant>): Json
  {
    if v.Some? then Int(v.value) else Null
  }

  /** In a dict without nulls a key is present exactly when `get` finds a value. */
  lemma NoNullsHasKey(d: Dict, k: string)
    requires NoNulls(d)
    ensures HasKey(d, k) <==> Get(d, k) != Null
  {
    if HasKey(d, k) {
      var i :| 0 <= i < |d| && d[i] == (k, Get(d, k));
    }
  }

  /** A stripped dict holds a key exactly when the unstripped one maps it to
      something other than None, and holds the same value there. */
  lemma StrippedLookup(d: Dict, k: string)
    requires DistinctKeys(d)
    ensures Get(StripNulls(d), k) == Get(d, k)
    ensures HasKey(StripNulls(d), k) <==> Get(d, k) != Null
  {
    StripNullsGet(d, k);
    NoNullsHasKey(StripNulls(d), k);
  }

  /** The entry at position `i` survives stripping exactly when it is not None. */
  lemma StrippedAt(d: Dict, i: nat)
    requires DistinctKeys(d) && i < |d|
    ensures Get(StripNulls(d), d[i].0) == d[i].1
    ensures HasKey(StripNulls(d), d[i].0) <==> d[i].1 != Null
  {
    GetMember(d, d[i].0, d[i].1);
    StrippedLookup(d, d[i].0);
  }

  /** The fields of `TargetSerializer` before nulls are dropped, in the order
      of `Meta.fields`, each holding its value or None. */
  function TargetFields(t: Target): (d: Dict)
    ensures DistinctKeys(d)
    ensures forall i :: 0 <= i < |d| ==> (d[i].1 == Null <==> (
              (i == 0 && t.ageFrom.None?) || (i == 1 && t.ageUntil.None?) ||
              (i == 2 && t.country.None?) || (i == 3 && t.categories.None?)))
  {
    [("age_from", IntOrNull(t.ageFrom)),
     ("age_until", IntOrNull(t.ageUntil)),
     ("country", StrOrNull(t.country)),
     ("categories", StrListOrNull(t.categories))]
  }

  /** `TargetSerializer.to_representation`: a field is rendered exactly when
      it is set, with its value. */
  function TargetRepresentation(t: Target): (r: Dict)
    ensures NoNulls(r) && DistinctKeys(r)
    ensures HasKey(r, "age_from") <==> t.ageFrom.Some?
    ensures HasKey(r, "age_until") <==> t.ageUntil.Some?
    ensures HasKey(r, "country") <==> t.country.Some?
    ensures HasKey(r, "categories") <==> t.categories.Some?
    ensures t.ageFrom.Some? ==> Get(r, "age_from") == Int(t.ageFrom.value)
    ensures t.ageUntil.Some? ==> Get(r, "age_until") == Int(t.ageUntil.value)
    ensures t.country.Some? ==> Get(r, "country") == Str(t.country.value)
    ensures t.categories.Some? ==>
              var items := Get(r, "categories");
              items.Arr? && |items.items| == |t.categories.value| &&
              forall i :: 0 <= i < |t.categories.value| ==> items.items[i] == Str(t.categories.value[i])
  {
    var fields := TargetFields(t);
    StripNullsDistinct(fields);
    StrippedLookup(fields, "age_from");
    StrippedLookup(fields, "age_until");
    StrippedLookup(fields, "country");
    StrippedLookup(fields, "categories");
    var r := StripNulls(fields);
    assert Get(r, "categories") == StrListOrNull(t.categories);
    r
  }

  /** `PromocodeSerializer.get_active`: with both bounds set, whether the
      window is non-empty; otherwise true. */
  function Active(p: Promocode): (r: bool)
    ensures p.activeFrom.Some? && p.activeUntil.Some? ==>
              (r <==> p.activeFrom.value < p.activeUntil.value)
    ensures p.activeFrom.None? || p.activeUntil.None? ==> r
  {
    if p.activeUntil.Some? && p.activeFrom.Some? then p.activeUntil.value > p.activeFrom.value
    else true
  }

  /** The rendered `active` flag is not `promocode_is_active`: a one-instant
      window that is open now renders inactive. */
  lemma ActiveFlagMissesOneInstantWindow(p: Promocode, now: Instant)
    requires p.activeFrom == Some(now) && p.activeUntil == Some(now) && HasRemaining(p)
    ensures IsActive(p, now) && !Active(p)
  {
  }

  /** The flag ignores the counters: an exhausted promocode renders active. */
  lemma ActiveFlagIgnoresCounters(p: Promocode, now: Instant)
    requires p.activeFrom.None? && p.mode == COMMON && p.commonCount == 0
    ensures Active(p) && !IsActive(p, now)
  {
  }

  /** The fields of `PromocodeSerializer` before nulls are dropped, in the
      order of `Meta.fields` (without `promo_common` and `promo_unique`). */
  function PromocodeFields(p: Promocode): Dict
  {
    [("description", Str(p.description)),
     ("image_url", StrOrNull(p.imageUrl)),
     ("target", if p.target.Some? then Obj(TargetRepresentation(p.target.value)) else Null),
     ("max_count", Int(p.maxCount)),
     ("active_from", InstantOrNull(p.activeFrom)),
     ("active_until", InstantOrNull(p.activeUntil)),
     ("mode", Str(p.mode)),
     ("promo_id", Str(p.uuid)),
     ("company_id", Str(p.company.uuid)),
     ("company_name", Str(p.company.name)),
     ("like_count", Int(0)),
     ("used_count", Int(0)),
     ("active", Bool(Active(p)))]
  }

  lemma PromocodeFieldsDistinct(p: Promocode)
    ensures DistinctKeys(PromocodeFields(p))
  {
  }

  /** The image URL, the target and the two bounds are None exactly when
      they are unset. */
  lemma PromocodeFieldsNulls(p: Promocode)
    ensures PromocodeFields(p)[1].1 == Null <==> p.imageUrl.None?
    ensures PromocodeFields(p)[2].1 == Null <==> p.target.None?
    ensures PromocodeFields(p)[4].1 == Null <==> p.activeFrom.None?
    ensures PromocodeFields(p)[5].1 == Null <==> p.activeUntil.None?
  {
    var d := PromocodeFields(p);
    assert d[1].1 == StrOrNull(p.imageUrl);
    assert d[2].1 == if p.target.Some? then Obj(TargetRepresentation(p.target.value)) else Null;
    assert d[4].1 == InstantOrNull(p.activeFrom);
    assert d[5].1 == InstantOrNull(p.activeUntil);
  }

  /** Every other field is always rendered. */
  lemma PromocodeFieldsAlwaysSet(p: Promocode, i: nat)
    requires i < 13 && i != 1 && i != 2 && i != 4 && i != 5
    ensures PromocodeFields(p)[i].1 != Null
  {
  }

  /** `PromocodeSerializer.to_representation`. Reading a key that is not
      rendered gives None (`Get` is `dict.get`), and the result holds no None,
      so each optional field is rendered exactly when it is set. */
  function PromocodeRepresentation(p: Promocode): (r: Dict)
    ensures NoNulls(r) && DistinctKeys(r)
    ensures Get(r, "image_url") == StrOrNull(p.imageUrl)
    ensures Get(r, "active_from") == InstantOrNull(p.activeFrom)
    ensures Get(r, "active_until") == InstantOrNull(p.activeUntil)
    ensures Get(r, "target") ==
              (if p.target.Some? then Obj(TargetRepresentation(p.target.value)) else Null)
    ensures Get(r, "max_count") == Int(p.maxCount)
    ensures Get(r, "promo_id") == Str(p.uuid)
    ensures Get(r, "like_count") == Int(0) && Get(r, "used_count") == Int(0)
    ensures Get(r, "active") == Bool(Active(p))
  {
    var fields := PromocodeFields(p);
    PromocodeFieldsDistinct(p);
    StripNullsDistinct(fields);
    StrippedAt(fields, 1);
    StrippedAt(fields, 2);
    StrippedAt(fields, 3);
    StrippedAt(fields, 4);
    StrippedAt(fields, 5);
    StrippedAt(fields, 7);
    StrippedAt(fields, 10);
    StrippedAt(fields, 11);
    StrippedAt(fields, 12);
    StripNulls(fields)
  }
}
