/** The business promocode endpoints (solution/business/views.py): the guard
    checks of `RetrieveUpdatePromocodeView.update` and the owner's listing
    built by `PromocodeCreateListView.get_queryset`. */
module BusinessViews {
  import opened Common
  import opened BusinessModels
  import opened CoreSerializers
  import opened BusinessSerializers

  datatype ViewError =
    | InvalidUuid                  // ValidationError("Invalid UUID.")
    | NotFound                     // NotFound
    | ReadOnlyField(field: string) // ValidationError naming the field
    | MaxCountBelowUsed            // ValidationError("max_count > used_count")
    | MaxCountNotOne               // ValidationError("max_count > 1")
    | MaxCountNotComparable        // TypeError: an int compared with a non-number
    | InvalidSortBy(value: string) // the query-parameter serializer's ValidationError

  // ---------------------------------------------------------------------------
  // RetrieveUpdatePromocodeView.update

  /** `Promocode.objects.filter(uuid=uuid).first()` over the table `db`, for
      a UUID already parsed to the canonical spelling rows are stored in. */
  function FindByUuid(db: seq<Promocode>, uuid: string): (r: Option<Promocode>)
    ensures r.None? <==> forall i :: 0 <= i < |db| ==> db[i].uuid != uuid
    ensures r.Some? ==> r.value in db && r.value.uuid == uuid
  {
    if db == [] then None
    else if db[0].uuid == uuid then Some(db[0])
    else FindByUuid(db[1..], uuid)
  }

  /** `request.data.get(key)`: None when the key is absent. */
  function DataGet(data: map<string, Json>, key: string): Json
  {
    if key in data then data[key] else Null
  }

  /** The first read-only field, in `read_only_fields` order, that the request
      body carries. */
  method FindReadOnlyField(data: map<string, Json>) returns (found: Option<string>)
    ensures found.None? <==> forall i :: 0 <= i < |READ_ONLY_FIELDS| ==> READ_ONLY_FIELDS[i] !in data
    ensures found.Some? ==>
              exists i :: 0 <= i < |READ_ONLY_FIELDS| && READ_ONLY_FIELDS[i] == found.value &&
                          found.value in data &&
                          forall j :: 0 <= j < i ==> READ_ONLY_FIELDS[j] !in data
  {
    var i := 0;
    while i < |READ_ONLY_FIELDS|
      invariant 0 <= i <= |READ_ONLY_FIELDS|
      invariant forall j :: 0 <= j < i ==> READ_ONLY_FIELDS[j] !in data
    {
      if READ_ONLY_FIELDS[i] in data {
        return Some(READ_ONLY_FIELDS[i]);
      }
      i := i + 1;
    }
    return None;
  }

  /** The number Python sees in a JSON value when it compares it with an int
      (a bool counts as 0 or 1); None for anything else. */
  function AsNumber(v: Json): Option<int>
  {
    match v
    case Int(n) => Some(n)
    case Bool(b) => Some(if b then 1 else 0)
    case _ => None
  }

  /** The `max_count` checks of `update` for the stored promocode `p` and the
      requested value `requested`. */
  function CheckMaxCount(p: Promocode, requested: Json): (r: Option<ViewError>)
    ensures requested == Null ==> r.None?
    ensures requested != Null && p.mode == COMMON && AsNumber(requested).Some? ==>
              (r.Some? <==> AsNumber(requested).value < p.maxCount - p.commonCount) &&
              (r.Some? ==> r.value == MaxCountBelowUsed)
    ensures requested != Null && p.mode == COMMON && AsNumber(requested).None? ==>
              r == Some(MaxCountNotComparable)
    ensures requested != Null && p.mode != COMMON ==>
              (r.None? <==> AsNumber(requested) == Some(1)) &&
              (r.Some? ==> r.value == MaxCountNotOne)
  {
    if requested == Null then None
    else if p.mode == COMMON then
      var used := p.maxCount - p.commonCount;
      match AsNumber(requested)
      case None => Some(MaxCountNotComparable)
      case Some(n) => if used > n then Some(MaxCountBelowUsed) else None
    else if AsNumber(requested) != Some(1) then Some(MaxCountNotOne)
    else None
  }

  /** `RetrieveUpdatePromocodeView.update` up to the serializer update: either
      the error it raises, or the stored promocode the update goes on with.
      `isValidUuid` stands for `is_valid_uuid` (solution/core/utils.py:4-10),
      whose behaviour lies in Python's `uuid` module; `canonicalUuid` gives the
      UUID a valid string denotes, spelled as stored, which the `UUIDField`
      lookup compares. */
  method Update(isValidUuid: string -> bool, canonicalUuid: string -> string,
                db: seq<Promocode>, uuid: string, data: map<string, Json>)
    returns (r: Result<Promocode, ViewError>)
    ensures !isValidUuid(uuid) ==> r == Err(InvalidUuid)
    ensures isValidUuid(uuid) && FindByUuid(db, canonicalUuid(uuid)).None? ==> r == Err(NotFound)
    ensures r.Ok? ==> FindByUuid(db, canonicalUuid(uuid)) == Some(r.value)
    ensures r.Ok? ==> forall i :: 0 <= i < |READ_ONLY_FIELDS| ==> READ_ONLY_FIELDS[i] !in data
    ensures r.Ok? ==> CheckMaxCount(r.value, DataGet(data, "max_count")).None?
    ensures r.Err? && r.error.ReadOnlyField? ==>
              r.error.field in READ_ONLY_FIELDS && r.error.field in data
    ensures r.Err? && r.error.ReadOnlyField? ==>
              exists i :: 0 <= i < |READ_ONLY_FIELDS| && READ_ONLY_FIELDS[i] == r.error.field &&
                          forall j :: 0 <= j < i ==> READ_ONLY_FIELDS[j] !in data
    ensures isValidUuid(uuid) && FindByUuid(db, canonicalUuid(uuid)).Some? &&
            (exists i :: 0 <= i < |READ_ONLY_FIELDS| && READ_ONLY_FIELDS[i] in data) ==>
              r.Err? && r.error.ReadOnlyField?
    ensures isValidUuid(uuid) && FindByUuid(db, canonicalUuid(uuid)).Some? &&
            (forall i :: 0 <= i < |READ_ONLY_FIELDS| ==> READ_ONLY_FIELDS[i] !in data) ==>
              var p := FindByUuid(db, canonicalUuid(uuid)).value;
              var check := CheckMaxCount(p, DataGet(data, "max_count"));
              r == (if check.Some? then Err(check.value) else Ok(p))
  {
    if !isValidUuid(uuid) {
      return Err(InvalidUuid);
    }
    var promocode := FindByUuid(db, canonicalUuid(uuid));
    if promocode.None? {
      return Err(NotFound);
    }
    var readOnly := FindReadOnlyField(data);
    if readOnly.Some? {
      return Err(ReadOnlyField(readOnly.value));
    }
    var countError := CheckMaxCount(promocode.value, DataGet(data, "max_count"));
    if countError.Some? {
      return Err(countError.value);
    }
    return Ok(promocode.value);
  }

  // ---------------------------------------------------------------------------
  // PromocodeCreateListView.get_queryset

  /** The target's country as the database sees it: null when there is no
      target or the target has no country. */
  function TargetCountry(p: Promocode): Option<string>
  {
    if p.target.Some? then p.target.value.country else None
  }

  /** The `Q` object the view builds: `target__country__isnull=True` or-ed
      with one `target__country__iexact` per requested country. */
  datatype CountryFilter =
    | CountryIsNull
    | CountryIExact(country: string)
    | Either(left: CountryFilter, right: CountryFilter)

  predicate Matches(f: CountryFilter, p: Promocode)
  {
    match f
    case CountryIsNull => TargetCountry(p).None?
    case CountryIExact(c) => TargetCountry(p).Some? && IEquals(TargetCountry(p).value, c)
    case Either(l, r) => Matches(l, p) || Matches(r, p)
  }

  /** A promocode passes the country filter when it has no target country or
      its country equals one of the requested ones, ignoring case. */
  predicate KeptByCountry(p: Promocode, countries: seq<string>)
  {
    TargetCountry(p).None? ||
    exists i :: 0 <= i < |countries| && IEquals(TargetCountry(p).value, countries[i])
  }

  method BuildCountryFilter(countries: seq<string>) returns (f: CountryFilter)
    ensures forall p :: Matches(f, p) <==> KeptByCountry(p, countries)
  {
    f := CountryIsNull;
    for k := 0 to |countries|
      invariant forall p :: Matches(f, p) <==> KeptByCountry(p, countries[..k])
    {
      f := Either(f, CountryIExact(countries[k]));
      assert countries[..k + 1] == countries[..k] + [countries[k]];
    }
    assert countries[..|countries|] == countries;
  }

  function Filter(s: seq<Promocode>, keep: Promocode -> bool): (r: seq<Promocode>)
    ensures forall p :: p in r <==> p in s && keep(p)
  {
    if s == [] then []
    else (if keep(s[0]) then [s[0]] else []) + Filter(s[1..], keep)
  }

  /** Filtering twice keeps what passes both tests, in the same order. */
  lemma {:induction false} FilterTwice(s: seq<Promocode>, first: Promocode -> bool,
                                       second: Promocode -> bool, both: Promocode -> bool)
    requires forall p :: both(p) == (first(p) && second(p))
    ensures Filter(Filter(s, first), second) == Filter(s, both)
  {
    if s != [] {
      FilterTwice(s[1..], first, second, both);
      var rest := Filter(s[1..], first);
      if first(s[0]) {
        assert Filter(s, first) == [s[0]] + rest;
        assert ([s[0]] + rest)[1..] == rest;
      } else {
        assert Filter(s, first) == rest;
      }
    }
  }

  /** The value the listing sorts on: `created_at`, or an active bound with
      `datetime.min` standing in for a missing `active_from` and
      `datetime.max` for a missing `active_until`. */
  function SortValue(p: Promocode, key: SortKey): Instant
  {
    match key
    case ByActiveFrom => if p.activeFrom.Some? then p.activeFrom.value else MIN_INSTANT
    case ByActiveUntil => if p.activeUntil.Some? then p.activeUntil.value else MAX_INSTANT
    case ByCreatedAt => p.createdAt
  }

  /** `order_by("-sort_field")`: non-increasing in the sort value. */
  predicate SortedDesc(s: seq<Promocode>, key: SortKey)
  {
    forall i, j :: 0 <= i < j < |s| ==> SortValue(s[i], key) >= SortValue(s[j], key)
  }

  function Insert(p: Promocode, s: seq<Promocode>, key: SortKey): (r: seq<Promocode>)
    requires SortedDesc(s, key)
    ensures SortedDesc(r, key)
    ensures multiset(r) == multiset(s) + multiset{p}
  {
    if s == [] then [p]
    else if SortValue(p, key) >= SortValue(s[0], key) then [p] + s
    else
      var rest := Insert(p, s[1..], key);
      assert s == [s[0]] + s[1..];
      assert forall k :: 0 <= k < |rest| ==> SortValue(s[0], key) >= SortValue(rest[k], key) by {
        forall k | 0 <= k < |rest|
          ensures SortValue(s[0], key) >= SortValue(rest[k], key)
        {
          assert rest[k] in multiset(rest);
          if rest[k] != p {
            assert rest[k] in multiset(s[1..]);
            var m :| 0 <= m < |s[1..]| && s[1..][m] == rest[k];
            assert s[m + 1] == rest[k];
          }
        }
      }
      [s[0]] + rest
  }

  /** The database's ordering, as a stable insertion sort (ties keep the
      table order; the database leaves their order open). */
  function SortDesc(s: seq<Promocode>, key: SortKey): (r: seq<Promocode>)
    ensures SortedDesc(r, key)
    ensures multiset(r) == multiset(s)
  {
    if s == [] then []
    else
      assert s == [s[0]] + s[1..];
      Insert(s[0], SortDesc(s[1..], key), key)
  }

  /** The countries a `country` query parameter asks for; an absent or empty
      parameter applies no country filter. */
  function RequestedCountries(country: Option<string>, cleanCountry: string -> seq<string>)
    : (r: Option<seq<string>>)
    ensures r.None? <==> country.None? || country.value == ""
    ensures r.Some? ==> r.value == cleanCountry(country.value)
  {
    if country.Some? && country.value != "" then Some(cleanCountry(country.value)) else None
  }

  /** A promocode belongs in the listing when the requesting business owns it
      and it passes the country filter, if any. */
  predicate Listed(p: Promocode, business: string, countries: Option<seq<string>>)
  {
    p.company.uuid == business && (countries.None? || KeptByCountry(p, countries.value))
  }

  /** The owner filter followed by the country filter, as the view chains them. */
  method SelectListed(db: seq<Promocode>, business: string, countries: Option<seq<string>>)
    returns (selected: seq<Promocode>)
    ensures selected == Filter(db, p => Listed(p, business, countries))
  {
    var owned := Filter(db, (p: Promocode) => p.company.uuid == business);
    if countries.Some? {
      var f := BuildCountryFilter(countries.value);
      selected := Filter(owned, p => Matches(f, p));
      FilterTwice(db, (p: Promocode) => p.company.uuid == business, p => Matches(f, p),
                  p => Listed(p, business, countries));
    } else {
      selected := owned;
      FilterTwice(db, (p: Promocode) => p.company.uuid == business, p => true,
                  p => Listed(p, business, countries));
      FilterAll(owned);
    }
  }

  /** `get_queryset` for the business `business`, over the table `db`;
      `cleanCountry` stands for `clean_country`, which `core.utils` does not
      define. */
  method ListPromocodes(db: seq<Promocode>, business: string, country: Option<string>,
                        sortBy: Option<string>, cleanCountry: string -> seq<string>)
    returns (r: Result<seq<Promocode>, ViewError>)
    ensures r.Err? <==> ParseSortBy(sortBy).Err?
    ensures r.Err? ==> r.error == InvalidSortBy(sortBy.value)
    ensures r.Ok? ==> SortedDesc(r.value, ParseSortBy(sortBy).value)
    ensures r.Ok? ==>
              multiset(r.value) ==
              multiset(Filter(db, p => Listed(p, business, RequestedCountries(country, cleanCountry))))
  {
    var parsed := ParseSortBy(sortBy);
    if parsed.Err? {
      return Err(InvalidSortBy(parsed.error));
    }
    var selected := SelectListed(db, business, RequestedCountries(country, cleanCountry));
    return Ok(SortDesc(selected, parsed.value));
  }

  /** Everything listed belongs to the requesting business and passes the
      country filter. */
  lemma ListedOnly(db: seq<Promocode>, business: string, countries: Option<seq<string>>,
                   listing: seq<Promocode>)
    requires multiset(listing) == multiset(Filter(db, p => Listed(p, business, countries)))
    ensures forall p :: p in listing ==> p in db && Listed(p, business, countries)
  {
    forall p | p in listing
      ensures p in db && Listed(p, business, countries)
    {
      assert p in multiset(listing);
    }
  }

  lemma {:induction false} FilterAll(s: seq<Promocode>)
    ensures Filter(s, p => true) == s
  {
    if s != [] {
      FilterAll(s[1..]);
    }
  }

  /** Sorting on `active_from`, a promocode without one is followed only by
      promocodes whose sort value is `datetime.min` as well. */
  lemma NullActiveFromSortsLast(s: seq<Promocode>, i: nat, j: nat)
    requires SortedDesc(s, ByActiveFrom) && i < j < |s| && s[i].activeFrom.None?
    ensures s[j].activeFrom.None? || s[j].activeFrom == Some(MIN_INSTANT)
  {
    assert SortValue(s[i], ByActiveFrom) >= SortValue(s[j], ByActiveFrom);
  }

  /** Sorting on `active_until`, a promocode without one is preceded only by
      promocodes whose sort value is `datetime.max` as well. */
  lemma NullActiveUntilSortsFirst(s: seq<Promocode>, i: nat, j: nat)
    requires SortedDesc(s, ByActiveUntil) && i < j < |s| && s[j].activeUntil.None?
    ensures s[i].activeUntil.None? || s[i].activeUntil == Some(MAX_INSTANT)
  {
    assert SortValue(s[i], ByActiveUntil) >= SortValue(s[j], ByActiveUntil);
  }
}
