# Promocode API core, modelled in Dafny

This project models the promocode logic of the `promo-api` Django service. Businesses publish promocodes and end users activate them. The model covers:

- **Promocode records.** The field bounds Django enforces on targets, promocodes, code instances and businesses. The age guard of `Promocode.save`. The activeness predicate `promocode_is_active`.
- **Business endpoints.** The guard checks of the promocode update view (UUID, existence, read-only fields, `max_count` against usage and mode). The owner's listing: owner filter, case-insensitive country filter built in a loop, and a descending sort on a nullable key with `datetime.min`/`datetime.max` substitutes.
- **Representations.** Serializer output as ordered dictionaries. Null-valued keys are stripped in order. The `active` flag is computed, `sort_by` is parsed, and `ClearNullMixin` injects `target = {}`.
- **Anti-fraud gate.** A class holding the per-email verdict cache and the log of upstream requests. The upstream service is a supplied function from request number to reply. The gate retries once. A pure `Decide` function states the whole outcome of one call.
- **Input validators.** The bearer-token length gate of the middleware, including `str.split(' ')`. The password policy, with its regular expression read as character classes. The e-mail length and `model_type` choices. The user profile bounds.

Datetimes are integers: microseconds since 0001-01-01, so `datetime.min` is 0 and `datetime.max` is `Common.MAX_INSTANT`. The current time is always a parameter.

Files: `business_models.dfy`, `business_serializers.dfy`, `business_views.dfy`, `core_serializers.dfy`, `antifraud.dfy`, `middlewares.dfy`, `core_models.dfy`, `user_models.dfy`. Each has one module, named after the source file it models. `common.dfy` (module `Common`) is not named after a source file. It holds the shared option and result types, the instant type, and the ASCII upper-casing behind `iexact`.

Two behaviours of the code are worth knowing:

- The save guard of solution/business/models.py:84-86 compares the ages only when both are truthy. An age of 0 therefore skips the comparison, although the error message at solution/business/models.py:86 says `age_from` must never exceed `age_until` (see Findings).
- The fraud gate (solution/user/antifraud.py:53-54) denies only on a non-200 status. An exception raised by the HTTP call itself is not caught and propagates to the caller.

## Model

| member | source | states |
|---|---|---|
| Common.Upper | solution/business/views.py:100 | SQL `UPPER` over ASCII: same length, no lower-case letter left, and each character either kept or a lower-case letter moved to its upper-case form |
| Common.IEqualsIff | solution/business/views.py:100 | `iexact` holds exactly when both strings have the same length and agree at every position up to ASCII case |
| Common.IEqualsEquivalence | solution/business/views.py:100 | `iexact` is reflexive, symmetric and transitive |
| Common.IEqualsExamples | solution/business/views.py:100 | `fr` matches `FR` and `fR`, and does not match `f` or `fs` |
| BusinessModels.FailingCategories | solution/business/models.py:33-38 | an index is reported exactly when that category is not 2..20 characters; no report exactly when every category is valid |
| BusinessModels.TargetErrors | solution/business/models.py:20-38 | no error exactly when both ages are in 0..100, the country is at most 2 characters and every category is 2..20 characters, however many there are; `age_from`/`age_until` are named exactly when out of range |
| BusinessModels.ManyCategoriesAccepted | solution/business/models.py:33-38 | a target with 21 valid categories is accepted: the array's `max_length` bounds no item count |
| BusinessModels.PromocodeErrors | solution/business/models.py:59-79 | no error exactly when the description is 10..300, the image URL is at most 350, the target is valid, `max_count` is in 0..100000000 and the mode is COMMON or UNIQUE; `max_count` and `mode` are named exactly when they fail |
| BusinessModels.CodeInstanceErrors | solution/business/models.py:92-106 | a code string is accepted exactly when it is 5..30 characters |
| BusinessModels.BusinessErrors | solution/business/models.py:41-45 | a business name is accepted exactly when it is 5..50 characters |
| BusinessModels.Save | solution/business/models.py:83-87 | the guard as written: success persists the promocode unchanged; a rejection means both ages are present and inverted; without a target, or with an age of 0, nothing is rejected; with both ages non-zero it rejects exactly when `age_from > age_until` |
| BusinessModels.SavedAgesOrderedUnlessZero | solution/business/models.py:84-86 | a saved valid target has ordered ages unless `age_until` is 0 |
| BusinessModels.SaveAcceptsZeroAgeUntil | solution/business/models.py:84-86 | `age_from = 30, age_until = 0` is saved although the range is empty |
| BusinessModels.SaveChecked | solution/business/models.py:84-86 | the corrected guard accepts exactly when there is no target or its present ages are ordered |
| BusinessModels.SaveCheckedStricter | solution/business/models.py:84-86 | the corrected guard rejects everything the written one rejects |
| BusinessModels.IsActive | solution/business/models.py:108-124 | active exactly when the inclusive window holds (a missing bound is unbounded) and the counter of the promocode's mode is positive; a later `active_from`, an earlier `active_until` or an exhausted counter each make it inactive; another mode has no counter check |
| BusinessModels.IsActiveIgnoresOtherCounter | solution/business/models.py:117-122 | a COMMON promocode's activeness ignores `unique_count`, and a UNIQUE one's ignores `common_count` |
| BusinessModels.ClearingBoundKeepsActive | solution/business/models.py:112-115 | removing a window bound never makes an active promocode inactive |
| CoreSerializers.Get | solution/core/serializers.py:10 | `dict.get`: None for a missing key, otherwise a stored entry of that key |
| CoreSerializers.GetMember | solution/core/serializers.py:10 | in a dict with distinct keys, `get` returns the value stored under the key |
| CoreSerializers.StripNulls | solution/core/serializers.py:13-15 | the result holds no None, and an entry is in it exactly when it is a non-None entry of the input |
| CoreSerializers.StripNullsAppend | solution/core/serializers.py:13-15 | stripping commutes with concatenation |
| CoreSerializers.StripNullsKeepsOrder | solution/core/serializers.py:13-15 | two non-None entries keep their relative order |
| CoreSerializers.StripNullsKeepsClean | solution/core/serializers.py:13-15 | a dict without None is left unchanged |
| CoreSerializers.StripNullsDistinct | solution/core/serializers.py:13-15 | stripping keeps keys distinct |
| CoreSerializers.StripNullsGet | solution/core/serializers.py:13-15 | stripping changes no lookup |
| CoreSerializers.Assign | solution/core/serializers.py:11 | `result[k] = v`: a new key is appended, an existing one overwritten in place, every other entry kept |
| CoreSerializers.AssignDistinct | solution/core/serializers.py:11 | assignment keeps keys distinct |
| CoreSerializers.WithTarget | solution/core/serializers.py:10-11 | the conditional write of `target = {}` keeps every non-None entry in place |
| CoreSerializers.ClearNull | solution/core/serializers.py:6-15 | the output holds no None, and every non-None input entry survives |
| CoreSerializers.ClearNullTarget | solution/core/serializers.py:10-15 | `target` becomes `{}` when `max_count` is set and `target` is not; a null `target` disappears when `max_count` is null too; a non-null `target` passes unchanged |
| CoreSerializers.ClearNullKeepsOthers | solution/core/serializers.py:10-15 | every key other than `target` reads the same before and after |
| CoreSerializers.ClearNullKeepsOrder | solution/core/serializers.py:13-15 | non-None entries keep their values and relative order |
| CoreSerializers.ClearNullIdempotent | solution/core/serializers.py:6-15 | the output has distinct keys, and transforming it again changes nothing |
| BusinessSerializers.ParseSortBy | solution/business/serializers.py:132-136 | `sort_by` is accepted exactly when absent, empty or one of the three choices; absent or empty means `created_at`; any other accepted value selects the key of that name; a rejection carries the value |
| BusinessSerializers.ParseSortByName | solution/business/serializers.py:132-136 | every sort key is accepted under its own name |
| BusinessSerializers.NoNullsHasKey | solution/business/serializers.py:49-51 | in a None-free dict a key is present exactly when `get` finds a value |
| BusinessSerializers.StrippedLookup | solution/business/serializers.py:49-51 | after stripping, a key is present exactly when it held a non-None value, and it reads the same |
| BusinessSerializers.StrippedAt | solution/business/serializers.py:93-95 | the entry at a position survives stripping exactly when it is not None |
| BusinessSerializers.TargetFields | solution/business/serializers.py:47-48 | the target's fields before stripping, with distinct keys; an entry is None exactly when its field is unset |
| BusinessSerializers.TargetRepresentation | solution/business/serializers.py:47-51 | the target renders without None and with distinct keys; each field is present exactly when set, with its value; `categories` renders as a list of the category strings in order |
| BusinessSerializers.Active | solution/business/serializers.py:80-83 | with both bounds set, `active` is true exactly when `active_until` is later than `active_from`; otherwise true |
| BusinessSerializers.ActiveFlagMissesOneInstantWindow | solution/business/serializers.py:80-83 | a one-instant window that is open now renders `active = false` while the promocode is active |
| BusinessSerializers.ActiveFlagIgnoresCounters | solution/business/serializers.py:80-83 | an exhausted COMMON promocode without bounds renders `active = true` while it is inactive |
| BusinessSerializers.PromocodeFieldsDistinct | solution/business/serializers.py:97-115 | the rendered field names are distinct |
| BusinessSerializers.PromocodeFieldsNulls | solution/business/serializers.py:97-115 | `image_url`, `target`, `active_from` and `active_until` render as None exactly when unset |
| BusinessSerializers.PromocodeFieldsAlwaysSet | solution/business/serializers.py:97-115 | every other listed field always has a value |
| BusinessSerializers.PromocodeRepresentation | solution/business/serializers.py:62-95 | the promocode renders without None and with distinct keys; optional fields read as set or absent; `like_count` and `used_count` are 0; `active` is the `get_active` flag |
| BusinessViews.FindByUuid | solution/business/views.py:140 | for a UUID in stored spelling: nothing is found exactly when no row has it; a found row is in the table and has it |
| BusinessViews.FindReadOnlyField | solution/business/views.py:143-145 | reports nothing exactly when the body carries no read-only field; otherwise the first read-only field, in declaration order, that it carries |
| BusinessViews.CheckMaxCount | solution/business/views.py:147-155 | no check without `max_count`; for COMMON a value below `max_count - common_count` is refused and a non-number cannot be compared; for any other mode every value but 1 is refused |
| BusinessViews.Update | solution/business/views.py:136-158 | an invalid UUID fails first, then an unknown one (looked up by the UUID the string denotes), then a read-only field (the first in `read_only_fields` order that the body carries), then the `max_count` checks; a known UUID with no read-only field in the body yields exactly the `max_count` verdict, and success the stored promocode |
| BusinessViews.RequestedCountries | solution/business/views.py:96-97 | the country filter applies exactly when the `country` parameter is present and non-empty, with the countries `clean_country` returns |
| BusinessViews.BuildCountryFilter | solution/business/views.py:96-102 | the filter built in the loop keeps a promocode exactly when it has no target country or its country equals a requested one, ignoring case |
| BusinessViews.Filter | solution/business/views.py:94-102 | a row is kept exactly when it is in the table and passes the test |
| BusinessViews.FilterTwice | solution/business/views.py:94-102 | chaining two filters equals filtering on both tests |
| BusinessViews.FilterAll | solution/business/views.py:96-102 | a filter that passes everything keeps the table |
| BusinessViews.Insert | solution/business/views.py:111 | inserting into a non-increasing list keeps it non-increasing and adds exactly the one promocode |
| BusinessViews.SortDesc | solution/business/views.py:104-111 | the result is non-increasing in the sort value and a permutation of the input |
| BusinessViews.SelectListed | solution/business/views.py:94-102 | the owner filter then the country filter keeps exactly the owner's promocodes that pass the country test |
| BusinessViews.ListPromocodes | solution/business/views.py:86-111 | an invalid `sort_by` is refused with its value, an empty one sorts on `created_at`; otherwise the listing is non-increasing in the sort key and a permutation of the owner's promocodes that pass the country filter |
| BusinessViews.ListedOnly | solution/business/views.py:94-102 | every listed promocode is in the table, belongs to the requesting business and passes the country filter |
| BusinessViews.NullActiveFromSortsLast | solution/business/views.py:104-105 | sorting on `active_from`, a promocode without one is followed only by ones whose key is `datetime.min` |
| BusinessViews.NullActiveUntilSortsFirst | solution/business/views.py:106-107 | sorting on `active_until`, a promocode without one is preceded only by ones whose key is `datetime.max` |
| Antifraud.FinalResponse | solution/user/antifraud.py:32-36 | the reply handed back is one of the two; a first 200 is kept; a non-200 result means both replies failed |
| Antifraud.Decide | solution/user/antifraud.py:42-63 | at most two requests; none exactly on a fresh cache hit, which returns the cached verdict and keeps the cache; two exactly when the first reply is not 200; a final non-200 denies and keeps the cache; no other email's entry changes |
| Antifraud.DecideOnOk | solution/user/antifraud.py:56-63 | a final 200 returns its `ok`; with `cache_until` the email's entry becomes `(cache_until, ok)`, without it the cache is unchanged |
| Antifraud.CachedVerdictReused | solution/user/antifraud.py:42-63 | after a 200 reply with `cache_until`, the next call for that email at any instant up to and including `cache_until` sends no request, returns the same verdict and keeps the cache |
| Antifraud.CacheTrustedThroughExpiry | solution/user/antifraud.py:38-49 | a cached entry answers without a request exactly when now is at or before its `cache_until` |
| Antifraud.ExpiredEntryAsksUpstream | solution/user/antifraud.py:38-51 | an expired entry always leads to an upstream request |
| Antifraud.AntifraudClient.GetUserCachedInfo | solution/user/antifraud.py:14-18 | the stored entry for the email, or nothing when there is none |
| Antifraud.AntifraudClient.SetUserCachedInfo | solution/user/antifraud.py:20-25 | the email's entry is overwritten and no other entry changes |
| Antifraud.AntifraudClient.Post | solution/user/antifraud.py:32 | one request is logged and answered with the reply for its number |
| Antifraud.AntifraudClient.GetAntifraudResponse | solution/user/antifraud.py:27-36 | one request, and a second identical one only after a non-200 reply; the last reply is returned |
| Antifraud.AntifraudClient.AntifraudSuccess | solution/user/antifraud.py:42-63 | the verdict, the new cache and the number of requests are those of `Decide`; every request carries this email and promocode; the cache key is the email alone |
| Middlewares.Split | solution/core/middlewares.py:11 | `str.split(' ')` always yields at least one part |
| Middlewares.SplitParts | solution/core/middlewares.py:11 | the parts hold no space, join back to the string, and there are several exactly when the string has a space |
| Middlewares.SplitPrefix | solution/core/middlewares.py:11 | a space-free piece and a space split off as one part |
| Middlewares.SplitJoin | solution/core/middlewares.py:11 | splitting undoes joining space-free parts |
| Middlewares.Token | solution/core/middlewares.py:11 | `split(' ')[-1]` holds no space, and is the whole header when it has none |
| Middlewares.TokenStep | solution/core/middlewares.py:11 | the token of a header with a space is that of its tail; without a space it is the header |
| Middlewares.LastPartIsSuffix | solution/core/middlewares.py:11 | the token is a suffix of the header, preceded by a space when the header has one |
| Middlewares.TokenAfterLastSpace | solution/core/middlewares.py:11 | the token is the space-free text after the last space, or the whole header when there is no space |
| Middlewares.Handle | solution/core/middlewares.py:8-15 | an absent or empty header passes; otherwise a 401 with the fixed message is returned exactly when the token is not 5..300 characters |
| Middlewares.BearerHeader | solution/core/middlewares.py:11-15 | `Bearer <token>` passes exactly when the token is 5..300 characters |
| Middlewares.TrailingSpaceRejected | solution/core/middlewares.py:11-13 | a header ending in a space has an empty token and gets a 401 |
| CoreModels.Scan | solution/core/models.py:25 | one pass finds a lower-case letter, an upper-case letter, a digit or a special character exactly when one exists, and reports whether all characters are allowed |
| CoreModels.MatchesPasswordRegex | solution/core/models.py:25 | the pattern matches exactly when the password has each of the four classes, nothing outside them, and at least 8 characters |
| CoreModels.PasswordErrors | solution/core/models.py:12-29 | an empty password is blank; otherwise too short exactly below 8, too long exactly above 60, and a pattern error exactly when the pattern fails; no error exactly when all hold |
| CoreModels.AcceptedPasswordClasses | solution/core/models.py:20-29 | an accepted password is 8..60 characters with a character of each class and none other |
| CoreModels.ForeignCharacterRejected | solution/core/models.py:25 | one character outside the allowed classes fails the pattern |
| CoreModels.MissingDigitRejected | solution/core/models.py:25 | a password without a digit fails the pattern |
| CoreModels.StrongPasswordAccepted | solution/core/models.py:25 | `Passw0rd!` raises no error |
| CoreModels.NoUpperRejected | solution/core/models.py:25 | a password of valid length without an upper-case letter raises only the pattern error |
| CoreModels.ShortPasswordRejectedTwice | solution/core/models.py:22-25 | `Pa0!` is both too short and a pattern mismatch |
| CoreModels.AccountErrors | solution/core/models.py:19-31 | no error exactly when the e-mail is 8..120, the password is accepted and `model_type` is null, blank, BUSINESS or USER; each field is named exactly when it fails |
| UserModels.TargetInfoErrors | solution/user/models.py:12-14 | a profile is accepted exactly when the age is 0..100 and the country 1..2 characters |
| UserModels.OwnErrors | solution/user/models.py:16-20 | no error exactly when the name is 1..100, the surname 1..120, the avatar URL absent or at most 350, and the profile valid; each named field fails exactly when out of bounds |
| UserModels.UserErrors | solution/user/models.py:16-22 | a user is valid exactly when its account fields and its own fields are; password and `model_type` errors come from the account |
| UserModels.UserPasswordBounded | solution/user/models.py:8-10 | a user's password over 60 characters is refused |

## Left out

- Redis, the HTTP client, JSON (de)serialisation, `strptime` parsing and `print` in the anti-fraud gate. They become the `cache` map field, the `service` reply function and integer instants.
- Exceptions raised by the HTTP call to the anti-fraud service, or by parsing its reply, are not modelled. The code does not catch them.
- An upstream reply whose `ok` is missing or not a boolean: `Response.ok` is a boolean. An empty `cache_until` string is modelled as absent, since it is falsy.
- The wall clock and the fixed +3 hours of `promocode_is_active`. The current time is a parameter.
- `is_valid_uuid` (solution/core/utils.py:4-10) is a function parameter of `BusinessViews.Update`. Its behaviour lies in Python's `uuid` module.
- BusinessViews.FindByUuid: compares UUID strings as stored. The parsing that Django's `UUIDField` lookup applies to the URL's string (case, braces, missing dashes) is the function parameter `canonicalUuid` of `BusinessViews.Update`.
- `get_business` is imported from `business.permissions` (solution/business/views.py:18), which does not define it. `BusinessViews.ListPromocodes` takes the requesting business's identifier and keeps the table rows whose company it is.
- `clean_country` is a function parameter of `BusinessViews.ListPromocodes`. It is imported from `core.utils` (solution/business/views.py:16), which defines only `is_valid_uuid`.
- The statistics view and `PromocodeStatSeriazlier`: the serializer is imported from `business.serializers` (solution/business/views.py:20), which does not define it.
- `promo_common` and `promo_unique` in `PromocodeSerializer.Meta.fields` name no field of `Promocode` (solution/business/models.py:51-90). Django REST framework would raise `ImproperlyConfigured` on rendering such a serializer. The model assumes they render nothing and leaves them out of the rendered promocode.
- The generic serializer rendering is not modelled. `PromocodeRepresentation` starts from the field values `Meta.fields` lists.
- The serializer update that follows the guard checks of `update`, and the creation path (`perform_create`, `create`).
- Login, registration and profile endpoints, password hashing, tokens, permissions and URL configuration. They are framework plumbing.
- BusinessViews.ListPromocodes: the `limit` and `offset` query parameters (solution/business/serializers.py:130-131) are neither validated nor applied. The model returns the whole sorted listing.
- Likes, comments and activation records: plain CRUD records without logic.
- Redemption and the user feed: no view activates a promocode or serves a user feed.
- Whitespace trimming by the serializers' `CharField`s (`trim_whitespace`, on by default): every modelled string is the value after surrounding whitespace has been stripped, so `CoreModels.PasswordErrors`, `BusinessModels.TargetErrors`, `BusinessModels.PromocodeErrors`, `BusinessModels.CodeInstanceErrors`, `BusinessModels.BusinessErrors`, `CoreModels.AccountErrors` and the `UserModels` validators apply their bounds to the trimmed value. A raw request value such as `" Passw0rd!"` is accepted after trimming, and a whitespace-only one is refused as blank; the trim itself is not modelled.
- URL and e-mail format validators (`URLField`, `EmailField`), and ISO country codes. Only lengths are modelled.
- The regular expression's Unicode `\d` and the `$` that matches before a trailing newline. Character classes are ASCII.
- `iexact` folds ASCII letters only.
- JSON floats in `max_count`. Only integers, booleans and other non-numbers are distinguished.
- BusinessViews.SortDesc: the database leaves the order of equal sort values open. The model keeps table order, and its contract states only sortedness and permutation.
- The `password_length_validator` in solution/user/models.py:8-10 is an identical copy of the one in solution/core/models.py:12-14. No model field uses it; the login serializer's password field does (solution/user/serializers.py:8,29), and the login endpoint is not modelled. The account's password, inherited by `User`, is checked by the core copy, modelled by `CoreModels.PasswordLengthOk` inside `CoreModels.PasswordErrors`.
- Concurrency and database transactions: no view takes a lock or opens a transaction.

## Findings

| source | as written | input that shows it | evidently intended | confidence | as-written member | corrected member |
|---|---|---|---|---|---|---|
| solution/business/models.py:84-86 | the age comparison runs only when both ages are truthy, so an age of 0 counts as unset | a target with `age_from = 30`, `age_until = 0` is saved | any two present ages are compared, so `age_from > age_until` is always refused, as the error message says | medium, not executed | BusinessModels.SaveAcceptsZeroAgeUntil | BusinessModels.SaveChecked |
