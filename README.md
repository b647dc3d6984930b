# URL shortener core, modelled in Dafny

This project models the two services at the heart of the URL shortener:

- `ShortUrlService` keeps a table of URL records. Each record has an id, the original URL, the full short URL (`BASE_URL/code`), an optional owner, a click counter, creation and update times, and an optional deletion time. The service shortens a URL by appending a record. It resolves a code to the first live record holding its short URL and counts the click. It lists a user's live records. It updates or soft-deletes a record, but only when the record is live and owned by the caller.
- `AuthService` keeps a user table keyed by email. `register` checks the password confirmation, refuses a taken email and stores the hashed password. `login` checks the credentials and returns a token signed over the user's id.

Files:

- `wrappers.dfy` (`Wrappers`): `Option`, `Result` and the abstract `Timestamp`.
- `records.dfy` (`Records`): how the model answers the store's queries. The queries carry no ordering, so the store leaves open which match `findFirst` returns and in what order `findMany` returns its matches. The model fixes insertion order: `findFirst`/`findUnique` give the first match in the table (`FindFirst`), and `findMany` gives every match, once each, in table order (`Filter`). The module also holds the lemmas about both.
- `short_url.dfy` (`ShortUrl`): the `Url` record and the pure lookups (`Resolve`, `FindOwned`, `UserUrls`). Also the class `ShortUrlService`, whose methods change the table (`urls: seq<Url>`) in place.
- `short_url_lemmas.dfy` (`ShortUrlLemmas`): properties that relate several operations. These are the shorten/resolve round trip, soft-delete visibility, ownership-scoped failure and listing changes. The module also has two client methods that run the operations in sequence.
- `auth.dfy` (`Auth`): the class `AuthService` over `users: seq<User>`.

Modelling decisions:

- `BASE_URL` is the constant `baseUrl`, fixed when the service is built. Shortening and resolution both use it.
- Clock readings are an abstract `now` argument. The generated code is an argument `code` chosen by the caller.
- The store assigns record and user ids. Each class models this with a counter `nextId`, and its `Valid()` invariant states that ids are distinct.
- bcrypt `hash`/`compare` and the JWT `sign` are function-valued constants of `AuthService`. Nothing is assumed about them. The one exception is `RegisterThenLogin`, which asks that every password match its own hash.
- `updatedAt` changes only where the code writes it, which is in `updateUserUrl`. The database schema is not part of this model, so an automatic refresh of `updatedAt` on other writes is not modelled.
- The service code has no collision check, and the model stores a record whose short URL is already held by a live record. The database schema is not part of this model, so a unique constraint that would reject such a record is not modelled. With insertion-order lookup, that key then keeps resolving to the older record (`ResolveAfterShorten`). The round trip therefore needs the key to be free.
- `LiveKeysUnique` (no two live records share a short URL) is not an invariant of the service. Every operation preserves it, and shortening preserves it only when the new key is free.

## Model

| member | source | states |
|---|---|---|
| `Records.FindFirst` | url-shortener/src/short-url/short-url.service.ts:44-46 | first-match lookup: the result is a matching index with no match before it, and it is absent exactly when no element matches |
| `Records.Filter` | url-shortener/src/short-url/short-url.service.ts:64-66 | `findMany` keeps only elements that pass the filter, and never returns more elements than the table has |
| `Records.FilterMembers` | url-shortener/src/short-url/short-url.service.ts:64-66 | an element is in the `findMany` result iff it is in the table and passes the filter, and it appears there exactly as often as in the table |
| `ShortUrl.ShortKey` | url-shortener/src/short-url/short-url.service.ts:27 | the short URL is the base URL, then `/`, then the code, each recoverable by position |
| `ShortUrl.Resolve` | url-shortener/src/short-url/short-url.service.ts:44-46 | the resolved index holds the key and is live, and no earlier record is a live holder of the key; the result is absent exactly when no live record holds the key, so a soft-deleted holder never resolves |
| `ShortUrl.FindOwned` | url-shortener/src/short-url/short-url.service.ts:75-77 | the found record has the id, is owned by the caller and is live; the result is absent exactly when no record has all three (missing id, other owner, no owner, deleted) |
| `ShortUrl.UserUrls` | url-shortener/src/short-url/short-url.service.ts:64-66 | a record is listed iff it is in the table, owned by the user and live, and each listed record appears exactly as often as in the table |
| `ShortUrl.ShortUrlService.constructor` | url-shortener/src/short-url/short-url.service.ts:14-19 | the base URL is captured once and the table starts empty |
| `ShortUrl.ShortUrlService.ShortenUrl` | url-shortener/src/short-url/short-url.service.ts:21-39 | appends exactly one record (fresh id, given URL and owner, short URL `baseUrl/code`, zero clicks, not deleted, created and updated `now`) and returns it; old records are unchanged; keeps live keys unique when the key was free |
| `ShortUrl.ShortUrlService.FindOriginalUrl` | url-shortener/src/short-url/short-url.service.ts:41-60 | NotFound with the table unchanged iff no live record holds `baseUrl/code`; otherwise returns that record's original URL and adds exactly 1 to its click count, changing nothing else |
| `ShortUrl.ShortUrlService.ListUserUrls` | url-shortener/src/short-url/short-url.service.ts:62-67 | returns exactly the live records owned by the user, each as often as it occurs in the table (no duplicates added); reads the table without changing it |
| `ShortUrl.ShortUrlService.UpdateUserUrl` | url-shortener/src/short-url/short-url.service.ts:69-98 | NotFound with the table unchanged iff no live record with that id is owned by the caller; otherwise only that record's original URL and update time change, and the updated record is returned |
| `ShortUrl.ShortUrlService.DeleteUserUrl` | url-shortener/src/short-url/short-url.service.ts:100-122 | NotFound with the table unchanged iff no live record with that id is owned by the caller; otherwise only that record's deletion time is set, and the deleted record is returned |
| `ShortUrlLemmas.ShortKeyInjective` | url-shortener/src/short-url/short-url.service.ts:43 | under one base URL, the rebuilt key determines the code: two codes give the same short URL iff they are equal |
| `ShortUrlLemmas.ResolveAfterShorten` | url-shortener/src/short-url/short-url.service.ts:26-35 | after an append, a key that resolved still resolves to the same older record, even when the new record collides with it; a key that did not resolve now resolves to the new record iff the new record holds it |
| `ShortUrlLemmas.ShortenThenResolve` | url-shortener/src/short-url/short-url.service.ts:43-59 | round trip: when no live record held the key, the key rebuilt from the code resolves to the newly appended record, and the record it resolves to holds the given original URL |
| `ShortUrlLemmas.ResolveAfterInPlaceChange` | url-shortener/src/short-url/short-url.service.ts:88-94 | a click or an update of the original URL does not change what any key resolves to |
| `ShortUrlLemmas.FindOwnedAfterInPlaceChange` | url-shortener/src/short-url/short-url.service.ts:53-56 | a click or an update of the original URL does not change which record an owner may update or delete |
| `ShortUrlLemmas.ResolveAfterDelete` | url-shortener/src/short-url/short-url.service.ts:115-118 | a soft-deleted record never resolves again; when live keys are unique, its key no longer resolves at all |
| `ShortUrlLemmas.DeleteTwiceFails` | url-shortener/src/short-url/short-url.service.ts:102-113 | once a record is soft-deleted, a second delete (or an update) of the same id by its owner finds nothing |
| `ShortUrlLemmas.ListAfterDelete` | url-shortener/src/short-url/short-url.service.ts:62-67 | a soft delete removes exactly the deleted record from its owner's listing and keeps the other records in order |
| `ShortUrlLemmas.ListAfterShorten` | url-shortener/src/short-url/short-url.service.ts:29-35 | shortening adds the new record at the end of its owner's listing and changes no other listing |
| `ShortUrlLemmas.EvolvesTransitive` | url-shortener/src/short-url/short-url.service.ts:21-122 | the change every operation makes composes: across any series of operations ids, short URLs and owners stay fixed, click counts never decrease and no deleted record changes or is undeleted |
| `ShortUrlLemmas.ShortenThenFind` | url-shortener/src/short-url/short-url.service.ts:21-60 | shortening and then resolving the same code returns the original URL and leaves the new record with one click |
| `ShortUrlLemmas.Lifecycle` | url-shortener/src/short-url/short-url.service.ts:21-122 | shorten, resolve, update, resolve, delete, resolve on one link: returns the first URL, then the new URL, then NotFound, with two clicks counted |
| `Auth.AuthService.constructor` | url-shortener/src/auth/auth.service.ts:19-24 | the hash, compare and sign collaborators are injected and the user table starts empty |
| `Auth.AuthService.FindOneWithEmail` | url-shortener/src/auth/auth.service.ts:69-73 | returns a user with that email, or none exactly when no user has it; with unique emails it is the one user holding the email |
| `Auth.AuthService.FindAll` | url-shortener/src/auth/auth.service.ts:75-77 | returns the whole user table in stored order; reads the table without changing it |
| `Auth.AuthService.Register` | url-shortener/src/auth/auth.service.ts:31-53 | a missing or different confirmation gives Unprocessable and a taken email gives Conflict, both with the table unchanged; otherwise it appends exactly one user with the email and `hash(password)` and returns it; email uniqueness is preserved |
| `Auth.AuthService.Login` | url-shortener/src/auth/auth.service.ts:55-67 | fails only with Unauthorized; success returns a token signed over the id of a user with that email whose stored hash matches; with unique emails it succeeds iff such a user exists |
| `Auth.RegisterThenLogin` | url-shortener/src/auth/auth.service.ts:31-67 | when the hash and comparison agree, a newly registered user can log in at once and gets a token over its new id |

## Left out

- Logging (`logger.log`/`logger.warn`) is left out. It has no effect on control flow.
- Controllers, guards, module wiring and request validation (`IsUrl`, `IsEmail`, `MaxLength`) are left out. Inputs are taken as already validated. The caller's user id arrives as `Option<string>` for shortening and as `string` for list, update and delete. Only `confirmPassword` keeps its optional type.
- `generateShortUrlId` (short-url.service.ts:124-126) is left out because it draws from `Math.random()`. The code is an arbitrary string passed in. The model also allows codes shorter than six characters, which the base-36 formatting can produce.
- Bcrypt salting, the real hash, the comparison and JWT signing are left out. They are opaque functions. `hash` is treated as a fixed function of the password.
- The concurrency between the awaited store calls is left out. This includes the find-then-update race in update and delete, and concurrent click increments. The model is sequential.
- Collision retry is left out. The code has none, so no retry bound and no retry-exhausted error exist.
- `findOriginalUrl` reads `process.env.BASE_URL` on every call. The model uses the value captured at construction. The two differ only if the environment changes while the service runs.
- The store assigns opaque ids. The model uses natural numbers from a counter, because only their distinctness matters.
- Store ordering is left open by the source: no query has an `orderBy`. The model fixes insertion order. So "the older record wins" (`ResolveAfterShorten`), "the rest keep their order" (`ListAfterDelete`) and "added at the end" (`ListAfterShorten`) follow from that modelling choice, not from a promise of the store.
- The database schema is not part of this model. That includes any unique constraint on `shortUrl`, which would make the store reject a colliding record instead of storing it.
