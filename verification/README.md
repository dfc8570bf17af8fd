# Credential store and event creation of meet_the_bot_backend

This project models the core of a small web backend that signs users in with
Google (OAuth2/OpenID Connect), keeps each user's access and refresh tokens in
a `users` table, and creates Google Calendar events on their behalf.

- `models.dfy` (module `Models`): the `User` row (`id`, `google_sub`, `email`,
  `access_token`, `refresh_token`, `expires_at`), the profile and token
  payloads, the table's key constraints (`UniqueKeys`) and the filtered
  `.first()` queries by subject and by email.
- `crud.dfy` (module `Crud`): the `Database` class holding the table as a
  sequence of rows plus the next primary key, with `GetUserByGoogleSub`,
  `CreateOrUpdateUser` (the upsert whose refresh token is "sticky": replaced
  only when the token payload has a `refresh_token` key, even a null one) and
  `UpdateUserToken` (rewrites access token and expiry only, never creates a
  row). The upsert's `setattr` loop over `user_data` is a loop over a list of
  column assignments, proved equal to an explicit field-by-field `Merge`.
- `handlers.dfy` (module `Handlers`): the expiry test of `get_valid_token`
  (null or zero expiry, or expiry strictly before now), its refresh-and-persist
  branch, the ordered checks of `create_event` (unknown email 404, then missing
  refresh token 400, then token, then start/end defaulting, then the remote
  status check), and the auth callback's call to the upsert.
- `wrappers.dfy` (module `Wrappers`): `Option` and `Result`.

Time is an integer `now` in epoch seconds, given to each handler. The
provider's refresh grant (`exchange`) and the calendar API's create call
(`post`) are function parameters; the code exchange and userinfo fetch of the
auth callback are arguments holding their outcomes.

## Model

| member | source | states |
|---|---|---|
| `Models.IndexOfSub` | app/crud.py:4-5 | a row is found exactly when some row has that `google_sub`, and the row found has it |
| `Models.IndexOfEmail` | app/main.py:91 | a row is found exactly when some row has that (non-null) email, and the row found has it |
| `Models.First` | app/main.py:91 | the `.first()` of a filter: a matching row (the only one, under the key constraints), or none when no row matches |
| `Models.UniqueKeys` | app/models.py:7-9 | no two rows share an `id` or a `google_sub`, nor a non-null `email` |
| `Models.SubIdentifiesRow` | app/models.py:8 | with `google_sub` unique, any row carrying the subject is the one the lookup returns |
| `Models.EmailIdentifiesRow` | app/models.py:9 | with `email` unique, any row carrying the email is the one the lookup returns |
| `Crud.Database.constructor` | app/models.py:4-12 | an empty table satisfies the key constraints (unique `id`, `google_sub`, non-null `email`) |
| `Crud.Database.GetUserByGoogleSub` | app/crud.py:4-5 | returns the row whose `google_sub` is the argument, or none when there is none; changes nothing |
| `Crud.Database.CreateOrUpdateUser` | app/crud.py:7-31 | existing subject: that row alone becomes `Merge(row, profile, token)`, count unchanged; unseen subject: exactly one row appended with a fresh id; an email held by another row makes the commit fail with the table unchanged; the result and new table are those of `Upserted`; the key constraints are kept |
| `Crud.UserData` | app/crud.py:10-18 | the mapping sets subject, email, access token and expiry from profile and payload, and has a `refresh_token` entry exactly when the payload has that key, carrying its value |
| `Crud.SetAttr` | app/crud.py:23 | one `setattr` never changes the key, and changes the refresh token only when it is the column written |
| `Crud.Applied` | app/crud.py:22-23 | the assignments made in order never change the key, and leave the refresh token alone when none of them writes it |
| `Crud.UpsertSlot` | app/crud.py:8 | the upsert writes to the subject's row when there is one, otherwise to a new row after the last |
| `Crud.Upserted` | app/crud.py:20-29 | the commit fails exactly when another row holds the email; on success the row written is in the table with the profile's subject and email, and the table grew by one only for a new subject |
| `Crud.UserDataMerges` | app/crud.py:10-23 | assigning the `user_data` entries one by one yields the explicit merge: profile subject/email and payload token/expiry, refresh token only if the key is present |
| `Crud.UpsertOverwrites` | app/crud.py:10-23 | after the upsert's assignments, `email`, `access_token`, `expires_at` come from profile and payload, `google_sub` is the subject, `id` is kept |
| `Crud.RefreshTokenSticky` | app/crud.py:16-18 | a payload without the `refresh_token` key leaves the stored refresh token unchanged |
| `Crud.RefreshTokenReplaced` | app/crud.py:17-18 | a payload with the key stores its value, null included |
| `Crud.NewUserFields` | app/crud.py:24-27 | a created row has every column from profile and payload, and a null refresh token when the payload has none |
| `Crud.UpsertIdempotent` | app/crud.py:7-31 | repeating the same sign-in leaves the row as the first one did |
| `Crud.Database.UpdateUserToken` | app/crud.py:33-40 | only the row for the subject changes, and only its access token and expiry; unknown subject: none returned, table unchanged, nothing created |
| `Crud.TokenUpdatedKeepsCredentials` | app/crud.py:35-37 | a token update keeps every row's id, subject, email and refresh token, and so keeps the key constraints |
| `Handlers.ExpiringNowIsValid` | app/main.py:71 | an expiry equal to now (and non-zero) is not expired, as the comparison is strict |
| `Handlers.IsExpired` | app/main.py:71 | a null or zero expiry is expired; a non-zero one is expired exactly when it is before now |
| `Handlers.Present` | app/main.py:95 | a refresh token counts as present exactly when it is neither null nor empty |
| `Handlers.GetValidToken` | app/main.py:70-86 | expired (null, zero or before now): the refresh grant is called with the stored refresh token, its payload is written by `UpdateUserToken` under the user's subject and returned, or the failure is passed on with the table unchanged; otherwise the stored access token is returned as a Bearer token with `expires_in = expires_at - now >= 0` and the table is unchanged |
| `Handlers.Precheck` | app/main.py:91-96 | 404 exactly when no row has the email; otherwise 400 when the row's refresh token is null or empty; otherwise the row, which holds a refresh token |
| `Handlers.EventWindow` | app/main.py:101-102 | missing start is now; missing end is start plus one hour; a given end is used as given |
| `Handlers.EndMayPrecedeStart` | app/main.py:102 | nothing forces the end to be after the start |
| `Handlers.Interpret` | app/main.py:123-126 | a status of 300 or more becomes an error carrying that status and the body; below 300 the body is returned |
| `Handlers.Answer` | app/main.py:117-126 | a create call that raises (or whose body is not JSON) ends the request as a failure; a reply is interpreted by `Interpret` |
| `Handlers.CreateEvent` | app/main.py:89-126 | the 404 and 400 checks come first and leave the table unchanged; then the token of `GetValidToken`; then the event with the defaulted window is posted with that token and the outcome answered by `Answer`, a refresh already written staying in the table |
| `Handlers.Auth` | app/main.py:55-67 | a failed code exchange returns its error with the table unchanged; a failed profile fetch changes nothing; otherwise the upsert decides: a failed commit answers a fault with the table unchanged, and a successful one answers the profile's email with the table of `Upserted` |

## Left out

- The OAuth client registration, the login redirect and the root endpoint (app/main.py:17-53): configuration of a foreign library.
- The network calls themselves (code exchange, userinfo, refresh grant, calendar POST): modelled only by their results.
- ORM session mechanics (`add`, `commit`, `refresh`) and table creation: each repository operation is one atomic update of the table; a failed commit leaves it unchanged.
- Rows are values in a sequence: the ORM's identity map, through which the caller's object sees the update, is not modelled; nothing in the handlers reads the object after the update.
- The event payload's string form (ISO-8601 with a `Z` suffix, the `requestId` built from a float timestamp, the conference request): `CalendarEvent` carries only summary, description, start and end.
- Instants are whole epoch seconds, and one `now` stands for every clock reading in a request. The source reads a float clock up to three times per request, so with a fractional clock an expiry equal to the integer part of now counts as expired, and `expires_in` could come out negative if the clock advances between its two readings.
- A profile without a `sub` claim (a `KeyError` before the table is touched): `Profile.sub` is always present.
- Concurrent requests refreshing the same user's token: concurrency is out of scope.
- app/config.py: reads environment variables only.
- Handlers.GetValidToken: that the provider is not contacted on the valid branch shows only in the body; the refresh grant is a pure function parameter, so whether it was called is not observable in the contract, which states instead that the table is unchanged and the stored token returned.
- Handlers.CreateEvent: likewise, that no token work happens on the 404 and 400 paths is stated as "answer fixed by `Precheck`, table unchanged".
