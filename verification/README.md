# t3-link-shortener — a Dafny model of the request handlers and client rules

This project models the decision logic of the t3-link-shortener web app: a
URL shortener built on Next.js, tRPC, Prisma and NextAuth. The model covers:

- the tRPC **link router**: create under a per-tier daily rate limit, list
  one's links, read a link's click analytics, delete, change the slug;
- the tRPC **user router**: choose a username, read the profile, reset the
  daily counter, recover an old account by merging its links;
- the REST handlers **`POST /api/shorten`** and **`POST /api/auth/signup`**;
- the **authentication configuration**: the credentials `authorize`, the
  GitHub, Google, Discord and Twitter profile mappers, and the `jwt` and
  `session` callbacks;
- the **client rules**: the shorten form's slug sanitiser, submit guards,
  button state, slug status and reset; the dashboard's quota predicates,
  daily-reset trigger, username dialog and greeting; the toast message; and
  the `/dashboard` middleware.

The database is an immutable value. Link rows are a `map` from id to record
in the link router, and a `seq` in the user router. Prisma's `findMany`
without `orderBy` promises no row order; the model fixes one, the order of
that sequence, and the merge visits the old links in it. Users
are a `map` by id. Sign-up accounts are a `seq`. Every handler is one atomic
pure transition. A failing tRPC handler returns `Err(code)` and no store, so
an error leaves the store as it was by construction. The one exception is
`recoverAccount`: it writes the merged link rows before the final user update,
so when that update throws the links stay merged, and `RecoverAccount` returns
the merged links together with the error. The REST handlers return
an `Outcome` of store and HTTP response.

The two routers come from different schema iterations:

- `link.ts` uses `slug` and `originalUrl`;
- `user.ts` uses `shortCode`, `longUrl` and a click counter.

Each router is modelled against its own record types
(`LinkRouter.Link`, `UserRouter.ShortLink`). The REST shorten handler writes
`LinkRouter.Link` rows.

Everything nondeterministic or foreign is a parameter:

- the random slug from nanoid (only its length is kept);
- the database-assigned ids;
- the current time;
- the rate limits and the base URL from the environment;
- the count of today's links;
- the zod/`new URL` URL, email and UUID validators, as `string -> bool`;
- bcrypt `hash` and `compare`, as functions. A thrown error is `None`.

JavaScript semantics are written out in module `Common`:

- `??` is `Option.GetOr`;
- truthiness is `Truthy` and `JsTruthy`;
- `String(x)` is `ToJsString`;
- `string | null | undefined` is `Nullable`.

The tRPC `protectedProcedure` guard (`Authenticated`) is the first error case
of every protected handler. It comes before input validation.

Modules, one per source file: `Common`, `Sorting` (descending sort and
newest-n), `LinkRouter`, `ShortenRoute`, `UserRouter`, `Accounts`,
`AuthConfig`, `SignupRoute`, `Toast`, `ShortenForm`, `Dashboard`,
`Middleware`.

The tRPC context in `src/server/api/trpc.ts` holds only `db` and `userId`.
The link router reads `ctx.session` and `ctx.headers`, which that context does
not provide, so as wired those reads would throw. The model follows the schema
iteration whose context does provide a session and request headers: the
caller's user id, subscription plan and forwarded-for header are parameters.

## Model

| member | source | states |
|---|---|---|
| `Sorting.SortDesc` | src/server/api/routers/link.ts:80 | the result is a permutation (same multiset) of the input in descending key order |
| `Sorting.Newest` | src/server/api/routers/link.ts:98-101 | `orderBy desc, take n`: min(len, n) elements drawn from the input, descending, every element left out ranks no higher than every one kept, and all of them are kept when there are at most n |
| `LinkRouter.ParseLinkInput` | src/server/api/routers/link.ts:12-15 | input is accepted iff the URL is valid and a supplied slug has 3 to 32 characters; otherwise BAD_REQUEST |
| `LinkRouter.ApplicableLimit` | src/server/api/routers/link.ts:37-41 | the anonymous limit when there is no session or its user id is empty, the pro limit for a signed-in user on plan "pro", the free limit for every other signed-in user |
| `LinkRouter.Create` | src/server/api/routers/link.ts:19-74 | BAD_REQUEST, then TOO_MANY_REQUESTS iff today's count reaches the tier limit, then CONFLICT iff the final slug (given or generated) is taken, then INTERNAL_SERVER_ERROR exactly when the new id clashes or the URL is already stored, so valid input under the limit with a free slug, a new id and a new URL succeeds; on success exactly one new link with that slug, the URL, the session's user id, the forwarded IP or "127.0.0.1", no user agent and no clicks; a generated slug has 8 characters; slug and URL uniqueness are preserved |
| `LinkRouter.SecondCreateSameUrlFails` | src/server/api/routers/link.ts:64-71 | once a URL has been shortened, every later `create` for it fails |
| `LinkRouter.CreatedSlugValid` | src/server/api/routers/link.ts:12-51 | every slug `create` stores, given or generated, has 3 to 32 characters |
| `LinkRouter.CreatedLinkResavable` | src/server/api/routers/link.ts:51-186 | a link a signed-in user just created passes `update`'s slug schema and ownership check, so re-saving its slug succeeds and changes nothing |
| `LinkRouter.CreateThenDelete` | src/server/api/routers/link.ts:126-152 | a signed-in creator can delete the link just created, and the store is then exactly what it was before the create |
| `LinkRouter.Delete` | src/server/api/routers/link.ts:126-152 | UNAUTHORIZED, NOT_FOUND, FORBIDDEN for a non-owner (an unowned link is nobody's); success iff the caller owns the link, removing exactly that key and leaving every other link as it was; URL uniqueness is preserved |
| `LinkRouter.Update` | src/server/api/routers/link.ts:155-194 | UNAUTHORIZED, BAD_REQUEST, NOT_FOUND, FORBIDDEN, then CONFLICT iff another link holds the slug; success iff none of these holds, and it changes only that link's slug and keeps slugs and URLs unique |
| `LinkRouter.UpdateToOwnSlugSucceeds` | src/server/api/routers/link.ts:177-186 | re-saving a link's own slug is not a conflict and leaves the store unchanged |
| `LinkRouter.CollectOwnedRows` | src/server/api/routers/link.ts:78-86 | the rows gathered are exactly the owner's links, one row each, each showing the stored link and its click count |
| `LinkRouter.GetUserLinks` | src/server/api/routers/link.ts:77-89 | exactly the caller's links, one row per link, each as stored with its click count, newest first |
| `LinkRouter.GetLinkAnalytics` | src/server/api/routers/link.ts:92-123 | NOT_FOUND, FORBIDDEN for a non-owner; otherwise the link with at most its 1000 newest clicks, newest first, no newer click left out, and the total click count |
| `ShortenRoute.BaseUrl` | src/app/api/shorten/route.ts:6 | `NEXT_PUBLIC_APP_URL` when set, else "http://localhost:3000" |
| `ShortenRoute.ShortUrl` | src/app/api/shorten/route.ts:41 | the short URL is the base URL, a slash and the slug, and both parts can be read back from it |
| `ShortenRoute.Post` | src/app/api/shorten/route.ts:13-85 | 400 for a missing or invalid URL; 409 with an existing link's slug and short URL iff the URL is already stored; 409 for a truthy custom slug already taken; otherwise 200 iff the slug is free and the id is new (else 500); on 200 exactly one link with IP and user agent defaults, the user id only when truthy, and a 7-character slug when none was given; any non-200 stores nothing; slug and URL uniqueness are preserved, and under unique URLs the duplicate answer carries the slug of the one row holding the URL |
| `ShortenRoute.EmptySlugCollides` | src/app/api/shorten/route.ts:48-59 | an empty custom slug is used verbatim and skips the conflict check: the first request gets 200 with short URL "http://localhost:3000/", and a second one gets 500 instead of 409 |
| `UserRouter.UpdateUsername` | src/server/api/routers/user.ts:5-43 | UNAUTHORIZED, BAD_REQUEST for "", CONFLICT iff a different user holds the name; success iff none of these holds, and it upserts the caller's row with that name (updated or created with default counters), leaves other users and the links unchanged, and keeps usernames unique |
| `UserRouter.ResavingOwnUsernameSucceeds` | src/server/api/routers/user.ts:16-25 | a user saving the name they already hold is not refused |
| `UserRouter.GetProfile` | src/server/api/routers/user.ts:45-71 | UNAUTHORIZED, then NOT_FOUND iff the caller has no row; success iff signed in with a row, returning the row's id, username and counters |
| `UserRouter.ResetDailyCount` | src/server/api/routers/user.ts:73-89 | succeeds iff the caller is signed in and has a row; sets the daily count to 0 and the last date to now, touching nothing else; a missing row is INTERNAL_SERVER_ERROR |
| `UserRouter.LinksOf` | src/server/api/routers/user.ts:121-123 | the old user's links are exactly the stored links owned by them, each as often as it is stored |
| `UserRouter.LinksOfAppend` | src/server/api/routers/user.ts:121-123 | the filter keeps the stored order: the owner's links of a concatenation are those of each part, in turn |
| `UserRouter.CopyFor` | src/server/api/routers/user.ts:131-140 | the copy keeps longUrl, shortCode, clicks, expiresAt and createdAt and belongs to the caller |
| `UserRouter.HasCodeGrows` | src/server/api/routers/user.ts:126-128 | a short code the caller holds stays held as links are appended |
| `UserRouter.Merge` | src/server/api/routers/user.ts:120-143 | reference merge: the existing links stay as a prefix, each appended link is a copy of an old link whose code the caller did not hold, no two copies share a code, every old link's code is held afterwards, and the count is the number of copies |
| `UserRouter.MergeSkipFacts` | src/server/api/routers/user.ts:126-130 | an old link whose code the caller already holds is skipped without losing the merge properties |
| `UserRouter.MergeCopyFacts` | src/server/api/routers/user.ts:130-142 | copying an old link whose code the caller lacks keeps the merge properties |
| `UserRouter.Adopts` | src/server/api/routers/user.ts:148-152 | the rule for adopting the old username: it is truthy, and the caller's name is null or differs from it |
| `UserRouter.AdoptsIffDiffers` | src/server/api/routers/user.ts:148-152 | the old username is adopted exactly when it is non-empty and differs from the caller's |
| `UserRouter.MergeOldLinks` | src/server/api/routers/user.ts:120-143 | the sequential loop of `findFirst`/`create` computes exactly the reference `Merge`, including copies made earlier in the same loop |
| `UserRouter.FinishRecovery` | src/server/api/routers/user.ts:145-171 | adopt the old username when the rule says so, add exactly the number of copies to the total (no write when 0), delete the old user; a missing caller row fails with INTERNAL_SERVER_ERROR only when an update is attempted |
| `UserRouter.RecoverAccount` | src/server/api/routers/user.ts:91-175 | UNAUTHORIZED, BAD_REQUEST for a non-UUID token, NOT_FOUND for an unknown old id, BAD_REQUEST for the caller's own id, each with no change; otherwise the links are the merge of the old user's links, and the users are as `FinishRecovery` states |
| `Accounts.FindByEmail` | src/server/auth/config.ts:59-67 | finds a row with that email, and finds none iff no row has it |
| `Accounts.FindByEmailUnique` | src/server/auth/config.ts:59-67 | under the unique email index the row found is the one row with that email |
| `AuthConfig.Authorize` | src/server/auth/config.ts:48-89 | null for missing credentials or a non-string email or password; a user is returned only for a stored row with that email, a non-empty password hash and a bcrypt match, and it is exactly that row's `{id, email, username}` |
| `AuthConfig.AuthorizeAccount` | src/server/auth/config.ts:69-84 | for the owner of a row: sign-in succeeds iff the row has a password and bcrypt accepts it, and yields that row's id, email and username |
| `AuthConfig.UnknownEmailRefused` | src/server/auth/config.ts:69-71 | an email no row holds never signs in |
| `AuthConfig.GitHubUser` | src/server/auth/config.ts:94-102 | the name falls back to the login when null; the username is always the login |
| `AuthConfig.BeforeAt` | src/server/auth/config.ts:110 | `split("@")[0]`: the longest prefix without `@`, followed in the input by `@` when shorter than it |
| `AuthConfig.GoogleUser` | src/server/auth/config.ts:107-119 | fields go through `String()`; a username is present iff the email is a non-empty string, and is its part before the first `@` |
| `AuthConfig.GoogleUsernameIsLocalPart` | src/server/auth/config.ts:109-110 | the email is the username itself, or the username, `@` and the rest |
| `AuthConfig.DiscordUser` | src/server/auth/config.ts:124-136 | an image URL under the Discord CDN iff the avatar is truthy, built from the id and avatar; name and username are both `String(username)` |
| `AuthConfig.TwitterUser` | src/server/auth/config.ts:141-149 | every field is `String()` of the matching profile field |
| `AuthConfig.ProvidersSupplyUsername` | src/server/auth/config.ts:94-149 | GitHub, Discord and Twitter always supply a username; Google does so iff the email is a non-empty string, and it is never longer than the email |
| `AuthConfig.ToJs` | src/server/auth/config.ts:164-166 | a nullable string field keeps its kind (undefined, null or a string) and its text as a JavaScript value |
| `AuthConfig.Credentials` | src/server/auth/config.ts:44-47 | the submitted credential record holds the email and password as strings |
| `AuthConfig.Jwt` | src/server/auth/config.ts:162-169 | with a user, id, email and username are written into the token and no other claim changes or appears; without one, the token is returned unchanged |
| `AuthConfig.SessionOf` | src/server/auth/config.ts:170-177 | with a token, the session user's id, email and username come from it; name, image and expiry never change |
| `AuthConfig.SessionCarriesSignInUser` | src/server/auth/config.ts:162-177 | a session built from the token the `jwt` callback wrote carries the signed-in user's id, email and username, whatever the token held before |
| `AuthConfig.CredentialsSessionIsAccount` | src/server/auth/config.ts:48-177 | credentials sign-in end to end: the session carries the account row's id, email and username |
| `SignupRoute.ParseSignup` | src/app/api/auth/signup/route.ts:8-11 | the body validates iff it is an object whose email is a string the email check accepts and whose password is a string of at least 8 characters |
| `SignupRoute.Post` | src/app/api/auth/signup/route.ts:13-85 | 400 "Invalid JSON" or "Invalid input" iff the body is not JSON or fails validation; then 409 iff the email is registered, 500 iff hashing throws or the id clashes, 201 iff none of these; on 201 exactly one row with the hash (not the password) and no username, and the body carries only id, email and createdAt; nothing is stored otherwise |
| `SignupRoute.PostKeepsEmailsUnique` | src/app/api/auth/signup/route.ts:46-71 | sign-up preserves the unique email index |
| `SignupRoute.ExtraFieldsIgnored` | src/app/api/auth/signup/route.ts:8-11 | fields other than email and password change nothing about the outcome |
| `SignupRoute.SecondSignupConflicts` | src/app/api/auth/signup/route.ts:46-53 | repeating a successful sign-up is refused with 409 and changes nothing |
| `SignupRoute.SignupThenAuthorize` | src/app/api/auth/signup/route.ts:57-76 | after a 201, the credentials provider signs in the same email and password (bcrypt accepting a password against its own hash) as the new row, with no username |
| `Common.NatToDecimal` | src/server/auth/config.ts:96 | a natural number's decimal digits, without leading zeros, reading back as the number |
| `Common.ToJsString` | src/server/auth/config.ts:112-147 | `String(x)`: strings unchanged, "undefined", "null", "true"/"false", and integers as their decimal text with a leading "-" when negative |
| `Toast.Message` | src/components/ui/use-toast.tsx:18-19 | a missing title is ""; a non-empty description gives title, ": " and description; otherwise the title alone |
| `Toast.Show` | src/components/ui/use-toast.tsx:21-25 | an error toast iff the variant is "destructive", else a success toast, with the composed message |
| `Toast.MessageStartsWithTitle` | src/components/ui/use-toast.tsx:18-19 | the message always starts with the title, and is longer than it iff a description is shown |
| `ShortenForm.LowerChar` | src/components/ShortenForm.tsx:151 | `toLowerCase` on ASCII: A-Z move to a-z, everything else is unchanged |
| `ShortenForm.SanitizeSlug` | src/components/ShortenForm.tsx:150-153 | the sanitised slug holds only a-z, 0-9 and `-`, and is no longer than the input |
| `ShortenForm.SanitizeAppend` | src/components/ShortenForm.tsx:151 | sanitising works character by character: it distributes over concatenation |
| `ShortenForm.SanitizeKeepsSlugs` | src/components/ShortenForm.tsx:151 | a string that already is a slug comes back unchanged |
| `ShortenForm.SanitizeIdempotent` | src/components/ShortenForm.tsx:151 | sanitising twice is sanitising once |
| `ShortenForm.SanitizeOneChar` | src/components/ShortenForm.tsx:151 | an upper-case letter is lowered rather than dropped, slug characters are kept, anything else is dropped |
| `ShortenForm.DroppedChars` | src/components/ShortenForm.tsx:151 | the characters dropped are neither slug characters nor upper-case letters |
| `ShortenForm.SanitizeLength` | src/components/ShortenForm.tsx:151 | the output is shorter than the input by exactly the number of dropped characters |
| `ShortenForm.HandleShorten` | src/components/ShortenForm.tsx:105-148 | lifetime limit, then daily limit, then taken custom slug, each with its toast; `create` is called iff none holds, with the URL, the expiry, and `shortCode` absent exactly when the slug is empty |
| `ShortenForm.ShortenButtonDisabled` | src/components/ShortenForm.tsx:155-159 | the button is disabled while loading, for a non-empty custom slug marked taken, and at either limit |
| `ShortenForm.EnabledButtonSubmits` | src/components/ShortenForm.tsx:155-159 | an enabled button always leads to `create`, and a submittable form is disabled only while loading |
| `ShortenForm.AfterSlugChange` | src/components/ShortenForm.tsx:56-62 | an empty slug clears the status; a non-empty one keeps it while the query re-runs |
| `ShortenForm.AfterQuery` | src/components/ShortenForm.tsx:71-78 | query data sets available or taken, an error clears the status, otherwise it stays |
| `ShortenForm.TakenOnlyFromQuery` | src/components/ShortenForm.tsx:56-78 | a taken mark only comes from the query reporting the slug unavailable, and never survives clearing the slug |
| `ShortenForm.OnCreateSuccess` | src/components/ShortenForm.tsx:84-95 | the form resets to empty URL and slug, expiry "1_day" and no status, and a success toast shows the short URL |
| `ShortenForm.ResetFormSubmittable` | src/components/ShortenForm.tsx:85-90 | after the reset the button is disabled only by loading or a limit |
| `Dashboard.StartOfToday` | src/app/dashboard/page.tsx:63-64 | `setHours(0, 0, 0, 0)`: a local day boundary, on the same local day as now, not after it and less than a day before it |
| `Dashboard.LinkLimitExceeded` | src/app/dashboard/page.tsx:73-74 | the lifetime total, 0 without a profile, is at least 100 |
| `Dashboard.DailyLimitExceeded` | src/app/dashboard/page.tsx:76-82 | the daily count is at least 10 and the last shortening is on today's local date |
| `Dashboard.ResetRequested` | src/app/dashboard/page.tsx:61-69 | the profile has a last shortening date before local midnight today |
| `Dashboard.QuotasBlockShortening` | src/app/dashboard/page.tsx:71-83 | at the lifetime or daily limit the shorten button is disabled and the handler refuses with the matching toast; a missing profile is over no limit |
| `Dashboard.BelowMultiple` | src/app/dashboard/page.tsx:65 | a timestamp lies before a day boundary iff its day number is smaller |
| `Dashboard.ResetIffEarlierDay` | src/app/dashboard/page.tsx:61-69 | the reset is requested exactly when the last shortening fell on an earlier local day |
| `Dashboard.ResetExcludesDailyLimit` | src/app/dashboard/page.tsx:61-83 | a profile that triggers the reset is never over the daily limit |
| `Dashboard.AfterResetNotLimited` | src/app/dashboard/page.tsx:61-83 | after a successful reset the refetched profile is neither over the daily limit nor due another reset |
| `Dashboard.TrimStart` | src/app/dashboard/page.tsx:135 | drops exactly the leading ECMAScript white space |
| `Dashboard.TrimEnd` | src/app/dashboard/page.tsx:135 | drops exactly the trailing ECMAScript white space |
| `Dashboard.Trim` | src/app/dashboard/page.tsx:135 | the trimmed string is no longer than the input and has no white space at either end |
| `Dashboard.TrimCut` | src/app/dashboard/page.tsx:135 | the trimmed name is the input's slice after the leading white space, and only white space follows it |
| `Dashboard.TrimSpec` | src/app/dashboard/page.tsx:135 | `trim` keeps a contiguous middle with no white space at either end, drops only white space around it, and is empty iff the input is all white space |
| `Dashboard.HandleSaveUsername` | src/app/dashboard/page.tsx:134-138 | submits iff the input has a non-space character and a user id is present, and then submits the trimmed name |
| `Dashboard.SubmittedUsernameAccepted` | src/app/dashboard/page.tsx:134-138 | a submitted name has no surrounding white space and is never refused by `updateUsername` as empty or unauthenticated |
| `Dashboard.OpensUsernameDialog` | src/app/dashboard/page.tsx:153-161 | the render-time rule: auth ready, a user with a null username, nothing truthy stored, the dialog closed |
| `Dashboard.DialogAfterRender` | src/app/dashboard/page.tsx:153-161 | the dialog opens iff auth is ready, a user exists whose username is null and nothing is stored locally |
| `Dashboard.DialogRenderStable` | src/app/dashboard/page.tsx:153-161 | a second render changes nothing |
| `Dashboard.Greeting` | src/app/dashboard/page.tsx:178 | the user's username, else the stored name, else "Guest" |
| `Dashboard.GreetingWhileDialogOpens` | src/app/dashboard/page.tsx:153-178 | for any stored value, when the dialog opens the greeting shows no username: "Guest" with nothing stored, "" with an empty stored name |
| `Dashboard.LoadStoredName` | src/app/dashboard/page.tsx:84-91 | the name read from `localStorage` is kept only when truthy, so the stored-name state is never "" |
| `Dashboard.GuestWhileDialogOpens` | src/app/dashboard/page.tsx:84-178 | with the stored name as the mount effect loads it, the greeting is "Guest" whenever the dialog opens |
| `Dashboard.GreetingGuest` | src/app/dashboard/page.tsx:178 | a signed-out visitor with nothing stored is "Guest", and "Guest" appears only then or when that name is held or stored |
| `Middleware.Guard` | src/middleware.ts:4-20 | paths not starting with "/dashboard" pass; a dashboard path passes iff either session cookie is present, else redirects to "/auth/signin" with the path as `callbackUrl` |
| `Middleware.EveryDashboardPrefixGuarded` | src/middleware.ts:6 | the function body's test is a plain prefix test: every path handed to it that starts with "/dashboard" is guarded |
| `Middleware.Matched` | src/middleware.ts:23-25 | the matcher `/dashboard/:path*` accepts `/dashboard` and every path below `/dashboard/` |
| `Middleware.Handle` | src/middleware.ts:4-25 | paths outside the matcher `/dashboard/:path*` pass untouched; a matched path passes iff either session cookie is present, else redirects to sign-in with the path as `callbackUrl` |
| `Middleware.MatchedIsGuarded` | src/middleware.ts:6-25 | every path the matcher accepts also passes the body's prefix test |
| `Middleware.SiblingPathsUnguarded` | src/middleware.ts:23-25 | paths such as "/dashboards" or "/dashboard-old" are not matched and pass without a session |
| `Middleware.RedirectRoundTrip` | src/middleware.ts:12-16 | the redirect goes to sign-in, which is itself unguarded; its callback is the refused path, and the same request passes once a session cookie is added |

## Left out

- I/O, logging, React rendering and styling, timers and debouncing are not modelled; the effects are modelled as the state change they make once they fire.
- Concurrency: each handler is one atomic transition, so the race between `findUnique` and `create` is not modelled.
- bcrypt, zod's URL/email/UUID checks, `new URL` and nanoid are parameters. Only the generated slug's length is kept.
- The daily count in `link.create` is a parameter (`createdToday`). Prisma's reading of an `undefined` `userId` in a `where` is not modelled.
- Time zones are a fixed offset, so daylight-saving changes are not modelled. Dates are millisecond integers.
- `toLowerCase` is modelled for ASCII only, with no Unicode case mapping. zod's `min(8)` and `min(3)`/`max(32)` count characters here, where JavaScript counts UTF-16 code units.
- JavaScript numbers are integers in this model.
- `src/server/api/trpc.ts` is folded into each protected handler as the UNAUTHORIZED case.
- `ctx.userData` is never set by the tRPC context. It is the `callerName` parameter of `RecoverAccount`, and `Undefined` is what the deployed wiring supplies.
- `link.ts` reads `ctx.session` and `ctx.headers`, which the tRPC context of `src/server/api/trpc.ts` does not provide (it holds `db` and `userId` only). The model gives the handlers the session's user id, plan and forwarded-for header as parameters; the throw those reads would raise as wired is not modelled.
- Unique-constraint and foreign-key exceptions in `user.ts` are not modelled, and neither are cascade deletes of the old user's links. Examples: adopting a username while the old row still holds it; copying a link to a caller who has no user row.
- The Prisma schema is not part of this model. The link store has two unique indexes, `slug` and `originalUrl`: `link.ts` looks links up by slug and the shorten route calls `findUnique({ where: { originalUrl } })`, which Prisma accepts only on a unique field. `LinkRouter.Create` and `ShortenRoute.Post` are modelled under that reading, and both preserve `SlugsUnique` and `UrlsUnique`.
- In `link.ts` and the shorten route, a clash on either unique index or on the database id at insert is modelled as the error it raises (INTERNAL_SERVER_ERROR, or 500).
- Prisma's ordering of rows with equal `createdAt` or `timestamp` is left unspecified: the sort promises only descending keys.
- The shorten form's `onError` toast is not modelled, and neither is the dashboard's "Your short link" toast. They only forward a message to `Toast.Show`.
- The `expiryOption` of the shorten form is passed through to the request. Its meaning belongs to a `create` procedure that is not part of this model.
- `src/server/api/routers/post.ts`, `src/server/api/root.ts` and `src/app/api/links/user/route.ts` are router plumbing, an empty router and a single query; they are not part of this model.
- The Supabase clients and `src/context/AuthContext.tsx` are foreign SDK wiring and are not part of this model.
- `src/lib/password.ts` is the bcrypt wrapper, modelled as the `hash` and `compare` parameters.
- The NextAuth framework around the callbacks is not modelled. That covers the OAuth flow, the Prisma adapter and cookie handling.
- The shorten handler answers success with status 200, `Response.json`'s default, not the 201 of a created resource. The model states 200.
- The shorten handler casts its JSON body to `ShortenRequest` without checking it. The model types `originalUrl` and `slug` as optional strings, so a body whose fields are not strings (a numeric `slug`, which reaches `findUnique` and fails with 500) cannot be expressed.
