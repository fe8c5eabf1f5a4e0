# A verified model of the social API's stateful cores

The server lets people sign in, post captions with images and read a paged feed. This project
models the parts of it whose guarantees hold over whole runs rather than within one function,
and proves them in Dafny:

- **Refresh-token rotation** (`TokenTable`, `Rotation`, `RotationSafety`, `Revocation`,
  `SessionService`). `Rotation` is a transition system: any number of logins, refreshes,
  logouts and sweeps are in flight, each store statement is one atomic step, steps interleave
  freely, and any statement may fail with or without having taken effect. `SessionService` is
  the same service as a class, one call at a time, over the map-backed `TokenStore`.
- **The token-bucket rate limiter** (`RateLimiter`, `Refusals`), in exact integers.
- **Cursors and identifiers** (`Base64`, `Hexadecimal`, `Timestamps`, `Ids`, `Cursors`).
- **Keyset paging** (`FeedOrder`, `Paging`, `FeedWalk`): the map-backed page, the SQL page, and
  a client's walk over posts that change between its requests.
- **Upload keys** (`UploadRules`, `StorageKeys`, `UploadTable`, `UploadLifecycle`,
  `UploadSafety`, `UploadService`, `SplitRelease`). `UploadLifecycle` is a transition system of
  requests and janitor sweeps built like the one for tokens; `UploadService` holds the handlers
  as a class.
- **The migration runner** (`Migrations`): the loop over a faulty database, and any number of
  runners side by side.
- **Profile updates** (`ProfileUpdate`): field assignment against generated SQL.

Check everything with `dafny verify dfyconfig.toml`.

## How the proofs are organised

Each store statement is a function of its table. The store classes are proved to perform those
functions, and the transition systems take them as atomic steps, so one definition serves both.
What such a function does is also said without it, in terms of rows, fields and numbers: in the
contract of the method that runs the statement, in lemmas such as `RotationSafety.WhatAStepWrites`,
`FeedOrder.BelowIsPreceded` and `UploadRules.Verdicts`, and in the main results themselves.
A transition system is a set of labelled actions: what the environment decides (which step comes
next, a fresh identifier, whether a statement fails, what an inspected object turns out to be)
is in the action. `Inv` is proved for every action, so it holds after every run, and the main
results read it off. What the source does by changing things in place is a class with the same
fields, or a method on an array.

Hypotheses, all explicit: identifiers, family ids, secrets and storage keys have not been used
before; the token digest is injective; the clock does not run backwards; application and
database share one clock; one SQL statement is one atomic step; migration file names differ.

Atomicity carries weight in one statement more than in the others: ReleaseAbandoned of
`internal/store/postgres/uploads.go:57-66`, whose inner SELECT tests `attached_at IS NULL` and
whose DELETE tests only the key. `UploadLifecycle` and `UploadSafety` take it as one step, as the
mutex of the map-backed store makes it. A database that does not evaluate the inner SELECT again
after waiting for a row lock lets a claim commit in between; `SplitRelease` models the statement
as two steps and says exactly when the guarantees survive that.

## What turned out differently from the documentation

- `internal/auth/session.go` says that logging out ends the session and that a replay revokes
  the whole family. MarkUsed does not look at `revoked_at`, so a refresh that has read its row,
  but not yet stored the next one, survives the revocation and yields a live session.
  `Revocation.RevokedFamilyCanRevive` is such a run; `Revocation.RevocationIsFinalIffNoneInFlight`
  is the exact condition.
- The reaper is meant to be invisible. It is for the limits where `TheServersReaperIsInvisibleIff`
  says so, and not beyond: a burst above thirty times the rate is refilled early by forgetting,
  and then a window can grant more than its bound (`WindowsAreBoundedIffPatient`). Below, a reaper
  is called patient when a client idle for just over the idle time has refilled its burst.
- A client that was told to wait can be let in earlier if the reaper forgets it first. That
  takes an idle time shorter than one token's refill (`RefusalsHoldIff`); the server's is longer
  for all limits (`TheServersRefusalsHold`).
- Retry-After is rounded up to whole seconds, but only after the wait was cut to whole
  nanoseconds. When the cut wait is a whole number of seconds, the header is too early by the
  fraction of a nanosecond that was cut off (`HeaderIsEnoughIff`, `HeaderCanBeTooEarly`).
- Two servers that start together on a new database can both find a version missing; one of
  them then fails although nothing broke (`TwoStartsOneFails`). Starting it again succeeds
  (`LeftAlone`).
- On an empty patch the map-backed store moves `UpdatedAt`, the SQL store does not
  (`StoresAgreeIff`).

A limit of a documented guarantee, rather than a difference: the top-level README says that a
key rejected by inspection can be retried, and so it is. A key whose claim was granted before the
write failed is lost for good (`BurntForGood`, `WhatBurntIt`).

## Model

| member | source | states |
|---|---|---|
| TokenTable.TokenStore.Issue | internal/store/memory/memory.go:277-284 | stores the row under its id and touches no other |
| TokenTable.TokenStore.ByHash | internal/store/memory/memory.go:286-297 | answers a row with that digest, or nothing only when no row has it |
| TokenTable.TokenStore.MarkUsed | internal/store/memory/memory.go:299-312 | consumes a row exactly when it exists and is unused; otherwise nothing changes and the caller is told |
| TokenTable.TokenStore.RevokeFamily | internal/store/memory/memory.go:314-325 | stamps every unrevoked row of the family with the given time, in no other column, and leaves rows revoked earlier and all rows of other families equal to what they were |
| TokenTable.TokenStore.RevokeAllForUser | internal/store/memory/memory.go:327-338 | does the same to the rows of one user |
| TokenTable.TokenStore.DeleteExpired | internal/store/memory/memory.go:340-352 | a row stays exactly if it did not expire before the cutoff, unchanged; the others are counted |
| Rotation.StepKeepsInv | internal/auth/session.go:49-147 | every step of every call, in any interleaving and with any failure, keeps the invariant that ties rows, calls in flight and history together |
| Rotation.RunKeepsInv | internal/auth/session.go:49-147 | every run, however its calls interleave and fail, keeps that invariant |
| Rotation.ConsumerBecomesHolder | internal/store/postgres/tokens.go:38-51 | the MarkUsed that succeeds makes its caller the only one that may issue the family's next row |
| RotationSafety.AtMostOneTicket | internal/auth/session.go:79-91 | in every reachable state a family has at most one of: an unused row, a refresh between MarkUsed and Issue, a login not yet issued |
| RotationSafety.FamilyIsAChain | internal/auth/session.go:120-147 | each row directly follows, in its own family and for its own user, the row whose secret it was exchanged for; expiry never decreases along the chain |
| RotationSafety.OneSuccessorPerSecret | internal/auth/session.go:40-48 | no secret is ever exchanged for two rows |
| RotationSafety.OneWinner | internal/store/postgres/tokens.go:38-51 | of any number of refreshes that present one secret at most one ever returns a session |
| RotationSafety.OnlyIssuedSecretsWin | internal/auth/session.go:49-92 | a refresh succeeds only with a secret this service issued, and for that secret's user |
| RotationSafety.SweepsTakeAPrefix | internal/janitor/janitor.go:83-97 | sweeps only ever remove the oldest rows of a family, whatever interleaves with them |
| RotationSafety.ReplayIsCaught | internal/janitor/janitor.go:84-87 | a consumed secret presented within a week of its expiry always reaches the revocation of its family |
| RotationSafety.WhatAStepWrites | internal/auth/session.go:64-147 | each statement of a call in flight touches its own rows and column only: a replay or logout stamps the unrevoked rows of its family and no others, a sweep takes the rows expired before its cutoff, a refresh adds one row |
| RotationSafety.StampsStay | internal/store/postgres/tokens.go:38-51 | through any run a row keeps its credential and every stamp it has: consumption and revocation are never undone or dated anew |
| RotationSafety.WhatRevokedIt | internal/auth/session.go:64-118 | a row that a run revoked was stamped, with that time, by a replay or logout of its own family or a logout of its own user, at one point of the run |
| Revocation.RevocationIsFinalIffNoneInFlight | internal/auth/session.go:94-113 | a family with all rows revoked never gets another row, and no call returns a session of it any more, in any run, if and only if no call in flight can still issue one |
| Revocation.RevocationIsFinalBetweenCalls | internal/auth/session.go:97-113 | once every call has returned, a revoked family gets no row and no session in any further run |
| Revocation.InFlightCallCanFinish | internal/auth/session.go:81-91 | a call in flight that can still issue does so when left alone, revoked or not |
| Revocation.OneRowFromEarlierSecrets | internal/auth/session.go:79-91 | from any instant on, at most one row of a family is stored in exchange for secrets issued before it |
| Revocation.RevokedFamilyCanRevive | internal/auth/session.go:110-112 | a concrete run in which logout has returned and every row is revoked, and that family still gets a new session whose row is active |
| SessionService.Service.Rotate | internal/auth/session.go:49-92 | one uninterrupted refresh: a live secret is consumed and answered with a session of its user and family, a consumed one revokes what is unrevoked of its family and touches no other row, any other is refused and changes nothing |
| SessionService.Service.Exchange | internal/auth/session.go:79-91 | the second half consumes and issues when the row is unused; otherwise it stamps the unrevoked rows of that family only and answers that the secret is invalid |
| SessionService.Service.Start | internal/auth/session.go:34-38 | a login stores the first row of its family and returns its session |
| SessionService.Service.Revoke | internal/auth/session.go:97-113 | logout stamps the unrevoked rows of the secret's family, leaves every other row as it was, and is silent about an empty or unknown secret |
| SessionService.Service.DeleteExpiredTokens | internal/janitor/janitor.go:83-97 | a row stays exactly if no more than a week (604800 seconds) has passed since its expiry |
| SessionService.ReplayOrLogoutEndsTheFamily | internal/auth/session.go:64-71 | presenting a consumed secret, or logging out with any secret of the family, leaves every row of it revoked |
| SessionService.LoggedOutForGood | internal/auth/session.go:94-113 | one call at a time, a family logged out stays so through any history of calls and none of its secrets is exchanged again |
| SessionService.FamiliesAreIndependent | internal/auth/session.go:34-147 | over any history of calls a family is served as if no other existed: leaving out the logins, refreshes, replays and logouts of other families changes neither its rows nor any answer to its calls |
| SessionService.LogoutsSpareOtherFamilies | internal/auth/session.go:64-113 | a refresh with a secret of one family is answered the same with or without a logout or replay of another family just before it |
| SessionService.UninterruptedRotate | internal/auth/session.go:49-147 | in the concurrent protocol a refresh that nothing interrupts does what the method does, signed or not; it returns a session exactly when its access token can be signed and the row its secret names is active |
| SessionService.UninterruptedCall | internal/auth/session.go:34-118 | in the concurrent protocol a login, logout or sweep that nothing interrupts leaves the table and the answer that its method does |
| SessionService.LostRaceRevokes | internal/auth/session.go:79-89 | a refresh whose row another call consumed first revokes that family and no other before it is refused |
| RateLimiter.Normalised | internal/httpx/ratelimit.go:29-42 | a missing rate becomes 60, a missing burst becomes the rate |
| RateLimiter.RateLimiter.Allow | internal/httpx/ratelimit.go:46-69 | refills the caller's bucket up to the burst, takes a whole token exactly when one is there, and otherwise says the wait for what it lacks, cut to nanoseconds and at least a second; no other bucket changes |
| RateLimiter.RateLimiter.Reap | internal/httpx/ratelimit.go:89-99 | a client stays known exactly if it was last seen within the idle time, its bucket unchanged |
| RateLimiter.KnownAfterAReap | internal/httpx/ratelimit.go:87-99 | in any run, right after a reap exactly the clients that called within the idle time are known, each as last seen at its last call |
| RateLimiter.WindowBound | internal/httpx/ratelimit.go:28-69 | with a patient reaper let in anywhere, a client's grants in any window are at most its burst plus what the window refills, whatever other clients do |
| RateLimiter.WindowBoundOfCalls | internal/httpx/ratelimit.go:28-69 | in any run of calls of all clients, that bound holds for all limits |
| RateLimiter.WindowsAreBoundedIffPatient | internal/httpx/ratelimit.go:87-99 | with the reaper let in anywhere, the bound holds in every run and window if and only if the reaper is patient |
| RateLimiter.GrantsAreFunded | internal/httpx/ratelimit.go:57-68 | with a patient reaper, from any state a client is granted no more than it holds plus the refill |
| RateLimiter.ClientsAreIndependent | internal/httpx/ratelimit.go:46-69 | a client is answered as if no other client existed |
| RateLimiter.ReaperRefines | internal/httpx/ratelimit.go:87-99 | with a patient reaper the reaped map answers like buckets that are never forgotten |
| RateLimiter.ReaperIsInvisibleIffPatient | internal/httpx/ratelimit.go:87-99 | reaping anywhere in any run changes no answer if and only if a client idle for just over the idle time has refilled its burst |
| RateLimiter.TheServersReaperIsInvisibleIff | main.go:97-103 | what that condition is for the thirty minutes the server uses |
| Refusals.RefusalsCostNothing | internal/httpx/ratelimit.go:57-65 | with no grant in between, refusals and reaps never leave a bucket below what one refill would, and leave exactly that where no reap can help the client |
| Refusals.GrantedIffDeficitRefilled | internal/httpx/ratelimit.go:61-68 | a refused client that got nothing since is granted once the refill makes up what its token lacked, and only then where no reap can help it |
| Refusals.RefillDecidesIff | internal/httpx/ratelimit.go:57-99 | after one refusal the refill alone decides every later answer, in every run, if and only if what the token lacked refills before a reap can forget the client |
| Refusals.RefusedUntilTheWaitEnds | internal/httpx/ratelimit.go:61-65 | a refused client that no reap can forget within its wait is refused at every instant before the wait is over, however often it asks |
| Refusals.RefusalHoldsIff | internal/httpx/ratelimit.go:61-99 | one refusal is kept to in every run if and only if no reap can forget the client within its wait |
| Refusals.RefusalsHoldIff | internal/httpx/ratelimit.go:61-99 | every refusal of every run is kept to if and only if one token refills before a reap can forget a client |
| Refusals.TheServersRefusalsHold | main.go:97-103 | with the thirty minutes the server uses they all are, for all limits |
| Refusals.AnEarlyReapBreaksTheWait | internal/httpx/ratelimit.go:87-99 | limits, an idle time of a second and a run in which a client told to wait a minute is let in after two seconds |
| Refusals.GrantedAfterRetryAfter | internal/httpx/ratelimit.go:44-69 | with no grant in between, a refused client is granted at every instant past the stated wait, whatever the reaper does |
| Refusals.HeaderRange | internal/httpx/ratelimit.go:76-81 | Retry-After is a whole number of seconds from 1 to 60 and covers the wait |
| Refusals.HeaderIsEnoughIff | internal/httpx/ratelimit.go:78 | exactly when the refill grants a client that returns after the seconds in the header; only a reap that forgot it can let it in otherwise |
| Refusals.HeaderCanBeTooEarly | internal/httpx/ratelimit.go:63-78 | limits and a run for which it is refused |
| Base64.RoundTrip | internal/store/cursor.go:37-42 | decoding an encoding gives the bytes back at all three length residues (section 4 of RFC 4648) |
| Base64.EncodingShape | internal/store/cursor.go:37 | an encoding is whole four-letter blocks of the alphabet and '=' |
| Base64.EncodingIsBigEndian | internal/store/cursor.go:37 | every block spells the number its bytes make, the first byte leading, and the last is filled up with zero bits and padded (section 4 of RFC 4648) |
| Base64.DecodesIff | internal/store/cursor.go:42-45 | text decodes exactly when it is whole blocks of the alphabet with at most two '=' at the end |
| Base64.DecodedEncodesBack | internal/store/cursor.go:42-45 | what decodes is the encoding of its bytes, up to the spare bits of the letter before the padding |
| Base64.QuietBytesNeedNoEscape | internal/store/cursor.go:37 | bytes below 128 whose low six bits are not 62 or 63 never encode to '+' or '/' |
| Timestamps.StampRoundTrip | internal/store/cursor.go:25-32 | every civil time in the years 0 to 9999 is read back from its text (section 5.6 of RFC 3339), fractions trimmed |
| Timestamps.StampSpells | internal/store/cursor.go:25-37 | the text reads YYYY-MM-DDThh:mm:ss, each field at its place digit by digit, then the fraction, then Z |
| Timestamps.FractionSpells | internal/store/cursor.go:25-37 | the fraction is the nine digits of the nanoseconds, the last ones dropped only where they are zero |
| Ids.NewIDIsInjective | internal/store/id.go:12-23 | different sixteen-byte draws give different identifiers |
| Ids.NewID | internal/store/id.go:10-23 | an identifier is 26 letters from a-z and 2-7 |
| Ids.IdIsBigEndian | internal/store/id.go:10-23 | each eight letters are the number that their five bytes make, and the last two are the last byte and two zero bits (section 6 of RFC 4648) |
| Cursors.CursorRoundTrip | internal/store/cursor.go:30-54 | a cursor issued for any nonzero time and any identifier decodes to exactly that position |
| Cursors.IssuedCursorSpells | internal/store/cursor.go:30-38 | an issued cursor is base64 of the object with the members createdAt and id; a year JSON cannot express has none |
| Cursors.NotBase64IsRefused | internal/store/cursor.go:41-45 | text that is not base64 is refused as an invalid cursor |
| Cursors.SpelledIsDecoded | internal/store/cursor.go:46-54 | text that spells a time and an identifier decodes to them, unless the time is zero or the identifier empty |
| Cursors.DecodedIsSpelled | internal/store/cursor.go:41-54 | nothing else decodes to a position |
| Cursors.OnlyEmptyPositionsAreRefused | internal/store/cursor.go:50-52 | of what the service can encode, only the zero time and the empty identifier are turned away |
| Cursors.CursorsAreDistinct | internal/store/cursor.go:21-28 | different positions have different cursors |
| Cursors.IssuedCursorsAreUrlSafe | internal/store/cursor.go:30-38 | a cursor issued for one of the service's identifiers has neither '+' nor '/' and survives query-string decoding |
| Cursors.StandardIsFaithful | internal/store/cursor.go:30-54 | every position a stored post can have has a cursor, and it is read back as that position |
| FeedOrder.BelowIsPreceded | internal/store/memory/memory.go:239-244 | a post is listed before another exactly when it is later, comparing from year to nanosecond, or as old and its identifier has the larger character at the first difference or goes on where the other ends |
| FeedOrder.TopIsDetermined | internal/store/memory/memory.go:239-244 | the newest k of a set of posts with distinct ids are one particular listing, in that order, and what is left out comes after all of it |
| Paging.Clamped | internal/store/cursor.go:57-65 | a limit that was not given becomes 20, one above 50 becomes 50, any other stands |
| Paging.SortDescending | internal/store/memory/memory.go:239-244 | leaves a permutation of the posts, later times first and larger ids first among equals |
| Paging.KeepBelow | internal/store/memory/memory.go:246-254 | compacting in place keeps exactly the posts strictly below the cursor, in order |
| Paging.PostStore.Create | internal/store/memory/memory.go:152-174 | stores the post of a known author under its id and refuses an unknown one |
| Paging.PostStore.Delete | internal/store/memory/memory.go:187-200 | removes the post exactly when the requester wrote it, telling missing from foreign |
| Paging.PostStore.ReadPage | internal/store/memory/memory.go:213-263 | the first of the stored posts asked for, of that author only if one is named and behind the cursor if there is one, newest first; a cursor to the last of them exactly when some are left out; otherwise the refusal of the cursor |
| Paging.PageFromRows | internal/store/postgres/posts.go:113-157 | the SQL page made from one row more than the limit is that same page, or that same refusal |
| Paging.NewestComesFirst | internal/store/memory/memory.go:239-261 | a first page starts with a post than which no other one asked for is newer |
| Paging.StoresAgree | internal/store/memory/memory.go:210-212 | the contract leaves one reply, so the two stores agree on items and next cursor for every table, author, cursor and limit |
| FeedWalk.WalkIsAPath | internal/store/cursor.go:10-13 | for any faithful cursors, the one handed back starts the next request right below the last post shown |
| FeedWalk.WalkDescends | internal/store/cursor.go:21-28 | whatever is created or deleted between requests, a walk lists posts from later to earlier across its pages, larger ids first among equally new ones |
| FeedWalk.WalkNeverRepeats | internal/store/cursor.go:21-28 | a walk shows nothing twice |
| FeedWalk.NoIdIsShownTwice | internal/store/cursor.go:21-28 | with creation times fixed, a walk shows no post twice even if its other fields changed meanwhile |
| FeedWalk.CompleteWalkShowsAll | internal/store/cursor.go:21-28 | a walk that reaches an empty cursor has shown, exactly once, every wanted post present throughout |
| FeedWalk.WalksOfTheService | internal/store/cursor.go:21-28 | with the service's own cursors walks are in that order, and complete ones leave no wanted post out that was present throughout |
| FeedWalk.StillPathBalances | internal/store/memory/memory.go:256-261 | over unchanging posts each page moves a whole page from the remaining posts to the shown ones |
| FeedWalk.StillWalkIsTheWholeFeed | internal/store/memory/memory.go:239-262 | over n unchanging posts a complete walk takes max(1, ceil(n / limit)) requests and shows exactly the posts asked for, each once, newest first |
| UploadRules.NormalisingSettles | internal/uploads/constraints.go:67-72 | normalising a media type twice is normalising it once, and the extension is that of the raw type |
| UploadRules.NormalisedIff | internal/uploads/constraints.go:67-72 | the normalised type is what stands before the first semicolon, without the space around it and without capitals |
| UploadRules.AllowedTypesAre | internal/uploads/constraints.go:30-60 | exactly JPEG, PNG and WebP are allowed, with the extensions jpg, png and webp |
| UploadRules.PurposeIsNamed | internal/uploads/constraints.go:43-50 | the purpose is the one whose own name, avatar or post, stands in the request between blanks |
| UploadRules.PresignVerdicts | internal/api/upload_handlers.go:34-59 | a request is accepted for a purpose exactly when it names it, declares one of the three types and asks for 1 byte to 5 MB, 10 MB for a post; and which refusal each other request gets |
| UploadRules.Verdicts | internal/uploads/inspect.go:93-104 | an image passes exactly when its declared type denotes the decoded one and it is at least 200 by 200 pixels, 320 by 320 for a post; a mismatch is told from an image too small |
| UploadRules.PassingImages | internal/uploads/inspect.go:93-104 | an image that passes is of an allowed type, declared as what it is, and at least 200 or 320 pixels either way; larger ones pass too; one good for a post is good for an avatar |
| UploadRules.DeleteObjects | internal/uploads/presigner.go:109-133 | the keys are sent in order, in requests of 1 to 1000, only the last short, up to the first that fails |
| StorageKeys.KeysAreDistinct | internal/uploads/presigner.go:135-144 | a storage key tells the random bytes, the purpose and the extension it was made from |
| StorageKeys.KeySpells | internal/uploads/presigner.go:135-144 | a key reads uploads/, two lower-case hexadecimal digits a byte, the purpose and the extension |
| UploadTable.UploadStore.Reserve | internal/store/memory/memory.go:356-366 | records the upload, stamped with the current time when the caller gave none |
| UploadTable.UploadStore.Claim | internal/store/memory/memory.go:368-382 | attaches the key exactly when it is the user's, of that purpose and pending, telling unknown from forbidden |
| UploadTable.UploadStore.ReleaseAbandoned | internal/store/memory/memory.go:384-399 | hands back and forgets distinct keys, each pending since before the cutoff, as many as the limit allows or all there are |
| UploadTable.CountsDecideTheClaim | internal/store/postgres/uploads.go:27-50 | the SQL claim, which decides from two row counts, gives the same verdict |
| UploadSafety.StepKeepsInv | internal/api/user_handlers.go:149-176 | every step of every request and sweep, in any interleaving and with any failure, keeps the invariant that accounts for every key |
| UploadSafety.RunExtends | internal/api/user_handlers.go:149-176 | every run keeps that invariant and only adds to the history: uses, releases and attachments are never undone |
| UploadSafety.KeysAreUsedOnceAndRightly | internal/api/user_handlers.go:156-207 | over the whole history a key is used at most once, by its owner, for its purpose, within 5 or 10 MB, with an image of at least 200 or 320 pixels either way that was declared as what it is |
| UploadSafety.ClaimingWrites | internal/store/memory/memory.go:368-382 | in the protocol a claim attaches the pending key of that user and purpose and does nothing else |
| UploadSafety.ReservingWrites | internal/api/upload_handlers.go:61-73 | a reservation adds one row under a key never reserved before, for what was asked |
| UploadSafety.ReleasingWrites | internal/janitor/janitor.go:59-67 | a release forgets at most 500 keys, all pending since before its cutoff |
| UploadSafety.UsedKeysNameTheirFormat | internal/uploads/inspect.go:58-77 | where storage held the object to its signed type, the extension in a used key is that of the bytes |
| UploadSafety.ShownKeysAreSafe | internal/api/post_handlers.go:60-73 | a key that a post or profile refers to is attached, neither deleted nor picked for deletion, and referred to from nowhere else |
| UploadSafety.OneFate | internal/store/postgres/uploads.go:52-56 | a reserved key is exactly one of pending, attached and released |
| UploadSafety.KeysMoveOnlyFromPending | internal/store/postgres/uploads.go:27-82 | through any run an attached key stays attached and a released key stays released |
| UploadSafety.AttachedKeysAreNeverDeleted | internal/janitor/janitor.go:59-81 | once its claim is granted, no later run deletes a key's object, whatever sweeps are in flight |
| UploadSafety.GraceIsKept | internal/store/store.go:102-103 | within its grace period a reserved key is never released or up for deletion, and no claim finds it missing |
| UploadSafety.GraceStartsAtReservation | internal/store/store.go:102-103 | the grace period runs from the reservation: a key reserved in a run outlives it while no more than the grace period has passed |
| UploadSafety.ClaimsAreConserved | internal/api/post_handlers.go:60-73 | as many keys are attached as there are uses, requests holding a claim, and burnt keys; with no holder, an attached key is unused exactly when it is burnt |
| UploadSafety.BurntForGood | internal/api/user_handlers.go:82-93 | a key whose claim was granted and whose write failed is never used, shown or claimable again |
| UploadSafety.WhatBurntIt | internal/api/post_handlers.go:60-76 | the only steps that burn a key are a claim whose answer was lost and a write that failed after its claim |
| UploadSafety.UninterruptedUse | internal/api/user_handlers.go:156-176 | a request that runs alone is stored exactly when its object passes and its key is claimable by the caller; otherwise it changes no store |
| UploadSafety.UninterruptedPresign | internal/api/upload_handlers.go:34-76 | a presign request that runs alone reserves a fresh key for the purpose it names, exactly when its text, type and length are acceptable |
| UploadSafety.ReservedKeysCanBeUsed | internal/api/user_handlers.go:156-176 | in any reachable state, within its grace period and until it is attached, a key is granted to the user who reserved it for the purpose it was reserved for, and shown there |
| UploadSafety.PresignThenUse | internal/api/upload_handlers.go:34-76 | a presign followed by its owner's use of the key for the purpose named in the request is granted |
| UploadSafety.OverdueKeysCanBeReleased | internal/janitor/janitor.go:59-81 | a sweep can release any key pending past its grace period, and delete its object |
| UploadSafety.UninterruptedSweep | internal/janitor/janitor.go:59-81 | a sweep that runs alone forgets keys past the grace period and deletes exactly their objects |
| SplitRelease.LateDeleteIsSafeIff | internal/store/postgres/uploads.go:57-66 | if keys are picked first and deleted later, what the protocol keeps survives exactly when no picked key was claimed in between |
| SplitRelease.UnclaimedStaysSafe | internal/store/postgres/uploads.go:57-66 | in that case every shown key stays safe through any further run |
| SplitRelease.LateDeleteTakesAPostedImage | internal/store/postgres/uploads.go:57-66 | otherwise, from any state with a sweep under way and an overdue claimable key, there is a run in which a new post's object goes to deletion |
| UploadService.Server.Presign | internal/api/upload_handlers.go:26-84 | reserves a key for purpose p exactly when the request names p, declares an allowed type and keeps within that purpose's bytes, and records what was asked |
| UploadService.Server.ClaimUpload | internal/api/user_handlers.go:156-207 | granted exactly for an image declared as what it is, at least 200 or 320 pixels either way, under a pending key of this user and purpose; inspection decides first |
| UploadService.ClaimReplies | internal/api/user_handlers.go:156-207 | which refusal is given: not uploaded, storage failed, not allowed, too small, unknown key, not yours, in the order they are decided |
| UploadService.NamedKeyIs | internal/api/post_handlers.go:45-51 | the key a request names is its text without surrounding blanks; a blank one names none |
| UploadService.Server.CreatePost | internal/api/post_handlers.go:38-80 | no post without a granted claim; a failed insert leaves the claim standing; a blank key means no image |
| UploadService.Server.UpdateAvatar | internal/api/user_handlers.go:82-97 | no avatar without a granted claim; a failed update leaves the claim standing and the old avatar shown |
| UploadService.Server.CollectAbandoned | internal/janitor/janitor.go:59-81 | releases up to 500 keys past the grace period, all there are if fewer, then deletes exactly those in one request |
| UploadService.HandlerIsTheUninterruptedUse | internal/api/user_handlers.go:156-176 | in the concurrent protocol a request that nothing interrupts leaves what the handler leaves |
| Migrations.Database.ApplyOne | internal/store/postgres/postgres.go:114-122 | a body and its bookkeeping row take effect together or not at all |
| Migrations.Database.Migrate | internal/store/postgres/postgres.go:82-126 | from any applied prefix and whatever fails, a prefix no shorter is left, of files whose body ran; nil means all files are applied and is returned exactly when every body executes and no statement that has to run fails |
| Migrations.AppliedIsAPrefix | internal/store/postgres/postgres.go:79-82 | in every reachable state the versions are one particular prefix of the file list, the schema is those bodies executed in order, and each version was committed once |
| Migrations.NilMeansApplied | internal/store/postgres/postgres.go:79-126 | a runner that returned nil leaves every file of its build applied, through any further run |
| Migrations.RerunningIsANoOp | internal/store/postgres/postgres.go:98-107 | where every file is applied no run changes versions or schema |
| Migrations.WhenAHealthyRunnerFails | internal/store/postgres/postgres.go:114-122 | without faults a runner fails exactly when a body is rejected or another runner committed its version first |
| Migrations.LeftAlone | internal/store/postgres/postgres.go:98-125 | from any reachable state a runner, wherever it stands, comes to rest when left alone: with nil exactly when every body of its build executes and no other had recorded the file it is on |
| Migrations.TwoStartsOneFails | internal/store/postgres/postgres.go:98-122 | a run without faults in which one of two runners fails |
| ProfileUpdate.UserStore.Update | internal/store/memory/memory.go:123-148 | changes exactly the supplied fields of that profile, clearing the avatar winning over replacing it, and stamps it |
| ProfileUpdate.SetList.Add | internal/store/postgres/users.go:65-68 | placeholder i stands for argument i after every addition, and the list now also sets that column to that value |
| ProfileUpdate.Build | internal/store/postgres/users.go:58-91 | the statement names each column once, sets what the patch asks, and finds the row by its last argument; an empty patch needs none |
| ProfileUpdate.PatchedRowIs | internal/store/postgres/users.go:58-88 | each supplied field goes to its own column, removing the avatar wins over replacing it, the stamp is set and no other column changes |
| ProfileUpdate.SqlUserStore.Update | internal/store/postgres/users.go:58-94 | executing the statement leaves the rows of the patched table |
| ProfileUpdate.StoresAgreeIff | internal/store/postgres/users.go:84-87 | the two stores leave the same table exactly when the patch is not empty, or the row is missing, or its stamp is already current; otherwise only the stamp differs |

## Left out

- RateLimiter.RateLimiter.Allow: float64 rounding; tokens and refill are exact integers, and the cut to whole nanoseconds is floor division.
- RateLimiter.RateLimiter.Reap: the ticker that calls it; a reap may come at any instant.
- Paging.SortDescending: sort.Slice is the library's; an insertion sort by the same comparison stands for it.
- Paging.PageFromRows: the query itself is taken to answer what its WHERE, ORDER BY and LIMIT say; collation and microsecond precision of Postgres are not modelled, and both stores share one strict order on ids.
- Paging.PostStore.ReadPage: the author's profile that is copied onto each post.
- Cursors.CursorRoundTrip: JSON spellings that this service never writes are not parsed (a decoded cursor of that kind is marked foreign), and identifiers that JSON would have to escape are outside the statement; NewID makes none.
- UploadRules.NormalisingSettles: Unicode spaces and case; media types are taken byte by byte in ASCII.
- UploadSafety.StepKeepsInv: an object may be overwritten between inspection and attachment while its URL is valid; what is known is that it passed when inspected. Posts without an image take no part.
- UploadTable.UploadStore.ReleaseAbandoned: the oldest-first order of the SQL release; the protocol allows any choice of abandoned keys, which covers it.
- UploadSafety.UsedKeysNameTheirFormat: that storage enforces the signed headers is a hypothesis of this statement, as nothing in the server checks it.
- Migrations.AppliedIsAPrefix: a file added in the middle of the list by a later build; builds may differ, but each embeds a prefix of one list.
- ProfileUpdate.Build: the text of the statement; assignments are data, numbered as the text numbers them.
- TokenTable.TokenStore.Issue: the foreign key to users, and the database default for the creation time, which the application clock stands for.
- Access tokens, password hashing, digests and random bytes: foreign code, present as hypotheses only.
- Requests, routing, middleware order, logging, configuration, CORS and the error envelope: input and output.
- Field validation and the three states of an optional JSON field: shallow case splits.
- Account creation and lookups by email or username: single statements.
- Image header decoding and the storage client: what they report is decided by the environment.
