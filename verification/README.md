# Verified model of the REST API template

A Dafny model of the parts of the Go service in which correctness spans several calls,
several stores or several processes, with proofs over every input, every run or every
reachable state. `dafny verify dfyconfig.toml` checks all of it.

| part | modules | main results |
|---|---|---|
| sessions: login, refresh rotation with reuse detection, logout | `RefreshTokens`, `Sessions`, `SessionLaws`, `SessionScope`, `SessionOutcomes`, `UserService` | `FamilyShape`, `SingleUse`, `LostRaceRevokes`, `ReuseRevokesForever`, `FinishedLogoutAll`, `OnlyOwnSessions`, `LogoutAllEndsSessions`, `LogoutAllFinalIff` |
| access-token revocation on expiring keys | `Denylist` | `StoreAgreesWithLog`, `AgreesExactlyOnWholeSeconds`, `EarlierTokensRejected`, `AuthFinalIff` |
| book-list cache | `BookCache`, `CacheLaws` (interleaved), `BookService`, `BookTwins` (sequential), `CacheKey`, `ListParams` | `Coherence`, `CoherentIff`, `ServeBoth`, `KeyEqualIff`, `WrittenParses` |
| list-query compiler | `Like`, `Ordering`, `BookList`, `ListCompiler`, `ListLaws` | `CompiledCorrect`, `ListedOrder`, `ListedRows`, `LikeIsContains`, `PagesConcatenate` |
| book mutations and events | `BookStore`, `BookMutations` | `OnlyOwnersWrite`, `EventsAtMostOnce`, `ReplayIsTable` |
| rate limiters | `RateLimit`, `RateLaws` | `WindowCounts`, `ClientsApart`, `PruningInvisibleIff`, `StoresAgreeIff`, `SlidingBound` |
| API key comparison | `ApiKey` | `ConstantTimeAPIKeyEqual` |
| example Kafka consumer | `Consumer` | `AtLeastOnce`, `RedeliverableIff` |

`Text` and `Wrappers` hold the renderings (decimal, UTF-8, hexadecimal) and the option type.

Two forms recur. A *machine* is a total function `Step(state, event)`; an event that cannot
happen leaves the state alone, so every list of events is a run, and requests hold what they
have read while others move. A *class* is the Go object with its fields and methods; each
method is proved against a function of the old state, and the laws are proved about that
function.

## Where the code differs from its intent

Each is a lemma with a concrete run, next to the exact condition under which the intent holds.

- **Overlapping logouts of every session.** `Logout` reads the clock first and writes
  `revoke_before` later, unconditionally. If two overlap, the older reading may be written last,
  and a token the newer one had cut off is accepted again (`OverlappingLogoutsReopen`).
  `LogoutAllFinalIff`, and `AuthFinalIff` on the real keys: the cutoff is final exactly when no other logout-all of the user is in
  flight with an older second, or the tokens have expired anyway.
- **Access TTL with a part of a second.** `exp` and `iat` are cut to seconds, the cutoff key
  lives for the exact TTL, so a token minted later in the second of the logout can outlive the key
  (`PartSecondsDiffer`). `AgreesExactlyOnWholeSeconds`: the expiring denylist decides like a log
  that never forgets exactly when the TTL is a whole number of seconds.
- **Rate-limit pruning.** The memory store reads the clock before taking its lock, so an
  older reading can follow one that already pruned its window (`LateReadingReopens`).
  `PruningInvisibleIff` is the exact condition; nondecreasing readings meet it.
- **Rate-limit windows with a part of a millisecond.** Redis rounds them down, and up to one
  millisecond (`PartMillisecondsDiffer`). `StoresAgreeIff`: the two stores agree on all ordered traces exactly for whole-millisecond windows.
- **Owner filter above the BIGINT range.** It is clamped, so it selects the largest id instead
  of nothing (`ClampedOwnerSelected`). `OwnerClampExact` is the exact condition.
- **Cache key.** `sort` and `order` are not encoded. `ListBooks` takes them as free text, and a
  handler without the parser's allowlist would have one client served the page of another
  (`FreeSortTextCollides`, `FreeSortServesWrongPage`). `KeyEqualIff` says when two queries share a
  key; `CoherentIff`: the cache is coherent behind a handler exactly when the admitted queries that
  share a key are the same to the store, which the allowlist ensures (`KeyInjective`, `Coherence`).
- **Consumer.** The comments in the loop say a message whose handling failed is redelivered
  because it is not committed. Committing a later message commits past it
  (`FailureThenSuccessLoses`); `RedeliverableIff` says when a message can still be delivered.
  The handler as written never fails, and for it at-least-once holds.

## Assumptions

- Token hashes and family ids are compared only for equality, so they are numbers. Random draws
  happen in the step that stores them; a drawn family id is fresh; a colliding hash is refused by
  the UNIQUE constraint. Signatures cannot be forged, and jtis are unique.
- `RotateAtomically` is one step. Under READ COMMITTED an uncommitted insert could be missed by a
  concurrent bulk revocation; that is outside the model.
- A refresh row's id is its position: ids grow and no statement deletes a row.
- Redis calls succeed, keys vanish exactly at their TTL, the generation key is never lost.
  Cached pages may vanish at any time.
- The logout log of `Denylist` takes the clock reading and the write as one step; `SessionLaws`
  covers logouts that overlap.
- Times are nanoseconds since the epoch and not negative. All replicas share one clock, which never runs backwards
  in `Sessions`; the rate limiters take readings in any order unless a lemma says otherwise.
- Go and Postgres lower-case text by the same per-character map, which fixes `\`, `%` and `_` and
  reaches them from nowhere else. The collation is any total preorder. Strings are valid Unicode.
- Counters and ids below their machine limits: 64-bit overflow of counters is not modelled,
  except where lengths, clamping and parsing depend on it.

## Model

| member | source | states |
|---|---|---|
| Like.LowerEscape | pkg/repository/book_sqlc.go:73-80 | Lower-casing the escaped filter, as the code does, is escaping the lower-cased filter. |
| Like.UnescapeEscape | pkg/repository/book_sqlc.go:46-49 | Reading the escapes back gives the filter text for every string. |
| Like.MatchEscaped | pkg/repository/book_sqlc.go:46-49 | An escaped prefix of a LIKE pattern matches its own text and nothing else. |
| Like.LikeIsContains | pkg/repository/book_sqlc.go:73-80 | For every filter and text the built pattern matches exactly the texts that contain the filter, ignoring case. |
| Like.PatternWellFormed | pkg/repository/book_sqlc.go:73-80 | No filter makes a pattern that ends in a dangling escape. |
| Ordering.SortedUnique | pkg/repository/book_sqlc.go:102-107 | Without ties, sorted arrangements of the same rows are equal. |
| BookList.RowOrderTotal | pkg/repository/book_sqlc.go:20-33 | Each allowlisted clause with its id tie-breaker is a total preorder. |
| BookList.UniqueRowsUntied | pkg/repository/book_sqlc.go:104-107 | The id tie-breaker leaves no two rows with unique ids tied. |
| BookList.FullListingUnique | pkg/repository/book_sqlc.go:90-107 | An arrangement of the matching rows is sorted if and only if it is the full listing. |
| BookList.FullListingComplete | pkg/repository/book_sqlc.go:65-107 | The full listing holds every matching row once and no other. |
| BookList.ListingPermuted | pkg/repository/book_sqlc.go:104-116 | A listing does not depend on how the table arranges its rows. |
| BookList.PagesConcatenate | pkg/repository/book_sqlc.go:104-116 | Consecutive pages of any size concatenate to the full listing, nothing missing or repeated, even when the table is rearranged between the requests. |
| ListCompiler.BuildWhere | pkg/repository/book_sqlc.go:69-88 | The filter loop of List builds the specified conditions and arguments. |
| ListCompiler.BuildOrder | pkg/repository/book_sqlc.go:90-107 | Free sort text falls back to id and asc; the keys are the specified ones. |
| ListCompiler.BuildListQuery | pkg/repository/book_sqlc.go:65-116 | List sends the specified statement and arguments. |
| ListCompiler.WhereMeaning | pkg/repository/book_sqlc.go:73-88 | The conditions under their arguments hold exactly for the matching rows, and for the clamped owner. |
| ListCompiler.OwnerClampExact | pkg/repository/conv.go:5-18 | The owner condition means equality with the requested id if and only if the row is not at the clamp. |
| ListCompiler.ClampedOwnerSelected | pkg/repository/conv.go:5-18 | A table and an owner id beyond the range for which List answers a row that does not match. |
| ListCompiler.CompiledCorrect | pkg/repository/book_sqlc.go:65-136 | For every query: placeholders are 1 to the number of arguments, each once, and on every storable table the one result of the statement is filter, sort, drop offset, take limit. |
| ListCompiler.ListedIsListing | pkg/repository/book_sqlc.go:118-136 | What List answers on a storable table is the listing. |
| ListLaws.ListedOrder | pkg/repository/book_sqlc.go:90-107 | In every answer, each sort name orders by its own column in the direction asked for, equal values come by ascending id, and any other text orders by id. |
| ListLaws.ListedRows | pkg/repository/book_sqlc.go:73-88 | Unpaged, exactly the rows whose title and author contain their filters and whose owner is the one asked for are answered, each once. |
| ListLaws.ListedPage | pkg/repository/book_sqlc.go:109-116 | A page is the stretch of the unpaged answer from the offset on that the limit allows; a negative limit allows all. |
| Text.Utf8Injective | pkg/service/book_service.go:43-44 | The bytes of a filter determine its text. |
| Text.HexRoundTrip | pkg/service/book_service.go:43-44 | Hexadecimal decoding undoes encoding (section 8 of RFC 4648). |
| Text.ParseDecimal | pkg/service/book_service.go:41-42 | Reading a printed number gives it back. |
| CacheKey.OwnerCut | pkg/service/book_service.go:36-39 | The `_` of no owner cannot be confused with an owner id, whatever follows. |
| CacheKey.TailCut | pkg/service/book_service.go:40-46 | Sort names with underscores and order names are read back from the end of the key. |
| CacheKey.KeyEqualIff | pkg/service/book_service.go:35-47 | For all queries, keys are equal if and only if the generations are and the queries differ at most in how their sort and order text is divided. |
| CacheKey.KeyInjective | pkg/service/book_service.go:32-47 | Equal keys mean equal generation and equal query, for allowlisted sort and order. |
| CacheKey.KeyText | pkg/service/book_service.go:40-46 | The text of a key, spelled out on one query with and without an owner. |
| CacheKey.FreeSortTextCollides | pkg/service/book_service.go:40-46 | Without the allowlist two different queries share a key. |
| ListParams.ParseOffsetLimit | pkg/api/books.go:61-87 | Accepted exactly for an integer offset >= 0 and limit >= 1; the limit is capped at 100. |
| ListParams.ParseBookListQuery | pkg/api/books.go:90-126 | The parsed query, and every parsed query is canonical. |
| ListParams.DefaultsParse | pkg/api/books.go:62-63 | Absent offset, limit, sort and order parse to 0, 10, id and asc. |
| ListParams.AtoiIff | pkg/api/books.go:65-74 | An offset or limit is read exactly from the decimal spellings of the 64-bit integers. |
| ListParams.AcceptedIff | pkg/api/books.go:65-123 | A request is accepted exactly with a readable offset of at least 0, a readable limit of at least 1, no or a readable owner, and sort and order names on their lists; a limit above 100 becomes 100. |
| ListParams.WrittenParses | pkg/api/books.go:90-126 | Every canonical query is what all its spellings, with leading zeros and surrounding blanks, parse to. |
| RefreshTokens.RefreshTokenStore.Create | pkg/repository/refresh_sqlc.go:38-50 | Adds one row, or fails and changes nothing on a duplicate hash. |
| RefreshTokens.RefreshTokenStore.FindByHash | pkg/repository/refresh_sqlc.go:52-59 | The row with the hash, or none if there is none. |
| RefreshTokens.RefreshTokenStore.ConsumeIfActive | pkg/repository/dbsqlc/refresh_tokens.sql.go:13-35 | Consumes the row and reports 1 exactly when it is neither consumed nor revoked. |
| RefreshTokens.RefreshTokenStore.RotateAtomically | pkg/repository/refresh_sqlc.go:62-95 | Consumes and inserts together or changes nothing, also when the insert fails. |
| RefreshTokens.RefreshTokenStore.RevokeFamily | pkg/repository/refresh_sqlc.go:97-103 | Stamps every row of the family that was not revoked, and no other. |
| RefreshTokens.RefreshTokenStore.RevokeAllForUser | pkg/repository/refresh_sqlc.go:105-111 | Stamps every row of the user that was not revoked, and no other. |
| RefreshTokens.RotateKeeps | pkg/repository/refresh_sqlc.go:62-95 | Rotation keeps the shape of families and rewrites no stamp. |
| RefreshTokens.RevokeFamilyKeeps | pkg/repository/dbsqlc/refresh_tokens.sql.go:112-118 | Revoking a family keeps revocation all-or-none within each family. |
| RefreshTokens.RevokeUserKeeps | pkg/repository/dbsqlc/refresh_tokens.sql.go:94-100 | So does revoking a user, since a family has one user. |
| RefreshTokens.InsertKeeps | pkg/repository/dbsqlc/refresh_tokens.sql.go:37-41 | A login's insert starts a family of one. |
| Sessions.StepKeepsInv | pkg/service/user_service.go:55-191 | Every store and denylist call of Login, Refresh and Logout, and every failure and tick, keeps the protocol invariant, with any number of requests in flight. |
| Sessions.SuccessNeedsActive | pkg/service/user_service.go:133-145 | A refresh succeeds only in a step that finds its row active. |
| SessionLaws.FamilyShape | pkg/service/user_service.go:126-145 | In every reachable state a family has one user, its newest row is its one unconsumed row, and revocation is all-or-none. |
| SessionLaws.WriteOnce | pkg/repository/dbsqlc/refresh_tokens.sql.go:13-20 | Rows are only added, keep their identity, and are consumed and revoked at most once. |
| SessionLaws.SingleUse | pkg/service/user_service.go:73-152 | In any run a refresh token yields at most one successful refresh. |
| SessionLaws.ReuseRevokesForever | pkg/service/user_service.go:98-145 | After a call that ends in reuse detection, a lost race included, the whole family is revoked for good and none of its tokens is ever refreshed again. |
| SessionLaws.LogoutAllEndsSessions | pkg/service/user_service.go:176-179 | After logout-all has revoked the rows, no row the user then had is ever rotated, even by a refresh that read it earlier. |
| SessionLaws.CutoffDecides | pkg/middleware/jwt_auth.go:79-101 | A token minted by the logout's clock reading is accepted exactly when unexpired, not denied and newer than the stored cutoff. |
| SessionLaws.LogoutAllStores | pkg/service/user_service.go:180-182 | The write of a logout-all establishes the starting point of the finality law. |
| SessionLaws.LogoutAllFinalIff | pkg/service/user_service.go:157-191 | The user's earlier access tokens are rejected in every continuation if and only if no older logout-all is still to write, or they have expired. |
| SessionLaws.OverlappingLogoutsReopen | pkg/service/user_service.go:161-182 | The run in which a login mints a token, one logout-all cuts it off, and an overlapping one lets it in again. |
| SessionScope.RefreshedInTime | pkg/service/user_service.go:91-131 | No token is used after it expired, and its successor lives one refresh TTL from that use, in the same family. |
| SessionScope.StepKeepsScoped | pkg/service/user_service.go:55-191 | Every step keeps consumption within expiry, and a logout about to revoke a family holds one of its own user's. |
| SessionScope.OnlyOwnSessions | pkg/service/user_service.go:163-179 | In every run a step changes a refresh row only for the family of the presented token, or for the user who logs out; somebody else's token revokes nothing. |
| SessionScope.LogoutEndsSession | pkg/service/user_service.go:163-175 | After a logout with a token its family is revoked for good and never refreshed again. |
| SessionOutcomes.LostRaceRevokes | pkg/service/user_service.go:133-143 | A refresh about to rotate a row that others have consumed or revoked ends in reuse detection with the whole family revoked, whatever happens between its two steps. |
| SessionOutcomes.RotationTrades | pkg/repository/refresh_sqlc.go:62-95 | A rotation in time consumes the row and adds one of the same user and family; with a hash that is taken it fails and changes nothing. |
| SessionOutcomes.RefusalHasReason | pkg/service/user_service.go:91-103 | In any run a stored token whose user is there is refused as invalid only if it is revoked or expired. |
| SessionOutcomes.ReuseNeedsUse | pkg/service/user_service.go:98-138 | Reuse is detected only for a token that was consumed or revoked before. |
| SessionOutcomes.FinishedLogoutAll | pkg/service/user_service.go:176-179 | In any run a logout-all that returned without an error has revoked every row the user had when it began. |
| SessionOutcomes.FinishedLogoutOne | pkg/service/user_service.go:163-175 | In any run a logout with the user's own token that returned without an error has revoked the token's family. |
| SessionOutcomes.FinishedLogoutDenies | pkg/service/user_service.go:185-189 | In any run a logout that returned without an error has its own access token rejected from then on. |
| UserService.Service.IssueTokenPair | pkg/service/user_service.go:223-256 | An undisturbed login adds one row with the user, hash, fresh family and expiry, or fails on a taken hash; it answers as the machine does. |
| UserService.Service.RefreshPair | pkg/service/user_service.go:73-152 | The table and the answer of a refresh, case by case, whatever others do to the table before it rotates and however its user and tokens are resolved: refused, reuse with the family ended, failed, or traded; and as the machine does. |
| UserService.Service.RefreshRow | pkg/service/user_service.go:91-145 | The same from the row that was found. |
| UserService.RefreshGoesOn | pkg/service/user_service.go:91-145 | The machine's refresh, branch by branch, from the row it read. |
| UserService.Service.RotateOrRevoke | pkg/service/user_service.go:133-145 | On a row consumed or revoked by now the answer is reuse and the family is ended; on a taken hash nothing changes; otherwise the row is traded. |
| UserService.Service.DenyToken | pkg/service/user_service.go:185-189 | The denial of the caller's access token leaves the machine's denied jtis in Redis. |
| UserService.Service.EndSessions | pkg/service/user_service.go:157-191 | A logout-all revokes the user's rows and puts a cutoff in force; a logout with the user's own token ends its family, with any other nothing; the access token's jti is denied until its exp; and as the machine does. |
| Denylist.UserKeyInjective | pkg/auth/denylist.go:66-68 | Users do not share a key. |
| Denylist.KeysApart | pkg/auth/denylist.go:18-22 | A jti key is never a user key, whatever the jti. |
| Denylist.RedisDenylist.Deny | pkg/auth/denylist.go:71-84 | Stores the jti until the token's expiry; empty jtis are refused, expired ones ignored. |
| Denylist.RedisDenylist.IsDenied | pkg/auth/denylist.go:88-101 | True exactly while the key of a non-empty jti lives. |
| Denylist.RedisDenylist.DenyUserBefore | pkg/auth/denylist.go:104-121 | Stores the second of the logout for one access TTL. |
| Denylist.RedisDenylist.IsUserRevoked | pkg/auth/denylist.go:124-142 | True exactly when the living cutoff is at or after iat; an unreadable value does not revoke. |
| Denylist.RedisDenylist.Authorize | pkg/middleware/jwt_auth.go:57-101 | Rejects as invalid exactly the expired, userless and roleless tokens, as revoked exactly the denied and the cut off; a missing iat skips the cutoff. |
| Denylist.JtiAgrees | pkg/auth/denylist.go:71-101 | A token's jti is denied exactly when the log denied it, for as long as it has not expired. |
| Denylist.UserKeyHoldsLast | pkg/auth/denylist.go:104-121 | After any history a user's key holds the second of the last logout-all and its expiry. |
| Denylist.UserAgrees | pkg/auth/denylist.go:124-142 | When the store, and when the log, reject for the cutoff. |
| Denylist.StoreVersusLog | pkg/middleware/jwt_auth.go:79-101 | The store and the log differ only after the key of the last logout-all has gone. |
| Denylist.StoreAgreesWithLog | pkg/auth/auth.go:158-169 | With a whole-second TTL a minted token is accepted exactly when the log accepts it, at all times. |
| Denylist.MintLifetime | pkg/auth/auth.go:158-169 | Without revocations a token is accepted for its TTL, less at most the second that exp cuts off, and never after. |
| Denylist.LaterTokensAccepted | pkg/auth/denylist.go:124-142 | Logout-alls leave alone the tokens minted in later seconds. |
| Denylist.EarlierTokensRejected | pkg/auth/denylist.go:104-142 | For any TTL a token minted no later than a logout-all is never accepted after it. |
| Denylist.PartSecondsDiffer | pkg/auth/auth.go:158-169 | For every other TTL a token that outlives its cutoff. |
| Denylist.AgreesExactlyOnWholeSeconds | pkg/auth/auth.go:158-169 | The expiring store agrees with the log on all histories if and only if the TTL is a whole number of seconds. |
| Denylist.CutoffWritten | pkg/auth/denylist.go:104-121 | DenyUserBefore writes the machine's cutoff and disturbs no other key. |
| Denylist.TokenWritten | pkg/auth/denylist.go:71-84 | Deny writes the machine's denied jti and disturbs no other key. |
| Denylist.StepSameStore | pkg/service/user_service.go:180-189 | Every step of the machine keeps its cutoffs and denied jtis equal to the keys in Redis. |
| Denylist.RunSameStore | pkg/service/user_service.go:180-189 | So does every run. |
| Denylist.MachineAccepts | pkg/middleware/jwt_auth.go:79-101 | The machine accepts a token exactly when the middleware does. |
| Denylist.AuthFinalIff | pkg/service/user_service.go:176-189 | On the real keys, with cutoffs and denied jtis in one key space: the middleware rejects the user's earlier tokens in every continuation if and only if no older logout-all is still to write, or they have expired. |
| BookCache.LoadIsFresh | pkg/service/book_service.go:141-145 | A load has every mutation bumped before any generation read so far. |
| BookCache.StageKeepsInv | pkg/service/book_service.go:141-154 | Loads, late write-backs under old generations and ends of flights keep every page and every flight sound. |
| BookCache.StepKeepsInv | pkg/service/book_service.go:99-159 | Every step of readers, flights, mutations and page losses keeps the cache invariant. |
| BookCache.SoundIsCoherent | pkg/service/book_service.go:129-159 | If admitted queries that share a key share their answers, every call in every run is served a current list. |
| CacheLaws.CoherentIff | pkg/service/book_service.go:124-159 | For any handler, sort and order being free text: every call in every run is served a current list if and only if the admitted queries that share a key are the same to the store. |
| CacheLaws.FreeSortServesWrongPage | pkg/service/book_service.go:40-46 | Behind a handler without an allowlist a page is served to the wrong query. |
| CacheLaws.Coherence | pkg/service/book_service.go:99-159 | For the queries of the parser, every list returned, by hit, own load or shared flight, is the uncached list of a store version with every mutation bumped before the generation was read, and no newer than the store on return. |
| BookStore.PatchLocal | pkg/repository/dbsqlc/books.sql.go:74-81 | An update changes the two fields of one row; ids, owners and other rows stay. |
| BookStore.DeleteLocal | pkg/repository/dbsqlc/books.sql.go:42-45 | A delete takes one row and leaves the others. |
| BookStore.Store.Create | pkg/repository/book_sqlc.go:138-149 | Adds one row under a new id. |
| BookStore.Store.FirstByID | pkg/repository/book_sqlc.go:151-158 | The row of the id, if there is one. |
| BookStore.Store.UpdateFields | pkg/repository/book_sqlc.go:160-171 | The row gets the given title and author and a new update time, keeps its id, owner and creation time, and is returned; or there is none. |
| BookStore.Store.PatchFields | pkg/repository/book_sqlc.go:174-188 | Each field that is given is stored in its own column, each other one stays; with none given the row is only read. |
| BookStore.Store.DeleteByID | pkg/repository/book_sqlc.go:190-199 | Removes the row, or reports that there is none. |
| BookStore.Store.List | pkg/repository/book_sqlc.go:65-136 | Builds the statement, runs it and copies the rows: the result is what the compiled query answers. |
| BookService.ContentsDetermined | pkg/service/book_service.go:85-90 | The map of payloads that events rebuild is determined by the rows. |
| BookService.StoredPageOk | pkg/service/book_service.go:150-152 | Writing a page under its key keeps every page sound, because keys are injective. |
| BookService.Service.BumpGeneration | pkg/service/book_service.go:116-121 | After a bump no page of the new generation exists, so the pages are sound for the changed table. |
| BookService.Service.BumpAndPublish | pkg/service/book_service.go:190-191 | The common end of the mutations restores sound pages and replay equals table. |
| BookService.Service.ReplayIsTable | pkg/service/book_service.go:76-97 | Applying the published events in order gives the id, owner, title and author of every row of the table, and nothing else. |
| BookService.Service.ListBooks | pkg/service/book_service.go:124-159 | The uncached list of the present table, cached or not. |
| BookService.Service.CreateBook | pkg/service/book_service.go:162-170 | Adds the book, publishes its four fields, and keeps pages sound and replay equal to the table. |
| BookService.Service.ReplaceBook | pkg/service/book_service.go:178-193 | Not found, forbidden or done exactly by the row and its owner; the stored row has the given title and author, the event too; a refused call changes and publishes nothing. |
| BookService.Service.PatchBook | pkg/service/book_service.go:196-211 | The same, field by field; with no field the row stays but the event is published. |
| BookService.Service.DeleteBook | pkg/service/book_service.go:214-230 | Not found, forbidden or removed exactly by the row and its owner; the event carries the row as it was. |
| BookService.Service.GetBook | pkg/service/book_service.go:172-175 | The row of the id, if there is one. |
| BookTwins.Serve | pkg/service/book_service.go:124-230 | One call of any kind answers, changes the table and publishes as if there were no cache. |
| BookTwins.ServeBoth | pkg/service/book_service.go:124-126 | On any sequence of calls with any loss of pages, the service with Redis and the one without give the same replies and the same events. |
| BookMutations.ProceedLocal | pkg/service/book_service.go:178-230 | A step changes a row only for the creator of the row. |
| BookMutations.OnlyOwnersWrite | pkg/service/book_service.go:178-230 | In every interleaving a row is changed or removed only by a request of the user who created it, though the check is made on a row read earlier. |
| BookMutations.CreationWrites | pkg/service/book_service.go:162-170 | In any run a creation stores the given fields under a new id and has them announced. |
| BookMutations.EditWrites | pkg/service/book_service.go:186-209 | In any run an edit gives the row the new fields, keeps the others and has the row announced; on a row that has gone it does nothing. |
| BookMutations.DeleteWrites | pkg/service/book_service.go:222-228 | In any run a delete removes the row and has it announced as it was read; on a row that has gone it does nothing. |
| BookMutations.EventsAtMostOnce | pkg/service/book_service.go:162-230 | In every interleaving an id has at most one created and at most one deleted event. |
| RateLimit.MemoryStore.PruneExpired | pkg/middleware/rate_limit.go:266-272 | Deleting while ranging removes exactly the expired windows. |
| RateLimit.MemoryStore.Allow | pkg/middleware/rate_limit.go:241-263 | The new map and the decision; only unexpired windows remain; a cancelled call changes nothing. |
| RateLimit.RedisStore.Eval | pkg/middleware/rate_limit.go:31-37 | The script counts and sets the expiry on the first hit. |
| RateLimit.RedisStore.Allow | pkg/middleware/rate_limit.go:201-218 | The decision from the counter, with a TTL of at least a millisecond. |
| RateLaws.OthersDoNotCount | pkg/middleware/rate_limit.go:252-257 | A client's window of the reference that never prunes is what its own calls alone make of it. |
| RateLaws.ClientsApart | pkg/middleware/rate_limit.go:241-272 | While no call finds its open window pruned, the memory store decides a call as if its client were the only one. |
| RateLaws.RedisClientsApart | pkg/middleware/rate_limit.go:201-218 | The Redis store does so on every trace. |
| RateLaws.RedisWindowCounts | pkg/middleware/rate_limit.go:201-218 | The same for the windows of the Redis store, in any order. |
| RateLaws.OpensIff | pkg/middleware/rate_limit.go:252-255 | A window instance of the memory store opens exactly when the map holds none for the client that is open at the reading. |
| RateLaws.WindowCounts | pkg/middleware/rate_limit.go:241-272 | In each window instance of the memory store, pruning included, the k-th call is admitted exactly when k <= limit and reports limit - k, whatever the order of clock readings. |
| RateLaws.MemoryHolds | pkg/middleware/rate_limit.go:250-257 | On every trace the map holds, of each client, exactly the window that no reading has passed. |
| RateLaws.PruningInvisibleIff | pkg/middleware/rate_limit.go:241-272 | The pruning store follows the store that never prunes if and only if no call finds its open window pruned by a later reading. |
| RateLaws.OrderedNeverTooSoon | pkg/middleware/rate_limit.go:245-250 | Nondecreasing readings meet that condition. |
| RateLaws.LateReadingReopens | pkg/middleware/rate_limit.go:245-250 | A late reading gets a call through that the limit forbids. |
| RateLaws.RedisFollows | pkg/middleware/rate_limit.go:201-218 | The Redis counter is the reference window of the TTL's length. |
| RateLaws.TtlIs | pkg/middleware/rate_limit.go:206-209 | The Redis window is the configured one cut to milliseconds, and at least one of them. |
| RateLaws.PartMillisecondsDiffer | pkg/middleware/rate_limit.go:206-209 | For every other window two calls that the stores decide differently. |
| RateLaws.StoresAgreeIff | pkg/middleware/rate_limit.go:201-263 | The two stores give the same decisions and remaining counts on all ordered traces if and only if the window is a whole number of milliseconds. |
| RateLaws.SlidingBound | pkg/middleware/rate_limit.go:241-263 | With ordered readings any interval of one window length admits at most 2 * limit calls of a client, in the memory store and in Redis. |
| ApiKey.BigEndianValue | pkg/middleware/api_key.go:78-80 | The 8 length bytes determine a length below 2^64. |
| ApiKey.Copy | pkg/middleware/api_key.go:72-77 | As many bytes as both have; the rest stays zero. |
| ApiKey.PaddedExact | pkg/middleware/api_key.go:72-84 | The cut or padded buffers with their lengths are equal if and only if key and secret are. |
| ApiKey.ConstantTimeAPIKeyEqual | pkg/middleware/api_key.go:66-85 | True if and only if the secret is not empty and the key equals it. |
| ApiKey.Gate.SetAPISecretKey | pkg/middleware/api_key.go:32-42 | Takes exactly secrets of 32 bytes or more; a refused one changes nothing. |
| ApiKey.Gate.APIKeyAuth | pkg/middleware/api_key.go:89-103 | Passes exactly the configured secret; answers separately when none is configured. |
| Consumer.IdempotentHandler.Handle | examples/kafka-consumer/main.go:104-133 | Never asks for redelivery; applies an envelope with an unseen id and then marks it seen, and leaves everything alone otherwise. |
| Consumer.StepKeepsLoop | examples/kafka-consumer/main.go:69-94 | Every step of the loop, crashes and failed commits included, leaves no unfinished message behind the position. |
| Consumer.AtLeastOnce | examples/kafka-consumer/main.go:69-133 | In every run each message below the committed offset is malformed or was applied by some life, and one life applies an id at most once. |
| Consumer.Reach | examples/kafka-consumer/main.go:73-88 | An idle consumer can reach every message from its position on. |
| Consumer.RedeliverableIff | examples/kafka-consumer/main.go:83-93 | A message can be delivered again if and only if no commit has passed it. |
| Consumer.FailureThenSuccessLoses | examples/kafka-consumer/main.go:83-93 | A failed message followed by a handled one is lost. |

## Left out

- HTTP handlers, status codes, router, CORS, security headers, request ids: one branch per case.
- bcrypt, SHA-256, HMAC and JWT encoding, the password check: libraries that are not part of this model.
- The users table: how its lookups end is a parameter (`Resolution`, `NoUser`, `Abort`).
- Postgres, Redis and Kafka themselves: only the change of rows, keys and offsets that each call causes.
- Redis failures: reads that fail open, a swallowed INCR error, generation 0 on a read error. The guarantees do not hold there.
- A failed DenyUserBefore: it is only logged, and then logout-all leaves access tokens valid until they expire. The machine has it as an aborted logout.
- JSON encoding of cached lists and events: taken as the identity.
- One database read per cache key: not promised, a late miss can open a second flight.
- Monotonic reads of writes not yet bumped, and event order against commit order under concurrency: not guaranteed by the code.
- Several partitions and group rebalancing of the consumer: one partition is modelled.
- Book and user ids above the BIGINT range: clamped in every statement; modelled in the owner filter, where it shows.
- Env parsing, metrics, tracing, probes, retries, the Mongo access log: configuration and plumbing.
- UserService.Service.RefreshPair: other requests are let in at one point, before the rotation; every point is open in the machine.
- CacheLaws.Coherence: is for allowlisted queries, which is what the parser produces; CacheLaws.CoherentIff has the condition for any other handler.
- BookService.Service.ListBooks: takes allowlisted queries too; the singleflight group has one caller here and many in BookCache.
- Denylist.StoreAgreesWithLog: the clock reading and the write of a revocation are one step; Denylist.AuthFinalIff has them apart.
- RateLaws.SlidingBound: limits and windows are those the configuration allows, windows positive and limits not negative.
