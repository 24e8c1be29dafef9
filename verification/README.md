# Verified model of dev-health-go

A Dafny model of the parts of dev-health-go that are hard to get right, with proofs about every run, every
input or every instance. `dafny verify dfyconfig.toml` checks the whole project.

- **Decision cache** (`pep/cache.go`, `pep/wire.go`). `DecisionCache` gives each critical section as a function on
  a recency-ordered sequence of entries; `CacheInvariant` the inductive invariant; `CacheRuns` every interleaving
  of stamps, answers, reads, invalidations and closes; `CacheAdmission` when exactly an answer is stored and
  `CacheRecency` when exactly it is served again.
  `CachedClient` is the object itself, an entry map over a doubly linked list updated in place; `LruList` is that
  list, `KeyedList` the list under its key index and `KeyOrder` the order of keys they stand for. `CacheHistory` is
  the object with its run: every section on it is one event of `CacheRuns`. `BatchBinding` and `CachedBatch` are the
  batch answer and the batch call, with any other caller's sections between any two of its own.
- **Workload tokens** (`workloadtoken`, `authverify/workload_token.go`). `TokenWire`, `TokenCheck` and
  `WorkloadVerifier` hold the two independent readings of a token; `TokenRefinement` proves that the client's check
  calls a token usable exactly when the verifier's readers accept it inside its window. `TokenSlots`, `TokenRuns` and
  `TokenClient` are the slots, every run over them, and the object; `TokenRefresh` says when a held token is handed
  out and when it is exchanged again. `TokenWitness` is one token that passes.
  `RequestKey` is the cache key.
- **Key set client** (`authverify/jwks_client.go`). `JwksCache`, `JwksClient` and `JwksRuns`.
- **Schema rewriting** (`llm/anthropic.go`, `llm/anthropic_schema_fit.go`). `SchemaStrip` is the rewriting,
  `SchemaForm` what it leaves, `SchemaMeaning` what a schema accepts, `SchemaFit` the theorem that a rewriting that
  fits only weakens, `SchemaFitWalk` the fit check as a counting walk, `SchemaPositions` that check by positions, and
  `SchemaWording` the worded limits read back. `NumberText` is the exact integer test on
  number text, read against section 6 of RFC 8259.
- **Authorization and identity queries** (`readers`). `ProjectIdentity` and `WorkItemScope` give the relational
  meaning of the SQL the functions build, over finite sets of rows of one organization; `WorkItemMeaning` says what
  opens each path, row by row.
- **Strict readers** (`authverify/jwks.go`, `pep/strict.go`). `StrictJson` proves both token-stream walks against one
  meaning on document trees (`JsonDoc`), with the end of the text told apart from text that is no JSON and with the
  numbers a 64-bit float cannot hold.
- **Encoders** (`repokey`, `clickhouse/bindings.go`). `RepoKey` proves the unrolled pattern against the rule on
  segments; `ArrayLiteral` proves the array literal against its parser.

Concurrency is modelled by critical sections: every section is atomic, any caller's section may come next, and a
clock reading is a parameter of the section that takes it. Readings are arbitrary integers unless a lemma says that
the clock never steps back. Calls out (a decision point call, a token exchange, a key fetch) are arbitrary results.

Where the code and its documentation differ, the model follows the code:

- `Invalidate` of the token client is documented to make the next `Token` call exchange. Over every run the next call
  does so exactly when no exchange was in flight at the invalidation, or that exchange has ended and neither a fresh
  token nor its wait stands in the way (`TokenRuns.CallAfterInvalidationStarts`). Otherwise the call waits for that
  exchange, gets its token or fails with its cause (`TokenRuns.CallAfterInvalidation`); two runs show the promise
  failing (`TokenRuns.InvalidatedDuringFlight`, `TokenRuns.InvalidatedBeforeAnswer`).
- `enumWithoutTypeList` is documented to keep the accepted values the same. It does so exactly when the type list
  does not name object or array beside an enum value of that type (`SchemaMeaning.AbsorbingKeepsMeaning`); otherwise
  the rewritten schema refuses a value the caller's schema accepts, even when it passes the fit check
  (`SchemaFit.CompositeStrengthens`).

## Model

| member | source | states |
|---|---|---|
| CacheRuns.ServedAllowIsCurrent | pep/cache.go:310-421 | In every run, a read serves only an allow of the decision point for its own key, stamped within the reuse bound, unexpired, at the current watermark, and stamped after every non-cacheable verdict for the key and every invalidation recorded before the read |
| CacheRuns.StaleAllowNeverServed | pep/cache.go:267-280 | The same forwards: an allow all of whose answers were stamped before a refusal of its key or an invalidation is served by no read after that record |
| CacheRuns.RefusalPersists | pep/cache.go:369-421 | Once recorded, a refusal is visible in every later state, in a guard, in the floor after its tombstone was evicted, or in the last flush |
| CacheRuns.LiveEntryIsSourced | pep/cache.go:351-402 | Every live entry of every reachable state is the answer to a call stamped after the last refusal of its key |
| CacheRuns.WatermarkIsMaximum | pep/cache.go:360-367 | In every reachable state the watermark is the maximum revision of the verdicts recorded while open |
| CacheRuns.RunGrows | pep/cache.go:351-402 | The watermark and the sequence number never fall and a closed cache stays closed |
| CacheRuns.RiseClearsEarlierEntries | pep/cache.go:360-367 | When the watermark rises, no entry stored earlier is live; only the answer that raised it can be |
| CacheRuns.RunInv | pep/cache.go:304-421 | Every reachable state has distinct keys, a live count that is exact, at most maxEntries entries, guards, floor and last flush at most the sequence number, and every live entry at the watermark |
| CacheInvariant.ObserveInv | pep/cache.go:351-402 | Recording any answer keeps the invariant |
| CacheInvariant.GetInv | pep/cache.go:322-347 | A read keeps the invariant |
| CacheInvariant.BoundInv | pep/cache.go:410-421 | Eviction restores the size bound and keeps the invariant |
| CacheInvariant.BoundFloor | pep/cache.go:410-421 | Every evicted guard is at most the new floor, and the new floor is the old one or the guard of an evicted entry |
| CachedClient.Client.constructor | pep/cache.go:120-142 | A new cache stands for the empty sequence |
| CachedClient.Client.Get | pep/cache.go:322-339 | The linked list, its index and the entry map still hold exactly the same keys, and the object moved as the sequence of entries in list order does |
| CachedClient.Client.Observe | pep/cache.go:351-402 | Likewise for recording an answer, with the watermark raise, the tombstone, the stamp tests and the eviction on the linked list |
| CachedClient.Client.Insert | pep/cache.go:381-402 | On the linked list, an answer is stored at the front or left out as the store on the sequence of entries is, which is exactly when the run says it deserves to be |
| CacheAdmission.StoredExactly | pep/cache.go:351-402 | In every run, a cacheable allow recorded while open leads the list, as the answer to its stamp, when its revision is at least every revision recorded before, it is within its age and expiry, and since its stamp no verdict refused its key, nothing was invalidated and no tombstone left since was evicted; and otherwise the list gains nothing |
| CacheAdmission.AdmittedExactly | pep/cache.go:381-390 | The tests on the stamp, the last flush, the floor, the guard and the watermark are exactly that condition on the events |
| CacheAdmission.FloorSource | pep/cache.go:410-421 | In every reachable state the floor is zero or the guard of a tombstone that was evicted |
| CacheAdmission.GuardSource | pep/cache.go:369-402 | Every guard of every reachable state is zero or the number given by a refusal of its key |
| CachedClient.Client.Refuse | pep/cache.go:369-380 | A refusal kills the entry of the key, moves or pushes its element to the front, guards it with a new sequence number and bounds the size |
| CachedClient.Client.KillBelow | pep/cache.go:362-366 | The walk from the front along the next links kills exactly the live entries below the revision and keeps the live count exact |
| CachedClient.Client.Bound | pep/cache.go:410-421 | The loop that removes the back element of the linked list drops exactly what the bound on the sequence drops, with the floor and the live count |
| CachedClient.Client.InvalidateAll | pep/cache.go:267-280 | An open cache is emptied under a new sequence number; a closed one is unchanged |
| CachedClient.Client.Close | pep/cache.go:284-292 | A closed cache is empty |
| CachedClient.Client.Len | pep/cache.go:295-302 | The counter is the number of live entries |
| CacheHistory.History.Take | pep/cache.go:310-314 | Taking a stamp on the object is one event of the run, and the stamp holds that state's sequence number |
| CacheHistory.History.Look | pep/cache.go:322-339 | Reading a key on the object is one event of the run and returns what the read of that state returns |
| CacheHistory.History.Record | pep/cache.go:351-402 | Recording an answer on the object is one event of the run, an answer to the event that took its stamp |
| CacheHistory.History.InvalidateAll | pep/cache.go:267-280 | An invalidation of the object is one event of the run |
| CacheHistory.History.Close | pep/cache.go:284-292 | A close of the object is one event of the run |
| CacheRecency.ReusedExactly | pep/cache.go:322-421 | In every run, after an allow was stored or served, the next read of its key serves it exactly when nothing cleared the cache in between, fewer than maxEntries other keys were moved to the front, and it is still within its age, its expiry and the watermark; otherwise that read serves nothing |
| CacheRecency.ServedWhileFresh | pep/cache.go:322-421 | An allow is served to every later read of its key for which it is fresh, until a verdict for the key, an invalidation, a close, or maxEntries other keys moved to the front |
| CacheRecency.OrderSince | pep/cache.go:404-421 | In every run, a key that was in front stands behind exactly the distinct keys moved to the front since, and is evicted exactly when these fill the bound |
| CacheRecency.StepOrder | pep/cache.go:337-421 | Every section that clears nothing keeps the order of the keys or puts one key in front and cuts the order at the bound |
| LruList.List.PushFront | pep/cache.go:404-408 | Pushing an element puts it before the sequence the links stand for |
| LruList.List.Remove | pep/cache.go:418 | Removing an element removes exactly it from the sequence |
| LruList.List.MoveToFront | pep/cache.go:337 | Moving an element to the front keeps the others in order |
| KeyedList.Recency.Touch | pep/cache.go:337 | On the linked list under the key index, moving a key's element to the front moves the key to the front of the sequence of keys |
| KeyedList.Recency.Push | pep/cache.go:404-408 | A new element puts its key before the sequence, and the index still leads to exactly the elements of the list |
| KeyedList.Recency.DropBack | pep/cache.go:411-419 | Dropping the back element removes the last key from the sequence and from the index |
| BatchBinding.ParseBatch | pep/wire.go:254-322 | A batch answer binds every item by count, position and explicit index, and then each request gets the decision of its own item; any other answer denies all: as malformed when it is not one to a hundred well-formed entries, as a mismatch when they do not line up with the requests, and otherwise with the first decision refused |
| BatchBinding.EnvelopeExactly | pep/wire.go:271-284 | An answer is read exactly when it is the schema name and a list, in either order and nothing else, repeats no name and nests at most 16 deep |
| BatchBinding.ItemExactly | pep/wire.go:285-301 | An entry carries an index exactly when it is that index in decimal and an object, in either order and nothing else |
| BatchBinding.ParseRevisionExactly | pep/strict.go:77-92 | A text is read as a number exactly when it is its decimal and fits 63 bits |
| BatchBinding.ReadItemComplete | pep/wire.go:287-301 | An item that carries an index is read with that index and no other |
| CachedBatch.DecideBatch | pep/cache.go:179-242 | One decision per request in order, all local denies or none. A batch of one to a hundred valid requests is answered exactly when the first reply binds to the misses, if any, and the second to the hits, if one is below the watermark at the check; a failed first call denies with its reason, and an oversize or invalid batch as an invalid request. An answered batch extends the run of the cache so that every request was read under its own key, the misses hold the items of one reply by index, recorded under their own keys as answers to a stamp taken after the batch began, and the hits are kept as read or, when asked again, answered by a call stamped after the check |
| CachedBatch.KeptIsCurrent | pep/cache.go:172-178 | No decision read before the watermark moved comes back: a kept hit is an allow for its own key, stamped after every refusal of the key and every invalidation before its read, within its age and expiry there, and its revision is the watermark both at the read and at the check |
| CachedBatch.KeptIsLevel | pep/cache.go:206-215 | No kept hit is below a miss, if the cache was open when the last miss was recorded |
| CachedBatch.ReadAll | pep/cache.go:194-205 | Every request is read under its own key at an event of the run; hits and misses part the indices in order, and a hit holds what its read found |
| CachedBatch.RecordAll | pep/cache.go:237-240 | The answers are recorded in order, each by one event under the key of its own request and as an answer to the stamp of the call |
| CachedBatch.Ask | pep/cache.go:219-242 | One call answers the items at its indices exactly when its reply binds to them: each gets the item with its own index, recorded under its own key and the stamp taken before the call; no other item changes |
| CachedBatch.AskDecisionPoint | pep/client.go:149-173 | A batch call gives verdicts exactly when a reply came and binds to the requests, and otherwise local denies, with the failure's own reason when the call failed |
| CachedBatch.BelowWatermark | pep/cache.go:246-255 | True exactly when some decision read from the cache is below the watermark |
| TokenRefinement.UsableTokenVerifies | workloadtoken/exchange.go:96-121 | A token the check calls usable has a kid and claims under the verifier's own readers, and every verifier of the issuer and audience with a legal leeway accepts it at that reading exactly when its key accepts |
| TokenRefinement.UsableExactly | workloadtoken/exchange.go:78-121 | The check calls a token usable exactly when the verifier's own readers find its contract kept with the issuer and audience asked for, its signature has the right size and the reading is in its window |
| TokenWitness.UsableTokenExists | workloadtoken/exchange.go:78-121 | The premises of both results hold together of one environment, one token and one verifier, and that verifier accepts the token |
| TokenWitness.UsableTokenIsHandedOut | workloadtoken/client.go:139-226 | A run of the client hands that token out |
| TokenRefinement.ShapeAgrees | workloadtoken/exchange.go:301-356 | A token of the client's shape splits and has a header the verifier reads |
| TokenRefinement.ClaimsAgree | workloadtoken/exchange.go:146-191 | Claims the client accepts are claims the verifier reads, with the same issuer, audience and dates |
| TokenRefinement.DatesAgree | authverify/accesstoken_wire.go:81-91 | A date the client's integer reader accepts is the date the verifier's digit reader finds |
| TokenRefinement.ClosedByCount | authverify/accesstoken_wire.go:50-62 | As many distinct members as names, every name present, is a closed member set |
| TokenRefinement.KeyDecides | authverify/workload_token.go:87-137 | Once claims match and the reading lies inside the dates, the verifier accepts exactly when the key does |
| TokenRefinement.VerifyExactly | authverify/workload_token.go:87-137 | A verifier accepts a token with given claims exactly when its contract is kept with them, its kid is not denied and resolves to a 32-byte key that verifies the 64-byte signature over header and payload, issuer and audience are its own, and the reading, moved by the leeway, lies from nbf to before exp |
| TokenRefinement.HeaderExactly | authverify/workload_token.go:136-151 | A header is read exactly when it has alg EdDSA, typ workload+jwt and a kid of 1 to 256 characters from ! to ~, and nothing else |
| TokenRefinement.ClaimsExactly | authverify/workload_token.go:153-191 | The claims are read exactly when every member says so: issuer, workload audience, subject, type, token id, and dates of at most twelve digits with iat <= nbf < exp <= iat + 300 |
| Compact.AlphabetIsTrimmed | authverify/accesstoken_wire.go:173-198 | Dot-separated base64url segments have no surrounding space |
| TokenRuns.ReturnedTokenVerifies | workloadtoken/client.go:139-226 | Over every run, every token handed out is accepted, at a reading of the section that hands it out, by every such verifier exactly when its key accepts |
| TokenRuns.ReturnedIsUsable | workloadtoken/client.go:139-226 | Every token handed out was delivered by an exchange for its slot, not invalidated since, and is inside its window at a reading of the same section |
| TokenRuns.AtMostOneExchange | workloadtoken/client.go:164-203 | In every reachable state a slot's flight is exactly one caller's exchange |
| TokenRuns.NextExchangeWaits | workloadtoken/client.go:214-216 | After the n-th failure in a row since the last success or invalidation, the slot's next exchange starts at least min(floor * 2^(n-1), ceiling) after that failure's reading |
| TokenRuns.StreakIsCounted | workloadtoken/client.go:209-216 | The failure counter is the number of failures since the last success or invalidation |
| TokenRuns.SlotRemembersFailure | workloadtoken/client.go:209-216 | In every reachable state a slot holds no wait and no error after a success or an invalidation, and otherwise exactly its latest failure's cause and that failure's reading plus min(floor * 2^(n-1), ceiling) for its place n in the row |
| TokenSlots.FailureKeepsToken | workloadtoken/client.go:214-225 | A failed exchange drops the held token exactly when that token has left its window |
| TokenSlots.BeginDecides | workloadtoken/client.go:151-196 | A call exchanges exactly when none is in flight, the wait is over and no fresh token is held; it hands out a usable token otherwise, and fails or waits only without one |
| TokenRefresh.BeginByDates | workloadtoken/exchange.go:97-121 | The outcome of a call by the times of the held entry and the dates the client reads: the token is handed out without an exchange while now is at or after nbf, before exp and before sent + lifetime by the margin, and before sent + floor(lifetime * fraction); past that point it is handed out only while an exchange is in flight or backing off, and otherwise the call exchanges |
| TokenRefresh.BeginByClaims | workloadtoken/exchange.go:78-121 | The same by the claims a verifier reads in the token |
| TokenRefresh.CallAfterSuccess | workloadtoken/client.go:199-208 | In every run, from a successful exchange until the next one starts or the slot is invalidated, every call gets that exchange's token while it is inside its window and before its refresh point, and the first call for which it is not exchanges again |
| TokenRuns.CallAfterInvalidation | workloadtoken/client.go:139-243 | In every run, the first call after an invalidation exchanges if no exchange was in flight then, waits while that exchange goes on, and after its end gets its token while fresh, fails with its cause during its wait, and exchanges otherwise |
| TokenRuns.CallAfterInvalidationStarts | workloadtoken/client.go:228-243 | That call exchanges exactly when no exchange was in flight at the invalidation, or it has ended and neither its fresh token nor its wait stands in the way |
| TokenRuns.InvalidatedDuringFlight | workloadtoken/client.go:228-243 | A run in which the call after an invalidation waits for an exchange begun before it |
| TokenRuns.InvalidatedBeforeAnswer | workloadtoken/client.go:228-243 | A run in which the call after an invalidation is handed the token of an exchange begun before it |
| TokenSlots.Backoff | workloadtoken/client.go:245-251 | The doubling loop computes min(floor * 2^(n-1), ceiling) |
| TokenClient.Client.Begin | workloadtoken/client.go:150-196 | The first section of Token leaves the slot and the outcome the runs are about, whose times are stated by TokenRefresh.BeginByDates |
| TokenClient.Client.Finish | workloadtoken/client.go:199-226 | Likewise the section after an exchange |
| TokenClient.Client.Invalidate | workloadtoken/client.go:230-243 | The token, the wait and the failures go; the flight stays; a missing slot stays missing |
| TokenClient.ReadMembers | workloadtoken/exchange.go:194-221 | The member loop fills a map exactly for distinct names, and the map is what lookups find |
| TokenClient.ReadDates | workloadtoken/exchange.go:171-190 | The date loop reads the three dates and their order |
| RequestKey.KeysAgree | workloadtoken/client.go:260-278 | Two requests share a slot exactly when they name the same audience and the same set of actions, and then send the same actions |
| RequestKey.RequestExactly | workloadtoken/client.go:258-287 | A request is refused exactly when the audience is not 1 to 64 printable characters, there are more than 64 actions, or one is not 1 to 128 printable characters; what is sent is the scope sorted, each action once |
| JwksRuns.OneFetch | authverify/jwks_client.go:165-196 | In every reachable state no two fetches overlap, every start but the one in flight has completed, and a caller past its refresh has seen a fetch complete |
| JwksRuns.StartsAreApart | authverify/jwks_client.go:172-181 | On any clock, a later fetch starts at a reading at least the floor above every earlier start's |
| JwksRuns.ExpiredIsRefreshed | authverify/jwks_client.go:93-106 | On a clock that never steps back, a refresh that finds the document past its TTL after a successful fetch is never refused by the floor |
| JwksRuns.KeysAreLatest | authverify/jwks_client.go:186-192 | The key set is the latest successful document's; a failed fetch changes nothing |
| JwksRuns.ServedKeyIsCurrent | authverify/jwks_client.go:118-163 | Every key returned stands in the latest successful document, younger than the TTL, or than the TTL and the grace after a refresh was tried |
| JwksRuns.CurrentKeyIsServed | authverify/jwks_client.go:151-163 | A key of the latest document is served exactly when it has the right size and the document's age is one the lookup allows |
| JwksRuns.MissingIsUnserved | authverify/jwks_client.go:151-163 | A kid missing from the latest document is not served |
| JwksRuns.UnknownMeansFetched | authverify/jwks_client.go:131-142 | ResolveKey answers only after a fetch completed, and says unknown exactly when the latest completed one brought a document |
| JwksRuns.ResolvedAfterRefresh | authverify/jwks_client.go:118-142 | ResolveKey answers without a key only after it looked for the kid, asked for a refresh, and looked again |
| JwksRuns.LookDecides | authverify/jwks_client.go:118-128 | A lookup that finds the key ends the call; the first that does not goes to refresh, the second leaves it without a key |
| JwksClient.Client.Cached | authverify/jwks_client.go:151-163 | The lookup serves what the state allows at that age |
| JwksClient.Client.BeginRefresh | authverify/jwks_client.go:165-182 | The first section of refresh joins, refuses or starts, and records the attempt |
| JwksClient.Client.FinishRefresh | authverify/jwks_client.go:184-192 | The second section replaces the keys only on success |
| SchemaFit.FittingRewriteWeakens | llm/anthropic.go:400-456 | When the rewritten schema passes the fit check, every instance valid under the caller's schema is valid under the rewritten one, for reference-free schemas whose items is one schema and whose type lists do not name a composite enum value's type |
| SchemaFit.NotStrengthens | llm/anthropic_schema_fit.go:31-36 | Without the fit check, a dropped bound under not strengthens the schema |
| SchemaFit.CompositeStrengthens | llm/anthropic.go:528-545 | Without the condition on type lists, a schema that passes the whole fit check, with both counts, is strengthened |
| SchemaFit.TupleStrengthens | llm/anthropic_schema_fit.go:145-151 | With items a list, which the fit check does not enter, a schema that passes the whole fit check is strengthened |
| SchemaMeaning.AbsorbingKeepsMeaning | llm/anthropic.go:522-545 | Absorbing a type list into an enum keeps the accepted values, for every instance, exactly when the list names no composite value's type |
| SchemaMeaning.AllowsIsMatches | llm/anthropic.go:547-567 | The code's type test of an enum value agrees with the type of every equal instance, composites apart |
| SchemaForm.StripIsIdempotent | llm/anthropic.go:416-456 | Rewriting twice is rewriting once, and the fixed points are exactly the schemas with no rejected keyword, refused minItems or type list beside an enum at any schema position |
| SchemaForm.StripIsSettled | llm/anthropic.go:416-456 | No rejected keyword is left at any schema position |
| SchemaForm.NamesAndDataKept | llm/anthropic.go:423-446 | Property and definition names stay, and data values stay as given |
| SchemaForm.DropIsWorded | llm/anthropic.go:458-506 | Every key a node loses is an absorbed type list, a uniqueItems that was not true, or a bound whose own words, written out for each keyword, stand in the node's description |
| SchemaForm.KeysExactly | llm/anthropic.go:380-456 | A rewritten node has exactly the keywords it had but the thirteen refused ones, a minItems other than 0 or 1 and an absorbed type list, and a description if a limit is worded |
| SchemaWording.LimitsAreRead | llm/anthropic.go:458-506 | Reading the description back finds exactly the dropped bounds, each with its keyword and value |
| SchemaWording.DroppedBoundsAreKept | llm/anthropic.go:477-506 | An instance meets the bounds of the caller's node exactly when it meets the minItems that was kept and every limit read from the rewritten description |
| SchemaForm.DescriptionKept | llm/anthropic.go:480-506 | Without a dropped limit the description is the caller's |
| SchemaStrip.DescribeDroppedBounds | llm/anthropic.go:480-506 | The loop over the phrase table builds the description that SchemaWording.LimitsAreRead reads back |
| SchemaStrip.EnumWithoutTypeList | llm/anthropic.go:528-545 | The two loops keep exactly the allowed values, in order |
| SchemaFitWalk.CheckSchema | llm/anthropic_schema_fit.go:61-73 | The counting walk passes exactly the schemas that fit at every node, with at most 24 optional and 16 union properties |
| SchemaPositions.FitsExactly | llm/anthropic_schema_fit.go:61-172 | A schema passes exactly when every position is at most 64 deep and its node keeps the limits, at most 24 property positions are not required and at most 16 are unions |
| SchemaPositions.CountedPaths | llm/anthropic_schema_fit.go:115-172 | Each count is the number of paths to the counted properties |
| SchemaFitWalk.FitNode | llm/anthropic_schema_fit.go:77-172 | A walk that passes adds exactly the node's own counts to the shared tally |
| NumberText.TextDecidesInteger | llm/anthropic.go:590-622 | The text test is true exactly when the denoted rational is an integer, and clamping the exponent never changes that |
| NumberText.NumberTextIsInteger | llm/anthropic.go:596-622 | The same for the test as run on 64-bit integers, with no overflow |
| NumberText.ClampKeepsJudgement | llm/anthropic.go:592-608 | Clamping the exponent never changes the judgement |
| ProjectIdentity.ExpansionMeaning | readers/ownership.go:368-381 | A project answers to its id, and to its key when no other project of the provider has it; a value that is both is labelled a key |
| ProjectIdentity.ScopeIsUnique | readers/ownership.go:289-382 | One row per provider, id and scope, even for a project whose id is its key |
| ProjectIdentity.SharedKeyHasNoRow | readers/ownership.go:399-406 | A key shared by two projects of one provider has no key row |
| ProjectIdentity.FilteredIsRestricted | readers/ownership.go:384-406 | The filtered form is the catalog form restricted to the requested subjects |
| ProjectIdentity.KeyArmReachesOne | readers/ownership.go:160-180 | One ownership row's project_key reaches at most one project |
| ProjectIdentity.IdArmReachesTwo | readers/ownership.go:160-180 | One ownership row's project_id reaches at most the project with that id and the project alone with that key |
| ProjectIdentity.JoinMeaning | readers/ownership.go:100-180 | A team owns a project exactly when one of its rows for the provider names the project's id in project_id, or its unambiguous key in project_id or project_key |
| WorkItemScope.NarrowingIsExact | readers/work_item_candidates.go:5-22 | Narrowing never lets a row take a path or name evidence that the unnarrowed relation does not, and a stored item in the candidate set takes the same paths with the same evidence |
| WorkItemScope.ProjectGroupKeptOrDropped | readers/authorization.go:233-255 | A narrowed project group is the whole group or empty |
| WorkItemScope.LinkGroupKeptOrDropped | readers/authorization.go:262-277 | A narrowed link group is the whole group or empty |
| WorkItemScope.Render | readers/authorization.go:316-363 | The authorization expression is true exactly when some path's expression is, and each path's expression carries every restriction |
| WorkItemScope.EvidenceMeaning | readers/authorization.go:365-396 | A path that names repositories is taken exactly when its evidence is not empty, and every slug in it is valid and granted |
| WorkItemMeaning.PathMeaning | readers/authorization.go:365-396 | The organization path is the global grant; every other path is taken exactly when a slug opens it, and its evidence is exactly the slugs that do: the row's own covered repository, one of a team that owns the row's project, or one of its native link rows |
| WorkItemMeaning.LinkPathMeaning | readers/authorization.go:258-277 | The link evidence of an item is exactly the covered repositories that its link rows of provenance native name |
| WorkItemMeaning.ExcludedMeaning | readers/authorization.go:258-277 | The provenances disclosed are exactly those other than native of the link rows of a repository-less item that name a covered repository |
| WorkItemMeaning.GrantsMeaning | readers/authorization.go:417-423 | A selector covers a slug of the key grammar exactly when it names the slug or the text before its first slash |
| WorkItemMeaning.RestrictedMeaning | readers/authorization.go:398-415 | A requested selector demands a real repository with a name, any one if all are requested and otherwise a covered one |
| WorkItemScope.RepositoryDecides | readers/authorization.go:377-396 | A row with a real repository, and any row under a requested selector, takes neither repository-less path |
| WorkItemScope.ProjectPathMeaning | readers/authorization.go:233-255 | The project path's evidence is exactly the granted repositories of the teams that own a project answering to the item's project value |
| StrictJson.SingleDocumentWithoutDuplicateMembers | authverify/jwks.go:205-257 | The scan passes exactly the text that is one document and then ends, in which no name is repeated under case folding at any depth and every number fits a 64-bit float |
| StrictJson.RejectDuplicates | pep/strict.go:24-75 | The walk passes exactly the text that is one document and then ends, which repeats no name, nests no deeper than the limit and whose numbers fit a 64-bit float |
| StrictJson.WalkedDoc | authverify/jwks.go:218-257 | On the tokens of any document the walk consumes exactly that document and succeeds exactly when the rule on names, numbers and depth accepts it |
| StrictJson.WholeStream | pep/strict.go:24-33 | A walk uses up a token stream exactly when that is the stream of one accepted document |
| StrictJson.TokensUnique | authverify/jwks.go:218-257 | A token stream begins with the tokens of at most one document |
| StrictJson.TrailingTextIsSeen | pep/strict.go:29-31 | After a whole document the decoder tells the end of the text from text that is no JSON, so the latter is refused |
| StrictJson.UnfitNumberIsRefused | pep/strict.go:39-42 | A document with a number no 64-bit float holds is refused by both walks |
| StrictJson.AcceptsStrict | pep/strict.go:35-75 | The exact bounded rule is no duplicates, within the depth, every number fitting |
| StrictJson.AcceptsFolded | authverify/jwks.go:218-257 | The folding rule is no duplicates under the folding, every number fitting |
| RepoKey.PatternMeaning | repokey/repokey.go:34-44 | The unrolled pattern accepts exactly the keys of 2 to 20 slash-separated segments, valid group names before a valid last name |
| RepoKey.ValidMeaning | repokey/repokey.go:46-51 | A valid slug is 2 to 20 segments within 255 characters, each 1 to 100 lower-case letters, digits, dots, underscores and hyphens that starts and ends with a letter or digit, the last one also with a dot in front; a valid key is one or the wildcard |
| RepoKey.Body | repokey/repokey.go:34-42 | The loop builds the nest of 18 optional groups |
| ArrayLiteral.Encode | clickhouse/bindings.go:68-78 | The encoder fails exactly on a backslash, and otherwise writes the literal |
| ArrayLiteral.ParseIsInverse | clickhouse/bindings.go:116-121 | A text is the literal of a list exactly when the doubled-quote parser reads that list from it |
| ArrayLiteral.LiteralIsInjective | clickhouse/bindings.go:63-121 | Distinct lists never share a literal |

## Left out

- HTTP, TLS, redirects, timeouts, body limits and telemetry: a call out is an arbitrary result.
- Ed25519, SHA-256, base64, Unicode case folding, which number texts a 64-bit float holds, and the text level of `encoding/json`: predicates, functions or token streams given as parameters; a cache key is its five fields.
- Sequence-number wrap-around of the decision cache at 2^64, which no process reaches.
- The single `Decide` call of the cached client: the batch of one without the second call.
- Reading one decision document (`decodeDecision`, obligations): a function given to the batch reader.
- The entry record inside a list element: the cache object holds the doubly linked list with its key index, and the entries beside it in a map under the same keys, where the source hangs the entry on the element; both maps are proved to hold exactly the keys of the list.
- The wake-up of callers waiting for a token exchange: a waiter calls again, which any caller may do at any time.
- Case and bounds of settings defaults: settings are taken after defaulting, within the constructors' bounds.
- `$ref` resolution and the semantics of `pattern` and `format`: schemas with references are outside the weakening theorem, the other two are parameters.
- The reason text of a failed fit check and the order in which limits are found: the walk visits names in any order and reports pass or fail.
- 64-bit float rounding of minItems: whether a number text rounds to 0 or 1 is a parameter.
- Slug normalization in the query engine: one function applied on every path. Normalization of the selector lists is not modelled: they are taken normalized.
- SQL text, NULL ordering, sorting inside arrays and bindings: rows are finite sets and sorted arrays of distinct values are sets.
- The request filter on `concat(provider, ':', id)` is kept as written, so two subjects with the same joined text are requested together.
- Key parsing of a fetched key document and its retirement dates: a fetch brings a map of keys or fails.
- Parsing of the pattern text by the regular expression engine: the pattern is its syntax tree.
