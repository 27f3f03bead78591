# Verified models of the stateful engines in dmdprebuild

This project models the small stateful engines behind the wallet cache and the network services, and
proves what they keep over whole runs and over every interleaving.

| files | component |
|---|---|
| `LruStore`, `LruCache`, `LruRecency` | the wallet's LRU/TTL cache: a vector, a key-to-position map, and the recency list they stand for |
| `TokenStore`, `TokenService`, `TokenLifetime`, `TokenInterleaving`, `TokenLoss` | the token service: two maps that must agree, serially and under concurrent critical sections |
| `CircuitBreaker`, `RetryingConnector`, `ConnectionPool` | the Redis pool: breaker, retry loop, queue of idle connections |
| `WebSocketAccounting`, `WebSocketManager`, `WebSocketBooks` | WebSocket connection counts, as steps of many tasks and as calls, against the live connections |
| `AuthLockout`, `LockoutHistory`, `LockoutInterleaving` | failure lockout, as a table, as told from the requests, and with overlapping requests |
| `TokenRevocation`, `TokenDecisions`, `RevocationInterleaving` | JWT revocation and simple tokens with their cleanup, as calls, as told from the calls, and as steps |
| `Decimal`, `KeyRotation` | timestamps as text, key rotation |
| `TaskSlots`, `TaskDispatcher` | the compare-exchange slot counter and the calls that use it |
| `SchedulerIndex`, `SchedulerLifetime`, `SchedulerInterleaving` | the scheduler's task lists and their index of update times, as calls, in plain time, and as locked sections |
| `EscapeSql` | the four replacement passes of the SQL escape |
| `Prelude` | optional values, addresses and roles, order-preserving filters, whole seconds between instants |

Where the code changes objects in place the model is a class whose fields are the code's fields and whose
methods keep the code's loops; each method's postcondition equates the new state with a function of the old
one, and the lemmas prove what that function does over runs. Where several tasks interleave, every critical
section or atomic operation is one step of a transition relation, and lemmas tie undisturbed steps back to the
methods. Every clock reading, random id and answer of an outside party (server, health check, decoding library,
rate limiter) is a parameter. Instants are nanoseconds since some origin where the code truncates durations to
seconds, and plain numbers elsewhere.

## Results that differ from what the code intends

* `cleanup_expired` of the cache does not repair positions. It keeps the index if and only if the expired
  entries are the last ones of the vector (`CleanupKeepsIndexIff`); otherwise `get` can return another key's
  value or panic (`StalePositionAnswersWrongly`), and with all values different some `get` always answers
  wrongly (`GetsAnswerRightlyIff`). The class takes a constant `repairs`: false is the
  repository's code, true repairs positions after each removal.
* A cache of capacity 0 panics on its first insertion (`FirstInsertPanicsIff`).
* The lockout lasts the shorter of the failure window and the lockout duration. The configuration comments and
  the reply announce the lockout duration, which holds if and only if it is no longer than the window
  (`LockoutHonouredIff`); with the defaults it does not (`DefaultLockoutIsTheWindow`).
* The lockout does not see requests whose tokens are still being evaluated: any number that test it together pass
  (`AllPass`). With at most P of an address under evaluation at a time, max(1, max_fail_attempts) - 1 + P of its
  requests are evaluated in a short span without a success (`OverlappingBound`), one at a time therefore
  max(1, max_fail_attempts) (`LockoutBound`).
* The branch that blocks an IP is dead, so the block list stays empty (`Accounting`).
* `create_token` lists its token whether or not it is still there. The lists hold only live tokens throughout a
  run if and only if every creation finds its token still in the map as it lists it (`OwnedThroughoutIff`), in a
  run that ends at rest if and only if no revocation and no cleanup takes a token between the two sections of
  its creation (`AgreesThroughoutIff`). A dead token can stay listed (`DeadTokenCanBeListed`). Cleanups do
  no harm when every creation ends within the lifetime of its own token (`TimelyCreationsSurviveCleanups`).
* A revoked JWT can be accepted: `validate_jwt` tests the expiry before it waits for the revocation list. It
  happens if and only if the test passes and a cleanup with a clock past the expiry then removes the revocation,
  with no new revocation after it, before the validation gets to the list (`RevokedAcceptedIff`). Among calls that do not overlap revocation is
  permanent (`RevocationIsPermanent`).
* The scheduler never cleans up tasks of a node whose id holds a colon (`CleanupRemovesIff`).
* Overlapping scheduler calls on one pair of node and task can leave a task without an update time, which no
  cleanup removes until the pair is scheduled or cancelled again, or an update time without a task (`TaskWithoutTime`, `OrphanStays`, `TimeWithoutTask`).
  A pair ends right if and only if the last section that touched its list entry and the last that touched its
  update time did the same (`EndsRightIff`), which they do when work on one pair does not overlap
  (`ApartKeepsIndex`).
* Total and counts are those of the live WebSocket connections over a run of calls if and only if no connection
  is disconnected a second time, as the zombie check makes happen (`BooksStayRightIff`). With other connections
  from the same address the two books stay equal to each other and hide it (`DisconnectKeepsQuietIff`); with
  nothing connected the total wraps and every later connect is refused (`StrayDisconnectRefusesAll`).

## Model

| member | source | states |
|---|---|---|
| LruStore.DropKeepsIndex | wallet/cache.rs:277-287 | removing any entry, deleting its key and shifting later positions leaves the map holding exactly the keys at their positions |
| LruStore.PushKeepsIndex | wallet/cache.rs:235-242 | appending an absent key with the old length as position keeps the index |
| LruStore.RepairedCleanupKeepsIndex | wallet/cache.rs:111-132 | cleanup with the repair keeps the index whatever has expired |
| LruStore.SuffixCleanupNeedsNoRepair | wallet/cache.rs:111-132 | when the expired entries are a suffix, cleanup as written gives the same vector and the same map as cleanup with the repair |
| LruStore.CleanupKeepsIndexIff | wallet/cache.rs:111-132 | cleanup as written keeps the index if and only if the expired entries form a suffix of the vector |
| LruCache.LRUCache.constructor | wallet/cache.rs:89-103 | a new cache is empty |
| LruCache.LRUCache.ShiftPositions | wallet/cache.rs:282-286 | the repair loop lowers by one exactly the positions above the removed one, in whatever order it walks the map |
| LruCache.LRUCache.CollectExpired | wallet/cache.rs:115-122 | the collected list is strictly ascending and holds exactly the positions of expired entries |
| LruCache.LRUCache.CleanupExpired | wallet/cache.rs:111-132 | removing the collected positions from the largest down never leaves the vector and leaves exactly the unexpired entries in order; the map loses exactly the expired keys, and its positions are right when repaired |
| LruCache.LRUCache.Add | wallet/cache.rs:154-185 | a full cache first loses the first entry with the smallest access time, found by the minimum loop; then the entry is appended; panics exactly when full and empty |
| LruCache.LRUCache.InsertWithTtl | wallet/cache.rs:135-187 | cleanup, then overwrite value, expiry and access time of a present key or add; panics exactly on a stale position or capacity 0 |
| LruCache.LRUCache.Insert | wallet/cache.rs:194-246 | with a default TTL as `insert_with_ttl`; otherwise no cleanup, and an updated entry keeps its old expiry |
| LruCache.LRUCache.Get | wallet/cache.rs:248-263 | cleanup, then the value at the looked-up position, whose access time alone changes |
| LruCache.LRUCache.Remove | wallet/cache.rs:273-292 | deletes the key and the entry at its position, and repairs the positions |
| LruCache.LRUCache.Clear | wallet/cache.rs:294-297 | both structures become empty |
| LruRecency.OldestIsLast | wallet/cache.rs:158-165 | the minimum search on access times finds the tail of the recency order |
| LruRecency.ApplyStep | wallet/cache.rs:135-297 | each operation of the repaired cache answers as the timed recency list does and leaves a vector standing for the new list |
| LruRecency.RepairedCacheIsRecencyList | wallet/cache.rs:111-297 | with the repair, every run with any TTLs returns what a recency list of at most `capacity` timed items returns, and never panics |
| LruRecency.EveryRunKeepsIndex | wallet/cache.rs:111-297 | every run on any clock keeps the map the exact index of distinct keys and the size within capacity: with the repair always, as written while the expired entries are last at each cleanup |
| LruRecency.WrittenCacheIsRecencyListWhenSafe | wallet/cache.rs:111-297 | the code as written does so on every run whose cleanups find the expired entries last |
| LruRecency.WrittenCacheWithoutTtl | wallet/cache.rs:194-297 | the code as written is exactly a least-recently-used list on every run without TTLs |
| LruRecency.HitIsLastWrite | wallet/cache.rs:248-263 | after any run with the repair, `get` returns none or the value last inserted under the key and not removed or cleared since |
| LruRecency.HitUntilExpiry | wallet/cache.rs:135-263 | an entry inserted with a TTL into an empty cache is there for the next `get`, with and without the repair, if and only if that comes no later than insertion time plus TTL |
| LruRecency.GetHitsIffLive | wallet/cache.rs:248-263 | with the repair, `get` returns v if and only if the vector holds an unexpired entry of that key with value v |
| LruRecency.GetsAnswerRightlyIff | wallet/cache.rs:248-263 | from a correct index and with all values different, the code as written answers every `get` as the repaired code does if and only if the expired entries form a suffix |
| LruRecency.StaleGet | wallet/cache.rs:248-263 | as written, with only the first of three entries expired, `get` of the second key returns the third value and `get` of the third panics |
| LruRecency.StalePositionAnswersWrongly | wallet/cache.rs:111-132 | three ordinary TTL insertions, cleaning up as written, lead to a cache where `get` of the second key returns the third value and `get` of the third panics |
| LruRecency.FirstInsertPanicsIff | wallet/cache.rs:156-167 | the first insertion into an empty cache panics if and only if the capacity is 0 |
| TokenStore.WithoutKeepsAgreement | network/security/token.rs:123-132 | removing any set of tokens from both maps, and users left with none, keeps the maps in agreement |
| TokenStore.CreationKeepsAgreement | network/security/token.rs:140-188 | creation with eviction at the cap keeps agreement and the cap of max(1, max_tokens_per_user) |
| TokenStore.ListLengthsSumToTokens | network/security/token.rs:51-54 | under agreement the list lengths sum to the number of tokens |
| TokenStore.EvictionTakesEarliest | network/security/token.rs:172-180 | the evicted token expires no later than any token of that user |
| TokenStore.CleanupTakesPrefix | network/security/token.rs:105-132 | cleanup removes a prefix of each list |
| TokenStore.ApplyKeepsAll | network/security/token.rs:92-270 | every operation keeps agreement and the order of each list by creation |
| TokenStore.SerialRunKeepsAll | network/security/token.rs:92-270 | every serial run with fresh ids and a nondecreasing clock keeps the maps in agreement and every list in order of creation |
| TokenLifetime.CreatedTokenLasts | network/security/token.rs:140-216 | a token stands with the user, role, dates and metadata of its creation through every run that does not revoke it or its user, does not clean up after its time, and creates fewer than max(1, max_tokens_per_user) tokens for its user |
| TokenLifetime.CreationSize | network/security/token.rs:172-185 | a creation makes the user's list one longer until the cap is reached, and keeps it at the cap from then on |
| TokenService.TokenService.constructor | network/security/token.rs:59-70 | a new service holds no token |
| TokenService.TokenService.CreateToken | network/security/token.rs:140-188 | the new state is the old one without the token evicted at the cap, plus the new token in both maps |
| TokenService.TokenService.ValidateToken | network/security/token.rs:191-216 | accepts exactly known tokens whose expiry is not before now, and tells expired from unknown |
| TokenService.TokenService.RevokeToken | network/security/token.rs:219-241 | both maps lose exactly that token; an unknown token is an error and changes nothing |
| TokenService.TokenService.RevokeUserTokens | network/security/token.rs:253-270 | both maps lose exactly the user's tokens, none of that user remains, and the count is the length of the list |
| TokenService.TokenService.RemoveAll | network/security/token.rs:123-132 | in whatever order the loop runs, both maps lose exactly the collected tokens, and users without tokens go |
| TokenService.TokenService.CleanupExpiredTokens | network/security/token.rs:92-137 | both maps lose exactly the expired tokens, and the count is their number |
| TokenInterleaving.FinishKeepsInv | network/security/token.rs:168-185 | the second section of a creation keeps the invariant although other steps came since the first |
| TokenInterleaving.SweepKeepsInv | network/security/token.rs:118-133 | the removal section of a cleanup, working from an earlier scan, keeps the invariant and records the tokens it takes in flight |
| TokenInterleaving.EveryInterleavingKeepsInv | network/security/token.rs:92-270 | in every interleaving each token is in its owner's list or in flight, each listed token is live or was removed in flight, and no list outgrows the cap |
| TokenInterleaving.RevokeUserLeavesOnlyInFlight | network/security/token.rs:253-270 | after any interleaving, revoking a user leaves no token of that user but those of creations between their sections |
| TokenInterleaving.CapHoldsUpToInFlight | network/security/token.rs:172-185 | a user's live tokens number at most the cap plus that user's creations in flight |
| TokenInterleaving.DeadTokenCanBeListed | network/security/token.rs:161-185 | some interleaving ends at rest with a listed token that is gone |
| TokenInterleaving.UndisturbedCreation | network/security/token.rs:140-188 | the two sections without a step between them are the serial creation |
| TokenInterleaving.UndisturbedRevocations | network/security/token.rs:219-270 | the revocation steps are the serial revocations |
| TokenInterleaving.UndisturbedCleanup | network/security/token.rs:92-137 | scan and sweep without a step between them are the serial cleanup |
| TokenLoss.LostIffTaken | network/security/token.rs:118-133 | a step removes a token in flight if and only if it is a revocation of a live token in flight or the removal section of a cleanup whose scan found one |
| TokenLoss.FinishLists | network/security/token.rs:168-185 | the second section lists its token in any case, and the token is live afterwards if and only if it was before |
| TokenLoss.OwnedAfterIff | network/security/token.rs:92-270 | a step from lists that hold only live tokens keeps them so if and only if it does not list a dead one |
| TokenLoss.OwnedThroughoutIff | network/security/token.rs:92-270 | in any interleaving the lists hold only live tokens of their users throughout if and only if every creation finds its token still in the map as it lists it |
| TokenLoss.AgreesThroughoutIff | network/security/token.rs:92-270 | in an interleaving that ends at rest they do so if and only if no revocation or cleanup takes a token between the sections of its creation, and the maps then agree in the end |
| TokenLoss.ScanFindsInFlightIff | network/security/token.rs:96-111 | a scan finds a live token in flight if and only if its clock is more than the lifetime past the creation's |
| TokenLoss.TimelyCreationsSurviveCleanups | network/security/token.rs:92-188 | when every creation ends within its token's lifetime, no cleanup of any interleaving takes a token in flight |
| TokenLoss.TimelyRunAgrees | network/security/token.rs:92-270 | if also nobody revokes a token before its creation has returned it, the lists are right throughout and the maps agree at rest |
| CircuitBreaker.BreakerIsItsHistory | network/plugins/pool.rs:117-189 | after any events with a nondecreasing clock the breaker is closed if and only if the failures since the last success are below max(1, max_failures), and count and last failure are those of the history |
| CircuitBreaker.AdmissionIsItsHistory | network/plugins/pool.rs:133-152 | `can_attempt` is true if and only if those failures are below the threshold or the reset timeout has passed since the last failure |
| CircuitBreaker.OpenKnowsFailureAndHalfOpenArmIsDead | network/plugins/pool.rs:136-188 | an open breaker has a last failure, and a half-open one is at its limit, so the branch that reopens below the limit is unreachable |
| CircuitBreaker.CircuitBreaker.constructor | network/plugins/pool.rs:117-126 | a new breaker has the empty history |
| CircuitBreaker.CircuitBreaker.CanAttempt | network/plugins/pool.rs:133-152 | answers from the history and keeps the fields its function |
| CircuitBreaker.CircuitBreaker.OnSuccess | network/plugins/pool.rs:159-166 | records a success and keeps the fields the function of the history |
| CircuitBreaker.CircuitBreaker.OnFailure | network/plugins/pool.rs:175-189 | records a failure and keeps the fields the function of the history |
| RetryingConnector.RedisConnectionPool.constructor | network/plugins/pool.rs:744-754 | keeps the given breaker and retry limit |
| RetryingConnector.RedisConnectionPool.Retry | network/plugins/pool.rs:779-804 | an admitted call connects until the first success or max_retries + 1 failures, and reports one outcome; the fall-through is unreachable |
| RetryingConnector.RedisConnectionPool.CreateConnection | network/plugins/pool.rs:767-808 | rejected exactly when the breaker's history says so, with no connect; otherwise stops at the first success or after max_retries + 1 failures, and the breaker's history grows by the attempt and exactly one outcome |
| RetryingConnector.OpenSpacing | network/plugins/pool.rs:136-147 | once open, admitted calls of an outage are a reset timeout apart |
| RetryingConnector.RedisConnectionPool.ServeOutage | network/plugins/pool.rs:767-808 | any serial calls of `create_connection` with the server down for T make at most (max_retries + 1) * (max(1, max_failures) + T / reset_timeout) connects, whatever happened before; each admitted call makes max_retries + 1 of them and records one failure |
| RetryingConnector.OutageBound | network/plugins/pool.rs:133-152 | the bound for the calls that the breaker's history admits while each admitted call fails, whatever the history was |
| RetryingConnector.OneFailurePerAdmittedCall | network/plugins/pool.rs:175-189 | the history of an outage holds one more failure per admitted call and none per rejected one |
| ConnectionPool.ConnectionPool.constructor | network/plugins/pool.rs:279-296 | a new pool is empty and open |
| ConnectionPool.ConnectionPool.Acquire | network/plugins/pool.rs:417-450 | hands out the first of the connections that are young enough and leaves the rest of them; in plain time, one idle for less than timeout + 1 seconds, or none if there is none; nothing from a shut pool |
| ConnectionPool.ConnectionPool.Release | network/plugins/pool.rs:464-501 | appends with the current time if open, not reported dead and below max_size; the queue stays sorted and bounded |
| ConnectionPool.ConnectionPool.Walk | network/plugins/pool.rs:314-344 | the index walk terminates and sorts the queue into kept and closed, both in order, for any health check |
| ConnectionPool.ConnectionPool.Cleanup | network/plugins/pool.rs:306-358 | a cleanup pass keeps the queue sorted and bounded, and kept plus closed is a permutation of what was there; in plain time, it keeps exactly the connections idle for less than timeout + 1 seconds and, if idle for 121 or more, not reported dead |
| ConnectionPool.ConnectionPool.ForceCloseAll | network/plugins/pool.rs:626-659 | shuts the pool, empties it and closes every connection in order |
| ConnectionPool.FrontDropIsAgeDropIff | network/plugins/pool.rs:440-446 | dropping from the front while aged drops exactly the aged connections if and only if they come first |
| ConnectionPool.AcquireDropsWhatCleanupDrops | network/plugins/pool.rs:320-326 | on a sorted queue `acquire` and the cleanup drop the same connections when none is reported dead |
| ConnectionPool.HandsOutOldestYoung | network/plugins/pool.rs:438-449 | no unexpired connection is older than the one handed out |
| WebSocketAccounting.FetchAddKeepsInv | network/plugins/ws.rs:107-112 | the total check lets at most 1000 tasks through, whatever tasks over the limit are still counted |
| WebSocketAccounting.FetchSubKeepsInv | network/plugins/ws.rs:109-122 | a fetch_sub finds the total above 0 and never leads to blocking |
| WebSocketAccounting.PerIpKeepsInv | network/plugins/ws.rs:116-138 | the per-IP section accepts at most 20 of an IP, and a refused task leaves with the count 20, below the blocking threshold |
| WebSocketAccounting.DisconnectKeepsInv | network/plugins/ws.rs:165-178 | the first half of a disconnect finds a positive count of its IP |
| WebSocketAccounting.EveryInterleavingKeepsInv | network/plugins/ws.rs:92-178 | every interleaving of any number of tasks keeps the invariant |
| WebSocketAccounting.Accounting | network/plugins/ws.rs:92-178 | at every moment the total is the sum of the per-IP counts plus the tasks between the two updates; at most 1000 accepted, at most 20 per IP and exactly as counted; nothing is ever blocked |
| WebSocketAccounting.TotalNeverUnderflows | network/plugins/ws.rs:109-178 | no fetch_sub of any interleaving finds the total at 0 |
| WebSocketAccounting.CountersUndo | network/plugins/ws.rs:107-177 | fetch_add and fetch_sub undo each other on every word, also across the wrap |
| WebSocketManager.WebSocketConnectionManager.constructor | network/plugins/ws.rs:47-54 | nothing is connected or blocked |
| WebSocketManager.WebSocketConnectionManager.CleanExpiredBlocks | network/plugins/ws.rs:72-76 | drops exactly the blocks of ten minutes or more |
| WebSocketManager.WebSocketConnectionManager.TryConnectWithIp | network/plugins/ws.rs:92-154 | answer and new state of a whole call are those of its task's steps run alone, under the caller's own address or 0.0.0.0 if unknown |
| WebSocketManager.WebSocketConnectionManager.DisconnectWithIp | network/plugins/ws.rs:165-178 | lowers the count of the caller's own address, or of 0.0.0.0 if unknown, if positive, and the total in any case, wrapping at 0 |
| WebSocketManager.ConnectIsItsSteps | network/plugins/ws.rs:92-154 | in the step model an undisturbed attempt leaves the shared state as the call does, accepted exactly when the call returns true |
| WebSocketManager.DisconnectIsItsSteps | network/plugins/ws.rs:165-178 | in the step model an undisturbed disconnect leaves the shared state as the call does, and its task gone |
| WebSocketManager.BlockLastsTenMinutes | network/plugins/ws.rs:57-104 | a blocked address is refused until 600 seconds after its block and treated like any other from then on |
| WebSocketManager.BlockedFromTwiceTheLimit | network/plugins/ws.rs:121-140 | an address with 20 counted connections or more is refused, and blocked if and only if 40 or more are counted |
| WebSocketManager.ConnectKeepsQuiet | network/plugins/ws.rs:92-154 | serially a connect succeeds if and only if both counters leave room, and total and sum of counts stay equal |
| WebSocketManager.DisconnectKeepsQuietIff | network/plugins/ws.rs:165-178 | a disconnect keeps the total equal to the sum of the counts if and only if its address has a counted connection, whichever connection it is for |
| WebSocketBooks.ConnectMatches | network/plugins/ws.rs:92-154 | serially a connect is accepted if and only if fewer than 1000 connections are live and fewer than 20 of the same known address, or of unknown address; total and counts stay those of the live connections |
| WebSocketBooks.AcceptedByOwnAddressIff | network/plugins/ws.rs:92-154 | after any run without a second disconnect a client of a known address other than 0.0.0.0 is accepted if and only if fewer than 1000 connections are live and fewer than 20 of its own address, whoever else is connected |
| WebSocketBooks.AcceptedUnknownIff | network/plugins/ws.rs:92-94 | clients of unknown address and of 0.0.0.0 share one limit of 20 |
| WebSocketBooks.DisconnectMatchesIff | network/plugins/ws.rs:165-178 | from any state whose total and counts are those of the live connections, a disconnect keeps them so if and only if its connection is still live, whatever else is connected |
| WebSocketBooks.BooksStayRightIff | network/plugins/ws.rs:685-740 | over any run of connects and disconnects total and counts stay those of the live connections if and only if no connection is disconnected twice |
| WebSocketBooks.MatchesIsQuiet | network/plugins/ws.rs:92-178 | counters that match the live connections match each other |
| WebSocketBooks.StrayDisconnectRefusesAll | network/plugins/ws.rs:165-178 | after a disconnect with nothing connected, every connect of any run with fewer than 2^64 - 1000 further disconnects is refused, and only the disconnects move the total |
| AuthLockout.AuthGuard.constructor | network/security/auth_middleware.rs:1671 | no failure is recorded |
| AuthLockout.AuthGuard.RecordFailure | network/security/auth_middleware.rs:1626-1629 | counts one more failure of the IP and stamps it |
| AuthLockout.AuthGuard.Handle | network/security/auth_middleware.rs:1574-1662 | purge, then reject without looking at the token if locked, else evaluate once and count a failure or forget the IP; without an address nothing changes |
| AuthLockout.LockedIff | network/security/auth_middleware.rs:1589-1608 | an IP is rejected if and only if it is at the limit and its last failure is within both the window and the lockout |
| AuthLockout.LockoutHonouredIff | network/security/auth_middleware.rs:1596-1606 | an IP at the limit is rejected for the whole lockout duration if and only if that is no longer than the window |
| AuthLockout.DefaultLockoutIsTheWindow | network/security/auth_middleware.rs:157-163 | with the defaults it is heard again after 60 of the 300 seconds |
| AuthLockout.OthersUnaffected | network/security/auth_middleware.rs:1589-1662 | a request of one IP never changes whether another IP is rejected, now or later |
| AuthLockout.LockoutBound | network/security/auth_middleware.rs:1585-1660 | in a span shorter than both window and lockout, among any traffic, an IP without a success gets at most max(1, max_fail_attempts) requests evaluated |
| LockoutHistory.TableIsHistory | network/security/auth_middleware.rs:1586-1660 | after any traffic the table holds, for every address, the number and the last of the failures since its last success that are remembered, as told from the requests |
| LockoutHistory.ReplyIsHistory | network/security/auth_middleware.rs:1585-1660 | after any traffic a request is rate limited if and only if max(1, max_fail_attempts) or more of its address's failures are remembered and the last is within the window; otherwise its own evidence decides |
| LockoutHistory.SuccessStartsAfresh | network/security/auth_middleware.rs:1635-1637 | after any traffic, once a request of an IP is accepted, its next max(1, max_fail_attempts) requests are all evaluated, whatever else comes in between |
| LockoutInterleaving.UndisturbedRequest | network/security/auth_middleware.rs:1585-1660 | a request with nothing between its check and its recording is handled as the whole request |
| LockoutInterleaving.OverlappingBound | network/security/auth_middleware.rs:1585-1660 | in every interleaving within a span shorter than window and lockout, among any traffic, an IP without a success that never has more than P requests under evaluation gets at most max(1, max_fail_attempts) - 1 + P evaluated |
| LockoutInterleaving.AllPass | network/security/auth_middleware.rs:1585-1614 | any number of requests of an IP that test the lock while it is open, before any is recorded, are all evaluated |
| TokenRevocation.AuthService.constructor | network/security/auth_middleware.rs:237-240 | nothing is revoked and no simple token exists |
| TokenRevocation.AuthService.ValidateJwt | network/security/auth_middleware.rs:377-447 | accepts exactly tokens that pass rate limit and decoding, whose exp is not before now, and that are not revoked |
| TokenRevocation.AuthService.RevokeJwt | network/security/auth_middleware.rs:698-727 | a decodable token is listed with its own exp; otherwise nothing changes |
| TokenRevocation.AuthService.ValidateSimpleToken | network/security/auth_middleware.rs:572-623 | accepts exactly known, unexpired tokens whose IP does not contradict the caller's; expired ones and those of another known IP have their own errors |
| TokenRevocation.AuthService.CreateSimpleToken | network/security/auth_middleware.rs:550-567 | stores the entry under the new token |
| TokenRevocation.AuthService.RevokeSimpleToken | network/security/auth_middleware.rs:626-637 | removes the token; an unknown one is an error |
| TokenRevocation.AuthService.CleanExpiredTokens | network/security/auth_middleware.rs:640-695 | exactly the expired simple tokens and revocations go, and the count is how many |
| TokenRevocation.RemoveKeys | network/security/auth_middleware.rs:667-670 | the removal loop removes exactly the collected keys, in any order, and counts them |
| TokenRevocation.RevocationIsPermanent | network/security/auth_middleware.rs:408-435 | after a successful revocation no later validation accepts the token, in any run of whole calls with any cleanups, on clocks that do not run backwards |
| TokenRevocation.CleanupIsUnobservable | network/security/auth_middleware.rs:640-695 | erasing all cleanups from any run of whole calls changes no acceptance decision, of JWTs or simple tokens |
| TokenRevocation.CleanupShowsInRevocation | network/security/auth_middleware.rs:626-637 | after any run, `revoke_simple_token` fails where it would succeed without the cleanups if and only if one of them found the token past its time after it was last created |
| TokenDecisions.JwtAcceptedIff | network/security/auth_middleware.rs:377-447 | after any run of whole calls with any cleanups, a JWT is accepted if and only if rate limit and decoding let it through, it is not past its exp, and it was never revoked |
| TokenDecisions.SimpleAcceptedIff | network/security/auth_middleware.rs:572-623 | after any run, a simple token is accepted if and only if the rate limit lets it through, its last create or revoke is a create, that entry is not past its expiry, and the two addresses are not known to differ |
| TokenDecisions.CreatedIsBound | network/security/auth_middleware.rs:550-623 | a created token is accepted until it expires from its own and from unknown addresses, and from no other, whatever happens to other tokens and however often the tables are cleaned |
| RevocationInterleaving.UndisturbedValidation | network/security/auth_middleware.rs:377-447 | a validation with nothing between its clock step and its list step answers as the whole call |
| RevocationInterleaving.CleanupChangesAnswerIff | network/security/auth_middleware.rs:674-691 | a cleanup changes the answer of a waiting validation if and only if its token is on the list and the cleanup's clock is past the token's expiry |
| RevocationInterleaving.WaitingAcceptedIff | network/security/auth_middleware.rs:417-435 | a validation that waits while its token is on the list is accepted if and only if a cleanup with a clock past the expiry comes, and no new revocation after it, before it gets to the list |
| RevocationInterleaving.RevokedAcceptedIff | network/security/auth_middleware.rs:377-447 | in any interleaving a validation of a revoked token is accepted if and only if its clock is not past the expiry and such a cleanup comes between its clock reading and its list lookup |
| RevocationInterleaving.RevokedTokenCanBeAccepted | network/security/auth_middleware.rs:417-435 | it happens with one validation and one cleanup a second after the expiry |
| Decimal.ParseToDecimal | network/security/auth_middleware.rs:1176-1180 | a number written as decimal text, with or without a plus sign, reads back as itself if it is a u64 and not at all otherwise |
| Decimal.ParseNeedsDigits | network/security/auth_middleware.rs:1176-1180 | text with anything but digits after the sign, or without digits, is no number |
| KeyRotation.AuthorityTells | network/security/auth_middleware.rs:1203-1214 | the authority counted by the passes tells entries apart by user, name, role, expiry and address, and by nothing else |
| KeyRotation.RenewedCarries | network/security/auth_middleware.rs:1197-1214 | a renewed entry is dated now, notes the rotation, drops the metadata and carries everything else of the old one |
| KeyRotation.RenewedIsYoung | network/security/auth_middleware.rs:1200-1217 | a renewed entry is not aged and carries the same authority |
| KeyRotation.RotateAged | network/security/auth_middleware.rs:1163-1220 | one pass preserves the multiset of (user, name, role, expiry, ip), and every new entry renews an aged one; told from the dates, entries without a readable date or created no more than max_age ago are untouched, older ones are gone, and nothing left was created more than max_age ago |
| KeyRotation.KeyTables.CheckApiKeyRotation | network/security/auth_middleware.rs:1163-1220 | the same of the API keys |
| KeyRotation.KeyTables.CheckSimpleTokenRotation | network/security/auth_middleware.rs:1223-1280 | the same of the simple tokens |
| KeyRotation.KeyTables.KeysToRevoke | network/security/auth_middleware.rs:758-780 | collects exactly the user's keys that are not provably within max_age |
| KeyRotation.KeyTables.RotateApiKey | network/security/auth_middleware.rs:743-810 | the user is left with exactly the new key and the keys created no more than max_age ago by a readable date, with the new key alone if no max_age is given; other users' keys are unchanged |
| TaskSlots.ExchangeKeepsInv | network/dispatcher/task_dispatcher.rs:76-77 | a successful exchange, even after the counter changed and came back, takes one slot below the limit |
| TaskSlots.FinishKeepsInv | network/dispatcher/task_dispatcher.rs:95-103 | a holder's fetch_sub finds the counter above 0 |
| TaskSlots.NextKeepsInv | network/dispatcher/task_dispatcher.rs:66-103 | every load, exchange, fetch_sub and store keeps the counter equal to the slots held |
| TaskSlots.SlotAccounting | network/dispatcher/task_dispatcher.rs:66-103 | in every interleaving the counter is the number of slots held, at most 1000, and the underflow repair is never due |
| TaskSlots.GivingUpTakesTenChanges | network/dispatcher/task_dispatcher.rs:78-92 | a call that gives up on contention has seen the counter change at least ten times since it began |
| TaskSlots.RefusedOnlyWhenFull | network/dispatcher/task_dispatcher.rs:70-88 | in every interleaving a load turns a call away if and only if all 1000 slots are held, and a lost exchange if and only if it is the tenth attempt |
| TaskSlots.UndisturbedExchangeSucceeds | network/dispatcher/task_dispatcher.rs:72-77 | an exchange with no change since the load succeeds and takes one slot |
| TaskSlots.StrayFinishHarmlessIff | network/dispatcher/task_dispatcher.rs:95-103 | a whole finish by a thread without a slot keeps the accounting if and only if the counter is 0, where the repair catches it; otherwise the counter falls below the slots held |
| TaskDispatcher.TaskManager.constructor | network/dispatcher/task_dispatcher.rs:58-62 | no slot is taken |
| TaskDispatcher.TaskManager.CompareExchange | network/dispatcher/task_dispatcher.rs:76 | writes exactly when the counter is as expected |
| TaskDispatcher.TaskManager.TryStartTask | network/dispatcher/task_dispatcher.rs:66-93 | against any interference, a slot is taken at the first undisturbed attempt that finds room; false means no room or ten lost exchanges; alone, a slot is taken exactly when there is room |
| TaskDispatcher.TaskManager.FinishTask | network/dispatcher/task_dispatcher.rs:95-103 | gives one slot back, and stays at 0 from 0 |
| TaskDispatcher.TaskManager.MapRolesToTasks | network/dispatcher/task_dispatcher.rs:207-246 | against any interference, maps roles to tasks in order and gives the slot back once, or reports none, without a slot, when full or after ten lost exchanges; alone, the counter ends as it was |
| TaskDispatcher.TaskManager.MapRolesToTasksAsync | network/dispatcher/task_dispatcher.rs:139-203 | against any interference, a success keeps exactly one slot, a refusal for want of room or after ten lost exchanges none; the tasks are the same as in the other form |
| TaskDispatcher.AsyncCallsFillTheCounter | network/dispatcher/task_dispatcher.rs:139-246 | with nobody giving slots back, any mix of calls raises the counter by one per asynchronous call up to 1000, where it stays |
| SchedulerIndex.DefaultSchedulerService.constructor | network/node_manager/scheduler.rs:36-40 | no task is scheduled |
| SchedulerIndex.DefaultSchedulerService.ScheduleTask | network/node_manager/scheduler.rs:142-186 | rejects empty ids, empty tasks and tasks with a colon without a change; otherwise appends the task and stamps its key |
| SchedulerIndex.DefaultSchedulerService.GetScheduledTasks | network/node_manager/scheduler.rs:188-214 | answers the node's list itself, empty for an unknown node, and rejects an empty id |
| SchedulerIndex.DefaultSchedulerService.CancelTask | network/node_manager/scheduler.rs:216-261 | all occurrences and the key go; an error exactly when the task was not listed |
| SchedulerIndex.DefaultSchedulerService.FilterNodes | network/node_manager/scheduler.rs:93-112 | in whatever order, the lists of exactly the given nodes lose the tasks whose keys are being removed |
| SchedulerIndex.DefaultSchedulerService.Cleanup | network/node_manager/scheduler.rs:58-113 | expired keys go, and tasks are filtered for the nodes those keys name |
| SchedulerIndex.KeyIsInjective | network/node_manager/scheduler.rs:151-153 | because tasks hold no colon, the key determines node and task, whatever the node ids |
| SchedulerIndex.KeyReadsOneWay | network/node_manager/scheduler.rs:238-242 | a key of colon-free parts has no other reading, even for a cancel with a colon in its task |
| SchedulerIndex.NodeOfKey | network/node_manager/scheduler.rs:72-76 | splitting at the first colon gives back a colon-free node |
| SchedulerIndex.ScheduleKeepsIndex | network/node_manager/scheduler.rs:161-174 | scheduling keeps the index: for colon-free nodes the keys are exactly the listed pairs |
| SchedulerIndex.CancelKeepsIndex | network/node_manager/scheduler.rs:229-243 | cancelling keeps the index, for any node and task text |
| SchedulerIndex.CleanupRemovesIff | network/node_manager/scheduler.rs:70-104 | a listed pair is removed if and only if its own key has expired and its node is colon-free |
| SchedulerIndex.CleanupKeepsIndex | network/node_manager/scheduler.rs:58-113 | after a cleanup the update times are still kept for exactly the listed tasks of colon-free nodes |
| SchedulerIndex.EveryRunKeepsIndex | network/node_manager/scheduler.rs:58-261 | every run of schedule, cancel and cleanup keeps update times for exactly the listed tasks of colon-free nodes |
| SchedulerIndex.ColonNodeTaskStays | network/node_manager/scheduler.rs:70-104 | a task of a node with a colon stays through any run that does not cancel on that node |
| SchedulerIndex.ColonTaskNamesAnotherPair | network/node_manager/scheduler.rs:238-242 | cancelling a task text with a colon removes the key of another node's task |
| SchedulerLifetime.ScheduledTaskLives | network/node_manager/scheduler.rs:58-174 | a colon-free pair scheduled at t, and neither scheduled again nor cancelled, is listed after any run if and only if no cleanup of the run came at t + 1801 seconds or later |
| SchedulerLifetime.CleanupDecidesByTime | network/node_manager/scheduler.rs:68-71 | such a pair is listed after a cleanup at now, the latest of the run, if and only if less than 1801 seconds have passed since t |
| SchedulerLifetime.ListedInOrder | network/node_manager/scheduler.rs:160-206 | over runs of schedules a node's list grows by the tasks scheduled for it, in order and each as often as scheduled |
| SchedulerInterleaving.UndisturbedCalls | network/node_manager/scheduler.rs:160-243 | a schedule or cancel with nothing between its sections is the whole call |
| SchedulerInterleaving.UndisturbedCleanup | network/node_manager/scheduler.rs:58-108 | a cleanup with nothing between its sections is the whole cleanup |
| SchedulerInterleaving.EndsRightIff | network/node_manager/scheduler.rs:58-261 | after any interleaving, timeouts included, a colon-free pair is listed exactly if it has an update time if and only if the last section that touched its list entry and the last that touched its update time did the same |
| SchedulerInterleaving.ApartKeepsIndex | network/node_manager/scheduler.rs:58-261 | from rest to rest the index is kept by every interleaving in which work on one pair does not overlap and no call times out halfway |
| SchedulerInterleaving.TaskWithoutTime | network/node_manager/scheduler.rs:156-243 | a schedule between the sections of a cancel, or one that times out between its own, leaves a task without an update time |
| SchedulerInterleaving.TimeWithoutTask | network/node_manager/scheduler.rs:160-243 | a cancel between the sections of a schedule leaves an update time without a task |
| SchedulerInterleaving.OrphanStays | network/node_manager/scheduler.rs:64-108 | a task without an update time survives every later interleaving without a new schedule or cancel of that pair |
| EscapeSql.FourPassesAreOne | network/security/mod.rs:38-45 | the four passes equal one character-wise map |
| EscapeSql.OrderMatters | network/security/mod.rs:40-44 | with the doubling of backslashes moved last the result differs if and only if the input holds a percent sign or an underscore |
| EscapeSql.UnescapeEscape | network/security/mod.rs:38-45 | a decoder recovers every input |
| EscapeSql.EscapeIsInjective | network/security/mod.rs:38-45 | different inputs have different escapes |
| EscapeSql.EscapedIff | network/security/mod.rs:38-45 | a string is an escape of something if and only if the decoder accepts it |

## Left out

- Lock order and deadlock in the token service, `get_connection` (which locks the breaker twice), lock timeouts, task spawning, logging and transports.
- The lock that orders the per-IP section, the disconnect and the writes inside them: the WebSocket model allows more interleavings than the lock does.
- `AsyncCache` and the batch, preload and metrics code of the cache: a lock around the modelled operations, and code using fields its struct does not have.
- Integer widths of the failure counters (u32), of `max_retries` (u8) and of clock arithmetic: failures and attempts are unbounded naturals. The atomic counters wrap as in the source.
- JWT cryptography and the decoding library's own checks: a fixed partial function from text to claims plus a free accept or reject per call. The rate limiter is a free reject.
- `rotate_simple_token`, `auto_rotate_api_keys` and `auto_rotate_tokens`: repeats of the modelled rotation, or additions under new ids.
- Rotation under concurrent changes between its read and its write section.
- The task id that `schedule_task` returns, and the timeouts of scheduler calls that are still waiting for their first lock.
- The monitor tasks, top-IP report, shutdown signalling, and a `release` that passes the shutdown check before `force_close_all` and pushes after it.
- The timeout branch of `map_roles_to_tasks_async`: the inner future has no await point, so it completes at its first poll.
- LruRecency.RepairedCacheIsRecencyList: requires the access clock to tick on every call; with equal stamps the code evicts the one earlier in the vector, which no recency list records.
- LruRecency.WrittenCacheIsRecencyListWhenSafe: over whole runs one direction only, since a broken index may go unread; at each cleanup the condition is exact (LruStore.CleanupKeepsIndexIff, LruRecency.GetsAnswerRightlyIff).
- TokenRevocation.RevocationIsPermanent: calls do not overlap; RevocationInterleaving.RevokedAcceptedIff has the exact condition when they do.
- TokenRevocation.CleanupIsUnobservable: calls do not overlap; RevocationInterleaving.CleanupChangesAnswerIff has the exact condition for a waiting validation.
- TokenLoss.TimelyRunAgrees: the time of a step is given with the run; only the clock readings of creations and cleanups are tied to it.
- SchedulerInterleaving.ApartKeepsIndex: one direction only, since overlapping calls can end right by chance; SchedulerInterleaving.EndsRightIff is exact.
- AuthLockout.LockoutBound: requests do not overlap; LockoutInterleaving.OverlappingBound is the bound when they do.
- LockoutHistory.TableIsHistory: requests do not overlap.
- WebSocketAccounting.Accounting: each accepted connection disconnects at most once; WebSocketBooks.BooksStayRightIff says what a second disconnect does.
- TaskSlots.SlotAccounting: only slot holders finish; TaskSlots.StrayFinishHarmlessIff says what happens otherwise.
- TokenService.TokenService.CreateToken: requires an id not in use, as a random UUID is taken to be.
- KeyRotation.RotateAged: requires fresh ids, and a clock below 2^64 seconds.
