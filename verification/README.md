# A verified model of graphql-engine-plus

graphql-engine-plus is a caching proxy in front of Hasura.  This project models, in Dafny, the four
parts of it that keep state shared between processes, and proves what they guarantee over every run.

* **The two-tier query cache.**  `CacheProtocol` is a transition system with a clock, a Redis map with
  expiries, one ETA lock per key, one groupcache map per node and any number of requests with program
  counters.  GET, TTL and SETNX are separate steps, as the pipeline is not a transaction.  Every effect is
  recorded in a log, so that a statement about a hit can name the response it came from.
  `CacheInvariant` holds the inductive invariant, `CacheTheorems` the theorems over all runs,
  `CacheIdentity` those that also need the keys, `CacheRuns` runs that show what is *not* guaranteed.
  `CacheSteps` says what single steps do and `CacheJourneys` follows one request over a whole run.
  `CacheWorlds` tells, from the Redis and groupcache maps of the worlds a request passes through, what it
  is bound to find; `CacheClient` gives the getter, `Set` and the query handler as code, proved to find
  exactly that and to serve it, against every environment.
* **The entry codec, the cache key and the TTL.**  `Fnv`, `Lines`, `Bags`, `Text`, `CacheKey`, `RedisKey`,
  `Codec` and `Metadata` cover `query_cache.go`, with `CacheKeyChanges` for what does change a key; `Regex`,
  `GraphqlText`, `CacheDirective` and `Requests` cover the classification of requests, their routing and the
  TTL chain.
* **The script cache.**  `ScriptCache` gives the dict subclass as a class and its code between awaits as
  functions; the transition system interleaves those with background Redis writes and with other
  servers.  `ScriptCacheTheorems` says exactly when the cache agrees with Redis, `MainScripts` when
  execute_get_main is right, `LibraryFiles` what a library load leaves on disk and reports, and
  `BackgroundWrites` what Redis holds once the writes have run.
* **The batched sync queue and peer discovery.**  `SyncQueue` and `SyncHandler` model the handlers of
  `sync_to_dynamodb.py`, `SyncLoss` says when an item goes missing and `SyncBound` how long the queue gets;
  `Membership` models the discovery loop of `cache_service.go`.

## What the proofs found

* Reading an entry whose TTL reply is 0 (under half a second left, or a failed command) or -2 (gone) on the
  direct path makes a groupcache copy that never expires; the wait loop guards against this.  The exact
  condition, over every run, is `CopyIsImmortalIff`; `DirectCopyCanBecomeImmortal` is a run, and
  `CopyIsServedUntilExpiry` says what it means.
* GET and TTL may see two different writes, so a copy can pair an older body with a newer lifetime
  (`CopyCanMixTwoWrites`).  A copy whose TTL found the key does so if and only if the key was written between
  the two commands (`CopyIsUntornIff`).
* The hashed bytes carry no boundary between query, operation name, header lines and variables.  Requests
  whose parts read the same when joined share both keys without any collision (`InputsAgreeIff`,
  `QueryAndNameShareOneStream`; `BoundaryIsNotHashed` names two).
* The handler does not look at the upstream error: a failed call whose response object reads 200 is stored
  (`FailedUpstreamCanBeStored`).  Transparency is therefore stated about responses that read 200.
* max-age counts whole seconds and can end up to a second after the entry expires (`MaxAgeCanOvershoot`).
  `ServedMaxAge` has the exact condition for every hit, in terms of the instants of build, write and hit.
* The comment at `src/gql_parser.go:46` says that -1 stands for an indefinite TTL.  The code answers -1 exactly
  when the configured maximum is -1 and caching is asked for (`IndefiniteTtlIff`); with a maximum below -1 every
  request that asks for caching gets a TTL that Set refuses (`RefusedTtlIff`).
* Scripts are measured in characters where they are set and in bytes where they are read.  `get` agrees with
  Redis if and only if no length recorded by either measure collides with another content's bytes
  (`GetRefinesRedisIff`, and `LibrarySyncIff` for libraries).  execute_get_main measures in characters, and is
  right if and only if no recorded length collides with those (`MainIsRightIff`).
* A library uploaded with characters outside ASCII is reported as changed by the first load although it is not
  (`FalseChangeIsReported`), and so is one over which a script with the very content was uploaded.
  `FalseChangeIff` has the exact condition, and `ChangeIsReportedOnce` says that it happens once.
* A script uploaded over a library's file stays on disk through later loads of the same library content
  (`ScriptUploadHidesLibrary`); `LoadReachesDiskIff` has the exact condition for runs that mix both kinds of
  upload on one path.
* Two uploads in a row can leave the first one's content in Redis.  What Redis ends up with is the SET that ran
  last (`LatestUploadSurvivesIff`); if they run in the order of the uploads, and none fails, it is the latest upload.
* A failed batch is pushed back without anyone being due to pop it, so for every batch size one failure, or one
  cancelled handler, can leave a full queue behind (`OneFailureCanLeaveFullQueue`).  A batch put back waits behind
  everything already queued (`RequeuedBatchWaitsItsTurn`).
* The batch size comes with each request, so handlers with different sizes share a queue; `QueueIsBounded` counts
  the smaller ones.  With a size that is not positive the item stays in the queue (`NonPositiveSizeNeverPops`).
* An object goes missing when the handler with its last trace is cancelled, or has its requeue refused, and it
  is not pushed again; `NothingIsLostIff` says that there is no other way.  The requeue passes a Python list as
  one value of LPUSH.  Where the client refuses to encode a list, every requeue is refused, and every failed
  batch that the table has not received goes missing.
* An SREM between a node's SADD and SMEMBERS can leave the node out of its own pool, and a tick of a closing
  node after its SREM leaves a dead URL in the set.  `OwnPoolIff`, `MembersIff` and `ClosingNodeStaysIff` say
  exactly when.

## Assumptions

* Redis is one map: the reader client sees what the writer wrote.  A single command is atomic, and each may
  fail on its own.  TTL answers the seconds left rounded to the nearest.  Entries may be dropped at any time.
* All processes read one clock that does not run back.  The two clock readings while the getter's pipeline is
  built are one instant.
* groupcache is one map per node, from which entries may be evicted and copied to other nodes at any time,
  and which may hand one getter's result to other requests for the same key.
* Upstream is arbitrary: any status, body, content type, content encoding and error at any time.  The response
  is read and the entry's metadata built at one instant; the write to Redis comes later.  An entry that no Go
  slice could hold is not saved.
* Of the metadata's JSON, expires_at is printed and read back as the code does, in unbounded integers; the two
  other fields are an opaque sequence of bytes after it.
* JWT parsing is an arbitrary partial function from a token to printed claims.  Printing of the variables
  and of claim values is not modelled: the requests carry the printed text.
* Header values are valid UTF-8, so comparing strings by code points is comparing them by bytes.
* LPUSH of a list of popped items either pushes each of them or is refused; both are modelled.  With a client
  that refuses to encode a list, the refused branch is the only one.
* A command that fails has had no effect in Redis.  The error of the startup SADD is ignored, a tick whose SADD
  fails ends there, and a background write of the script cache may fail unnoticed.  Redis may drop entries but not
  locks before their expiry; `HerdBound` rests on that.
* TTLs and maximum TTLs are at most 9223372036 seconds, so that `time.Duration(ttl) * time.Second` does not wrap.
* Time passes: between two steps of one request at least a millisecond goes by (`CacheWorlds.ValidEnv`).  The
  termination of the polling loop rests on that.
* A request may be cancelled at any point of its lookup; that is the action Abort of the protocol, which every
  theorem over runs allows.  The code in `CacheClient` is that of a request that is not cancelled.

## Model

| member | source | states |
|---|---|---|
| `CacheInvariant.StepKeeps` | src/cache_service.go:210-344 | every atomic step of any request, the clock, groupcache or Redis keeps the invariant that ties Redis, the locks, all groupcaches, all program counters and the log together |
| `CacheInvariant.RunKeeps` | src/cache_service.go:210-449 | the invariant holds in every state of every run from an empty cache, for any number of nodes and requests |
| `CacheTheorems.HitsAreTransparent` | src/fiber_graphql_handler.go:48-61 | in every interleaving a body served as a hit is byte for byte the body of an earlier response that read status 200 for the same Redis key, stored in between |
| `CacheIdentity.HitsAnswerTheSameKey` | src/fiber_graphql_handler.go:49-58 | if requests use the keys they computed, a hit serves a response to a request with the very same cache key |
| `CacheIdentity.SharedRedisKeyIff` | src/query_cache.go:119-200 | two requests share a Redis key if and only if the texts hashed before and after the variables have equal digests |
| `CacheIdentity.HitsAnswerSameDigests` | src/fiber_graphql_handler.go:49-58 | end to end: if requests use the keys computed from them, the response that a hit for a request serves was to a request whose hashed texts have the same digests, whichever of the requests with its recorded keys that was |
| `CacheTheorems.HitsAlwaysDecode` | src/query_cache.go:34-57 | no hit ever meets a decoding error or the slice panic |
| `CacheTheorems.CopiesComeFromRedis` | src/cache_service.go:416-436 | every value in any groupcache was first written to Redis under that key, before the copy was made |
| `CacheTheorems.StoresAreAuthorised` | src/main.go:92-96 | every entry comes from a 200 response with a non-zero cache key and a TTL that Set accepts, and expires exactly that TTL after the write |
| `CacheTheorems.RequestsHaveTtl` | src/fiber_graphql_handler.go:48 | no request with a TTL of 0 ever enters the cache |
| `CacheTheorems.RedisHoldsLastWrite` | src/cache_service.go:407-421 | what Redis holds under a key is the last write of that key, with its data and expiry |
| `CacheTheorems.AcquisitionsAreApart` | src/cache_service.go:242-247 | two successful SETNX on one key's lock are at least waitETA apart, also when SETNX fires on hits |
| `CacheTheorems.AcquisitionsSpread` | src/cache_service.go:242-265 | the n-th acquisition within a period comes no earlier than (n-1) waits into it |
| `CacheTheorems.HerdBound` | src/cache_service.go:231-265 | in any L milliseconds of any run at most L / waitETA + 1 acquisitions, hence lock-acquired misses, happen per key |
| `CacheTheorems.FiniteCopiesFollowRedis` | src/cache_service.go:305-318 | a groupcache copy with an expiry ends within half a second of rounding plus one call's duration of the expiry of a Redis write that came before the copy and no earlier than its data, however often it was refilled or copied |
| `CacheTheorems.LocalHitsAreFresh` | src/cache_service.go:359-382 | a request answered from a groupcache is answered before the copy's expiry, with the same bound to Redis |
| `CacheTheorems.ImmortalCopies` | src/cache_service.go:311-343 | a copy without expiry made by the wait loop, by Set, or on a TTL reply of -1 stands for a write without expiry; any other comes from the direct path with a reply that is not positive |
| `CacheJourneys.CopyIsImmortalIff` | src/cache_service.go:311-343 | in every run, a getter's copy goes back to a TTL command of its request; on the direct path it has no expiry if and only if that command failed or found the key gone, without expiry, or with under half a second left, and in the wait loop if and only if the key had no expiry |
| `CacheJourneys.CopyIsServedUntilExpiry` | src/cache_service.go:371-382 | until it is replaced or evicted, a copy answers its node's requests exactly as long as it is not expired, so one without expiry answers them however late |
| `CacheTheorems.PeersServeCopies` | src/cache_service.go:371-382 | a copy that one node hands to another is served there as it was by the first, and as long |
| `CacheJourneys.SameWriteIff` | src/cache_service.go:238-239 | Redis holds the same write of a key at GET and at TTL if and only if the key was not written in between |
| `CacheJourneys.CopyIsUntornIff` | src/cache_service.go:238-239 | in every run, a getter's copy goes back to a GET and a TTL of its request, and if that TTL found the key, data and lifetime come from one write if and only if the key was not written between the two |
| `CacheJourneys.UntornCopyFollowsItsWrite` | src/cache_service.go:336-343 | a copy whose data and lifetime come from one write ends with that write's expiry, up to rounding and one call's duration |
| `CacheTheorems.WaitingIsBounded` | src/cache_service.go:268-303 | a waiter's ETA is within waitETA of the start of its wait and it makes at most ceil(waitETA / 5) polls that find nothing |
| `CacheTheorems.ConfiguredWaitingIsBounded` | src/config.go:180-184 | with the cap of 3000 each request makes at most 600 such polls, each before the 3300 ms deadline set when its lookup began, unless more than 300 ms passed before its wait |
| `CacheTheorems.PollsAreBounded` | src/cache_service.go:282-299 | every such poll of every run starts before the ETA and respects the count and the 5 ms spacing |
| `CacheTheorems.WaitersGiveUpIff` | src/cache_service.go:275-325 | a waiting request goes to the upstream if and only if it is cancelled, a poll before its ETA fails, or its ETA has passed |
| `CacheJourneys.WaitEndsWithTheLock` | src/cache_service.go:269-303 | a waiter that read a live lock keeps that lock's ETA for its whole wait; over every continuation of the run all its polls come before the lock's expiry, from which on no poll is enabled and it goes to the upstream engine |
| `CacheRuns.DirectCopyCanBecomeImmortal` | src/cache_service.go:336-343 | there is a run in which all writes expire, and a copy that never does outlives them |
| `CacheRuns.CopyCanMixTwoWrites` | src/cache_service.go:238-249 | there is a run in which a copy carries an older body with a newer write's lifetime |
| `CacheRuns.FailedUpstreamCanBeStored` | src/fiber_graphql_handler.go:101-107 | there is a run that stores the response object of a failed upstream call |
| `CacheRuns.MaxAgeCanOvershoot` | src/query_cache.go:67-72 | there is a run in which a hit on a live entry sends a max-age that runs past the entry's expiry |
| `CacheClient.World.Pipeline` | src/cache_service.go:238-253 | GET, TTL and SETNX with others in between: the reply is what Redis held at GET and only a failed GET is an error, the lock is acquired exactly when nobody held it at SETNX, and the log shows it |
| `CacheClient.World.GetThenTtl` | src/cache_service.go:238-239 | the reply of GET is what Redis held when GET ran, whatever happens before TTL |
| `CacheClient.World.TryLock` | src/cache_service.go:242-247 | SETNX acquires exactly when waiting is configured, the command succeeds and no live lock exists; the lock then names the instant the pipeline was built plus the wait as ETA, and lives for the wait from SETNX on |
| `CacheClient.World.TakeBranch` | src/cache_service.go:253-260 | a value goes to the direct path with its TTL, an error to the caller, and exactly a miss without the lock waits |
| `CacheClient.World.PollOnce` | src/cache_service.go:282-319 | a failed poll gives up; one that finds nothing sleeps five milliseconds and changes only the count; one that finds the key neither sleeps nor gives up, and ends with exactly what Redis held at that poll if its TTL then answers -1 or a positive number, and polls on if not |
| `CacheClient.World.PollNow` | src/cache_service.go:282-304 | where the poll's GET leads, read off the Redis map |
| `CacheClient.World.TtlNow` | src/cache_service.go:305-318 | the poll's TTL lets the value found through exactly if the key is still there without expiry or with at least half a second left |
| `CacheClient.World.SleepAndWake` | src/cache_service.go:292-299 | the sleep ends and leaves the loop variables alone |
| `CacheClient.World.WaitLoop` | src/cache_service.go:275-325 | the polling loop ends against every environment after at most ceil(waitETA / 5) sleeps; it has the value of the first poll before the ETA that finds one whose TTL tells its life, and goes to the upstream if and only if there is none or a poll failed before |
| `CacheClient.World.AwaitWinner` | src/cache_service.go:265-325 | the same from reading the ETA on: the wait ends with the lock's ETA, or with the pipeline's own if that cannot be read |
| `CacheClient.World.FindEntry` | src/cache_service.go:230-343 | what the getter finds is what GET found, or, after a miss while another request holds the lock, what the polling loop is bound to find |
| `CacheClient.World.GetterFunc` | src/cache_service.go:209-344 | the getter ends with the value it was bound to find, in the loop or before, served and copied to the owner's node; it misses if and only if there was none |
| `CacheClient.World.SetBytesOnOwner` | src/cache_service.go:336-343 | the value goes to the caller and to the owner's groupcache, with the TTL read counted from now, or without expiry if that is not positive |
| `CacheClient.World.Set` | src/cache_service.go:397-449 | stores exactly when the TTL is valid and the Redis write succeeds; right then Redis holds the entry with that TTL as expiry, and, unless groupcache fails, the owner's groupcache gets it with the TTL counted from its own write; otherwise nothing changes |
| `CacheClient.World.Lookup` | src/cache_service.go:351-382 | a live local copy is served without touching Redis; otherwise exactly what the getter is bound to find |
| `CacheClient.World.SaveToCache` | src/query_cache.go:83-113 | what is stored is the status 200 response that was read, exactly when Set accepts the TTL and the write succeeds |
| `CacheClient.World.AskUpstream` | src/fiber_graphql_handler.go:62-108 | the response is stored exactly when it reads 200, the cache key is not zero, the TTL is valid and the write succeeds, whatever the upstream call returned |
| `CacheClient.World.HandleQuery` | src/fiber_graphql_handler.go:42-110 | hits exactly when there is something to find, and serves the body encoded in it: in the live copy on the owner's node if there is one, else in the entry GET finds, else in what the polling loop finds; this is an earlier stored 200 body, and nothing is stored; a miss answers the upstream's body, or its error, records it, and stores it only under the conditions above, and always under them when no command fails |
| `CacheClient.World.SendCached` | src/query_cache.go:27-81 | sends exactly the body encoded in the data found, which is that of a stored 200 response, with the max-age that the entry's expires_at gives |
| `Fnv.PrimeIsInvertible` | src/query_cache.go:130 | multiplying by the FNV prime modulo 2^64 is undone by its inverse, both ways |
| `Fnv.AbsorbIsABijection` | src/query_cache.go:130-132 | for any input, hashing it is a bijection of the 64-bit states, with an explicit inverse |
| `Fnv.AbsorbConcat` | src/query_cache.go:130-132 | the hash is streaming: two writes are one write of the concatenation |
| `Fnv.OneByteChangesDigest` | src/query_cache.go:189-195 | inputs of equal length that differ in exactly one byte never share a digest |
| `Fnv.KnownDigests` | src/query_cache.go:130 | the published FNV-1a digests of the empty input and of the letter a |
| `Fnv.Hash64a.Write` | src/query_cache.go:189-194 | the byte loop absorbs its argument into the state |
| `Lines.SortedIsUnique` | src/query_cache.go:184-187 | a sorted list is determined by its multiset of strings |
| `Lines.SortStrings` | src/query_cache.go:184-187 | sorting gives the one sorted list with the same contents |
| `Lines.LeqIsLexicographic` | src/query_cache.go:184-187 | the order is that of the first difference, a prefix coming first |
| `CacheKey.AppendClaims` | src/query_cache.go:160-164 | the claims left contribute one line each, whatever order the map is iterated in |
| `CacheKey.AppendValue` | src/query_cache.go:139-181 | one header value contributes nothing if filtered, its claims if it is a parseable token, itself otherwise, and panics exactly on a token value shorter than seven bytes |
| `CacheKey.CollectLines` | src/query_cache.go:135-183 | the lines collected do not depend on the order of the header map |
| `CacheKey.CalculateCacheKey` | src/query_cache.go:119-196 | both keys are functions of the request alone; the computation fails exactly on a short token value |
| `CacheKey.FilteredHeadersDoNotMatter` | src/query_cache.go:122-143 | adding or altering a filtered header changes neither key |
| `CacheKeyChanges.FilteredIff` | src/query_cache.go:122 | exactly the nine named headers, in any case, are filtered |
| `CacheKey.TimedClaimsDoNotMatter` | src/query_cache.go:144-171 | altering exp, nbf, iat or jti of a parseable token changes neither key |
| `CacheKeyChanges.HeaderLineTellsParts` | src/query_cache.go:178-180 | the line of a header value tells its value, and its name |
| `CacheKeyChanges.ValueChangesLines` | src/query_cache.go:135-181 | any change of one value of an unfiltered header that is not a parseable token trades its line for another in the collected multiset, so the multisets differ |
| `CacheKeyChanges.ValueChangesKeys` | src/query_cache.go:135-195 | if that change is in one byte and the line keeps its place in the sorted list, both keys differ |
| `CacheKeyChanges.ClaimLineTellsParts` | src/query_cache.go:160-164 | the line of a claim tells its value, its name and its header |
| `CacheKeyChanges.ClaimChangesLines` | src/query_cache.go:144-171 | two parseable tokens whose claims differ in the value of one claim other than exp, nbf, iat and jti give different collected multisets of lines |
| `CacheKeyChanges.ClaimChangesKeys` | src/query_cache.go:144-195 | if the two values differ in one byte and the claim's line keeps its place in the sorted list, both keys differ |
| `CacheKey.FamilyAndCacheKeyDetermineEachOther` | src/query_cache.go:192-195 | with equal printed variables, family keys are equal if and only if cache keys are, and the family key can be recovered |
| `CacheKey.NearbyVariablesGetDifferentKeys` | src/query_cache.go:193-194 | within a family, variables that differ in one byte get different cache keys |
| `CacheKey.KeysDigestOneStream` | src/query_cache.go:130-194 | both keys are FNV-1a digests of one stream of bytes and of a prefix of it |
| `CacheKey.NearbyRequestsGetDifferentKeys` | src/query_cache.go:130-196 | requests whose hashed bytes differ in exactly one position never share a key |
| `Text.Utf8Injective` | src/query_cache.go:131-132 | texts with equal UTF-8 bytes are equal |
| `CacheKey.InputsAgreeIff` | src/query_cache.go:130-194 | two requests are hashed from the same bytes if and only if query, operation name, sorted lines and variables, joined, read the same |
| `CacheKey.QueryAndNameShareOneStream` | src/query_cache.go:131-132 | with equal headers and variables, the hashed bytes agree if and only if query and operation name, joined, read the same, and then both keys are equal |
| `CacheKeyChanges.PanicsOnShortTokens` | src/query_cache.go:144 | the computation panics if and only if some value under seven bytes stands in a header that may carry a token and is none of the nine filtered ones |
| `CacheIdentity.BoundaryIsNotHashed` | src/query_cache.go:131-132 | two cached queries that differ in query and operation name and share both keys without any collision, whatever the headers and variables |
| `RedisKey.FormatParses` | src/query_cache.go:202-208 | base-36 printing has a left inverse |
| `RedisKey.FormatHasNoColon` | src/query_cache.go:202-208 | a printed key never contains the separator |
| `RedisKey.RedisKeyInjective` | src/query_cache.go:198-200 | different pairs of keys never share a Redis key |
| `RedisKey.KeysLookLike` | src/query_cache.go:198-208 | the prefix, separators and digits of sample keys, family first |
| `Codec.DecodePanicsIffLengthOverflows` | src/query_cache.go:42-53 | with the check in wrapping arithmetic, the slices go out of range exactly for stored lengths above 2^63 - 9 |
| `Codec.DecodeInvertsEncode` | src/query_cache.go:34-57 | decoding succeeds exactly when the stored length fits, and encoding the result gives the data back |
| `Codec.EncodeDecodes` | src/query_cache.go:90-106 | every entry with a body or metadata decodes to what was encoded, its stored length being in the safe range; the empty one alone does not |
| `Codec.LittleEndianInverse` | src/query_cache.go:42 | reading eight bytes as a length and writing it back gives the bytes |
| `Codec.PutUint64` | src/query_cache.go:92-93 | fills the buffer with the little-endian bytes of the length |
| `Codec.BuildEntry` | src/query_cache.go:90-106 | the buffer built is one that decodes to the body and metadata |
| `Regex.ManyThen` | src/gql_parser.go:30-32 | a starred class followed by a rest matches exactly after some run of the class |
| `Regex.LiteralThen` | src/gql_parser.go:30-32 | a case-insensitive literal followed by a rest matches exactly where the word stands |
| `Regex.WordsAre` | src/gql_parser.go:30-32 | word characters are those that fold to a small ASCII letter, a digit or an underscore, and capitals fold to their small letters |
| `GraphqlText.PatternsDescribed` | src/gql_parser.go:30-43 | the three patterns, with backtracking, accept exactly the texts described by scanning: spaces, keyword, non-word character, and for queries a reachable directive |
| `GraphqlText.CachedQueryMatches` | src/gql_parser.go:32 | the cached-query pattern accepts exactly a leading `query` and a directive it can reach |
| `GraphqlText.PatternsAreDisjoint` | src/gql_parser.go:30-52 | no text matches two of the three patterns |
| `Requests.EndpointsDispatch` | src/main.go:207-249 | no query or an empty one is a bad request and a subscription forbidden on both endpoints; the read-only endpoint refuses exactly mutations besides and never reaches the mutation handler, the read-write endpoint sends exactly mutations to it; every other text reaches the query handler |
| `Requests.OnlyQueriesTouchTheCache` | src/main.go:207-249 | a mutation or subscription text neither reads nor fills the cache on either endpoint |
| `Requests.CachedQueriesReachTheCache` | src/main.go:216-248 | a cached query is refused by neither endpoint, reads the cache exactly when its TTL is not zero and Redis is configured, and only such a request fills it |
| `CacheDirective.ParamsAtIffDenotes` | src/gql_parser.go:33 | the parameters read at a position are exactly those the pattern allows there |
| `CacheDirective.FirstParamsIsLeftmost` | src/gql_parser.go:53-57 | the search returns the groups of the leftmost match, and nothing exactly when there is none |
| `CacheDirective.DigitsGiveMinimum` | src/gql_parser.go:58-70 | a digit string of any length gives min(value, maximum), also when Atoi overflows |
| `CacheDirective.DecimalInvertsPrinting` | src/gql_parser.go:59 | reading digits undoes decimal printing, also with zeros in front |
| `CacheDirective.NoTtlGivesMaximum` | src/gql_parser.go:48-73 | for every maximum, a cached query without parameters, or with ttl:true, or with refresh and digits, gets exactly the maximum |
| `CacheDirective.TtlGivesMinimum` | src/gql_parser.go:58-70 | a cached query whose leftmost parameters are a printed number, with any zeros in front, gets that number or the maximum, and at most either |
| `CacheDirective.RefreshGivesZero` | src/gql_parser.go:48-72 | a text that is no cached query, or that first asks for refresh:true, gets 0 |
| `CacheDirective.TtlCases` | src/gql_parser.go:33 | these are all the cases |
| `CacheDirective.TtlRange` | src/gql_parser.go:48-73 | with a non-negative maximum every TTL is in 0..maximum, non-zero ones are accepted by Set, and it is zero exactly in four named cases |
| `CacheDirective.RefusedTtlIff` | src/cache_service.go:407-409 | a request switches the cache on with a TTL that Set refuses if and only if it asks for caching, without refresh:true, and the maximum is below -1 |
| `CacheDirective.IndefiniteTtlIff` | src/gql_parser.go:45-73 | the TTL is -1 if and only if the request asks for caching and the maximum is -1 |
| `CacheDirective.QueryCanBeRefused` | src/gql_parser.go:48-73 | a family of queries whose answers are refused with a maximum of -2 |
| `Metadata.UnmarshalReadsExpiry` | src/query_cache.go:52-101 | the expires_at read from the metadata is the one written, for every instant and whatever fields follow |
| `Metadata.MaxAgeAgainstLife` | src/query_cache.go:67-98 | max-age is the TTL less the seconds gone by since the build, 0 once that is negative and without expiry; a positive one ends within the entry's life if and only if the hit falls no later in its second than the build plus the time the write took, and never overruns by a second |
| `CacheTheorems.ServedMaxAge` | src/query_cache.go:67-72 | the same for the max-age of every hit of every run, against the life Redis gave the entry it serves |
| `ScriptCache.InternalExecCache.GetAfterRead` | src/scripting/exec_cache.py:23-40 | `get` after its await: absent, remembered, newly compiled, or without main |
| `ScriptCache.InternalExecCache.ExecuteMain` | src/scripting/exec_cache.py:44-60 | returns the remembered function on equal length, else compiles and records it |
| `ScriptCache.InternalExecCache.SetDefaultItem` | src/scripting/exec_cache.py:62-75 | fills only what is missing in each table, and starts a SETNX only for a new key |
| `ScriptCache.InternalExecCache.SetItem` | src/scripting/exec_cache.py:77-88 | overwrites both tables and starts a SET |
| `ScriptCache.InternalExecCache.DeleteItem` | src/scripting/exec_cache.py:18-21 | removes the key from both tables; raises unless both have it, and drops a length without a function all the same |
| `ScriptCache.InternalExecCache.LoadLibAfterRead` | src/scripting/exec_cache.py:98-121 | writes the file when the length differs and says whether a known length changed |
| `ScriptCache.InternalExecCache.UploadScript` | src/scripting/server.py:496-514 | pop, set and file write of an upload as one segment |
| `ScriptCacheTheorems.TablesAgree` | src/scripting/exec_cache.py:18-88 | at every await boundary of every run the two tables have the same script keys, each length measures the stored function's source, and the lookup in execute_get_main never failed |
| `ScriptCacheTheorems.PopBreaksAndSetRestores` | src/scripting/server.py:500-503 | the pop of an upload breaks this agreement for a cached script and the set that follows restores it |
| `ScriptCacheTheorems.DeleteForgets` | src/scripting/exec_cache.py:18-21 | at every point of a run where the tables agree, deleting a key forgets its length, and a script's function, and touches no other key, no file and nothing in Redis |
| `ScriptCacheTheorems.RunsAreRight` | src/scripting/exec_cache.py:23-42 | without collisions every get of every interleaving returns the function of what Redis held at its read, or None |
| `ScriptCacheTheorems.CollisionMisleadsGet` | src/scripting/exec_cache.py:30-32 | any two colliding contents give a run in which get returns the wrong function |
| `ScriptCacheTheorems.GetRefinesRedisIff` | src/scripting/exec_cache.py:23-88 | get is right in all runs over a set of contents if and only if no two of them collide |
| `MainScripts.CollisionMisleadsMain` | src/scripting/exec_cache.py:45-48 | any two contents that collide in characters give a run in which execute_get_main returns the wrong function |
| `MainScripts.MainIsRightIff` | src/scripting/exec_cache.py:44-60 | execute_get_main returns the function of the content it is given, or refuses it for lack of main, in all runs over a set of contents if and only if none of their recorded lengths collides with another's characters |
| `MainScripts.ExecutionRemembers` | src/scripting/exec_cache.py:44-75 | a first execution remembers the function and its length and starts a SETNX of its content; one of a remembered script changes nothing |
| `MainScripts.FirstExecutionIsWritten` | src/scripting/exec_cache.py:44-75 | after the first execution of a script, at every later point of every run, the SETNX of its content is outstanding, has run, or has failed |
| `BackgroundWrites.RedisHoldsLastFlush` | src/scripting/exec_cache.py:77-88 | in every run in which no other server writes the key, each upload's SET has run or failed once, or is outstanding, and Redis holds the content of the last SET that ran |
| `BackgroundWrites.LatestUploadSurvivesIff` | src/scripting/exec_cache.py:77-88 | once a SET of a key has run, whatever failed or is outstanding, Redis holds one of the uploads, and the latest if and only if the last SET that ran has its content |
| `BackgroundWrites.OrderedWritesKeepLatest` | src/scripting/exec_cache.py:77-88 | if a key's SETs run in the order in which they were started, and none fails, Redis ends up with the latest upload |
| `BackgroundWrites.UploadReachesRedis` | src/scripting/server.py:500-514 | whatever else happens after an upload, short of another write of its key, its SET is still outstanding or has failed, or Redis holds the upload |
| `BackgroundWrites.PromptUploadIsRead` | src/scripting/server.py:500-514 | once an upload's SET has run at once, Redis and the file hold it and get returns its function |
| `BackgroundWrites.LateWriteRevertsUpload` | src/scripting/exec_cache.py:77-88 | of two uploads in a row the second survives if and only if its SET runs last or the contents are equal, and the next get returns the function of the survivor |
| `BackgroundWrites.RedisHoldsOutcome` | src/scripting/exec_cache.py:62-88 | in every run in which no other server writes the key, Redis holds the content of the last SET that ran, or of the first SETNX that ran if no SET did |
| `BackgroundWrites.WriteSettles` | src/scripting/exec_cache.py:62-88 | a background write that was started is outstanding, has run, or has failed, at every later point of every run |
| `ScriptCacheTheorems.LibraryRuns` | src/scripting/exec_cache.py:90-121 | without collisions, after each load that found content the file holds it, and a change is reported exactly when a recorded length differed |
| `ScriptCacheTheorems.LibrarySyncIff` | src/scripting/exec_cache.py:90-121 | that is so over all runs of uploads and loads that keep scripts off library paths if and only if no two contents collide |
| `LibraryFiles.ReportedChangeIff` | src/scripting/exec_cache.py:111-121 | over all runs of contents that do not collide, a load reports a change if and only if it read content, a length was recorded, and that was not this content's in bytes |
| `LibraryFiles.FalseChangeIff` | src/scripting/exec_cache.py:112-120 | a load that finds its content on disk already reports a change if and only if that content was recorded in characters that are not its bytes, or another was recorded and a script with this content uploaded over it |
| `LibraryFiles.FalseChangeIsReported` | src/scripting/exec_cache.py:77-120 | for any content with characters outside ASCII there is a run that reports such a change |
| `LibraryFiles.ChangeIsReportedOnce` | src/scripting/exec_cache.py:112-121 | after a load of some content, later loads of it report no change as long as nothing else is recorded for the library |
| `LibraryFiles.LoadReachesDiskIff` | src/scripting/exec_cache.py:98-121 | over all runs of contents that do not collide, scripts uploaded to library paths included, a load leaves what it read on disk if and only if it is not the case that this content was recorded in bytes and a script with other content was uploaded over the file since |
| `LibraryFiles.ScriptUploadHidesLibrary` | src/scripting/server.py:496-514 | for any library and script that do not collide there is a run that ends with a load of the library and the script on disk |
| `SyncQueue.EveryPushIsAccountedFor` | example/graphql-engine/scripts/sync_to_dynamodb.py:59-116 | in every run each push is exactly once in the queue, in a handler's batch, in a completed batch or lost, and the table holds nothing that was not pushed |
| `SyncQueue.NothingIsLost` | example/graphql-engine/scripts/sync_to_dynamodb.py:65-112 | without cancellation, and if requeues are accepted, every object pushed is queued, held or written |
| `SyncQueue.CompletionWritesTheBatch` | example/graphql-engine/scripts/sync_to_dynamodb.py:92-105 | a handler that completes has written every distinct item of its batch and counted each once |
| `SyncLoss.NothingIsLostIff` | example/graphql-engine/scripts/sync_to_dynamodb.py:65-112 | over every run, a pushed item is neither queued, nor held, nor in the table if and only if some handler was cancelled or had its requeue refused while its batch had the item's last trace, and the item was not pushed again since |
| `SyncLoss.MarksAt` | example/graphql-engine/scripts/sync_to_dynamodb.py:65-112 | the marks of a run say of each step whether it takes the last trace of the item and whether it pushes it, in the state reached by then |
| `SyncLoss.CancelCanLose` | example/graphql-engine/scripts/sync_to_dynamodb.py:76-105 | a run in which an item goes missing with a cancelled handler |
| `SyncLoss.RefusedRequeueCanLose` | example/graphql-engine/scripts/sync_to_dynamodb.py:106-108 | a run in which an item goes missing with a refused requeue |
| `SyncQueue.RequeuedBatchWaitsItsTurn` | example/graphql-engine/scripts/sync_to_dynamodb.py:106-112 | in every continuation of the run, a batch that is put back comes out in its old order, after everything popped or queued before and before anything that enters later |
| `SyncQueue.PopsAreInEntryOrder` | example/graphql-engine/scripts/sync_to_dynamodb.py:65-112 | in every run items leave the queue in the order they entered it, by a push or a requeue, whoever pops |
| `SyncQueue.PopsAreInPushOrder` | example/graphql-engine/scripts/sync_to_dynamodb.py:65-76 | that is the order of the pushes as long as nothing was put back, and cannot be otherwise, as what is put back enters again |
| `SyncBound.QueueIsBounded` | example/graphql-engine/scripts/sync_to_dynamodb.py:29-76 | in every run whose batch sizes are at most B, cancellations and mixed sizes included, the queue is shorter than B * (1 + p + c) plus p', c' and what was put back: p handlers saw it full and are about to pop B items, c were cancelled in that state, p' and c' are those of smaller batches, and c' counts the pushes with a batch size that is not positive; cron drains of any size keep this |
| `SyncBound.QuietQueueIsShort` | example/graphql-engine/scripts/sync_to_dynamodb.py:69-76 | as long as nothing was put back or left behind, the bound has only the poppers left, and with nobody about to pop fewer items wait than the largest batch size |
| `SyncBound.OneFailureCanLeaveFullQueue` | example/graphql-engine/scripts/sync_to_dynamodb.py:106-112 | for every batch size, one failed batch that is put back, or one cancelled handler, is enough to leave a full queue with every handler done |
| `SyncBound.NonPositiveSizeNeverPops` | example/graphql-engine/scripts/sync_to_dynamodb.py:69-76 | a handler with a batch size that is not positive ends with its item still in the queue |
| `SyncHandler.World.WriteBatch` | example/graphql-engine/scripts/sync_to_dynamodb.py:78-112 | every distinct item is written and counted, or the batch is pushed back, or refused |
| `SyncHandler.World.Drain` | example/graphql-engine/scripts/sync_to_dynamodb.py:69-114 | pops from the queue as it then is and deals with exactly that batch |
| `SyncHandler.World.HandleChange` | example/graphql-engine/scripts/sync_to_dynamodb.py:29-116 | answers pending exactly when the push left the queue shorter than the request's batch size, and otherwise what became of a batch of that size, or of a refused pop if it is negative |
| `SyncHandler.World.HandleCron` | example/graphql-engine/scripts/sync_to_dynamodb.py:60-76 | leaves a short queue alone and otherwise drains as many items as it counted |
| `Membership.UndisturbedPoolHasSelf` | src/cache_service.go:118-185 | in every run a node whose ticks no SREM of its URL hit is in its own pool, and the tracked list is the pool's if and only if it is not the case that the startup read failed and no list was taken since |
| `Membership.OwnPoolIff` | src/cache_service.go:157-182 | in every run, from a node's last successful read on, its pool has the node if and only if the set had it at that read, or it reads an empty set after a failed startup read |
| `Membership.MembersIff` | src/cache_service.go:127-159 | in every run a URL is in the set if and only if its last successful SADD, by its node's tick or a starting node's list, follows its last SREM |
| `Membership.TickInstallsMembers` | src/cache_service.go:157-182 | an undisturbed tick makes the pool exactly what Redis holds, the node included |
| `Membership.StartInstallsMembers` | src/cache_service.go:128-145 | a startup read gives the pool what Redis holds and the node itself, tracked as it is; a failed one leaves the configured list |
| `Membership.RemovalCanEvictSelf` | src/cache_service.go:438-444 | a run in which an SREM between a node's two commands leaves it out of its own pool |
| `Membership.ClosingNodeStaysIff` | src/cache_service.go:451-457 | after a closing node's SREM its URL is in the set, dead or alive, if and only if the node still ticked |
| `Membership.ClosedNodeCanStay` | src/cache_service.go:451-457 | a run in which SREM, tick and stop of a node leave the URL of a dead node in Redis |
| `Membership.Convergence` | src/cache_service.go:146-185 | once removals and starts have ended, while nodes may still stop: when every node still alive has added itself and then read back, all pools hold one set, which is what was left plus all nodes alive, and at most also nodes that stopped before the read-backs |
| `Membership.ConvergenceIsStable` | src/cache_service.go:176-181 | converged pools stay so while nothing is removed or started |
| `Membership.Discovery.constructor` | src/cache_service.go:128-148 | startup gives the pool what Redis answered plus itself, or the configured list with nothing tracked |
| `Membership.Discovery.Tick` | src/cache_service.go:161-182 | one round changes pool and tracked list together, and only when the list read differs |

## Left out

- The getter without groupcache: RedisCacheClient.Get then only reads Redis (src/cache_service.go:384-391).
- Discovery switched off, which sets the pool once (src/cache_service.go:118-119), and the groupcache HTTP server.
- A Redis reader replica that lags behind the writer: the guarantees above assume it does not.
- Routing between primary and replica engines (src/fiber_graphql_handler.go:69): both are the same arbitrary upstream.
- The content type and encoding in the entry's metadata, an unmarshalling error in those two fields, and the response headers except the max-age of a hit.
- The max-age of a miss (src/query_cache.go:116): it is the TTL, so -1 for an entry without expiry, and is sent after the write, so it runs past the entry's expiry by the time in between.
- Verification of tokens, parsing of request bodies, printing of variables and claims.
- Spans, logging, configuration loading except the cap on the wait, process supervision and shutdown.
- InternalExecCache without a Redis instance, file errors during uploads and loads, and the `exec` of a script, which is known only by its source and whether it defines `main`.
- ScriptCacheTheorems.TablesAgree: says nothing about library keys, which by design have a length and, after an upload, a None in the function table.
- The delete queue (example/graphql-engine/scripts/sync_to_dynamodb.py:117-167) runs the same protocol on a list of its own; that it answers `deleted` with a count of 0 on an empty pop is not modelled.
- The sync of single items into the table: a put either succeeds or raises, and unflushed batches of the writer are not modelled.
