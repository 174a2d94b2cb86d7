# Verification of agentruntime-mcp-go

A Dafny model of the parts of the library whose correctness is not visible from reading one function: the relay
between Control and its workers, the Control configuration cache, the `agentschema` tag grammar, the environment
and Control merge in front of the MCP handler, and the signed-ingress header. `dafny verify dfyconfig.toml` checks
everything.

Where the program runs goroutines, the model is a step machine: a `State`, an `Action` per step of a goroutine (a
lock section, a channel send, a close, a clock reading), a total function `Apply`, and `Exec` over any sequence of
actions. A theorem about `Exec(Init, run)` for every `run` therefore speaks about every interleaving. Where the
program has objects updated in place, the model has classes with the same fields, and each method is proved to do to
the abstract state what the function that the theorems are about does.

## What is modelled

**The relay.** `Multiplexer` is `RequestMultiplexer` together with the step order of `handleMCPForward`. Removing an
entry under the lock, sending and closing are separate steps, so that nothing panics is an ownership argument; it is
the invariant of the machine. `MultiplexerSafety` draws the consequences over whole runs, `MultiplexerOutcome` says
exactly when a request is answered with its response, and `RequestMultiplexerObject` is the object itself. `HubState`
and `HubObject` are the worker table, the index by user and the job counters; `UserIndex` gives the exact conditions
under which the index is sound and complete. `Scheduling` and `Dispatch` are picking and dispatching, one after the
other and concurrently. `Heartbeat` is the ticker with its two constants; `Sessions` is connect and deferred cleanup.

**The Control configuration cache.** `ConfigKey` is the key: a join of four parts with `|`; `ConfigKeyHeaders` is about
the keys of the requests that the middleware makes. `ConfigCache` is the double check around single-flight, over a heap
of maps and of the objects nested in them, because Go shares both by reference and a clone copies one level.
`ConfigCacheWrites` says what is found on that heap after the writes of callers; `ConfigCacheSafety` and
`ConfigTransparency` state what callers get. `ConfigCacheObject` is the cache updated in place. `ConfigRetry` is the
loop around a rate-limited fetch with 64-bit arithmetic written out.

**The `agentschema` tag.** `AgentSchemaSegments` cuts a tag into segments, `AgentSchema` parses and prints them, and
`AgentSchemaLaws` relates the two. `AgentSchemaImage` shows that the parser produces exactly what can be printed.

**The supporting pieces.** `EnvConfig` and `Middleware` are the merge and the gate; `Webhook` is the signer and the
verifier it must satisfy. `Text` is what all of them use of Go's `strings`, `strconv` and `encoding/hex`, with its round
trips; `Counting` counts.

## Where natural claims fail

The code is modelled as it is. Where a claim one would like to make does not hold, a lemma says exactly when it does,
and mostly another gives an instance of the failure.

- `Complete` answering true does not mean the handler answers 200: `Wait` may choose the timeout although a body is
  ready (`AcceptedResponseCanBeLost`). The client gets the accepted body exactly when the handler's own frame was
  written and its own `Wait` did not take the timer (`AcceptedResponseReachesClientIff`).
- Cleanup is by id, so the late cleanup of an old connection removes a reconnected one
  (`LateCleanupRemovesReconnected`); the table tells who is online exactly as long as that does not happen and no live
  session is swept (`FaithfulThroughoutIff`).
- Unregistering a worker deletes its user's index entry wherever that leads (`GoodbyeHidesAnotherWorker`); exactly when
  the index is complete is `ExactThroughoutIff`. A worker id taken over for another tenant hands its index entry over
  (`TakeOverCrossesTenants`); exactly when the index is sound is `SoundThroughoutIff`.
- Even with a sound index a lookup for one tenant can give a worker of another, exactly when one tenant is the other, a
  `#`, and something more (`LookupCrossesTenantsIff`).
- `handleHarnessRun` does not recheck capacity, so concurrent picks overload a worker, by up to one less than their
  number and no more (`BoundIsReached`, `OverloadIsBounded`); capacities are kept in every run exactly when at most one
  pick is outstanding at a time (`CapacityIsKeptIff`).
- The clamp of the job counter at 0 can fire, as after a reconnect (`ReconnectFiresClamp`); it never does exactly when,
  since the last registration, no more jobs were taken off than counted at any point (`ClampNeverFiresIff`).
- A peer that answers every ping within a limit is never evicted if and only if the limit is below 90 s
  (`PromptnessSufficesIff`).
- Two requests share a cache key although they differ, through the join, only if the longer of the two instance ids
  contains `|conn:` after a trimmed prefix. For the requests that the middleware makes, whose ids have no commas, there
  is such a pair exactly if what follows `|conn:` can also be the start of a list of ids (`MetByHeadersIff`); for
  contexts with any ids, always (`ConfusedIffAmbiguous`). And an instance meets a server exactly if its id is the
  server's after `server:` (`TargetsMeetIff`).
- A map that is handed out is not always the caller's own: two callers hold the same map exactly when they waited for
  the same flight (`MapsAreSharedIff`), and what one puts in it can then be what the other is given
  (`FellowWaiterSpoilsMap`). No caller ever holds a map of the cache itself (`ReturnedMapsAreNotCached`), but
  `cloneConfigView` copies one level: the objects and arrays in a configuration are shared by the entry and by every map
  made from the same answer. What a handler writes to one is served to later callers until the entry is replaced
  (`NestedWriteIsServed`). The entry amounts to Control's answer exactly as long as these are what Control sent
  (`EntryContentIff`), and a caller is given the answer exactly if they were when its call returned, and no fellow waiter
  had put something else in the map (`ReturnedIsControlsAnswer`). The middleware copies the map once more at the top
  (middleware.go:124), so a handler behind it can make only writes of the nested kind.
- The backoff `5 * 2^attempt` overflows from attempt 61 on, and the loop then gives up with time left, except that
  at attempt 62 the overflow happens to give the right wait (`UnhintedWaitIff`). The loop ends its retries only for lack
  of time, in every world, exactly if the budget is below 121 s (`OnlyTimeEndsIff`).
- An enum value after the first that contains `=` starts a new segment; an enum survives exactly without one
  (`EnumRoundTripIff`).
- The gate does not check Control's answer for required keys; exactly when one is missing is
  `ResolvedMayLackRequired`.
- The verifier rejects a header signed at Unix time 0, and at no other time (`SignedVerifiesIff`).

The comment on `PickSharedWorker` speaks of lightweight workers; the code picks among workers of the tier asked for,
lightweight when none is named, and so does the model.

## Model

| member | source | states |
|---|---|---|
| MultiplexerSafety.NoPanicInAnyInterleaving | relay/multiplexer.go:31-76 | over any interleaving of Register, Complete, Cancel, Wait and forward handlers, duplicate ids included: no send on a closed channel, no second close, the default branch of the send never taken; a removed channel has exactly one owner until closed, and only removed open channels have one |
| MultiplexerSafety.ReceivedBodyWasCompleted | relay/multiplexer.go:39-64 | a body that Wait returns was passed to a Complete call under the id the channel was registered with, after the registration |
| MultiplexerSafety.SettledAtMostOnce | relay/multiplexer.go:39-76 | however a run goes on, a settled registration stays settled the same way by the same goroutine: one Complete answering true or one Cancel, never both |
| MultiplexerSafety.RegistrationsAreConserved | relay/multiplexer.go:31-76 | registrations = pending + completed + cancelled + overwritten by a duplicate id, in every reachable state |
| MultiplexerSafety.ForwardLeavesNothingBehind | relay/server.go:621-689 | over every run of handleMCPForward with fresh ids against any inbound responses: pending holds only requests whose handler has not returned and unanswered async ones; an id answered 200, 502 or 504 is gone; registered = pending + completed + cancelled |
| MultiplexerOutcome.StatusIff | relay/server.go:621-689 | over every run with fresh ids, for every handler that has returned: 502 if and only if its own frame could not be written, 504 if and only if it is synchronous and its own Wait took the timer, 202 if and only if it is asynchronous and its frame was written, 200 if and only if it is synchronous and neither failed |
| MultiplexerOutcome.AcceptedResponseReachesClientIff | relay/multiplexer.go:39-64 | if Complete answered true for the registration of a synchronous handler, the client got that body if and only if the handler's own frame was written and its own Wait did not take the timer |
| MultiplexerSafety.AcceptedResponseCanBeLost | relay/multiplexer.go:57-64 | an instance of the latter failing: a run with fresh ids in which Complete answers true and the handler still answers 504 |
| Multiplexer.ExecKeepsInv | relay/multiplexer.go:31-76 | the ownership invariant holds in every state of every run |
| RequestMultiplexerObject.RequestMultiplexer.Register | relay/multiplexer.go:31-37 | a new open empty channel under the id, the rest of the table unchanged |
| RequestMultiplexerObject.RequestMultiplexer.Complete | relay/multiplexer.go:39-55 | true exactly when the id was pending; then its channel holds the body, is closed, and the entry is gone |
| RequestMultiplexerObject.RequestMultiplexer.Wait | relay/multiplexer.go:57-64 | the buffered body unless the timer wins, nothing on a closed or open empty channel; taking the body empties the channel |
| RequestMultiplexerObject.RequestMultiplexer.Cancel | relay/multiplexer.go:66-76 | the entry is gone and its channel closed without a body |
| RequestMultiplexerObject.UninterruptedComplete | relay/multiplexer.go:39-55 | the steps of a Complete that is not interleaved have the effect the method promises, and touch no other channel |
| RequestMultiplexerObject.UninterruptedCancel | relay/multiplexer.go:66-76 | likewise for Cancel |
| RequestMultiplexerObject.UninterruptedRegister | relay/multiplexer.go:31-37 | likewise for Register |
| RequestMultiplexerObject.UninterruptedWait | relay/multiplexer.go:57-64 | likewise for Wait, on any channel: the body if it is there, nothing if the channel is closed or the timer wins, and otherwise no end |
| UserIndex.SoundThroughoutIff | relay/hub.go:65-154 | over every run of register, capability update, unregister, touch, job count and sweep, each index entry leads to a registered worker of that tenant and user if and only if no registration takes an indexed id over for another tenant or user |
| UserIndex.StepSoundIff | relay/hub.go:65-129 | the same for one step, which is where the condition comes from |
| UserIndex.LookupIsOfThatUser | relay/hub.go:145-154 | with a sound index, and tenants neither of which is the other followed by '#', HarnessForUser returns only a worker of that tenant and user |
| UserIndex.KeyInjective | relay/hub.go:75 | the index key separates any two (tenant, user) pairs whose tenants do not overlap in that way |
| UserIndex.KeysMeetIff | relay/hub.go:75 | two different tenants have users with the same key if and only if one tenant is the other followed by '#' and more |
| UserIndex.LookupCrossesTenantsIff | relay/hub.go:65-154 | for two tenants, some run with a sound index makes a lookup for the one give a worker of the other if and only if the tenants overlap |
| UserIndex.TakeOverCrossesTenants | relay/hub.go:70-76 | a worker id registered again for another tenant is what the first tenant's lookup then finds |
| UserIndex.ExactThroughoutIff | relay/hub.go:65-154 | over every run, the index equals a scan for the workers that were heavy at some registration or update since they came online, if and only if each step leaves other users' and other workers' entries alone |
| UserIndex.OrderlyRunIsExact | relay/hub.go:65-154 | with at most one registered worker per named user, and ids of named workers that keep their user, the index is sound and equals the scan throughout |
| UserIndex.LookupFindsFlagged | relay/hub.go:145-154 | when the index equals the scan and the tenant overlaps with no other, HarnessForUser finds exactly the flagged worker of the tenant and user |
| UserIndex.GoodbyeHidesAnotherWorker | relay/hub.go:123-127 | unregistering a user's light worker hides the user's heavy worker, which is still registered |
| HubObject.Hub.RegisterMCP | relay/hub.go:50-63 | the connection is in the table under its id with its fields set; nothing changes for an empty id or no connection, and the worker side is untouched unless the connection is used there |
| HubObject.Hub.RegisterHarness | relay/hub.go:65-82 | table, connection and index after the call, for every connection: a worker with a tenant, a user and the tier heavy in any case is what its tenant, '#' and user lead to; for a connection not in use elsewhere the state becomes what HubState.Register makes of it |
| HubObject.Hub.UpdateHarnessCapabilities | relay/hub.go:84-101 | tier, providers and capacity are replaced and a heavy named worker is indexed; an unknown id changes nothing |
| HubObject.Hub.IncHarnessActiveJobs | relay/hub.go:103-112 | the count moves by the delta and stops at 0; an unknown id changes nothing |
| HubObject.Hub.UnregisterMCP | relay/hub.go:114-118 | the entry of the id is gone, the others stay |
| HubObject.Hub.UnregisterHarness | relay/hub.go:120-129 | the worker is gone, and with a named one its user's index entry wherever it leads |
| HubObject.Hub.LookupUser | relay/hub.go:145-154 | the connection found is the one HubState.HarnessForUser describes, or none |
| HubObject.Hub.PickSharedWorker | relay/hub.go:157-197 | for every iteration order: the worker picked is of the tier asked for, lightweight if none is, of the tenant where both sides name one, offers the provider if one is asked for, and has a slot free; every registered worker lacks one of these or has at least as many jobs as the one picked |
| HubObject.Hub.Touch | relay/hub.go:236-243 | only the time of that connection moves, whether it is registered or not |
| HubObject.Hub.SweepStale | relay/heartbeat.go:56-109 | on both sides exactly the connections last heard at most 90 s ago stay; the others are named for their callbacks, each once; the index loses exactly the entries under tenant, '#' and user of the workers that leave |
| HubState.RemoveOneMore | relay/heartbeat.go:84-94 | removing stale workers one by one, in any order, is removing them together |
| Scheduling.LeastLoadedWorker | relay/hub.go:168-196 | the loop, in any iteration order, finds a least-loaded matching worker with a free slot, and none exactly when there is none |
| Scheduling.MatchesIff | relay/hub.go:157-182 | which workers match, on the arguments as they are given: tier without case, trimmed tenant where both sides name one, and a provider the worker lists, in either form and any case, or any if it lists none |
| Scheduling.PickWorker | relay/hub.go:157-197 | the pick on values, with the conditions spelled out as for PickSharedWorker |
| Scheduling.HarnessSupportsProvider | relay/hub.go:199-220 | true exactly when a provider is named and the worker lists it, or lists none and names it or none |
| Scheduling.PickExistsIff | relay/hub.go:157-197 | a pick exists exactly when some matching worker has a free slot |
| Scheduling.RoundsConserveSlots | relay/hub.go:157-197 | each round of pick and dispatch takes one free slot, whatever the map iteration order |
| Scheduling.RoundsSucceedIff | relay/hub.go:157-197 | n consecutive rounds for one query can all succeed if and only if n is at most the free slots of the matching workers |
| Scheduling.RoundsKeepBalance | relay/hub.go:157-197 | from a balanced start no matching worker ever has over one job more than another that is not full |
| Scheduling.ClampReflects | relay/hub.go:107-110 | for any deltas, the clamped count is their sum plus max(initial, -(least prefix sum)) |
| Scheduling.CounterReflects | relay/hub.go:103-112 | the same for a registered worker under a sequence of IncHarnessActiveJobs calls |
| Dispatch.OverloadIsBounded | relay/server.go:735-817 | with at most P picks outstanding and no update that lowers a capacity, in every interleaving with completions, reconnects and failures, jobs plus outstanding picks stay within capacity + P - 1 for each registered worker |
| Dispatch.CapacityIsKeptIff | relay/server.go:693-817 | from an empty hub, every run without updates that lower a capacity keeps all workers within their capacity if and only if at most one pick is outstanding at a time |
| Dispatch.BoundIsReached | relay/server.go:769-803 | P picks of a worker with one free slot, then P dispatches, load it to capacity + P - 1 |
| Dispatch.ClampNeverFiresIff | relay/hub.go:103-112 | in every interleaving, with reconnects and spurious completions, the clamp never fires for a worker if and only if at every point since its last registration rollbacks and completions do not exceed increments; and then the counter is their difference |
| Dispatch.CounterIsExact | relay/server.go:803-813 | for a worker that stays on one connection and completes only jobs delivered to it, once each, the clamp never fires and the counter is the number of jobs under way |
| Dispatch.CounterIsDifference | relay/server.go:803-813 | and that is increments - rollbacks - completions |
| Dispatch.DispatchCounts | relay/server.go:795-817 | a dispatch whose frame cannot be written leaves the worker's counter as it was, one that is written counts once |
| Dispatch.ReconnectFiresClamp | relay/server.go:559-561 | in every state, after a reconnect the completion of any job delivered on the old connection fires the clamp |
| Heartbeat.SilenceIsBounded | relay/heartbeat.go:15-109 | in every run no registered connection is silent for over 120 s, nor for over 90 s right after a tick |
| Heartbeat.ExecMirrors | relay/heartbeat.go:15-109 | over every run, the peers of the clock are the workers that the hub's own registrations, touches, removals and sweeps leave, each last heard at the same time |
| Heartbeat.WorkerSilenceIsBounded | relay/heartbeat.go:15-109 | so in every run of the hub no registered worker is silent for over 120 s |
| Heartbeat.RegisteredIffHeardInTime | relay/heartbeat.go:15-109 | over every run in which a connection neither ends nor is made anew, it is registered at the end if and only if at no tick on the way its last frame was over 90 s old |
| Heartbeat.PromptPeerIsNeverEvicted | relay/heartbeat.go:15-109 | a peer that answers every ping in less than 90 s stays registered until it disconnects |
| Heartbeat.PromptnessSufficesIff | relay/heartbeat.go:9-12 | answering every ping within a limit keeps a peer registered in every run if and only if the limit is below 90 s |
| Heartbeat.NinetySecondsIsTooSlow | relay/heartbeat.go:9-12 | a run in which answers at exactly 90 s end in eviction |
| Sessions.FaithfulThroughoutIff | relay/server.go:295-309 | over every run, an id is online exactly when its newest session is live, if and only if no live session is swept and none closes after a live one took its id over |
| Sessions.LateCleanupRemovesReconnected | relay/server.go:471-477 | connect, connect again, lose the first connection: the live one is no longer registered |
| ConfigKey.SortCanonical | config_cache.go:135-149 | sorting makes equal sequences of ids exactly from equal multisets |
| ConfigKey.KeysEqualIff | config_cache.go:94-102 | two keys are equal exactly when fingerprints, joined middle parts and schema hashes are |
| ConfigKey.KeyIdentifiesRequest | config_cache.go:94-165 | without hash collisions, "\|conn:" in instance ids or commas in connection ids, two keys are equal exactly when trimmed tokens, schemas, instance keys and multisets of connection ids are |
| ConfigKey.ConfusedIffAmbiguous | config_cache.go:94-153 | among contexts with any ids, commas included, an instance key is the longer one of two with equal joined parts if and only if "\|conn:" occurs in it after a trimmed prefix |
| ConfigKeyHeaders.MetByHeadersIff | control.go:111-132 | among the contexts made from headers and the server id, an instance id is the longer one of two with equal joined parts if and only if in it a trimmed prefix, "\|conn:" and the start of a sorted list of ids follow each other |
| ConfigKeyHeaders.KeyIdentifiesHeaders | config_cache.go:94-165 | for such contexts without such instance ids, and without hash collisions, two keys are equal exactly when trimmed tokens, schemas, instance keys and multisets of connection ids are |
| ConfigKey.HeadersCanCollide | control.go:111-126 | a family of such pairs: any trimmed prefix, "\|conn:", and any one id |
| ConfigKey.ConnectionsKeyIff | config_cache.go:122-153 | for ids without commas, the connection part is equal exactly for equal multisets |
| ConfigKey.HeaderKeysEqualIff | control.go:116-126 | for any two headers, the connection parts are equal exactly when the ids read are, in any order |
| ConfigKey.BuildConnectionIds | control.go:116-126 | the header's ids in order, trimmed, none blank, none with a comma |
| ConfigCache.TTLReads | config_cache.go:167-181 | a number of seconds is moved into 30 to 120, and 60 is the default |
| ConfigCache.ExecKeepsInv | config_cache.go:39-92 | the invariant of cache, flights and callers holds in every state of every run |
| ConfigCacheWrites.ExecKeepsMemory | config_cache.go:270-279 | in every state of every run each map and each nested value holds the last thing a caller wrote there, or what Control sent; and what a caller was given is that, as of its return |
| ConfigCache.RecheckSpaced | config_cache.go:56-65 | a fetch that the second lookup lets through starts at least 30 s after every earlier answer for the key was stored |
| ConfigCache.StoreSpaced | config_cache.go:69-71 | while a flight stores its answer no later flight of the key exists |
| ConfigCacheSafety.OneFlightPerKey | config_cache.go:55-73 | in every interleaving at most one flight per key is under way, as singleflight promises |
| ConfigCacheSafety.FetchesInWindow | config_cache.go:55-92 | a window of T seconds starts at most T/30 + 1 successful fetches for a key |
| ConfigCacheSafety.StoredAnswerHits | config_cache.go:47-53 | for 30 s after any flight stored its answer, a lookup of its key hits |
| ConfigCacheSafety.FailsIff | config_cache.go:55-76 | in every reachable state, a caller that is done failed if and only if it waited for a flight that made a fetch of its own and got no answer |
| ConfigCacheSafety.FailureIsReported | config_cache.go:65-76 | a fetch without an answer ends the flight: its waiters are told, nothing is stored, the key is free again |
| ConfigCacheSafety.RecheckHitIsReturned | config_cache.go:56-62 | when the second lookup hits, Control is not asked and a waiter is given what the entry holds |
| ConfigCacheSafety.ReturnedIsControlsAnswer | config_cache.go:39-82 | what a caller is given comes from Control's answer to a fetch under the same key, as of an instant after that answer and before its entry expires; the instant is within the call, or for a caller that joined a flight within that flight, which was under way during the call. It is that answer, nested values included, if and only if by then the last writes to the answer's nested values, and those of fellow waiters to the map, left what Control sent |
| ConfigCacheSafety.ReturnedMapsAreNotCached | config_cache.go:270-279 | no map handed out is the map of an entry, so no write of a caller to its map changes what an entry holds |
| ConfigCacheSafety.EntryContentIff | config_cache.go:84-92 | in every reachable state the map of an entry is as it was stored, and with its nested values it is its flight's answer if and only if nobody wrote to one of these, or what was last written there is what Control sent |
| ConfigCacheSafety.NestedWriteReachesEntryIff | config_cache.go:274-277 | a write to a nested value changes an entry if and only if the value was decoded from the answer that the entry holds, and was different |
| ConfigCacheSafety.NestedWriteIsServed | config_cache.go:47-52 | in every reachable state, what a holder of a map made from a live entry's answer writes to a nested value is what the next lookup is given |
| ConfigCacheSafety.CacheIsTransparent | config_cache.go:39-82 | if Control keeps each answer until its entry expires, and the answer was kept from the writes of callers until the call returned, a caller gets what Control itself answers at an instant of the call, or of the flight it joined |
| ConfigCacheSafety.MapsAreSharedIff | config_cache.go:47-81 | in every reachable state two callers hold the same map if and only if they waited for the same flight |
| ConfigCacheSafety.SpoiledOnlyByWrites | config_cache.go:47-81 | what a caller is given differs from the answer only through a write before its return: to a nested value of the answer, by anybody, or to the map, by another waiter of the same flight |
| ConfigCacheSafety.FellowWaiterSpoilsMap | config_cache.go:55-81 | in every reachable state, what one waiter puts in the map before another collects is what the other is given |
| ConfigCacheSafety.MissAsksControl | config_cache.go:44-68 | a call that misses and is not interleaved opens a flight and gets Control's answer |
| ConfigCacheSafety.AnswerIsStoredAndReturned | config_cache.go:69-81 | that answer is stored with the configured lifetime, a clone of it is returned, and the key is free again |
| ConfigTransparency.SameKeySameAnswer | config_cache.go:94-165 | if Control looks only at what the key is made of, requests with equal keys have equal answers |
| ConfigTransparency.TargetsMeetIff | config_cache.go:109-120 | the instance part of the key is the same for two targets exactly if they are the same, or one is an instance whose id is "server:" and that of the other, a server |
| ConfigTransparency.CachedEqualsUncached | config_cache.go:39-165 | for any mix of requests and any interleaving, a caller is given Control's answer to its own request as of an instant of the call, or of the flight it joined, though the fetch may have been made for another; provided the answer was kept from the writes of callers until then |
| ConfigCacheObject.CloneConfigView | config_cache.go:270-279 | a new map with the same values under the same keys, so with the same nested objects; nothing for nothing |
| ConfigCacheObject.WriteNested | config_cache.go:274-277 | a write to a nested object changes no map, and every entry that refers to the object then holds what was written |
| ConfigCacheObject.Cache.Lookup | config_cache.go:47-53 | a hit exactly when there is an entry and the time is before its expiry, and then a new map with its contents |
| ConfigCacheObject.LiveIsHit | config_cache.go:47-53 | a lookup of the object hits exactly when one of the step machine does |
| ConfigCacheObject.Cache.PutConfigCacheEntry | config_cache.go:84-92 | the entry holds a clone until the lifetime from now; all other entries stay |
| ConfigCacheObject.Cache.FetchControlConfigCached | config_cache.go:39-82 | Control is asked exactly without a token, without an entry, or when the time has come to the entry's expiry; only an answer under a token is stored, for the configured lifetime; the map returned is the caller's own |
| ConfigCacheObject.CallTwice | config_cache.go:39-92 | after a call that stored Control's answer, the next call with that key asks Control if and only if it comes when the configured lifetime is over, and otherwise is given that answer |
| ConfigRetry.DelaySecondsAreRead | control.go:101-109 | a positive number of seconds in Retry-After wins over the body (delay-seconds, section 10.2.3 of RFC 9110) |
| ConfigRetry.HintedWait | config_cache.go:225-248 | a hint is honoured at every attempt, up to a minute |
| ConfigRetry.UnhintedWaitIff | config_cache.go:225-248 | without a hint the wait is min(5 * 2^attempt, 60) s if and only if the attempt is at most 60 or is 62; at all others it is 0 |
| ConfigRetry.ProductFitsIff | config_cache.go:245 | 5 * 2^attempt fits 64 bits exactly up to attempt 60 |
| ConfigRetry.WaitRange | config_cache.go:225-248 | every wait is 0 or from 1 to 60 s, and exactly when it is not 0 |
| ConfigRetry.BudgetReads | config_cache.go:183-191 | a positive number of seconds is the budget unless its nanoseconds overflow; otherwise 30 s |
| ConfigRetry.FetchWithRetry | config_cache.go:193-223 | for every sequence of replies the loop ends, at the first attempt that is not retried: with the configuration of a payload, the empty one if it has none, and with the failure otherwise; a payload that is reached is returned at that attempt; only status 429 is retried, and without a budget nothing; it sleeps at least one second per retry and never beyond the budget |
| ConfigRetry.MinuteBudgetNeverOverflows | config_cache.go:193-248 | with a budget of up to 60 s and any mix of hints the attempt index stays at most 60, nothing overflows, waits are 1 to 60 s and are the backoff where unhinted, and only lack of time ends the retries |
| ConfigRetry.OnlyTimeEndsIff | config_cache.go:205-248 | in every world each rate-limited attempt that is reached is retried exactly if the hint or backoff fits the budget, if and only if the budget is below 121 s; from there on 61 hints of a second and then none are a world in which it gives up early |
| AgentSchemaSegments.MergeIff | toolschema/schema.go:101-124 | merging finds the one way to cut the pieces into segments, and fails exactly when there is none |
| AgentSchemaSegments.MergeLosesNothing | toolschema/schema.go:101-124 | the segments joined by ',' are the trimmed non-blank pieces joined by ',' |
| AgentSchemaSegments.MergeSegments | toolschema/schema.go:101-124 | the loop that rewrites the last segment computes that cut, or the one stray piece |
| AgentSchema.ParseAgentschema | toolschema/schema.go:35-97 | the loop computes Parse, of which the laws speak: the constraints, or the first failure together with the constraints parsed before it |
| AgentSchema.ParsePrintedField | toolschema/schema.go:42-94 | a printed field is read as that field, for all eight keys |
| AgentSchema.MergePrinted | toolschema/schema.go:101-124 | printed fields are cut into exactly the printed segments |
| AgentSchema.ParsePrint | toolschema/schema.go:35-140 | parsing printed fields collects them, later ones of a key over earlier ones |
| AgentSchemaLaws.PrintAnyOrderThenParse | toolschema/schema.go:35-140 | every arrangement of the fields of a valid constraint set, printed and parsed, gives the set back |
| AgentSchemaLaws.PrintInjective | toolschema/schema.go:35-140 | two valid constraint sets have the same tag exactly when they are the same |
| AgentSchemaLaws.NormalFormParsesAlike | toolschema/schema.go:35-124 | the merged segments joined again parse to the same constraints or the same failure, and are their own normal form |
| AgentSchemaLaws.ParseIsParsePieces | toolschema/schema.go:35-41 | parsing a tag is parsing its pieces, cut at commas, trimmed, blank ones left out; the next four rows say what one more piece does |
| AgentSchemaLaws.OneMorePiece | toolschema/schema.go:41-94 | after pieces that parse, "key=val", with space or without: refused as missing its value if that is blank, before the key is looked at, and else set by its key |
| AgentSchemaLaws.OneMoreEnum | toolschema/schema.go:101-140 | an enum takes all values that follow it |
| AgentSchemaLaws.OneMoreBarePiece | toolschema/schema.go:113-122 | a piece without '=' after anything but an enum makes the whole tag invalid, with no constraints |
| AgentSchemaLaws.FirstFailureStays | toolschema/schema.go:41-94 | once a tag has failed, another "key=val" changes nothing |
| AgentSchemaLaws.EnumRoundTripIff | toolschema/schema.go:101-140 | an enum of clean values survives printing and parsing exactly when no value after the first has a '=' |
| AgentSchemaImage.ParsedIsValid | toolschema/schema.go:35-140 | whatever tag is accepted, the constraints are ones that can be printed, provided the numbers that can be read can be: clean values, no '=' in later enum values, integers of 64 bits |
| AgentSchemaImage.ParserImageIff | toolschema/schema.go:35-140 | a constraint set is the result of some tag if and only if it is valid |
| AgentSchemaImage.AcceptedTagHasPrintedForm | toolschema/schema.go:35-140 | every accepted tag means the same as the printed form of its constraints |
| EnvConfig.NewLowercaseEnvIndex | env_config.go:15-29 | the loop builds the index of which IndexIsLast speaks |
| EnvConfig.BindingIs | env_config.go:17-27 | a string of the environment is cut at its first '='; it binds nothing without one, without a name, or with a blank value, and else the lower-cased name |
| EnvConfig.IndexIsLast | env_config.go:15-29 | a name is in the index, in whatever case it is written, exactly with the value of the last entry of that name that is not blank |
| EnvConfig.FromEnvIff | env_config.go:31-39 | a schema key has a value in the environment exactly when some entry that is not blank sets it or AR_ and it, in whatever case |
| EnvConfig.LookupPrecedence | env_config.go:31-39 | the key's own variable comes before the AR_ one, and of each the last usable entry counts |
| EnvConfig.EnvOverridesFromSchema | env_config.go:41-49 | exactly the schema keys with a value in the environment, with that value |
| EnvConfig.RequiredConfigSatisfied | env_config.go:63-85 | true exactly when every required key without a default has a value that is not blank |
| EnvConfig.EnvAloneSatisfiesRequired | env_config.go:87-95 | true exactly when the environment has each of those keys |
| EnvConfig.MergeControlWithEnvPriority | env_config.go:98-109 | the two loops build the merge of which MergedValue speaks |
| EnvConfig.MergedValue | env_config.go:98-109 | key by key: the environment on schema keys it has, Control elsewhere, nothing else |
| EnvConfig.MergedHasValueIff | env_config.go:98-109 | a schema key has a value after merging exactly when the environment or Control gives it one |
| EnvConfig.MergeKeepsSatisfied | env_config.go:63-109 | merging un-satisfies neither what the environment alone nor what Control satisfied |
| EnvConfig.MergeIdempotent | env_config.go:98-109 | merging again changes nothing |
| Middleware.ClientStatus | middleware.go:88-102 | a status of Control reaches the client exactly if it is an error other than 401 and 403, which become 422; what is no error becomes 502 |
| Middleware.Handle | middleware.go:63-127 | when the schema is served, when the handler runs, with which configuration, and with which status a request is refused |
| Middleware.PassesIff | middleware.go:63-122 | a request goes on if and only if there is no schema, its method is one of the three that need no configuration, fetching is switched off, Control answered, or the environment sets every required key without default |
| Middleware.RunsResolvedOrSatisfied | middleware.go:78-126 | where configuration is needed and enforced, the handler runs only with Control's answer or with every required key |
| Middleware.FinalConfigValue | middleware.go:124-126 | key by key what the handler is given |
| Middleware.FinalSatisfiedIff | middleware.go:78-126 | the configuration given has all required keys exactly when each is in the environment or in Control's answer |
| Middleware.ResolvedMayLackRequired | middleware.go:84-109 | with Control's answer the handler runs, and lacks a required key exactly when neither side has it |
| Webhook.VerifyModeBSignature | webhook_test.go:16-44 | the loop of the verifier decides Verifies |
| Webhook.SignedParts | webhook.go:23-28 | the header is "t=" and the time, a comma, "v1=" and the hexadecimal MAC of the time, a dot and the body |
| Webhook.ScanTimeIs | webhook_test.go:19-29 | in any header a "t=" part that is no number spoils it, and otherwise the last "t=" part counts |
| Webhook.ScanMacIs | webhook_test.go:30-32 | in any header the last "v1=" part counts |
| Webhook.ScanSigned | webhook.go:23-28 | the verifier reads back the time and the MAC the signer wrote |
| Webhook.AcceptedIff | webhook.go:23-28 | a header signed with one secret over one body is accepted for others exactly when the MACs agree and the time is not 0 |
| Webhook.SignedVerifiesIff | webhook.go:23-28 | for every secret, body and 64-bit time, the verifier accepts the signer's header exactly when the time is not 0 |
| Webhook.MessageInjective | webhook.go:25-26 | the signed message determines time and body |
| Webhook.ForgedBodyRejected | webhook_test.go:61-70 | with a MAC that does not collide, a signature is good for its own body only |
| Webhook.HeaderInjective | webhook.go:27 | the header determines time and MAC |
| Text.HexRoundTrip | webhook.go:27 | hexadecimal digits decode to the bytes they encode (section 8 of RFC 4648) |
| Text.EncodeHexAt | webhook.go:27 | two lower-case digits a byte, the higher one first (section 8 of RFC 4648) |
| Text.TrimSpaceIs | env_config.go:22-33 | trimming takes white space off both ends and nothing else |
| Text.EqualFoldIff | relay/hub.go:171-174 | strings are equal under folding exactly if they are letter by letter, in either case |
| Text.AtoiItoa | webhook.go:25 | decimal printing and parsing undo each other on 64-bit integers |
| Text.SplitJoin | toolschema/schema.go:102 | splitting undoes joining for parts without the separator |
| Text.JoinSplit | toolschema/schema.go:102 | joining undoes splitting |

## Left out

- HTTP servers and clients, websocket upgrade and frames, JSON codecs, tracing, logging and reading the environment: their outcomes are parameters or nondeterministic actions.
- singleflight, SHA-256, HMAC, regular expressions and floating-point text: by contract, or as functions that are parameters; a floating-point bound is a real, so NaN and Inf, which strconv.ParseFloat reads, are left out.
- Case folding and lower-casing beyond ASCII.
- Connections as separate objects per goroutine: the mutex makes each hub method one atomic step, and what a read loop does with a connection after eviction is only Touch.
- HubObject.Hub.RegisterMCP: the invariant of the tables is promised only for a connection not in use elsewhere, as with the connect handlers, which make a new one each.
- HubObject.Hub.RegisterHarness: the same; the onWorkerOnline callback made after the lock is released is not modelled.
- RequestMultiplexerObject.RequestMultiplexer.Wait: a call that is not interleaved, so that on an open empty channel only the timer can end it; being woken by another goroutine is in the step machine.
- HubObject.Hub.PickSharedWorker: its loop runs over the abstract table (Scheduling.LeastLoadedWorker), since it only reads.
- HubObject.Hub.SweepStale: names the connections for which the callbacks are made, each once; what the callbacks do is not modelled.
- The fallback multiplexer that handleMCPForward makes for a connection without one, and the handlers' field checks before it.
- Go's int is unbounded in the job counters and capacities; ConfigRetry and Text write out the 64-bit width where it matters.
- ConfigCacheObject.Cache.FetchControlConfigCached: one call that is not interleaved; the interleavings are in ConfigCache.
- An object or array under a key of a configuration is one cell with all that is below it; putting one of them inside another, so that a later write to the one changes the other, is not modelled.
- ConfigCacheSafety.CacheIsTransparent: a caller that joins a flight may get an answer from before its call, but from within that flight.
- tool_name is sent to Control but is not part of the cache key; the model's Control answers from the parts of the key.
- An empty token bypasses cache and flights (config_cache.go:40-42); only ConfigCacheObject shows it.
- resetConfigCacheForTest, and the nil configurations that the fetch never returns without an error.
- AgentSchema.ParseAgentschema: the default is kept as its text, not as the JSON string it is marshalled to.
- Reflection over struct fields and the coercion of enum and default values to field types in toolschema.
- Restoring the request body after the method has been read, and the text of error messages.
- Bridge, proxy and Composio handlers, adapter routes, OAuth and JWT, tool registry and schema writer, toolorg and connectortest: forwarding, field checks, keyword tables and library calls with short decision chains.
