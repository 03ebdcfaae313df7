# k8s-mcp: verified models of the server's concurrent state and algorithmic kernels

This Dafny project models the parts of `k8s_mcp` whose correctness depends on interleavings, clocks or
careful string and list work, and proves what those parts are for. `dafny verify dfyconfig.toml` checks
everything.

Two forms recur.

* **State the program updates in place** (module globals, locks, caches, the semaphore, list edits) is a class
  or a method with a loop. Its `ensures` ties the new state to a function of the old one (`SchemaCache`,
  `ExecutionGate`, `TokenBucket`, `ClientGlobals`, `DiscoveryGlobals`, `ApiServer`). The theorems are about
  those functions.
* **Concurrency** is a transition system: a `State` holds the shared part plus one program counter per call,
  `Enabled`/`Apply` give one atomic step (a lock section, a fetch ending, a wake-up, a reset, a clock tick,
  another client's write), and a run is any sequence of enabled steps. An inductive invariant is shown for
  every step and every run, and the theorems are read off it. Other parties (the API server, the executor,
  fetches, other clients) are unconstrained steps or parameters; the clock only never goes back.

| file | models |
|---|---|
| `SingleFlight.dfy` | the OpenAPI schema cache: one leader per key, followers on a Future, racing resets |
| `ExecutionSlots.dfy` | bounded execution of tool bodies: semaphore, counter, executor, shielded timeout |
| `RateLimit.dfy` | token bucket and per-tool limiter |
| `ClientCache.dfy` | rotation of the cached ApiClient and DynamicClient |
| `Events.dfy` | filter, stable sort, per-namespace truncation and merge of events |
| `LogFanOut.dfy`, `LogOutput.dfy` | parallel against serial log fetching; context filter; byte-bounded output |
| `JsonPath.dfy`, `JsonPathTokens.dfy` | the JSONPath evaluator; the tokenizer against its regular expression |
| `ResourceWrites.dfy` | `replace_resource` and `_apply_yaml_records` against a store others write to |
| `PrometheusDiscovery.dfy`, `WideScan.dfy` | the discovery ladder, its two caches, and the wide scan behind it |
| `Rbac.dfy` | forward and reverse RBAC lookup |
| `Taints.dfy` | taint specs and taint list edits |
| `Escaping.dfy` | JSON Pointer and PromQL escaping |
| `Gpu.dfy` | effective GPU limits and units held per node |
| `Foundations.dfy`, `Text.dfy` | optional values, counting and selections; strip, search and replace on strings |

A definition that both the code's model and a theorem use is also characterised on its own, from the inputs
alone: which events are listed (`Events.WantedRowsShow`), what a rule matches (`Rbac.RuleMatchesIff`), how
lists are indexed (`JsonPath.IndexingIsPythons`), when the cache answers (`SingleFlight.HitsIff`), and so on.

## Where a promise holds only under a condition

For each of these the code is modelled as it is. The project has a concrete failing input and an
if-and-only-if theorem stating the condition.

* **One leader per key** holds from a state on, short of another reset, iff every active leader of the key is
  still registered (`OneLeaderPerKeyIff`); a reset keeps it iff nobody is fetching the key at that moment
  (`ResetIsHarmlessIff`).
* **Slots outlive their bodies** on all runs iff `TOOL_TIMEOUT_S > 0` (`BackpressureIffShielded`). With 0 the
  future is awaited unshielded: a running body's slot is freed early iff its own caller was cancelled before
  the body ended (`FreedEarlyIff`).
* **Merging per-namespace top lists is exact** iff `limit >= 0`; `events[:limit]` with a negative limit drops
  from the end of every part (`MergeIsExactIff`).
* **The bytes kept of an over-long log respect the budget** iff `max_bytes >= 1` (`CutRespectsBudgetIff`).
  Without the line trim, the decoded text fits iff the cut did not split a character: each stray byte becomes
  a three-byte U+FFFD, up to 6 bytes over (`UntrimmedPayloadFitsIff`).
* **Multi-pod logs are the serial record list** iff there are fewer than 5 names or the names are distinct
  (`ParallelIsSerialIff`). The names come from one listing of a namespace, which cannot repeat one, so in
  practice this always holds; it is what the per-name dicts of the pool rely on.
* **Dropping the leading dot of a JSONPath is harmless** iff the path is empty or starts with a key that is
  not directly followed by an index (`DroppingDotIsSafeIff`); `items[0].x` looks up the key `items[0]`.
* **The retry advice is right** iff the request fits the bucket and the rate is positive
  (`RetryAdviceHoldsIff`).
* **The two RBAC reports agree** on every list of bindings a cluster can hold iff no granting role hides
  behind an earlier role of the same kind and name (`DualIff`). With unique names only Roles from different
  namespaces can do so, and only cluster-wide; for one namespace the reports always agree
  (`ScopedReportsAgree`). `namespace=""` is different: objects of every namespace are loaded and shown by the
  forward report, but the reverse report filters on the empty name and drops every RoleBinding. There the
  reports agree iff every granting role is shadowed, in particular when none grants (`AnalyzeRbacIsDualIff`).
* **An apply patches exactly the object its check read** iff nobody wrote to that object in between
  (`ApplyOverwritesWhatItReadIff`); a replace succeeds only then (`ReplaceSucceedsIff`).
* **Untainting removes exactly the named taint** iff the position it read still holds that taint when the
  patch arrives (`UntaintTakesExactlyIff`); over a sequence of others' edits, iff they leave its position where
  it was (`UntaintSurvivesEditsIff`).
* **Tainting succeeds** iff the node already has a `taints` array, because JSON Patch `add` to `/spec/taints/-`
  needs the array to exist (section 4.1 of RFC 6902), and no taint in it has that key and effect, because the
  API server refuses such a node. Then untainting restores the exact list (`TaintThenUntaint`); after a
  refusal it would remove the taint that was there before (`UntaintAfterRefusal`).
* **The order of the two JSON Pointer replaces** matters iff the token has a `/` (`OrderMatters`).

Where code and its own documentation disagree the model follows the code: `taint_node` documents
`node.kubernetes.io/unreachable:NoExecute` but the key pattern refuses any `/` (`DocumentedExampleRefused`);
the text limit is described as hard but is not for the cases above; `_k8s_gpu_view` says it counts GPU Pods on
non-GPU nodes, but only Pending ones are counted there.

## Model

| member | source | states |
|---|---|---|
| SingleFlight.FitsOpenapiCache | src/k8s_mcp/tools/discovery.py:230-237 | stopping early gives the same answer as measuring the whole encoding against 8 MiB |
| SingleFlight.SchemaCache.EnterSection | src/k8s_mcp/tools/discovery.py:280-294 | the first lock section: evict a foreign key, then hit within the TTL, follow, or register a new Future and lead; whole new state |
| SingleFlight.SchemaCache.StoreSection | src/k8s_mcp/tools/discovery.py:240-266 | retains a fitting schema under its key, empties the cache for an oversized one, returns the fetched schema either way |
| SingleFlight.SchemaCache.UnregisterSection | src/k8s_mcp/tools/discovery.py:311-314 | pops the entry only while it is still this Future |
| SingleFlight.SchemaCache.ResetSection | src/k8s_mcp/tools/discovery.py:317-324 | empties cache and registrations, touches no Future |
| SingleFlight.RunKeepsInv | src/k8s_mcp/tools/discovery.py:276-324 | the inductive invariant (Futures, calls, registrations, stores) holds after every interleaving |
| SingleFlight.UnresolvedFutureHasOneLeader | src/k8s_mcp/tools/discovery.py:290-310 | in every reachable state an unresolved Future has exactly one active leader, which still owes the result |
| SingleFlight.LeaderResolvesUnresolved | src/k8s_mcp/tools/discovery.py:299-310 | the Future a leader resolves is always still unresolved, so `set_result`/`set_exception` cannot fail |
| SingleFlight.ResolvedOnce | src/k8s_mcp/tools/discovery.py:299-310 | once resolved, a Future keeps its outcome in every continuation |
| SingleFlight.FollowerGetsItsLeadersOutcome | src/k8s_mcp/tools/discovery.py:296-310 | a follower ends with the result or exception of the leader it followed, for the key it asked for |
| SingleFlight.StaleLeaderNeverPopsAnother | src/k8s_mcp/tools/discovery.py:311-314 | a leader overtaken by a reset never pops a newer leader's Future, and its own is gone afterwards |
| SingleFlight.OneLeaderPerKeyIff | src/k8s_mcp/tools/discovery.py:290-324 | from any reachable state, on all continuations without a reset, the key has at most one leader iff every active leader of it is registered |
| SingleFlight.ResetIsHarmlessIff | src/k8s_mcp/tools/discovery.py:317-324 | after a reset the key has at most one leader from then on iff nobody is fetching it at that moment |
| SingleFlight.OneLeaderPerKey | src/k8s_mcp/tools/discovery.py:290-324 | on every run whose resets all happen while nobody fetches the key, no two active leaders share it |
| SingleFlight.FetchesOnlyWhenNobodyDoes | src/k8s_mcp/tools/discovery.py:280-297 | on every run a call hits iff a fresh value is cached, follows iff not and a registered leader has the key, fetches iff neither; with all leaders registered, iff nobody is fetching |
| SingleFlight.ResetAdmitsSecondLeader | src/k8s_mcp/tools/discovery.py:317-324 | the witness: a run in which a reset during a fetch leads to two fetches of one key at once |
| SingleFlight.StoredValuesWereFetched | src/k8s_mcp/tools/discovery.py:300-302 | every stored schema is what that leader's own fetch returned |
| SingleFlight.HitIsFreshAndFetched | src/k8s_mcp/tools/discovery.py:280-289 | a hit for key k returns a schema that a leader fetched under k and stored at most 300 s before, within the cap |
| SingleFlight.RetainedWithinCap | src/k8s_mcp/tools/discovery.py:257-266 | the retained value fits the byte cap and is the latest store under its key; after an oversized store nothing is retained |
| SingleFlight.CacheHoldsIff | src/k8s_mcp/tools/discovery.py:257-266 | the cache holds a schema iff it was stored under its key, at most 8 MiB large, and since then there was no reset, no other store and no call entering for another key |
| SingleFlight.HitsIff | src/k8s_mcp/tools/discovery.py:280-289 | a call finishes by a hit with a schema iff that schema was so stored for its key, kept since, and is at most 300 s old |
| SingleFlight.EncodedSizeIsTheSum | src/k8s_mcp/tools/discovery.py:232-237 | what is compared with the cap is the sum of the chunk lengths |
| SingleFlight.StoredSchemaReachesEveryone | src/k8s_mcp/tools/discovery.py:296-304 | an oversized schema still reaches its leader and all followers, like any other |
| SingleFlight.CallStepsRunOut | src/k8s_mcp/tools/discovery.py:276-314 | every step of a call uses up a bounded number of remaining steps |
| SingleFlight.NoDeadlock | src/k8s_mcp/tools/discovery.py:296-314 | no reachable state with an unfinished call is deadlocked: it, or the leader it waits for, can move |
| SingleFlight.EveryCallCanFinish | src/k8s_mcp/tools/discovery.py:276-314 | from every reachable state all calls can be driven to completion within the remaining steps |
| ExecutionSlots.ExecutionGate.Acquire | src/k8s_mcp/server.py:191-192 | non-blocking acquire: takes a slot iff one is free |
| ExecutionSlots.ExecutionGate.Release | src/k8s_mcp/server.py:95-98 | a bounded semaphore gives a slot back iff not all are free |
| ExecutionSlots.ExecutionGate.InFlightInc | src/k8s_mcp/server.py:332-335 | adds one, leaves the slots alone |
| ExecutionSlots.ExecutionGate.InFlightDec | src/k8s_mcp/server.py:338-342 | subtracts one, clamped at zero, leaves the slots alone |
| ExecutionSlots.ExecutionGate.Admit | src/k8s_mcp/server.py:191-202 | busy and failed submissions leave the gate as it was; an admitted call takes one slot and one count |
| ExecutionSlots.ExecutionGate.ReleaseSlot | src/k8s_mcp/server.py:204-206 | the done-callback undoes exactly one admission |
| ExecutionSlots.SlotsBalance | src/k8s_mcp/server.py:187-221 | in every interleaving free plus held slots are the maximum, no release is refused, the counter is exact and its clamp never fires |
| ExecutionSlots.BusyOnlyWhenFull | src/k8s_mcp/server.py:191-192 | a call is refused iff every slot is held |
| ExecutionSlots.ReleasedExactlyOnce | src/k8s_mcp/server.py:194-208 | an admitted call has released once if it no longer holds its slot, otherwise not at all |
| ExecutionSlots.QuiescenceRestoresGate | src/k8s_mcp/server.py:187-221 | once all calls are through, semaphore and counter are back at their initial values |
| ExecutionSlots.EveryRunCanDrain | src/k8s_mcp/server.py:187-221 | every run can be wound down without new arrivals to a state in which each admitted call released exactly once, no body is left and the gate is restored |
| ExecutionSlots.ShieldedKeepsBackpressure | src/k8s_mcp/server.py:210-216 | with the timeout on, a body that has not ended holds its slot, bodies never exceed the workers, and a queued body can start at once |
| ExecutionSlots.CancelRunFreesARunningSlot | src/k8s_mcp/server.py:217-218 | the concrete run in which an unshielded cancelled call frees its slot while its body runs |
| ExecutionSlots.BackpressureIffShielded | src/k8s_mcp/server.py:209-218 | that backpressure holds on all runs iff the timeout is positive |
| ExecutionSlots.ReleaseOnlyAfterBody | src/k8s_mcp/server.py:194-218 | a slot is released only after its body ended or its submission failed, unless this very call was cancelled unshielded before its body ended |
| ExecutionSlots.FreedEarlyIff | src/k8s_mcp/server.py:204-218 | while a body runs its slot has been released, or can be at once, iff its own caller was cancelled unshielded before |
| RateLimit.TokenBucket.TryConsume | src/k8s_mcp/safety.py:222-244 | refill, then consume or reject with the waiting time; whole new state |
| RateLimit.RateLimiter.CheckCall | src/k8s_mcp/safety.py:265-284 | one limiter check against the tool's own bucket, created on first use; whole new state of all buckets |
| RateLimit.TokensStayInRange | src/k8s_mcp/safety.py:222-244 | tokens stay within [0, capacity] along every trace |
| RateLimit.RateBound | src/k8s_mcp/safety.py:222-244 | every window [s, e] of every trace hands out at most capacity + rate * (e - s) tokens |
| RateLimit.RateBoundIsSharp | src/k8s_mcp/safety.py:222-244 | for every capacity, rate and k some trace reaches that bound exactly |
| RateLimit.RetryIsExact | src/k8s_mcp/safety.py:241-244 | after a rejection with retry r and any failed attempts in between, an attempt succeeds iff it comes at now + r or later |
| RateLimit.RetryAdviceHoldsIff | src/k8s_mcp/safety.py:241-244 | waiting as advised succeeds iff the request fits the bucket and the rate is positive |
| RateLimit.RejectionAdvice | src/k8s_mcp/safety.py:241-244 | a rejection advises the missing tokens divided by the rate, or 60 s when the rate is 0 |
| RateLimit.FreshLimiterAdmitsBurst | src/k8s_mcp/safety.py:250-284 | a fresh limiter admits exactly max(1, rpm div 6) calls of a tool at one instant and tells every further one to wait 60 / rpm seconds |
| RateLimit.ToolsAreIsolated | src/k8s_mcp/safety.py:265-284 | decisions for one tool in a mixed trace are those of a single fresh bucket on that tool's own attempts |
| RateLimit.FreshBucketForgetsItsAge | src/k8s_mcp/safety.py:215-220 | when a full bucket was created makes no difference to its decisions |
| RateLimit.DisabledLimiterAcceptsAll | src/k8s_mcp/safety.py:273-274 | with a non-positive rpm every check passes |
| RateLimit.PerMinuteBound | src/k8s_mcp/safety.py:250-284 | per tool at most max(1, rpm div 6) + rpm accepted calls in any minute, whatever other tools do |
| ClientCache.ClientGlobals.GetApiSection | src/k8s_mcp/client.py:186-198 | build, replace or reuse under the lock; failure to load the configuration changes nothing |
| ClientCache.ClientGlobals.GetDynamicSection | src/k8s_mcp/client.py:215-224 | rebuild the proxy iff key or client identity changed |
| ClientCache.ClientGlobals.ResetDynamicSection | src/k8s_mcp/client.py:230-232 | drops the proxy only |
| ClientCache.ClientGlobals.ResetApiSection | src/k8s_mcp/client.py:233-236 | drops the client and hands it over for closing |
| ClientCache.GetDynamicWrapsItsClient | src/k8s_mcp/client.py:212-224 | the returned proxy wraps the very client this call obtained, although the key compares `id()` values that Python may reuse |
| ClientCache.CachedClientIsOpen | src/k8s_mcp/client.py:186-200 | the cached client is never closed nor about to be closed by any call |
| ClientCache.RebuildsExactlyOnKeyChange | src/k8s_mcp/client.py:187-193 | a get builds, and dooms the old client, iff nothing is cached or the key differs |
| ClientCache.ProxyReusedIff | src/k8s_mcp/client.py:215-224 | the cached DynamicClient proxy is reused iff it wraps the client this call obtained; otherwise a new one around that client is built and cached |
| ClientCache.ResetForgetsProxy | src/k8s_mcp/client.py:230-232 | the first step of a reset drops the proxy and nothing else |
| ClientCache.ResetForgetsClient | src/k8s_mcp/client.py:233-237 | the second drops the ApiClient and hands exactly that one over for closing |
| ClientCache.CachedKeyMatchesClient | src/k8s_mcp/client.py:190-193 | the cached key is the one the cached client was built for |
| ClientCache.ClosedAtMostOnce | src/k8s_mcp/client.py:134-145 | over all runs each built client is closed at most once and only after it was replaced or reset |
| ClientCache.ResultsMatchTheirCalls | src/k8s_mcp/client.py:173-224 | every call gets a client built for its own key, and a proxy around it |
| ClientCache.NoClientLeaks | src/k8s_mcp/client.py:173-237 | when all calls are over every client except the cached one has been closed exactly once |
| Events.CollectEvents | src/k8s_mcp/tools/events.py:58-80 | filter, sort, slice, one row per event with its sort key |
| Events.ListEventsMulti | src/k8s_mcp/tools/events.py:143-169 | concatenates the per-namespace rows, re-sorts and slices |
| Events.WantedRowsShow | src/k8s_mcp/tools/events.py:58-80 | before truncation the rows are, in order and once each, exactly those of the Warnings, or of all events; type, content and the first of the four times that is set |
| Events.CollectedIs | src/k8s_mcp/tools/events.py:58-80 | one namespace answers the first `limit` rows (all but the last -limit for a negative one) of the stable newest-first arrangement of those rows |
| Events.ListedEventsAre | src/k8s_mcp/tools/events.py:162-169 | for a limit that is not negative the multi-namespace answer is the first `limit` rows of the arrangement of the wanted events of all namespaces together |
| Events.NoEventIsLost | src/k8s_mcp/tools/events.py:143-169 | with room for all, every wanted event of every namespace has its row in the answer |
| Events.SliceIsPrefix | src/k8s_mcp/tools/events.py:62-62 | how much Python slicing keeps, for every limit |
| Events.SortIsTheStableArrangement | src/k8s_mcp/tools/events.py:61-61 | the sort is the one list that is newest-first and keeps the order within every timestamp |
| Events.MergeOfParts | src/k8s_mcp/tools/events.py:58-62 | sorting and truncating each part, then the concatenation, gives the very list of sorting and truncating everything, ties included |
| Events.MergeIsExactIff | src/k8s_mcp/tools/events.py:165-169 | exact for all event streams iff the limit is not negative |
| Events.NegativeLimitLosesEvents | src/k8s_mcp/tools/events.py:62-62 | for every negative limit two namespaces that lose events a single listing keeps |
| Events.WarningsSurviveNormals | src/k8s_mcp/tools/events.py:58-62 | `warning_only` never loses a Warning that is among the newest `limit` Warnings of all namespaces |
| LogFanOut.FetchSerial | src/k8s_mcp/tools/logs.py:297-312 | the serial loop with its error placeholders and first untolerated exception |
| LogFanOut.SerialIs | src/k8s_mcp/tools/logs.py:297-312 | the result is the first intolerable error or, in pod order, the records of each pod or one line `[error: ...]` with its pod and container |
| LogFanOut.FetchParallel | src/k8s_mcp/tools/logs.py:314-345 | the pool for one completion order: dict writes, then the merge in name order |
| LogFanOut.FetchLogsMulti | src/k8s_mcp/tools/logs.py:287-345 | serial below the threshold, pool from it on; with distinct names the outcome is the serial one either way |
| LogFanOut.DistinctNamesAgree | src/k8s_mcp/tools/logs.py:314-345 | for distinct names and every completion order the pool's records, placeholders and exception are the serial ones |
| LogFanOut.DuplicateNamesDisagree | src/k8s_mcp/tools/logs.py:318-328 | for any repeated name, answers on which the two branches differ in every completion order |
| LogFanOut.ParallelIsSerialIff | src/k8s_mcp/tools/logs.py:297-345 | the result is the serial one for all answers and completion orders iff the names are too few for the pool or distinct |
| LogOutput.FilterWithContext | src/k8s_mcp/tools/logs.py:379-391 | the `keep` set grown match by match picks the records near a match |
| LogOutput.FilteredAre | src/k8s_mcp/tools/logs.py:379-391 | what is shown are, in order and once each, exactly the records within `context_lines` of a match |
| LogOutput.SerializeText | src/k8s_mcp/tools/logs.py:531-552 | the kept bytes and the truncated flag |
| LogOutput.RenderedLinesAre | src/k8s_mcp/tools/logs.py:533-541 | each line names pod and container when known, then the time if any, then the text |
| LogOutput.JoinSplits | src/k8s_mcp/tools/logs.py:542-542 | joining lines is joining the parts with one newline between them |
| LogOutput.EncodeIsUtf8 | src/k8s_mcp/tools/logs.py:546-546 | the encoder is UTF-8: length, leading bits and code point (section 3 of RFC 3629) |
| LogOutput.KeptIsSuffix | src/k8s_mcp/tools/logs.py:543-551 | whatever is kept is a suffix of the encoded text, at most `max_bytes` long when `max_bytes >= 1` |
| LogOutput.CutRespectsBudgetIff | src/k8s_mcp/tools/logs.py:546-551 | what is kept, trim included, is within the budget for all over-long texts iff `max_bytes >= 1`; the same for the cut before the trim |
| LogOutput.TrimsIff | src/k8s_mcp/tools/logs.py:548-551 | the line trim applies iff the first newline of the cut is neither its first nor its last byte |
| LogOutput.TrimmedPayloadFollowsNewline | src/k8s_mcp/tools/logs.py:548-552 | then the payload is the whole text after the first newline behind the cut, in budget, no character split and no newline passed over |
| LogOutput.TrimmedPayloadIsLines | src/k8s_mcp/tools/logs.py:542-552 | then it is the newline-join of the longest proper suffix of the rendered lines shorter than the budget: with one more line it would not be |
| LogOutput.UntrimmedPayloadFitsIff | src/k8s_mcp/tools/logs.py:547-552 | without the trim exactly the last `max_bytes` bytes are kept; decoded they fit iff the cut did not fall inside a character, and exceed the budget by at most 6 bytes |
| LogOutput.CutPoint | src/k8s_mcp/tools/logs.py:546-547 | a byte cut of UTF-8 leaves at most three stray bytes before a whole suffix of the text |
| LogOutput.DecodeEncoded | src/k8s_mcp/tools/logs.py:546-552 | decoding with replacement undoes UTF-8 encoding |
| LogOutput.SerializeJson | src/k8s_mcp/tools/logs.py:555-563 | pops from the caller's list until the dump fits; the final list and the truncated flag |
| LogOutput.LongestFittingIsLongest | src/k8s_mcp/tools/logs.py:559-563 | the result is the longest record suffix whose dump fits, or the empty list when none does |
| JsonPath.JsonPath | src/k8s_mcp/tools/wait_tool.py:131-165 | the cursor loop computes the token walk, with its three lookup failures |
| JsonPathTokens.TokenizeIsFindall | src/k8s_mcp/tools/wait_tool.py:143-143 | on every string the tokens are the leftmost, longest, non-overlapping matches of the regular expression |
| JsonPathTokens.FindallIsUnique | src/k8s_mcp/tools/wait_tool.py:143-143 | that reading determines the tokens |
| JsonPath.TokenizePrinted | src/k8s_mcp/tools/wait_tool.py:143-143 | a printed path tokenizes back to exactly its segments |
| JsonPath.DottedRoundTrip | src/k8s_mcp/tools/wait_tool.py:142-165 | evaluating the leading-dot form is the recursive walk over the segments |
| JsonPath.IndexingIsPythons | src/k8s_mcp/tools/wait_tool.py:159-163 | `[-k]` and `[n - k]` both give the k-th element from the end of a list of n, every other index is out of range, and only lists can be indexed |
| JsonPath.KeyLookupIsExact | src/k8s_mcp/tools/wait_tool.py:154-158 | a key gives the field of an object that has it, and is missing otherwise |
| JsonPath.PathsCompose | src/k8s_mcp/tools/wait_tool.py:151-165 | a path is evaluated segment by segment and the first failure is the answer |
| JsonPath.DroppingDotIsSafeIff | src/k8s_mcp/tools/wait_tool.py:144-150 | for every path: dropping the dot changes nothing on any object iff the path is empty or starts with a key not directly followed by an index |
| ResourceWrites.ApiServer.Replace | src/k8s_mcp/tools/generic.py:702-712 | a PUT succeeds iff the object still has the version sent; otherwise conflict or not found, store unchanged |
| ResourceWrites.ApiServer.Patch | src/k8s_mcp/tools/generic.py:901-905 | a patch merges into whatever is there |
| ResourceWrites.ApiServer.Create | src/k8s_mcp/tools/generic.py:910-914 | a create succeeds iff the object is absent |
| ResourceWrites.ReplaceOne | src/k8s_mcp/tools/generic.py:671-712 | one pass of the loop: read, stamp the version, PUT, with others writing in between |
| ResourceWrites.ApplyOne | src/k8s_mcp/tools/generic.py:882-920 | one pass of the loop: patch what exists, create what does not |
| ResourceWrites.ReplaceResource | src/k8s_mcp/tools/generic.py:652-713 | gate, then the documents in order up to the first failure; the store afterwards |
| ResourceWrites.ApplyYamlRecords | src/k8s_mcp/tools/generic.py:862-922 | the same for apply |
| ResourceWrites.NoSilentOverwrite | src/k8s_mcp/tools/generic.py:681-712 | whatever others do between any two calls, every successful replace overwrote exactly the object it had read |
| ResourceWrites.ReplaceSucceedsIff | src/k8s_mcp/tools/generic.py:677-712 | a replace goes through iff its kind is known, the object is there, no call failed and nobody wrote to the object since it was read; it then stores the document there and nothing else |
| ResourceWrites.RefOfIdentifies | src/k8s_mcp/tools/generic.py:671-685 | two documents name the same object iff kind, name and namespace (absent or empty alike) agree |
| ResourceWrites.ApplySucceedsIff | src/k8s_mcp/tools/generic.py:886-920 | an apply goes through iff its kind is known, no call failed and the object's presence did not change between check and write; what it then stores, and how it fails otherwise |
| ResourceWrites.UnchangedIffLeftAlone | src/k8s_mcp/tools/generic.py:681-703 | a stored object, version included, is what it was iff no write by others named it |
| ResourceWrites.ApplyOverwritesWhatItReadIff | src/k8s_mcp/tools/generic.py:891-905 | a patch lands on exactly the object the check read iff nobody wrote to it in between |
| ResourceWrites.ApplyMayOverwriteUnseen | src/k8s_mcp/tools/generic.py:895-905 | a concrete run in which apply patches an object state it never read |
| ResourceWrites.OneDeniedDocumentBlocksAll | src/k8s_mcp/tools/generic.py:862-878 | nothing is written unless the server is writable and `ns_allowed` holds for every document; one denied document blocks all |
| ResourceWrites.GateIsTheAllowlist | src/k8s_mcp/config.py:190-197 | the tools run iff the manifest is not empty, the server is writable and, under an allowlist, every document names a listed namespace |
| ResourceWrites.WritesStayInAllowlist | src/k8s_mcp/tools/generic.py:662-667 | under an allowlist every logged write is for a document in a listed namespace |
| ResourceWrites.DeniedIsFirst | src/k8s_mcp/tools/generic.py:873-878 | a refusal names the first document that is not allowed |
| ResourceWrites.StepEffect | src/k8s_mcp/tools/generic.py:882-920 | besides others' writes a document changes one object or nothing |
| ResourceWrites.ExactlyThePrefixIsWritten | src/k8s_mcp/tools/generic.py:882-922 | if document i fails exactly the documents before i have been written, in order, otherwise all; the store afterwards is the replay of those writes among others' writes |
| PrometheusDiscovery.DiscoveryGlobals.ResolvePrometheusUrlLocked | src/k8s_mcp/tools/prometheus.py:103-208 | one resolution: rekeying, both caches, the ladder, the new globals |
| PrometheusDiscovery.LadderStopsAtFirst | src/k8s_mcp/tools/prometheus.py:138-175 | the answer is that of the first allowed candidate that is reachable or fails with something other than 404 |
| PrometheusDiscovery.LadderFallsThrough | src/k8s_mcp/tools/prometheus.py:181-208 | if there is none the answer is the URL of the wide scan's preferred Service, nothing when a list call failed or nothing matches |
| PrometheusDiscovery.LadderStaysInAllowlist | src/k8s_mcp/tools/prometheus.py:130-202 | a discovered URL belongs to an allowed candidate, or to a listed Service in an allowed namespace with "prom" in its name |
| PrometheusDiscovery.AnswersSayWhy | src/k8s_mcp/tools/prometheus.py:130-208 | a scan answers what the ladder finds, and a call fails before scanning only without a client |
| WideScan.ListServices | src/k8s_mcp/tools/prometheus.py:271-304 | lists each allowed namespace once and in order, or the whole cluster; a 404 is skipped |
| WideScan.ListedIffNoError | src/k8s_mcp/tools/prometheus.py:273-293 | with an allowlist the scan raises iff the list call of one of its namespaces fails with anything but 404 |
| WideScan.ListedServicesAre | src/k8s_mcp/tools/prometheus.py:273-293 | exactly the Services of the listed namespaces appear; a missing namespace adds none |
| WideScan.ListedInOrder | src/k8s_mcp/tools/prometheus.py:273-293 | the namespaces' answers follow one another in their order |
| WideScan.DeduplicatedKeepsFirst | src/k8s_mcp/tools/prometheus.py:274-274 | a repeated namespace is listed where it occurs first |
| WideScan.HitIff | src/k8s_mcp/tools/prometheus.py:308-315 | a Service matches iff its namespace is allowed and its name has "prom" in it in any case; the longer hints add nothing |
| WideScan.WideScanMatches | src/k8s_mcp/tools/prometheus.py:306-329 | the matching allowed Services, external ones first, listing order within each sort |
| WideScan.HitsAre | src/k8s_mcp/tools/prometheus.py:309-323 | the matches of each sort are exactly the matching Services of that sort, in order and once each |
| WideScan.FirstMatchIsPreferred | src/k8s_mcp/tools/prometheus.py:306-329 | the first match is the first NodePort or LoadBalancer match in listing order, otherwise the first match |
| WideScan.MatchesNothingIff | src/k8s_mcp/tools/prometheus.py:306-329 | there is no match iff no listed Service qualifies, otherwise a preferred one exists |
| PrometheusDiscovery.NeverBothCached | src/k8s_mcp/tools/prometheus.py:109-128 | a positive URL and the failure flag are never set together |
| PrometheusDiscovery.CachedAnswersAreFresh | src/k8s_mcp/tools/prometheus.py:109-126 | every cached answer was found by a scan under the same key less than 300 s (failures: 30 s) ago |
| PrometheusDiscovery.ScansKeepTheirDistance | src/k8s_mcp/tools/prometheus.py:109-130 | between two scans of any run with no key change in between lie at least 30 s after a failure, 300 s after a success |
| PrometheusDiscovery.FewScansPerWindow | src/k8s_mcp/tools/prometheus.py:103-130 | in any stretch of any run a window of T seconds sees at most T/30 + 1 scans start, plus one per key change in the stretch |
| Rbac.SubjectReport | src/k8s_mcp/tools/rbac.py:495-538 | lists exactly the bindings naming the subject, once each and in order, each with the role it resolves to |
| Rbac.RuleReport | src/k8s_mcp/tools/rbac.py:586-623 | lists exactly the subject, binding, role edges of the query, as often as the binding names the subject, by role and then binding |
| Rbac.RuleMatchesIff | src/k8s_mcp/tools/rbac.py:347-377 | a rule matches iff each asked axis holds `*` or the value; an empty verb or resource asks nothing, an empty group asks for the core group, no groups mean the core group |
| Rbac.WildcardNeverFilters | src/k8s_mcp/tools/rbac.py:365-376 | an axis holding `*` never filters, and an all-`*` rule matches every query |
| Rbac.MatchingRulesAre | src/k8s_mcp/tools/rbac.py:586-594 | the matched rules are exactly the matching ones, in order and once each |
| Rbac.ClusterAdminIsListed | src/k8s_mcp/tools/rbac.py:600-623 | for every query the subjects of the bindings in scope to a role with an all-`*` rule are listed, and only they via that role |
| Rbac.SubjectMatchesIff | src/k8s_mcp/tools/rbac.py:335-344 | blanks around a needle aside, it matches the name or `kind:name`; an empty one matches nothing |
| Rbac.ScopeIs | src/k8s_mcp/tools/rbac.py:436-447 | what is loaded for None, for a namespace and for the empty namespace |
| Rbac.ReverseIsForward | src/k8s_mcp/tools/rbac.py:489-623 | without shadowed roles the reverse report has an edge iff the forward report shows that binding resolving to that role with a matching rule |
| Rbac.DualIff | src/k8s_mcp/tools/rbac.py:477-486 | cluster-wide the reports agree on every list of bindings a cluster can hold, subject and query iff no granting role is shadowed |
| Rbac.AnalyzeRbacIsDual | src/k8s_mcp/tools/rbac.py:436-457 | the reports agree on what is loaded for any namespace argument whose roles in scope meet the condition |
| Rbac.AnalyzeRbacIsDualIff | src/k8s_mcp/tools/rbac.py:436-457 | for given roles they agree whatever the bindings iff, for None or a namespace, no granting role is shadowed and, for the empty namespace, every granting role is |
| Rbac.ScopedReportsAgree | src/k8s_mcp/tools/rbac.py:445-447 | with unique names the reports for one non-empty namespace always agree; cluster-wide only namespaced Roles can be shadowed |
| Rbac.DroppingAnAxisEnlarges | src/k8s_mcp/tools/rbac.py:347-377 | leaving out a query axis only enlarges the reverse report |
| Taints.RenderParses | src/k8s_mcp/tools/node_ops.py:263-287 | parsing the rendered form of a canonical taint gives it back, `:` and `=` in the value included |
| Taints.ParsedIsCanonical | src/k8s_mcp/tools/node_ops.py:274-287 | every accepted spec parses to a canonical taint, on which render-then-parse is the identity |
| Taints.ParserAcceptsExactlySpellings | src/k8s_mcp/tools/node_ops.py:263-287 | the parser accepts exactly the spellings of taints with a valid key and a known effect |
| Taints.ValidNameIff | src/k8s_mcp/tools/node_ops.py:231-233 | the key pattern accepts exactly: legal characters, letters or digits at both ends and around every dot, never 64 characters without a dot |
| Taints.AcceptedEffects | src/k8s_mcp/tools/node_ops.py:275-280 | the three effects are accepted, blanks aside, and no other |
| Taints.RenderShowsValueOnlyIfAny | src/k8s_mcp/tools/node_ops.py:342-342 | the printed form has a `=` iff there is a value |
| Taints.PrefixedKeyRefused | src/k8s_mcp/tools/node_ops.py:274-286 | a key with a `/` is refused in every spec, `key:effect` and `key=value:effect` alike |
| Taints.DocumentedExampleRefused | src/k8s_mcp/tools/node_ops.py:488-489 | the second documented example of `taint_node` is refused |
| Taints.FindTaint | src/k8s_mcp/tools/node_ops.py:562-574 | the index loop finds the first taint with that key, value and effect, or none |
| Taints.FirstMatchIsFirst | src/k8s_mcp/tools/node_ops.py:564-569 | that index is the first taint with the key, the effect and the value, a missing value being "" |
| Taints.TaintThenUntaint | src/k8s_mcp/tools/node_ops.py:499-578 | tainting succeeds iff the array exists and no taint has that key and effect; then untainting restores the exact list |
| Taints.UntaintAfterRefusal | src/k8s_mcp/tools/node_ops.py:499-578 | when tainting was refused on an array, untainting removes the very taint if it was there and otherwise changes nothing |
| Taints.AppendThenUntaint | src/k8s_mcp/tools/node_ops.py:500-576 | the two JSON Patches alone, duplicates allowed: the multiset of taints is preserved, and the exact list when the taint was absent |
| Taints.UntaintTakesExactlyIff | src/k8s_mcp/tools/node_ops.py:555-576 | for any list read and any list at patch time: exactly one of the named taint goes iff the position read holds it; refused iff the position is gone; nothing is sent when it was absent |
| Taints.UntaintIsExactWhenUnmoved | src/k8s_mcp/tools/node_ops.py:555-576 | over any sequence of others' inserts, removals and overwrites that leave the taint's position where it was, exactly that taint goes |
| Taints.UntaintSurvivesEditsIff | src/k8s_mcp/tools/node_ops.py:555-576 | for a taint listed once that nobody adds again, exactly that taint goes iff the edits leave its position where it was |
| Taints.EditsBehindAreSafe | src/k8s_mcp/tools/node_ops.py:500-506 | edits behind the taint, such as appending others, never shift it |
| Taints.StaleIndexRemovesAnother | src/k8s_mcp/tools/node_ops.py:575-576 | the witness: after another client removes an earlier taint, untaint takes a different one |
| Taints.DistinctTaints | src/k8s_mcp/tools/node_ops.py:332-343 | exactly the distinct triples, once each, sorted by where they first occur |
| Escaping.EscapeIsOnePass | src/k8s_mcp/tools/generic.py:499-506 | the two ordered replaces are a one-pass substitution |
| Escaping.DecodingIsOnePass | src/k8s_mcp/tools/node_ops.py:290-292 | on reference tokens the ordered decoding of section 4 of RFC 6901 is a one-pass decoding |
| Escaping.EscapeIsABijection | src/k8s_mcp/tools/generic.py:499-506 | escaping yields a reference token without a raw `/`, the decoder undoes it, and it undoes the decoder on every reference token |
| Escaping.OrderMatters | src/k8s_mcp/tools/generic.py:506-506 | with the replaces swapped the result is the same iff the token has no `/` |
| Escaping.QuoteIsOnePass | src/k8s_mcp/tools/nvidia_metrics.py:36-38 | the three ordered replaces are a one-pass substitution |
| Escaping.PromqlStringRoundTrip | src/k8s_mcp/tools/nvidia_metrics.py:36-38 | a string-literal reader gets the value back and stops exactly at the closing quote, whatever follows |
| Gpu.PodGpuLimits | src/k8s_mcp/tools/nvidia_gpu.py:147-164 | the loops compute, per GPU resource named anywhere, the larger of app sum and init maximum |
| Gpu.EffectiveLimitIsLeast | src/k8s_mcp/tools/nvidia_gpu.py:83-164 | the limits name exactly the `nvidia.com/` resources some container names, each with the least capacity that suffices to run the init containers one at a time and then all app containers together |
| Gpu.GpuUnits | src/k8s_mcp/tools/gpu_capacity.py:51-57 | whole GPUs plus all MIG slices, in whatever order the dict is read |
| Gpu.UnitsAddUp | src/k8s_mcp/tools/gpu_capacity.py:51-57 | `nvidia.com/gpu` and everything under `nvidia.com/mig` counts, anything else does not |
| Gpu.UnitsOfPod | src/k8s_mcp/tools/gpu_capacity.py:75-79 | a Succeeded or Failed Pod holds nothing, any other the units of its limits |
| Gpu.OnePodMore | src/k8s_mcp/tools/gpu_capacity.py:76-82 | one more Pod counts for its node, or as pending when it is Pending, has limits and is on no GPU node |
| Gpu.GpuNodeIff | src/k8s_mcp/tools/nvidia_gpu.py:175-183 | which nodes are GPU nodes |
| Gpu.K8sGpuView | src/k8s_mcp/tools/gpu_capacity.py:60-83 | per GPU node its allocatable and held units; the held totals sum to the units of all live GPU Pods on GPU nodes; Pending Pods elsewhere are counted |
| Gpu.HeldTotalsAddUp | src/k8s_mcp/tools/gpu_capacity.py:76-82 | per-node totals add up to exactly the units placed on those nodes: nothing twice, nothing dropped |

## Left out

- Transport, authentication loading, certificate parsing, the command line, logging, signal handlers, argument parsing and result conversion.
- The manifest builders, rendered tables, hints and report text; events, RBAC and GPU stop at the rows.
- SingleFlight: an asynchronous exception (such as KeyboardInterrupt) between `set_result` and the `return`, after which `set_exception` would find the Future resolved, is not a step of the model.
- SingleFlight.NoDeadlock: a fetch or an encoder that never returns is not a deadlock of the protocol; the model's fetch can always end.
- ExecutionSlots: the rate limiter's check before the slot is not joined into the same state machine; the moment between a worker finishing a body and becoming idle, in which a fresh body may briefly wait, is not modelled.
- RateLimit, PrometheusDiscovery, SingleFlight: clock readings and tokens are reals; floating-point rounding is not modelled.
- ClientCache.CachedClientIsOpen: says nothing about a client that a caller still holds after a rotation; such a client can be closed under it by design.
- ResourceWrites: strategic merge is an uninterpreted function; a failed call is taken as not applied; `metadata` is always a mapping; resource versions are numbers that every write raises.
- ResourceWrites.ApplySucceedsIff: a conflict on a patch without a version is not produced by the modelled store.
- LogOutput.TrimmedPayloadIsLines: is for rendered lines without newlines; an error placeholder may contain one, and TrimmedPayloadFollowsNewline covers that case.
- LogOutput: lone surrogates (which cannot be encoded) do not occur; the JSON dump is represented by its encoded length; the regular expression by a predicate on lines. The notice appended after serialization is not part of the payload.
- JsonPath: bracketed digits are ASCII; `\d` also admits other Unicode digits. `wait_resource`'s polling loop, which evaluates such a path until a deadline, is not modelled.
- WideScan: the single-namespace mode used by `find_prometheus_service`, which returns a namespace unfiltered; Service names are lower-cased for ASCII letters only; building a URL from a Service is an input. The explicit `prometheus_url` is handled before this function, and a discovered URL is never empty.
- Rbac: the namespace-only and summary reports; the fields a table adds to a row. That the Kubernetes client lists all namespaces when given an empty one is taken from that library.
- Taints: that the API server refuses two taints with the same key and effect is its validation rule, taken as given; other clients' edits are not assumed to obey it.
- Taints: `untaint_node` without a spec (it replaces the whole list); the loops of `drain_node` that partition and evict Pods.
- Gpu: quantities are natural numbers, fractions and unparsable text (read as 0) are not modelled; per-metric utilisation is left out.
- Node cordoning, labels, network policies, explain, notifier, health and the metrics quantity parsers: case analysis or text slicing without a deeper property.
