# corx: verified models of the proxy's stateful core

corx is a CORS proxy: it extracts a target from the request, follows the upstream's redirects
itself, guards every hop with a per-host circuit breaker and a target policy, caps concurrency
and streamed bytes, and swaps its configuration while running. This project models that logic
in Dafny and proves what it keeps over whole runs, chains and interleavings. `dafny verify
dfyconfig.toml` checks all of it.

| file | component |
|---|---|
| `Circuit.dfy`, `CircuitRuns.dfy`, `CircuitBreaker.dfy` | the breaker: its entries and eviction, its runs, the shared object and the hop guard |
| `Redirect.dfy`, `RedirectChain.dfy` | one redirect step; every chain of requests redirects can produce |
| `Exchange.dfy`, `Traffic.dfy` | the request loop; any number of requests interleaving on one breaker |
| `Fleet.dfy` | requests interleaving with reloads, each on the breaker it took along |
| `Reload.dfy`, `Handler.dfy` | configuration snapshots and hot reload; one request's three loads of the live snapshot |
| `LoadShed.dfy`, `KeyRegistry.dfy` | the in-flight cap and the bounded rate-limit key registry, thread by thread |
| `Target.dfy` | host and scheme policy |
| `Ranges.dfy`, `Ssrf.dfy` | the two tables of address ranges; address policy and the lookup loop |
| `Location.dfy`, `Cors.dfy`, `Metering.dfy` | Location rewriting and target extraction; CORS stamping; the streamed body cap |
| `Wrappers.dfy`, `Text.dfy`, `HeaderMaps.dfy` | options and results, ASCII text, header maps |

## How to read it

Time is a natural number. A breaker's run is a sequence of events, each a call with its instant,
its answer and the hosts it evicted; `Run` says every event is one the code can make, so the
lemmas hold for every iteration order of the host map. `CircuitBreaker` keeps the history of its
calls, and its `Valid` says the host map is what that history leads to: each lemma about
reachable runs is therefore a statement about that object. The same shape serves requests
(`Played`), traffic (`History`), reloads (`After`), permits and registry keys (`Playable`).

A lemma named `…Exactly` says in plain terms, and where it is a condition both ways, what a
function of the model yields.

Stated assumptions: each operation of the breaker is one atomic step, and `now` never decreases
from one to the next (the code reads `now` before it takes the entry lock); each map operation
and each `len` of the key registry is one atomic step; fewer than 2^64 requests are counted in
flight at once. The upstream's replies, the Location resolver, the URI parser, section compilers
and the inner body are arbitrary functions.

Where the code differs from what is said about it, the model follows the code:

- A late success closes an open host early. `OpenStaysShut` gives the exact condition and
  `LateSuccessOpensEarly` a run that shows it.
- Evicting an expired open host forgets its probe budget, so `ProbeRateBound` speaks of hosts not
  evicted. `EvictionForgetsBudget` gives runs, with no success recorded, that exceed the bound by
  any margin; `ClosedAdmitsAll` says what an evicted host is granted.
- `docs/architecture.md:83-84` says a handler uses one snapshot for a whole request; the code loads
  three. `OneSnapshotExactly` says when they are one: if and only if no reload is accepted between
  the first load and the last. `SameSectionsSameAnswer` names the sections whose change can be
  noticed at all. `ReloadRefusesAdmitted` gives, for every running server and every target it
  admits, a valid reload of the target section after which that request is refused unsent, and
  `StraddlingRequest` says what holds wherever the loads fall.
- A registered key of an admitted caller can be lost to another thread's undo, whichever lookup
  admitted the caller. `KeptExactly` gives the exact condition, read off where the threads stand;
  `RaceLosesKey`, `FoundKeyIsUndone` and `PendingRemovalUndoes` are runs that lose the key.
- A body cap of the largest 64-bit value caps nothing, because the count saturates there.
  `BudgetBinds` says which caps bind.
- `crates/corx-core/src/config/ssrf.rs:22-25` says permissive mode without `allow_private` admits
  RFC 1918 space; the code rejects it (`PermissiveStillBlocksPrivate`).
- `crates/corx-core/src/proxy/cors.rs:191-193` says the upstream's CORS headers are replaced. The
  allow-origin field is, when the origin is admitted (`AllowOriginAfterStamp`); the allow-credentials
  field is never taken away (`CredentialsAfterStamp`, `UpstreamCredentialsSurvive`); a second Vary
  line can be lost (`VaryLinesKept`); and the upstream's allow-methods, allow-headers and max-age
  always go through (`StampLeavesTheRest`).

## Model

| member | source | states |
|---|---|---|
| Circuit.SizeAfterEviction | crates/corx-core/src/policy/circuit.rs:178-207 | for every iteration order the map ends within its cap, or holds exactly the protected entries when they alone exceed it; no protected entry is removed |
| Circuit.LiveClosedGoesLast | crates/corx-core/src/policy/circuit.rs:183-191 | a closed entry with live failures is evicted only when no idle closed and no expired open entry is left |
| Circuit.ExpiredGoesAfterIdle | crates/corx-core/src/policy/circuit.rs:183-191 | an expired open entry is evicted only when no idle closed one is left |
| Circuit.NoEvictionWithinCap | crates/corx-core/src/policy/circuit.rs:179-182 | a map within its cap loses nothing, and only then is losing nothing the sole outcome |
| Circuit.CallPossible | crates/corx-core/src/policy/circuit.rs:114-207 | every call can be made in every state, with an eviction the passes may make |
| Breaker.ThreePasses | crates/corx-core/src/policy/circuit.rs:178-191 | the three passes together remove exactly min(excess, unprotected) entries in tier order |
| Breaker.ThreeTiers | crates/corx-core/src/policy/circuit.rs:184-190 | the counting behind them: whatever each pass picks, the totals and the order come out |
| Breaker.EveryEvictionArises | crates/corx-core/src/policy/circuit.rs:178-206 | conversely every eviction the model allows is what three such passes can remove |
| Breaker.CircuitBreaker.EvictMatching | crates/corx-core/src/policy/circuit.rs:193-206 | one retain loop, in any visiting order, removes min(excess, matching) matching entries and nothing else |
| Breaker.CircuitBreaker.EvictIfNeeded | crates/corx-core/src/policy/circuit.rs:178-191 | the eviction as a whole is a legal one, whichever entries it met first |
| Breaker.CircuitBreaker.Check | crates/corx-core/src/policy/circuit.rs:114-135 | a check is one event of the breaker's run, with the verdict it returned |
| Breaker.CircuitBreaker.RecordSuccess | crates/corx-core/src/policy/circuit.rs:139-147 | a success resets a tracked host, touches no other and never creates or evicts one |
| Breaker.CircuitBreaker.RecordFailure | crates/corx-core/src/policy/circuit.rs:150-170 | a failure is one event of the run, and the result tells whether it tripped |
| Breaker.CircuitHop.Admit | crates/corx-core/src/policy/circuit.rs:282-290 | a guard exists exactly when the check admitted the host, and starts unsettled |
| Breaker.CircuitHop.Success | crates/corx-core/src/policy/circuit.rs:299-302 | exactly one success is recorded; the drop that follows records nothing |
| Breaker.CircuitHop.Failure | crates/corx-core/src/policy/circuit.rs:305-308 | exactly one failure is recorded; the drop that follows records nothing |
| Breaker.CircuitHop.Drop | crates/corx-core/src/policy/circuit.rs:311-317 | dropping an unsettled guard records one failure and settles it, dropping a settled one changes nothing |
| CircuitRuns.ViewStep | crates/corx-core/src/policy/circuit.rs:114-207 | a call on one host reaches another host only by evicting it, and never while it is protected |
| CircuitRuns.ReachableIsSound | crates/corx-core/src/policy/circuit.rs:209-265 | in every reachable state 1 <= probes <= half_open_max, no open period outlasts a full one from now, the failure list is shorter than the threshold |
| CircuitRuns.NoPermanentLockOut | crates/corx-core/src/policy/circuit.rs:215-241 | from any reachable state at clock c the checks of a host cannot all be rejected through c + open_duration with nothing settled for it, however often it is retried in vain, whatever other hosts do, and even if all probes were abandoned |
| CircuitRuns.RejectionsKeep | crates/corx-core/src/policy/circuit.rs:221-240 | a rejected retry renews neither the open period nor the half-open window |
| CircuitRuns.OpenStaysShut | crates/corx-core/src/policy/circuit.rs:139-147 | before `until` a check of an open host is rejected if and only if no success was recorded since it opened or last tripped again |
| CircuitRuns.NoSuccessStaysShut | crates/corx-core/src/policy/circuit.rs:178-264 | without a success every check before `until` is rejected and `until` never moves earlier, under all failures, evictions and other hosts |
| CircuitRuns.LateSuccessOpensEarly | crates/corx-core/src/policy/circuit.rs:139-147 | a reachable run, each settlement preceded by its admission, in which a late success lets a check through before `until` |
| CircuitRuns.ChecksExactlyByHistory | crates/corx-core/src/policy/circuit.rs:209-243 | every check of every run is admitted exactly when the history of trips, successes, evictions and admissions says so, batch by batch of half_open_max |
| CircuitRuns.FullBudgetGiven | crates/corx-core/src/policy/circuit.rs:224-240 | the first half_open_max checks at or after `until` are admitted, and within one open_duration of the first of them no other |
| CircuitRuns.ClosedAdmitsAll | crates/corx-core/src/policy/circuit.rs:185-187 | a host that is closed or not stored, one just evicted included, is never rejected until a failure trips it |
| CircuitRuns.EvictionForgetsBudget | crates/corx-core/src/policy/circuit.rs:185-187 | for every n a reachable run, each failure preceded by its admission and no success recorded, in which a tripped host is evicted on expiry and n checks of it are then admitted within one open_duration |
| CircuitRuns.ProbeRateBound | crates/corx-core/src/policy/circuit.rs:209-265 | once a host is open from a trip at T, with no success for it and no eviction of it, at most half_open_max * ((t - T) / open_duration) checks are admitted by t |
| CircuitRuns.TripOpens | crates/corx-core/src/policy/circuit.rs:260-264 | a tripping failure leaves its host open for the full duration, whatever its own eviction removes |
| CircuitRuns.BudgetStep | crates/corx-core/src/policy/circuit.rs:215-264 | the inductive step of that bound over probes, refreshed windows and new trips |
| CircuitRuns.TripsExactlyOnFullLog | crates/corx-core/src/policy/circuit.rs:245-265 | a failure trips exactly when the host is half-open or the never pruned log since the last reset, this one included, has threshold entries inside the window |
| CircuitRuns.StoredTracksLog | crates/corx-core/src/policy/circuit.rs:252-253 | the pruned list stands for the full log at every later instant |
| CircuitRuns.SizeOverRuns | crates/corx-core/src/policy/circuit.rs:128-129 | after every admitted check and every failure the map is within max_hosts or all entries are protected |
| Redirect.ContinuesExactly | crates/corx-core/src/proxy/redirect.rs:93-147 | a redirect goes on if and only if its Location is readable and resolves to an http or https URI that is no forbidden downgrade and no body is to be replayed; it goes to that URI, as GET where the body is dropped, with all headers within the authority and without the sensitive ones and Host beyond it |
| Redirect.StopsExactly | crates/corx-core/src/proxy/redirect.rs:98-124 | it hands the response back exactly without a readable Location, or for a replay to a URI it may go to |
| Redirect.FailsExactly | crates/corx-core/src/proxy/redirect.rs:105-112 | it fails exactly with the resolver's error, or as an invalid URL for a scheme or downgrade refused |
| Redirect.RedirectState.PrepareNext | crates/corx-core/src/proxy/redirect.rs:93-147 | the in-place step yields the next request, stop or error, and the state moves exactly when it continues |
| Redirect.RedirectState.RemoveSensitive | crates/corx-core/src/proxy/redirect.rs:129-131 | the removal loop takes away exactly the sensitive names |
| RedirectChain.HopsAreResolutions | crates/corx-core/src/proxy/redirect.rs:105-127 | every hop's URI is what some Location text resolves to from the hop before |
| RedirectChain.MethodOverChain | crates/corx-core/src/proxy/redirect.rs:186-201 | no request after the first is POST, PUT or PATCH, and the method changes at most once, to GET |
| RedirectChain.HttpsSticks | crates/corx-core/src/proxy/redirect.rs:105-112 | with downgrades off every hop after an https hop is https |
| RedirectChain.HeadersOverChain | crates/corx-core/src/proxy/redirect.rs:128-139 | a hop's headers are the first request's, less the sensitive ones and Host exactly when some hop so far changed authority |
| RedirectChain.SensitiveNeverReturns | crates/corx-core/src/proxy/redirect.rs:26-32 | once any hop changed authority no later request carries a sensitive header or Host, even back on the first host |
| RedirectChain.HostAgreesOverChain | crates/corx-core/src/proxy/redirect.rs:203-208 | if the first Host names its URI's authority, so does every Host carried later, ignoring ASCII case |
| RedirectChain.HostAgreesFromTarget | crates/corx-core/src/proxy/url_parser.rs:49-58 | the handler's Host and the outbound URI agree, so the property holds for every chain it starts |
| RedirectChain.SetHost | crates/corx-server/src/handlers/outbound.rs:36-44 | the Host header becomes the target's authority when it is a valid value |
| RedirectChain.HostSetExactly | crates/corx-server/src/handlers/outbound.rs:36-44 | Host becomes exactly the target's authority when no control character is in it, and nothing else changes |
| RedirectChain.ToUriExactly | crates/corx-core/src/proxy/url_parser.rs:38-58 | scheme, host, port, path and query can be read back from the outbound URI, the port exactly when there is one |
| RedirectChain.ToUriFails | crates/corx-core/src/proxy/url_parser.rs:46-58 | it can be built exactly when the parser takes both parts |
| Exchange.Execute | crates/corx-core/src/proxy/upstream.rs:149-215 | the loop ends as a play of the request machine whose replies are the upstream's own; its breaker calls are those of that play in order, and every admitted hop is settled exactly once on every exit, cancellation included |
| Exchange.OneHop | crates/corx-core/src/proxy/upstream.rs:161-213 | one turn of the loop extends the trace, and ends the request or goes on with one redirect more |
| Exchange.AdmitHop | crates/corx-core/src/proxy/upstream.rs:162-163 | the target policy refuses before the breaker is asked; a guard is held exactly when both admit the hop |
| Exchange.TracedSnoc | crates/corx-core/src/proxy/upstream.rs:154-214 | each verdict or reply extends the trace: admissions equal sends, and only a hop in flight is unsettled |
| Exchange.CallsNameHosts | crates/corx-core/src/proxy/upstream.rs:161-214 | every check and settlement of a request names the authority host of its own hop, in send order, a rejected check that of the request held back |
| Exchange.BreakerPerHost | crates/corx-core/src/proxy/upstream.rs:237-240 | two admitted URIs share a breaker entry if and only if their authorities have the same host |
| Exchange.RepliesLead | crates/corx-core/src/proxy/upstream.rs:161-214 | each hop goes where the Location of the upstream's reply to the hop before leads, and an answer is its reply to the last hop |
| Exchange.LaunchedExactly | crates/corx-core/src/proxy/upstream.rs:162-163 | the policy's refusal comes before the breaker's, and only past both is a hop sent |
| Exchange.DeliveredExactly | crates/corx-core/src/proxy/upstream.rs:165-213 | which reply ends a request with which fault, and exactly when a redirect is followed |
| Exchange.AnsweredExactly | crates/corx-core/src/proxy/upstream.rs:173-212 | the client gets the upstream's response unchanged exactly when it is no redirect, redirects are rewritten, or one in budget cannot be followed |
| Exchange.BadRedirectExactly | crates/corx-core/src/proxy/upstream.rs:203-211 | a followed redirect fails exactly for the resolver's reason or as an invalid URL |
| Exchange.Answer | crates/corx-core/src/proxy/upstream.rs:165-214 | after the await the hop is settled once, the right way, before the request ends or goes on |
| Exchange.SettleTerminal | crates/corx-core/src/proxy/upstream.rs:242-248 | a terminal response is a failure exactly when it is a counted 5xx |
| Exchange.FailuresByOutcome | crates/corx-core/src/proxy/upstream.rs:165-214 | a hop counts against its host exactly when abandoned, failed in transport, out of redirect budget or a counted 5xx; a followed hop never does |
| Exchange.EveryPlayIsGood | crates/corx-core/src/proxy/upstream.rs:154-213 | against any upstream: what is sent is a redirect chain, every hop admitted by the client's policy, the hop counter equal to the redirects followed and never saturating |
| Exchange.SendBound | crates/corx-core/src/proxy/upstream.rs:179-197 | at most max_redirects + 1 sends, and one unless the policy is follow |
| Traffic.ActKeepsBalance | crates/corx-core/src/policy/circuit.rs:276-317 | each atomic step of any request keeps admitted = settled + live guards |
| Traffic.LedgerOverHistory | crates/corx-core/src/policy/circuit.rs:276-317 | over every interleaving of requests, cancellation included, hops admitted = successes + failures + live guards, and the breaker's calls form one of its runs |
| Traffic.HostLedgerOverHistory | crates/corx-core/src/policy/circuit.rs:276-317 | the ledger holds host by host: hops admitted for a host are settled for that host or held by a live guard of it |
| Traffic.ActsExactly | crates/corx-core/src/proxy/upstream.rs:154-214 | a step moves its own request on, records its own call and touches no other request |
| Traffic.NeverStuck | crates/corx-core/src/proxy/upstream.rs:154-214 | whatever the others have done, a request about to send can take its next step, and one in flight can be settled with any reply |
| Traffic.QuiescentLedger | crates/corx-core/src/proxy/upstream.rs:161-214 | when all requests are done every admitted hop has been settled exactly once |
| Fleet.LedgersOverReloads | crates/corx-server/src/handlers/proxy.rs:136-159 | under every interleaving of requests, cancellations and reloads each breaker that ever was live balances on its own, in all and host by host |
| Fleet.QuiescentLedger | crates/corx-core/src/policy/circuit.rs:276-317 | when the requests that took a breaker along are done, every hop it admitted has been settled, be it live or retired |
| Fleet.MovesExactly | crates/corx-server/src/handlers/proxy.rs:136-159 | each breaker takes exactly the step meant for it and keeps its settings and ledger through every reload |
| Fleet.SharedBreakerExactly | crates/corx-server/src/state.rs:91-96 | requests sent at two points share a breaker if and only if its section was equal at every reload accepted in between |
| Fleet.RetiredOnlyDrains | crates/corx-server/src/state.rs:91-96 | a breaker no longer live never is again and takes no new request |
| Reload.ReloadHandle.Reload | crates/corx-server/src/hot_reload.rs:58-65 | a reload of a valid configuration with unchanged immutable fields installs the candidate snapshot; every other leaves the state untouched |
| Reload.AcceptedExactly | crates/corx-server/src/hot_reload.rs:58-65 | a reload is accepted if and only if the file reads and validates, keeps every immutable field, both filters compile, the limiter is kept or compiles, and the client is kept or the TLS roots load; otherwise nothing changes |
| Reload.BuildIsCurrent | crates/corx-server/src/state.rs:74-128 | building on an up-to-date snapshot gives, identities apart, what building from nothing gives |
| Reload.LiveIsCurrent | crates/corx-server/src/state.rs:74-139 | after any accepted and rejected reloads the live snapshot equals a fresh build of a valid configuration, each part comes from its own section, the hop policy is the snapshot's own, immutable fields keep their startup values |
| Reload.RetainedExactly | crates/corx-server/src/state.rs:83-99 | limiter, breaker and client keep their identity between two points if and only if their section was equal at every reload accepted in between |
| Handler.HandledExactly | crates/corx-server/src/handlers/proxy.rs:77-212 | the client gets the admitting snapshot's refusal, the fault that ended the request, or the upstream's reply to the last hop with its own status and Location |
| Handler.SameSnapshotExactly | crates/corx-server/src/hot_reload.rs:58-65 | between two points the installed snapshot is the same one if and only if no reload was accepted in between |
| Handler.OneSnapshotExactly | crates/corx-server/src/handlers/proxy.rs:77-199 | the three loads of a request see one snapshot if and only if no reload is accepted between the first and the last, and the request is then answered as by a single load |
| Handler.SameTargetSameVerdict | crates/corx-server/src/handlers/proxy.rs:102-136 | while the target section is unchanged the admitting and the sending snapshot give every URI the same verdict |
| Handler.AdmittedIsSent | crates/corx-server/src/handlers/proxy.rs:102-159 | so the verdict on the target at the door is the verdict on the first hop built from it, if the URI library reads the host back |
| Handler.SameSectionsSameAnswer | crates/corx-server/src/handlers/proxy.rs:77-212 | a request is answered alike by any loads that read the same target, redirect limits and response filter, whatever else was reloaded in between |
| Handler.ReloadRefusesAdmitted | crates/corx-server/src/handlers/proxy.rs:102-159 | for every running server and every target it admits there is a valid reload of the target section alone, accepted between the loads, after which the request is refused before anything is sent |
| Handler.AnyTargetAccepted | crates/corx-core/src/config/validate.rs:139-147 | every target section that loads, one that is not an empty allowlist, can be reloaded at any time |
| Handler.StraddlingRequest | crates/corx-server/src/handlers/proxy.rs:136-212 | wherever the loads fall: every hop sent is admitted by the target section of the sending snapshot, within its redirect limits, and by the admitting one while that section is unchanged; the response filter is the shaping snapshot's |
| LoadShed.SafeOverRuns | crates/corx-server/src/middleware/load_shed.rs:28-55 | permits never exceed the cap, the counter is permits plus rejections yet to decrement, zero at quiescence |
| LoadShed.NoUnderflow | crates/corx-server/src/middleware/load_shed.rs:36 | no decrement wraps below zero |
| LoadShed.ShedExactly | crates/corx-server/src/middleware/load_shed.rs:28-39 | a request is shed exactly when there is a cap and permits plus pending rejections reach it; with none pending, exactly when all permits are taken |
| LoadShed.PermitOrRejection | crates/corx-server/src/middleware/load_shed.rs:33-42 | under a cap every arrival counts itself and either holds a permit or is shed |
| LoadShed.NoCapNoShedding | crates/corx-server/src/middleware/load_shed.rs:28-31 | with a cap of zero nothing is ever shed and the counter is never touched |
| LoadShed.Inflight.Enter | crates/corx-server/src/middleware/load_shed.rs:28-42 | with no cap the request passes through untouched; otherwise the add-and-compare takes the model's step and keeps it safe |
| LoadShed.Inflight.UndoRejected | crates/corx-server/src/middleware/load_shed.rs:35-38 | a shed request takes back its own addition and touches no permit |
| LoadShed.Inflight.DropPermit | crates/corx-server/src/middleware/load_shed.rs:51-55 | dropping a permit gives its slot back and keeps the state safe |
| KeyRegistry.CapOverRuns | crates/corx-server/src/middleware/rate_limit.rs:211-232 | under every interleaving keys not awaiting a decision never exceed max_keys, the registry never exceeds it by more than the threads awaiting one, and at quiescence not at all |
| KeyRegistry.KeptExactly | crates/corx-server/src/middleware/rate_limit.rs:220-231 | in every state, a registered key stays registered under all continuations of all threads if and only if it is not at risk: the registry can no longer change, or no thread stands where it can come to undo that key |
| KeyRegistry.AdmittedKeyKept | crates/corx-server/src/middleware/rate_limit.rs:220-231 | a caller admitted by either path keeps its key for good exactly when the key is registered and not at risk; a caller alone on a registered key runs no risk |
| KeyRegistry.KeptOverRuns | crates/corx-server/src/middleware/rate_limit.rs:211-232 | a key not at risk stays so over every run |
| KeyRegistry.Drained | crates/corx-server/src/middleware/rate_limit.rs:226-231 | an overshooting registry with few firm keys can be undone below its cap, which lets a stale size check pass |
| KeyRegistry.RaceLosesKey | crates/corx-server/src/middleware/rate_limit.rs:220-230 | a reachable interleaving that admits a caller whose key is not registered |
| KeyRegistry.FoundKeyIsUndone | crates/corx-server/src/middleware/rate_limit.rs:220-222 | a reachable interleaving in which a caller is admitted by its first lookup and its key is then undone |
| KeyRegistry.PendingRemovalUndoes | crates/corx-server/src/middleware/rate_limit.rs:226-231 | a reachable interleaving in which a caller is admitted with its key registered while a removal of it is due, and then loses it |
| KeyRegistry.Keys.AdmitKey | crates/corx-server/src/middleware/rate_limit.rs:211-232 | one caller at a time: admitted exactly when known or there is room, a full registry never changes |
| KeyRegistry.UndisturbedIsSequential | crates/corx-server/src/middleware/rate_limit.rs:211-232 | a thread that runs undisturbed does what the sequential call does |
| Target.SuffixPatternByLabels | crates/corx-core/src/policy/target.rs:130-135 | a `.suffix` pattern matches exactly the hosts whose last labels are the suffix's labels |
| Target.ExactPatternByLabels | crates/corx-core/src/policy/target.rs:130-135 | any other pattern matches exactly the hosts with the same labels |
| Target.PolicyExactly | crates/corx-core/src/policy/target.rs:25-111 | the whole compiled policy from its configuration: schemes as listed, and any host, those listed by labels, or all but those |
| Target.UriPolicyExactly | crates/corx-core/src/policy/target.rs:119-127 | a hop's URI is judged by its scheme and authority host, and invalid exactly without either |
| Target.AllowlistByLabels | crates/corx-core/src/policy/target.rs:25-99 | a compiled allowlist admits a host exactly when a configured entry, trimmed and folded, names it by labels |
| Target.AllowAndDenyAreComplements | crates/corx-core/src/policy/target.rs:66-111 | with the same hosts, on an admitted scheme, allowlist and denylist are exact complements; on any other scheme all is refused |
| Target.VerdictIgnoresCase | crates/corx-core/src/policy/target.rs:66-83 | the verdict does not depend on ASCII case |
| Ssrf.MappedVerdict | crates/corx-core/src/proxy/ssrf.rs:127-132 | an IPv4-mapped address (section 2.5.5.2 of RFC 4291) gets the verdict of the IPv4 address it carries |
| Ssrf.MappedRangeIsDead | crates/corx-core/src/proxy/ssrf.rs:60 | exactly the addresses of ::ffff:0:0/96 are folded, so that table entry never matches after folding |
| Ranges.ContainsIsRange | crates/corx-core/src/proxy/ssrf.rs:205-229 | range membership is lying between the network address and the end of the block |
| Ranges.Blocked4Exactly | crates/corx-core/src/proxy/ssrf.rs:40-58 | the blocked table holds exactly the reserved IPv4 addresses, written byte by byte |
| Ranges.Blocked6Exactly | crates/corx-core/src/proxy/ssrf.rs:58-69 | the blocked table holds exactly the reserved IPv6 addresses, written group by group |
| Ranges.Private4Exactly | crates/corx-core/src/proxy/ssrf.rs:71-82 | the private table holds exactly RFC 1918 space, loopback and link-local |
| Ranges.Private6Exactly | crates/corx-core/src/proxy/ssrf.rs:71-82 | and of IPv6 exactly loopback, unique-local and link-local addresses |
| Ssrf.VerdictExactly4 | crates/corx-core/src/proxy/ssrf.rs:196-230 | the verdict on every IPv4 address in each mode, with the address itself as the answer or the blocked one |
| Ssrf.VerdictExactly6 | crates/corx-core/src/proxy/ssrf.rs:196-230 | the same for every IPv6 address that carries no IPv4 address; none passes while IPv6 is off |
| Ssrf.ModesAreOrdered | crates/corx-core/src/proxy/ssrf.rs:205-230 | strict-admitted implies permissive-admitted implies admitted with private space allowed |
| Ssrf.PermissiveStillBlocksPrivate | crates/corx-core/src/proxy/ssrf.rs:219-228 | without `allow_private`, RFC 1918 and unique-local addresses pass exactly through an allowed range; extra blocked ranges are not read |
| Ssrf.AdmittedIsFixed | crates/corx-core/src/proxy/ssrf.rs:196-203 | a checked address passes the check again unchanged |
| Ssrf.Resolve | crates/corx-core/src/proxy/ssrf.rs:144-188 | every address returned, literal or looked up, passes the check unchanged; a literal is refused exactly when the check refuses it, as its canonical form; each error arises exactly in its own case |
| Ssrf.LookedIsLawful | crates/corx-core/src/proxy/ssrf.rs:144-188 | the same for every input: the answers are the admissible ones, a failure of all names the last one blocked, and no usable address means all were skipped |
| Ssrf.LastViolationExactly | crates/corx-core/src/proxy/ssrf.rs:166-184 | the address reported is that of the last answer refused by policy, answers of a disabled family aside |
| Ssrf.AdmissibleExactly | crates/corx-core/src/proxy/ssrf.rs:166-182 | results are exactly the canonical admissible answers, each a fixed point of the check |
| Ssrf.AdmissibleInOrder | crates/corx-core/src/proxy/ssrf.rs:169-178 | results keep the order of the answers |
| Location.RewriteLocationHeader | crates/corx-server/src/handlers/proxy.rs:225-239 | an absolute readable Location gets the path-prefix form, anything else stays |
| Location.RewrittenExactly | crates/corx-server/src/handlers/proxy.rs:225-239 | exactly the absolute http and https texts are rewritten, by a slash before them |
| Location.RoundTripExactly | crates/corx-core/src/proxy/url_parser.rs:69-105 | following a rewritten Location extracts the original text if and only if it has no fragment, no query pair keyed `url` and no percent escape |
| Location.NormalizeTwice | crates/corx-core/src/proxy/url_parser.rs:107-126 | scheme normalisation is idempotent on everything it accepts |
| Location.BareTarget | crates/corx-core/src/proxy/url_parser.rs:119-125 | without a scheme a target is https exactly when what precedes its first slash ends in `:443` |
| Location.SchemedTarget | crates/corx-core/src/proxy/url_parser.rs:107-117 | with one it stands as it is for http and https in any case, and is refused otherwise |
| Location.CandidateExactly | crates/corx-core/src/proxy/url_parser.rs:83-98 | the candidate is the first pair keyed `url`, or the path without leading slashes followed by the query, or there is none |
| Location.ExtractedExactly | crates/corx-core/src/proxy/url_parser.rs:69-81 | a request line names what its path and query name, whatever the fragment, and each error arises in its own case |
| Location.DecodedEscaped | crates/corx-core/src/proxy/url_parser.rs:71-74 | decoding undoes the escaping of any bytes, in digits of either case |
| Location.DecodedLength | crates/corx-core/src/proxy/url_parser.rs:71-74 | decoding is the identity exactly on texts without an escape, and shortens all others |
| Cors.ApplyToResponse | crates/corx-core/src/proxy/cors.rs:194-204 | the stamping method leaves the stamped headers |
| Cors.BuildPreflightResponse | crates/corx-core/src/proxy/cors.rs:142-187 | the preflight method builds the preflight headers |
| Cors.StampIdempotent | crates/corx-core/src/proxy/cors.rs:194-255 | stamping twice is stamping once, on every header map |
| Cors.StampAfterPreflight | crates/corx-core/src/proxy/cors.rs:142-204 | stamping a preflight answer changes nothing but the exposed-headers field |
| Cors.VaryTokens | crates/corx-core/src/proxy/cors.rs:270-292 | one stamp of a response makes the token set of a readable single Vary line (section 12.5.5 of RFC 9110) the old set plus `origin` |
| Cors.VaryLinesKept | crates/corx-core/src/proxy/cors.rs:272-285 | a stamp loses no token of several Vary lines if and only if the first line already lists `origin` or every token of the others |
| Cors.AppendVary | crates/corx-core/src/proxy/cors.rs:270-292 | the search loop finds the token exactly when some piece of the line is it |
| Cors.AllowOriginExactly | crates/corx-core/src/proxy/cors.rs:105-133 | which origin is allowed in every mode, with and without credentials |
| Cors.PreflightExactly | crates/corx-core/src/proxy/cors.rs:142-187 | field by field what a preflight is answered with, and that it is nothing else |
| Cors.VaryOtherwise | crates/corx-core/src/proxy/cors.rs:270-292 | without a Vary line a stamp starts one, and an unreadable one it leaves alone |
| Cors.StampExposes | crates/corx-core/src/proxy/cors.rs:194-204 | a stamped response exposes the configured headers |
| Cors.CredentialsEchoOrigin | crates/corx-core/src/proxy/cors.rs:105-133 | with credentials only the request's own readable origin is ever allowed, exactly when the mode admits it |
| Cors.AllowOriginAfterStamp | crates/corx-core/src/proxy/cors.rs:229-242 | allow-origin is replaced exactly when the origin is admitted, otherwise left as the upstream sent it |
| Cors.CredentialsAfterStamp | crates/corx-core/src/proxy/cors.rs:229-255 | a stamped response carries allow-credentials exactly when credentials are on and the origin admitted, or the upstream sent it |
| Cors.UpstreamCredentialsSurvive | crates/corx-core/src/proxy/cors.rs:244-249 | with credentials off and the origin admitted an upstream `true` survives the stamp |
| Cors.StampLeavesTheRest | crates/corx-core/src/proxy/cors.rs:194-204 | a stamp touches allow-origin, allow-credentials, Vary and a configured expose-headers, and no other field |
| Metering.LimitingBody.PollFrame | crates/corx-server/src/observability/metering.rs:107-131 | one poll takes the model's step and yields its answer |
| Metering.CapExactly | crates/corx-server/src/observability/metering.rs:107-144 | each poll answers what the inner body answers unless the budget binds and the bytes so far exceed it; the inner body is polled no further than that frame |
| Metering.NeverMoreThanBudget | crates/corx-server/src/observability/metering.rs:120-128 | under a binding budget the bytes yielded never exceed it, and streams that fit pass whole |
| Metering.RefusalIsPermanent | crates/corx-server/src/observability/metering.rs:112-114 | once over budget every later poll is refused and the inner body is not polled again |
| Metering.BudgetBinds | crates/corx-server/src/observability/metering.rs:142-144 | a budget bounds every stream exactly when it is neither zero nor the largest 64-bit value |

## Left out

- Network and runtime: the HTTP client, TLS, DNS queries, routing, signals, metrics, tracing, the command line and config file loading; their results are inputs.
- `RateLimiter::check` and the GCRA limiters behind it: the four dimensions in sequence add only an easy member, and the limiter library is not part of this model.
- URL and IDNA parsing, `join` (section 5 of RFC 3986), `validate` of a parsed URL: the model stops at the text handed to the parser and takes the resolver and URI parser as arbitrary functions.
- Instants and durations are unbounded; the panic of `Instant + Duration` on overflow is not modelled.
- The loads of the live snapshot outside the handler, in the CORS and the authentication layers.
- `DashMap` sharding: a `len` that is not one atomic step, and operations slipping between an update and the eviction that follows it.
- A name present in a header map with no values counts as absent.
- White space trimmed by `trim` is ASCII white space.
- Header filters, forwarded headers, `Via`, origin lists, bearer comparison, the validation of the sections whose content plays no part, error tables and the ops endpoints: they would add only easy members.
- `is_end_stream` and `size_hint` of the body wrappers, which pass through to the inner body.
