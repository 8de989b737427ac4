# GPUStack gateway and cache protocols in Dafny

GPUStack's server keeps several shared resources in step with its database: the
ai-proxy and ext-auth plugin resources, the McpBridge registries and the model
Ingresses of its gateway, the digest column of its API key table, and the watch
caches of its clients. Each is written by many independent reconcilers, tasks or
connections. This project models that code and proves what holds over whole
runs of it: under any interleaving, from any starting contents, after any
sequence of restarts and failures.

Check everything with `dafny verify dfyconfig.toml`.

## How the project is laid out

| files | what they hold |
|---|---|
| `Lists`, `StableSort`, `Text`, `Traces`, `Arithmetic` | list filtering, Python's stable sort by string keys, split and join, runs and interleavings of steps, a few facts about products |
| `Names` | the names resources are keyed by, and the parser of the instance header |
| `AiProxyMerge`, `AiProxyRuns`, `AiProxyLifetimes`, `AiProxyPlugin` | one reconcile of the ai-proxy resource; what routes and providers want, and how they interleave; lifetimes with restarts; the resource updated in place |
| `Registries`, `McpBridge` | the registry diff and its laws; the loops and the resource |
| `Apportionment`, `Weights` | largest remainders; scaling, groups, and the code over shared records |
| `SecretDigest`, `Backfill`, `AuthProcess` | the digest format; the multi-process protocol; processes, table and cluster as classes |
| `WatchStream`, `WatchClient` | what an event stream says; the cache, its readers and its callback |
| `ExtAuth` | the half static, half database-owned resource and its runs |
| `ModelIngress`, `Pagination` | the Ingress update pass; the page walk |

State the source changes in place is a class whose methods are proved equal to
functions on values (`Plugin.Reconcile`, `Bridge.Ensure`, `Cluster.Perform`,
`Client.OnEvent`, `LiveIngress.Ensure`, the `InstanceInfo` records); the theorems
are about those functions and about runs of them.

## What the model shows that the code does not say

- ai-proxy, two routes: their reconciles always give the same rules in either
  order; the providers agree exactly when the two routes say the same about the
  deployments they share (`RoutesCommuteIff`, `DisagreementShows`).
- ai-proxy, quiet repeats: on a store that omits empty lists, a reconcile that
  leaves no rule at all rewrites the resource every time; this is the only case
  (`RepeatedReconcileWritesIff`, `IdleRouteKeepsWriting`). ext-auth renders "no
  rules" as absent and has no such case (`UnchangedIsQuiet`).
- The registry diff needs no assumption that existing names are distinct: its
  exact effect on repeated names is `Effect`, and idempotence, the update flag
  and commutation hold for all lists.
- An Ingress whose metadata is absent never converges, because the rewrite puts
  the annotations on an object it does not attach (`RewriteConvergesIff`). The
  source says of such an object that it is "not a case anyone should hit"
  (gpustack/gateway/utils.py:1326-1330).
- A changed class name or backend service is not noticed by itself, and an empty
  TLS list compares equal to any list; the expected spec is applied as a whole
  as soon as anything else differs (`SpecAfterPassIff`, `TlsAfterPassIff`,
  `ClassChangeIsMissed`).
- A restart keeps the providers of live deployments that no rule names any more;
  the next reconcile collects them (`CollectedAfterRestartIff`,
  `RestartLeavesUncollected`).
- When routes disagree on a deployment, its provider says what the last reconcile
  that wanted it said (`ProviderIsLastWanted`).
- A row read from the table before a backfill and cached after it undoes the cache
  invalidation; this is the only way a process sees the old row again
  (`FastForGoodIff`).
- A backfill task that gets to write always leaves a usable digest, even when its
  compare-and-set fails: it can only fail because another one succeeded
  (`WrittenKeysConverge`).

## Model

| member | source | states |
|---|---|---|
| `AiProxyMerge.RulesAfterMerge` | gpustack/gateway/utils.py:1646-1678 | which rules stand after one reconcile, exactly: the expected ones, and the old ones that name no owned ingress and no provider under the owned prefix |
| `AiProxyMerge.EntriesAfterMerge` | gpustack/gateway/utils.py:1588-1629 | what stands under any provider id after one reconcile, exactly and in order: expected entries, or nothing if owned or collectable and unreferenced by the resulting rules, or what stood there before |
| `AiProxyMerge.NamelessProvidersStay` | gpustack/gateway/utils.py:1604-1629 | provider entries without an id all stay, in order |
| `AiProxyMerge.RuleKeyIdentifies` | gpustack/gateway/utils.py:1638-1643 | two rules have the same sort key if and only if they agree on provider, ingresses and services (for names without commas) |
| `AiProxyMerge.MergeSorts` | gpustack/gateway/utils.py:1638-1643 | both lists are sorted after a step: rules by provider, then ingresses, then services; providers by id |
| `StableSort.StringLeqIff` | gpustack/gateway/utils.py:1638-1643 | strings are ordered by the first differing character, a string after its own beginnings |
| `AiProxyMerge.MergeIdempotent` | gpustack/gateway/utils.py:1890-1920 | a reconcile repeated on its own output gives identical rule and provider lists, order included |
| `AiProxyMerge.MergeMakesNoneDangle` | gpustack/gateway/utils.py:1907-1918 | from any contents, a rule that names a missing provider after a step was there and did so before |
| `AiProxyMerge.MergeKeepsNoDangling` | gpustack/gateway/utils.py:1907-1918 | "no rule names a missing provider" is inductive |
| `AiProxyMerge.MergeCollects` | gpustack/gateway/utils.py:1618-1623 | from any contents, after a step every collectable provider is named by some rule |
| `AiProxyMerge.RulesCommute` | gpustack/gateway/utils.py:1646-1678 | independent reconciles give the same rule list in either order |
| `AiProxyMerge.MergesCommuteIff` | gpustack/gateway/utils.py:1890-1920 | independent reconciles commute on a resource if and only if they agree on the providers both want |
| `AiProxyRuns.RouteEntries` | gpustack/gateway/utils.py:1543-1585 | the entries built for a route: every rule is on one of its two ingresses and points at one of its providers, every provider is named by one of its rules |
| `AiProxyRuns.ProviderEntries` | gpustack/gateway/utils.py:495-538 | the same for the entries of the external providers, whose rules name no ingress |
| `AiProxyRuns.RouteRulesIff` | gpustack/gateway/utils.py:1543-1585 | which rules a route expects, exactly: per deployment and per ingress with services to reach, the rule naming all of them in ascending order |
| `AiProxyRuns.ProvidersDesiredIff` | gpustack/gateway/utils.py:495-538 | which rules and entries the external providers want, exactly |
| `AiProxyRuns.RouteProvidersIndependent` | gpustack/gateway/utils.py:1646-1678 | route and provider reconciles never own each other's entries |
| `AiProxyRuns.RoutesCommuteIff` | gpustack/gateway/utils.py:1890-1920 | two routes' reconciles commute on every resource if and only if they agree on shared deployments; the rules commute always |
| `AiProxyRuns.DisagreementShows` | gpustack/gateway/utils.py:1588-1629 | two routes of one deployment with different tokens: on every resource the order shows |
| `AiProxyRuns.RouteExpects` | gpustack/gateway/utils.py:1558-1565 | a route wants the providers of exactly the deployments it has services of |
| `AiProxyRuns.RouteEntriesFor` | gpustack/gateway/utils.py:1510-1585 | each of them has exactly one entry among a route's: its tokens, absent if there are none, and the Anthropic capabilities exactly if the deployment has them |
| `AiProxyRuns.ReflectingRoutesAgree` | gpustack/gateway/utils.py:1510-1585 | routes built from the same deployments agree on every shared provider |
| `AiProxyRuns.InterleavingsConverge` | gpustack/gateway/utils.py:1890-1920 | all interleavings of the same per-route and provider histories end in the same resource, from any start |
| `AiProxyRuns.StableDeploymentsConverge` | gpustack/server/controllers.py:1847-1892 | in particular whenever deployments keep their credentials during the run |
| `AiProxyLifetimes.RunSafety` | gpustack/gateway/utils.py:1681-1920 | over every lifetime of reconciles and restarts: no rule dangles, from a start where none does or once the server has restarted; after every reconcile nothing is left to collect |
| `AiProxyLifetimes.CollectedAfterRestartIff` | gpustack/gateway/utils.py:1710-1755 | a restart does not collect by itself; when it leaves nothing to collect, exactly |
| `AiProxyLifetimes.RestartLeavesUncollected` | gpustack/gateway/utils.py:1703-1707 | for instance: the provider of a live deployment whose only route was deleted while the server was down |
| `AiProxyLifetimes.RunKeepsLatest` | gpustack/gateway/utils.py:1646-1760 | after any lifetime, from any start, the rules on a route's ingresses are exactly its latest expected rules, in order, less those of what a restart since has found gone; and every provider they name stands |
| `AiProxyLifetimes.RouteUndisturbedIff` | gpustack/gateway/utils.py:1714-1721 | they are exactly the latest expected rules if and only if each restart since found the route and the deployments it serves live |
| `AiProxyLifetimes.StandsUntilReplayed` | gpustack/gateway/utils.py:1690-1697 | a live route's old rule and provider, legacy ones included, stand through any restarts and others' reconciles until the route itself reconciles |
| `AiProxyLifetimes.ProviderIsLastWanted` | gpustack/gateway/utils.py:1588-1629 | after any lifetime, the provider of a deployment some route serves has exactly the entry of the last reconcile, of any route, that wanted it |
| `AiProxyLifetimes.RunKeepsLatestProvidersIff` | gpustack/gateway/utils.py:1588-1629 | so what a route said of a deployment stands if and only if the last reconcile that wanted it said the same |
| `AiProxyLifetimes.RunKeepsLatestProviders` | gpustack/server/controllers.py:3867-3876 | in particular while the deployments keep what they carry: after any lifetime the entry has the route's tokens and capabilities |
| `AiProxyLifetimes.ExternalRulesAre` | gpustack/gateway/utils.py:495-538 | after any lifetime the rules pointing at external providers are exactly those of the latest provider reconcile, in order, less those a restart since has found gone |
| `AiProxyLifetimes.ExternalEntriesAre` | gpustack/gateway/utils.py:1588-1629 | and so are the entries under each external provider's id |
| `AiProxyLifetimes.LegacyProviderRetired` | gpustack/gateway/utils.py:262-271 | a route's reconcile removes its old per-route provider and the rules naming it in the same write |
| `AiProxyLifetimes.KeptWhileLive` | gpustack/gateway/utils.py:1710-1712 | the three kinds of ids never collide: an id is kept at startup exactly while the deployment, provider or route it was made for is live |
| `AiProxyLifetimes.CleanupProviders` | gpustack/gateway/utils.py:1729-1737 | the providers it keeps, exactly |
| `AiProxyLifetimes.CleanupRules` | gpustack/gateway/utils.py:1714-1721 | the rules it keeps, exactly: those of a kept provider with no ingress or an ingress of a live route |
| `AiProxyLifetimes.CleanupEstablishes` | gpustack/gateway/utils.py:1681-1760 | from any contents it leaves no dangling rule and no rule on a dead ingress |
| `AiProxyLifetimes.RunRuleIff` | gpustack/gateway/utils.py:1890-1920 | a rule naming an ingress stands after a lifetime exactly when it is one of some route's latest rules |
| `AiProxyLifetimes.StartupConverges` | gpustack/gateway/utils.py:1681-1760 | from any contents, a startup pass and any run covering the live routes, with more restarts in between, never passes through a dangling rule and ends with exactly the union of the latest rules, each with its provider |
| `AiProxyPlugin.RepeatedReconcileWritesIff` | gpustack/gateway/utils.py:1157-1170 | when a repeated reconcile writes again, exactly |
| `AiProxyPlugin.IdleRouteKeepsWriting` | gpustack/gateway/utils.py:1157-1170 | for instance: a route with no instance up, on a resource without rules |
| `AiProxyPlugin.Plugin.MergeMatchRules` | gpustack/gateway/utils.py:1646-1678 | the loop over existing rules computes the merge |
| `AiProxyPlugin.Plugin.MergeDefaultProviders` | gpustack/gateway/utils.py:1588-1629 | the loop over existing providers computes the merge |
| `AiProxyPlugin.Plugin.Reconcile` | gpustack/gateway/utils.py:1890-1920 | one in-place reconcile: contents after it, and a write exactly if something changed; a missing spec stays missing |
| `AiProxyPlugin.Plugin.CleanUp` | gpustack/gateway/utils.py:1723-1755 | the startup pass in place; no dangling rule after it |
| `Registries.DiffOfName` | gpustack/gateway/utils.py:541-580 | the entries of each name after the diff: the last desired one replaces the first existing one or is added, the rest stay unless deleted |
| `Registries.DiffKeepsUnrelated` | gpustack/gateway/utils.py:559-567 | nameless and unrelated entries all stay, unaltered, sorted stably |
| `Registries.NeedUpdateIff` | gpustack/gateway/utils.py:551-577 | an update is asked for if and only if the entries change |
| `Registries.DiffIdempotent` | gpustack/gateway/utils.py:541-580 | a second diff asks for nothing and returns the same list |
| `Registries.DiffsCommute` | gpustack/gateway/utils.py:541-580 | diffs about different names give the same list in either order |
| `Registries.ApplyCommutes` | gpustack/gateway/utils.py:626-689 | so do the updates, including those skipped for lack of change |
| `Registries.ApplyLeaves` | gpustack/gateway/utils.py:675-689 | an update that changes no entry leaves the list alone, any other leaves it sorted by name |
| `Registries.ModelConcerns` | gpustack/gateway/utils.py:1239-1277 | a model's reconcile is about exactly the names under its own prefix |
| `Registries.WantedEntries` | gpustack/gateway/utils.py:1250-1269 | it wants one entry per reachable instance and one more per LoRA adapter |
| `Registries.ModelSliceSize` | gpustack/gateway/utils.py:1239-1277 | after it, the entries under its prefix are each once exactly the wanted ones: reachable instances times one more than adapters, none once it is deleted |
| `Registries.ModelSliceExact` | gpustack/gateway/utils.py:541-580 | after it, the names under its prefix hold exactly the wanted entries, whatever stood there |
| `Registries.ModelLeavesOthersAlone` | gpustack/gateway/utils.py:541-580 | it never touches another model's entries |
| `Registries.ModelInterleavingsConverge` | gpustack/gateway/utils.py:626-689 | all interleavings of the models' reconciles end with the same registries |
| `McpBridge.IndexDesired` | gpustack/gateway/utils.py:547-549 | the dictionary of desired entries: keys in first-occurrence order, last index per name |
| `McpBridge.WalkExisting` | gpustack/gateway/utils.py:553-573 | the loop that pops the dictionary |
| `McpBridge.DiffRegistries` | gpustack/gateway/utils.py:541-580 | the whole function equals the diff |
| `McpBridge.Bridge.Ensure` | gpustack/gateway/utils.py:655-689 | the resource is written exactly when its entries change |
| `Names.FallbackOfQualified` | gpustack/gateway/utils.py:278-282 | deriving the fallback name and qualifying with any namespace commute |
| `Names.FallbackSpellingsAgree` | gpustack/gateway/utils.py:285-299 | so route reconciler, pruner and model mapper spell it alike |
| `Names.IngressNamesApart` | gpustack/gateway/utils.py:274-299 | main and fallback ingress names of all routes are pairwise different |
| `Names.InstallationsApart` | gpustack/gateway/utils.py:285-299 | installations in different namespaces behind one gateway never name each other's ingresses |
| `Names.ModelPrefixesApart` | gpustack/gateway/utils.py:310-311 | no name is under the prefixes of two models |
| `Names.RegistryNamesIff` | gpustack/gateway/utils.py:310-340 | two registry names are equal if and only if model, instance and adapter suffix are |
| `Names.ParseAccepts` | gpustack/gateway/utils.py:1944-1952 | every header of the pattern's shape is accepted, with the number in the instance position |
| `Names.ParseSound` | gpustack/gateway/utils.py:1944-1952 | every accepted header has that shape |
| `Names.ParseIff` | gpustack/gateway/utils.py:1935-1950 | an absent header is missing, one of the pattern's shape gives an instance, any other is invalid |
| `Names.RegistryNameRoundTrip` | gpustack/gateway/utils.py:310-340 | parsing a printed service name returns the instance id, with or without a LoRA suffix |
| `Names.DecimalOfValue` | gpustack/gateway/utils.py:310-317 | ids are printed in the only form without leading zeros |
| `Apportionment.SeatsLeft` | gpustack/gateway/utils.py:973-977 | the seats left after the floors are no more than the positive remainders, so the seat loop stays inside the list |
| `Apportionment.LargestRemaindersIsShare` | gpustack/gateway/utils.py:967-978 | the result equals an independent definition by rank, has one entry per instance and sums to exactly 100 |
| `Apportionment.ShareIsFloorOrCeiling` | gpustack/gateway/utils.py:967-977 | every share is the floor or ceiling of its exact quota; a whole-number quota gets no extra seat |
| `Apportionment.LargerWeightLargerShare` | gpustack/gateway/utils.py:967-977 | a larger weight never gets a smaller share |
| `Apportionment.EqualWeightsNearlyEqualShares` | gpustack/gateway/utils.py:975-977 | equal weights differ by at most one, the earlier instance favoured |
| `Weights.LeastFrom` | gpustack/gateway/utils.py:938 | the multiple used for scaling is the least common one |
| `Weights.ScalingIsExact` | gpustack/gateway/utils.py:939-942 | the scaling division is exact |
| `Weights.PercentagesSum` | gpustack/gateway/utils.py:946-978 | one percentage per instance and a sum of 100, or nothing when nothing has weight |
| `Weights.NothingIff` | gpustack/gateway/utils.py:964-966 | nothing is returned exactly if every target with instances has weight zero and there is no floor |
| `Weights.EveryPercentage` | gpustack/gateway/utils.py:959-978 | for any floor, each instance gets the floor or ceiling of its exact quota, the quota itself if whole |
| `Weights.GroupsAreProportional` | gpustack/gateway/utils.py:931-978 | a target's total is less than its instance count away from 100 times its share of the weight |
| `Weights.HandOut` | gpustack/gateway/utils.py:975-978 | seats handed out through the sorted list change the shared records of the unsorted one |
| `Weights.HamiltonCalculateWeight` | gpustack/gateway/utils.py:946-978 | the whole function equals the percentages |
| `SecretDigest.NewDigestVerifies` | gpustack/security.py:116-129 | a new digest is usable and verifies its own secret and no other |
| `SecretDigest.GeneratedIff` | gpustack/security.py:29 | which secrets count as generated, exactly |
| `SecretDigest.UsableIff` | gpustack/security.py:205-220 | a stored value is usable exactly if it has the three-part layout with the known algorithm |
| `SecretDigest.VerifyIff` | gpustack/security.py:189-203 | a secret verifies exactly against values that hold, after a salt, its hash under that salt |
| `Backfill.RequestKeeps` | gpustack/api/auth.py:536-543 | what a process does once the slow verifier is done keeps its invariant, whatever version of the row the request holds |
| `Backfill.ProcessKeeps` | gpustack/api/auth.py:377-546 | so does every other step between two awaits: fetching and filling in rows, starting, checking and dropping requests, the halves of a task |
| `Backfill.WriteMakesUsable` | gpustack/api/auth.py:457-469 | after a task's guarded update its row has a usable digest, whether or not the guard held; no usable digest changes |
| `Backfill.StepKeeps` | gpustack/api/auth.py:377-482 | every step of every process keeps the protocol invariant and every usable digest |
| `Backfill.BackfillIsSafe` | gpustack/api/auth.py:377-482 | over every run: usable digests are never overwritten, a row is updated at most once and only if it started without one, at most one task per key and process with the in-flight set exact, each key reported once |
| `Backfill.DecisionIsRight` | gpustack/api/auth.py:520-546 | at any time, on any stale row, the verdict on a request under way is to accept exactly the true secret |
| `Backfill.UnusableGoesSlow` | gpustack/api/auth.py:525-538 | a request with an unusable digest goes on to the slow verifier with the same row and secret; a digest that is there is reported, a missing one is not |
| `Backfill.WrittenKeysConverge` | gpustack/api/auth.py:436-482 | once any task has written, its key has a usable digest for good |
| `Backfill.RequestLeadsToDigest` | gpustack/api/auth.py:385-482 | after any run, an accepted request for a key with an access key, generated or custom while allowed, leaves exactly one task of the process under way for it, however stale its row; once that has written, the key has a genuine digest for good |
| `Backfill.FinishDropsRow` | gpustack/api/auth.py:470-482 | the end of a written task drops its key from the cache and leaves every other cached row alone |
| `Backfill.FastForGoodIff` | gpustack/api/auth.py:470-475 | after it the process never again caches the row without its digest, if and only if no copy read before is still on its way into the cache |
| `Backfill.LoadCaches` | gpustack/server/services.py:468-494 | fetching a row and filling it in caches the row the table has |
| `Backfill.FastRequest` | gpustack/api/auth.py:520-524 | a request on a row with a usable digest is answered at once by a genuine digest and leaves no task and no report |
| `Backfill.IneligibleStaysSlow` | gpustack/security.py:84-113 | a secret no process finds eligible never gets a digest |
| `Backfill.UnfitKeysStaySlow` | gpustack/security.py:109-113 | keys without access key, custom keys while refused, and secrets not of the generated form never get a digest |
| `AuthProcess.KeyTable.UpdateWhere` | gpustack/api/auth.py:459-468 | the guarded update changes the digest of the matching row and nothing else |
| `AuthProcess.Server.ScheduleBackfill` | gpustack/api/auth.py:385-433 | scheduling, with its eligibility and in-flight tests |
| `AuthProcess.Server.CheckDigest` | gpustack/api/auth.py:520-535 | a request looks at its row: fast verdict, the right one, or the warning and the slow path |
| `AuthProcess.Server.FinishRequest` | gpustack/api/auth.py:536-543 | the slow verdict and the scheduling; the process invariant is kept |
| `AuthProcess.Server.WriteDigest` | gpustack/api/auth.py:457-469 | the first half of a task |
| `AuthProcess.Server.FinishTask` | gpustack/api/auth.py:470-482 | the second half: cache entry and in-flight mark |
| `AuthProcess.Cluster.Perform` | gpustack/api/auth.py:377-546 | every step of every process on the shared table is a step of the protocol and keeps its invariant; it answers exactly when a usable digest is checked or a slow verification ends, by the true secret |
| `WatchStream.ReplayShows` | gpustack/client/generated_model_instance_client.py:123-161 | replaying events gives, for every resource, its last version in the stream, listed in order of appearance |
| `WatchClient.CacheShowsStream` | gpustack/client/generated_model_instance_client.py:207-301 | in every reachable state the cache shows the current connection's stream, and is empty without one |
| `WatchClient.ListShowsStream` | gpustack/client/generated_model_instance_client.py:31-121 | a list is answered from the cache exactly when connected and not paged, and is the stream's last versions that pass the filter, each once and in order of appearance; otherwise the server is asked, unpaged exactly when the call stands in for the cache |
| `WatchClient.CachedListIsOnePage` | gpustack/client/generated_model_instance_client.py:110-121 | the page information of a cached list: one page holding everything, no page if empty |
| `WatchClient.GetShowsStream` | gpustack/client/generated_model_instance_client.py:303-329 | a hit is exactly the last delivered version |
| `WatchClient.UncachedAlwaysCalls` | gpustack/client/generated_model_instance_client.py:48-69 | without a cache, or if the reader does not want it, the server is called with the parameters as given |
| `WatchClient.IdOnlyDeleteReachesCallbackIff` | gpustack/client/generated_model_instance_client.py:135-150 | an id-only delete reaches the callback if and only if the resource is there, with its last delivered version |
| `WatchClient.CallbackAnnounces` | gpustack/client/generated_model_instance_client.py:260-277 | every other event reaches it unchanged, cache on or off; no other id-only event does |
| `WatchClient.CallbacksOfConnection` | gpustack/client/generated_model_instance_client.py:207-277 | over a whole connection the callback gets the delivered events in order, less the id-only ones, of which it gets the deletions of what is there, completed |
| `WatchClient.ChangeIsAnnounced` | gpustack/client/generated_model_instance_client.py:123-150 | in the server's terms: every change is announced with the resource in full, a deletion with the row as the table had it |
| `WatchClient.CacheMirrorsServer` | gpustack/client/generated_model_instance_client.py:213-231 | after any history, once snapshot and changes are delivered the cache is the server's table |
| `WatchClient.Client.OnConnect` | gpustack/client/generated_model_instance_client.py:224-231 | the connect section |
| `WatchClient.Client.OnEvent` | gpustack/client/generated_model_instance_client.py:236-276 | one event: the cache update, and what the callback gets |
| `WatchClient.Client.OnTearDown` | gpustack/client/generated_model_instance_client.py:291-301 | the teardown section |
| `WatchClient.Client.ListCached` | gpustack/client/generated_model_instance_client.py:71-121 | the filter loops compute the filtered list |
| `WatchClient.Client.ListAll` | gpustack/client/generated_model_instance_client.py:48-69 | cache or call, and with which parameters; the cache is not changed |
| `WatchClient.Client.GetOne` | gpustack/client/generated_model_instance_client.py:315-329 | hit or call; the cache is not changed |
| `ExtAuth.ReconcileSetsTables` | gpustack/gateway/ext_auth.py:574-636 | a reconcile sets the tables, and one rule per policy, in order |
| `ExtAuth.ReconcileKeepsRest` | gpustack/gateway/ext_auth.py:606-636 | it sets the gate and leaves the rest of a live spec alone; that of a missing one comes from the configuration |
| `ExtAuth.RestartStripsTables` | gpustack/gateway/ext_auth.py:508-571 | after a restart both tables have exactly the keys they had, each object entry less the flag and nothing else, any other entry unchanged |
| `ExtAuth.RestartRefreshes` | gpustack/gateway/ext_auth.py:525-571 | the rest is refreshed from the configuration |
| `ExtAuth.TablesAfterRun` | gpustack/gateway/ext_auth.py:474-636 | after any run, from any start: the tables published last, without the flag if a restart came since, empty if a deletion came since |
| `ExtAuth.PublishedKeysAfterRun` | gpustack/gateway/ext_auth.py:531-571 | after any run without a deletion since, every key published last is there and no other, its entry complete but for the flag if a restart came since |
| `ExtAuth.RevokedKeysStayRevoked` | gpustack/gateway/ext_auth.py:597-602 | in neither table does a key the latest reconcile dropped ever reappear, and every entry is the one it published, at most without the flag |
| `ExtAuth.RestartNeverPublishesFlag` | gpustack/gateway/ext_auth.py:508-522 | from a restart to the next reconcile no entry carries the flag |
| `ExtAuth.UnchangedIsQuiet` | gpustack/gateway/ext_auth.py:256-278 | a second reconcile or restart with unchanged inputs writes nothing, on either kind of store |
| `ExtAuth.ReconcileWritesIff` | gpustack/gateway/ext_auth.py:615-636 | a reconcile writes exactly if the live spec differs from the database; some rules to none is a write |
| `ExtAuth.RestartKeepsRules` | gpustack/gateway/ext_auth.py:495-505 | exactly the rules that name an access policy survive a restart, in order |
| `ExtAuth.RulesAfterRun` | gpustack/gateway/ext_auth.py:474-636 | after any run, from any start: the policy rules published last, in order, none if a deletion came since |
| `ExtAuth.PoliciesAfterRun` | gpustack/gateway/ext_auth.py:227-278 | a rule declares a policy after a run if and only if the latest reconcile had a route with just that policy on just those ingresses and no deletion came since |
| `ExtAuth.Plugin.OnStart` | gpustack/gateway/ext_auth.py:525-571 | the startup diff on the resource, written exactly if it changes something |
| `ExtAuth.Plugin.OnReconcile` | gpustack/gateway/ext_auth.py:574-636 | the reconciler's diff on the resource, in place; the tables afterwards |
| `ModelIngress.SpecAfterPassIff` | gpustack/gateway/utils.py:1088-1115 | when a pass leaves the spec as expected, class name, TLS list and backend services included, exactly |
| `ModelIngress.TlsAfterPassIff` | gpustack/gateway/utils.py:875-890 | when a pass leaves the TLS list as expected, exactly |
| `ModelIngress.ClassChangeIsMissed` | gpustack/gateway/utils.py:893-928 | a changed class name alone is never applied; with a new path beside it, it is |
| `ModelIngress.IngressEqualIff` | gpustack/gateway/utils.py:893-928 | what the comparator accepts, exactly: equal compared annotations and TLS lists, and every host and path going to the same resource; class name and backend service are not seen |
| `ModelIngress.RewriteConvergesIff` | gpustack/gateway/utils.py:1091-1115 | when one rewrite makes the comparator report equal, exactly |
| `ModelIngress.PassIsEnough` | gpustack/gateway/utils.py:853-872 | after a pass: a second changes nothing, foreign annotations are untouched, both TLS bounds are as expected (the spec is `SpecAfterPassIff`) |
| `ModelIngress.AnnotationsAfterRewrite` | gpustack/gateway/utils.py:1094-1106 | after a rewrite the higress annotations are exactly the expected ones, all others untouched |
| `ModelIngress.PassRestoresSites` | gpustack/gateway/utils.py:1085-1115 | after a pass, whatever stood there, every host and path goes where it is expected to |
| `ModelIngress.Reannotate` | gpustack/gateway/utils.py:1094-1106 | the annotation loops |
| `ModelIngress.LiveIngress.Ensure` | gpustack/gateway/utils.py:1085-1115 | the pass in place, written exactly if the comparator reports a difference |
| `Pagination.IterVms` | gpustack/cloud_providers/shuihua.py:397-414 | yields the list up to the reported page count, once and in order, in at most length / page size + 1 requests |
| `Pagination.CompleteIff` | gpustack/cloud_providers/shuihua.py:404-413 | the whole list is yielded if and only if the page count is missing or covers it |

## Left out

- Kubernetes, HTTP, database and pydantic plumbing: resources, rows and streams are values; labels always match, and single rules round-trip the store. Creation of a missing ai-proxy resource (with an empty spec) and of a missing McpBridge (with the desired entries as given) is not modelled.
- Cryptography: the hash is any function that is injective in the secret for a fixed salt and prints without a dollar sign; argon2 accepts exactly the true secret; salts are non-empty and free of dollar signs.
- Floating point in the apportionment: quotas are exact integers. Python's float division may order remainders differently that are equal or nearly equal in exact arithmetic; `LargestRemaindersIsShare` is about the exact order.
- Negative weights, which the callers never pass: weights and the weight floor are natural numbers; instance counts may be negative.
- Provider entries with an explicit null id, and default configs whose provider list is null: the source's sort and loop would raise.
- Unicode digits: the header pattern's digit class is modelled as 0 to 9.
- Events whose payload is only an id but that are not deletions are taken not to validate; one watch loop per client runs at a time; the log-only flag about the initial sync is not modelled.
- Expiry, the lookup by several access keys, and the user lookup around the verification of an API key.
- Deleted or rotated API keys: the table keeps its rows during a run of the backfill.
- The proxies half of the McpBridge diff, the model mapper and the generic proxy router: the same patterns with less state.
- The text of generated Ingress rules, plugin URLs and provider configurations: carried as opaque values.
- Tenancy rules, metrics, stream rewriting, cluster API wrappers, command line and configuration: no property over runs.
