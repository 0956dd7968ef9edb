# Verified models of the WAF's stateful cores

This project models, in Dafny 4.11, the parts of the web application firewall whose behaviour depends on
state, order or interleaving, and proves what they keep over whole runs. `dafny verify dfyconfig.toml`
checks everything. Each module follows one part of the system:

- **Election**, **ElectionRoles**: leader election of a cluster. A machine over complete handler calls and a network
  that drops, repeats and reorders, and who is Main of which term.
- **ElectionRace**, **ElectionVotes**, **ElectionTerms**, **ElectionSplit**, **ElectionDoubles**: one node of it lock by
  lock, and what that does to the cluster.
- **RuleSync**, **RuleRuns**, **RuleIndex**: the rule changelog of the main node, its workers and their registry, and
  runs of the protocol between them.
- **RateLimiter**: the API token buckets, their TTL cleanup and size cap.
- **LoadBalancer**: weighted round robin over a truncated counter, least connections, the connection counter.
- **LiveSwap**, **RuleSets**, **RuleReload**: rule sets that are replaced while requests read them.
- **ClusterForward**: requests forwarded to the main node.
- **Proxy**: a request's life through the gateway callbacks; body inspection and cache capture.
- **BodyMask**: streaming replacement in response bodies.
- **Inspection**, **ReloadInspection**: the inspection pipeline, log-only mode and what is recorded; its list checks
  while the lists are being replaced.
- **WsAdmission**, **HostRouter**, **LogsQuery**, **CookieHeader**, **OptionSplitter**: the WebSocket limit, host
  routing, the LogsQL guard, cookie parsing, the ModSecurity option splitter.
- **Basics**, **Modular**, **Text**: shared definitions; remainders by recursion, proved equal to `%`; Unicode
  trimming and ASCII case.

Atomics, locks and tasks become state machines whose steps are single atomic operations or complete critical
sections; statements about concurrency quantify over all sequences of such steps. The clock, the network, the
database, regular expressions, JSON and compression are parameters or left out.

## What the proofs found

Properties that one would expect of the code and that fail. The members named give the failing input or run, and
the exact condition under which the property holds:

- A node that handles several messages at once can vote for two candidates in one term, and its term can go back
  (`ElectionVotes.RaceWindow`, `ElectionTerms.TermGoesBack` give the exact conditions). How many nodes
  have to grant twice before two are elected in one term is `ElectionDoubles.DoublesNeeded`: with true counts one in a
  cluster of an odd size, two in one of an even size. Handled one after the other, messages are safe.
- Election safety needs every candidate's node count, which is its local peer count plus one, to cover the
  real cluster (`Election.SafeCounts`).
- Two Mains can report the same term although only one has won it: a vote raises the term of a Main without
  demoting it, and a promotion does not look at the term again (`ElectionRoles.HonestIff`,
  `ElectionRoles.TwoMainsReportOneTerm`).
- A stale `ElectionResult` is logged as rejected, and documented as ignored, but takes the role from a Main
  (`ElectionRoles.ResultTakesMain`, `ElectionRoles.LeaderlessByStaleResult`).
- Before the first recorded change a new worker is told it is up to date and keeps no rules
  (`RuleSync.FreshWorker`).
- A worker can report the main node's version without its rules: an old response that arrives late or again, a
  snapshot or just changes, sets it back, and the changes it asked for before then land on the older rules
  (`RuleRuns.SnapshotArrivesLate`, `RuleRuns.DeltaArrivesLate`). The exact condition for one delivery to any worker is
  `RuleSync.DeltaIffHarmless`, over whole runs it is `RuleRuns.WellIffSafe`, and what a worker could test itself is
  `RuleRuns.GuardIff`: that its version is not below the one the changes start from. A response that cannot be read
  to its end is harmless for certain only at exactly that version (`RuleRuns.PartGuardIff`).
- Weighted round robin is not fair in the window where the 32-bit slot counter wraps, unless there is one
  backend or the total weight divides 2^32 (`LoadBalancer.FairForever`). `lb.rs:128` documents `None` when no
  backend is healthy; the code falls back to all backends, and the model follows the code.
- During a swap a reader can miss an address that is listed before and after, but under different buckets
  (`LiveSwap.ReaderGuarantee`), so during a reload a request can slip past a list that blocks it in the old rules and
  in the new (`ReloadInspection.DecidedThroughout`, `ReloadInspection.DeniedThroughout`).
- A forwarded request that timed out stays registered until a reply or a cancel
  (`ClusterForward.TimeoutsKeepTheEntry`), although the comment at `cluster_forward.rs:54-55` expects its reply to
  find no entry.
- The body masker loses the retained tail when its byte ceiling is reached in mid-body
  (`BodyMask.CeilingTruncates`, `BodyMask.CeilingReached`), and for some lists of patterns what the client sees
  depends on where chunks end (`BodyMask.ChunkingTheorem`).
- A response over 2 MiB is cached cut off (`Proxy.CaptureIgnoresChunking`).
- One release without an acquire leaves the connection counter wrong until no connection is open, and its repair
  can wipe out connections opened meanwhile (`LoadBalancer.RepairLosesAnAcquire`).
- Any port in a Host header falls back to the default-port configuration, not only a default port, and removing
  one default port takes the bare name from the other (`HostRouter.ResolvesByHistory`,
  `HostRouter.OtherDefaultPortLost`).
- The inspection order is that of `engine.rs`; the list in the repository's `README.md:175-187` differs.

## Model

| member | source | states |
|---|---|---|
| Election.ElectionManager.IncrementTermAndVoteForSelf | crates/waf-cluster/src/election/mod.rs:88-101 | the term rises by one, the node votes for itself, and only counts of the new term or later ones remain |
| Election.ElectionManager.RecordVoteForMe | crates/waf-cluster/src/election/mod.rs:106-112 | a vote of a current or later term is counted once per voter; the answer says whether it was new and not stale |
| Election.ElectionManager.HandleVoteRequest | crates/waf-cluster/src/election/mod.rs:154-190 | the whole vote decision: stale terms are refused, a newer term is adopted and frees the vote, a second candidate of the term is refused |
| Election.ElectionManager.HandleResult | crates/waf-cluster/src/transport/server.rs:308-319 | a result moves the node to the role that `process_result` returns, in every term |
| Election.ApplyKeepsInv | crates/waf-cluster/src/election/mod.rs:154-227 | every step of the cluster keeps: at most one vote per node and term was ever cast, nodes remember it, counted votes were cast, winners are backed by a majority of distinct counted voters |
| Election.RunKeepsInv | crates/waf-cluster/src/election/mod.rs:240-331 | that invariant in every reachable state, over a network that drops, repeats and reorders |
| Election.ElectionSafety | crates/waf-cluster/src/election/mod.rs:129-131 | in every run no term has two winners, if each winner's node count covers the real cluster |
| Election.GatherVotes | crates/waf-cluster/src/transport/client.rs:272-281 | a candidate can collect the votes of any set of nodes still in an older term, changing nothing else |
| Election.SplitElection | crates/waf-cluster/src/node.rs:183-185 | a count that does not cover the cluster admits a run that elects two nodes in one term, as soon as one node is not configured as Main |
| Election.SafeCounts | crates/waf-cluster/src/node.rs:183-185 | with a common count, all runs have one winner per term if and only if two majorities of the count exceed the cluster, or all nodes are configured as Main and nobody ever stands |
| ElectionRoles.TallyClaimsItsTerm | crates/waf-cluster/src/election/mod.rs:300-302 | a winning tally makes its node Main of a term it has won if and only if the node has not moved to a later term since it opened the ballot |
| ElectionRoles.HonestIff | crates/waf-cluster/src/election/mod.rs:240-331 | for every cluster, whichever nodes are configured as Main: at every moment of a run each Main has won the term it reports, or is a configured Main still in term 0, if and only if no winning tally is late, no request of a newer term reaches a Main, and nobody takes the single-node path without such a claim to its term |
| ElectionRoles.HonestMainsDiffer | crates/waf-cluster/src/node.rs:134-143 | under covering counts two nodes of one term have not both won it |
| ElectionRoles.NoSlipsOneMain | crates/waf-cluster/src/election/mod.rs:240-331 | in a run without such steps and with covering counts, no two Mains ever report one term if and only if at most one node is configured as Main |
| ElectionRoles.TwoMainsReportOneTerm | crates/waf-cluster/src/election/mod.rs:166-170 | every cluster with two nodes not configured as Main has, for each count that covers it, two runs of elections that end with two Mains of one term: a vote raises the term of a Main, or a tally comes late |
| ElectionRoles.ResultTakesMain | crates/waf-cluster/src/election/mod.rs:197-226 | in every reachable state, a result takes the role from a Main that has won its term if and only if it is of another term; an older one changes nothing else |
| ElectionRoles.StaleResultDemotes | crates/waf-cluster/src/transport/server.rs:308-319 | whenever an older win exists, its result can still be delivered to a Main and leaves it a Worker of the same term |
| ElectionRoles.LeaderlessByStaleResult | crates/waf-cluster/src/election/mod.rs:197-207 | so for every covering count some run of elections leaves the winner of the newest term demoted and nobody Main |
| ElectionSplit.AloneIsProcessVote | crates/waf-cluster/src/election/mod.rs:154-190 | without interference the separate lock acquisitions add up to the vote decision of the cluster model |
| ElectionSplit.HearIsProcessResult | crates/waf-cluster/src/election/mod.rs:140-147 | the one lock step of a result leaves the term and vote of the cluster model |
| ElectionSplit.OwnIsStartElection | crates/waf-cluster/src/election/mod.rs:88-101 | and so do the two lock steps of an own start |
| ElectionRace.NoConflictIsSafe | crates/waf-cluster/src/election/mod.rs:88-190 | without a conflict no interleaving of handlers, results and any number of the node's own starts votes twice in a term |
| ElectionVotes.RaceWindow | crates/waf-cluster/src/election/mod.rs:88-190 | for any number of vote handlers, results and starts of the node's own: some interleaving of their lock acquisitions makes the node vote for two candidates in one term, counting the vote it holds and its own, if and only if two requests share a newer term, or two want the vote of the current term while something newer arrives, or there is a newer request while the node's own election loop runs |
| ElectionVotes.TwoRequests | crates/waf-cluster/src/election/mod.rs:154-190 | for two requests alone: equal newer terms and different candidates, or a request of the current term against the vote held together with a newer one |
| ElectionVotes.RivalsRace | crates/waf-cluster/src/election/mod.rs:166-182 | the interleaving in which two requests of one newer term are both granted, and the state it leaves |
| ElectionTerms.TermGoesBack | crates/waf-cluster/src/election/mod.rs:166-169 | some interleaving lowers the term if and only if there is a newer request that something of a later term can overtake, or that the node's own starts can, if its election loop runs |
| ElectionSplit.DoubleGrantIsReal | crates/waf-cluster/src/election/mod.rs:154-190 | each double grant of the cluster machine below is an interleaving of two handlers at the node, with the same state left |
| ElectionDoubles.EventsKeep | crates/waf-cluster/src/election/mod.rs:154-227 | in every run with double grants, all nodes that never granted twice still vote once per term and remember it, counted votes were cast and wins are backed |
| ElectionDoubles.SharedVotersDoubled | crates/waf-cluster/src/election/mod.rs:129-131 | two nodes that win one term share at least as many voters as their majorities together exceed the cluster, and each of these granted twice |
| ElectionDoubles.DoublesNeeded | crates/waf-cluster/src/election/mod.rs:129-190 | for every cluster, count and number n: some run in which at most n nodes grant twice elects two nodes in one term, if and only if some node is not configured as Main, a majority of the count is less than the cluster, and two of them exceed it by at most n |
| ElectionDoubles.DoubleGrantElectsTwo | crates/waf-cluster/src/election/mod.rs:129-131 | with true counts, from three nodes on: no double grant, no split; one node is enough if and only if the size is odd, and two always are |
| RuleSync.RuleChangelog.RecordChange | crates/waf-cluster/src/sync/rules.rs:38-44 | the buffer keeps being the newest changes of the whole history, with consecutive versions |
| RuleSync.RuleChangelog.Push | crates/waf-cluster/src/sync/rules.rs:47-52 | the ring buffer drops its oldest entry when full; a capacity of zero still holds one |
| RuleSync.RuleChangelog.HandleRequest | crates/waf-cluster/src/sync/rules.rs:56-95 | the filter loop and the choice between changes and snapshot equal their specification |
| RuleSync.DeltaIsMissingChanges | crates/waf-cluster/src/sync/rules.rs:56-73 | what a worker gets: nothing if nothing was recorded or it is ahead, a snapshot if its version is no longer buffered, otherwise exactly the changes it lacks |
| RuleSync.RuleRegistry.Insert | crates/waf-engine/src/rules/registry.rs:53-66 | the rule is stored under its own id, both indexes keep listing exactly the rules of each category and source, and the version rises by one |
| RuleSync.RuleRegistry.Remove | crates/waf-engine/src/rules/registry.rs:69-83 | the rule is removed from the map and both indexes and returned, and the version rises only if it existed |
| RuleSync.RuleRegistry.Clear | crates/waf-engine/src/rules/registry.rs:149-155 | no rules, empty indexes and version 0 |
| RuleSync.RuleRegistry.ApplyRuleChanges | crates/waf-cluster/src/sync/rules.rs:138-154 | the loop replays the changes in order up to the first that cannot be read, and fails there with the version as the single operations raised it |
| RuleSync.RuleRegistry.ApplyFullSnapshot | crates/waf-cluster/src/sync/rules.rs:160-167 | the registry becomes the snapshot, the last rule of an id winning, or stays as it is if the snapshot cannot be read |
| RuleSync.RuleRegistry.ApplySyncResponse | crates/waf-cluster/src/sync/rules.rs:178-195 | rules by changes or snapshot, and the version of the response, or the partial state and an error |
| RuleIndex.InsertKeepsIndex | crates/waf-engine/src/rules/registry.rs:53-66 | inserting or replacing a rule keeps an index exact and without repetition, also when its key changes |
| RuleIndex.RemoveKeepsIndex | crates/waf-engine/src/rules/registry.rs:69-83 | removing a rule keeps an index exact and without repetition |
| RuleSync.RuleRegistry.FilterByCategory | crates/waf-engine/src/rules/registry.rs:100-105 | the rules whose category is the one asked for, all of them and each once |
| RuleSync.RuleRegistry.FilterBySource | crates/waf-engine/src/rules/registry.rs:107-112 | the same by source |
| RuleSync.LastChangeDecides | crates/waf-cluster/src/sync/rules.rs:138-154 | after a list of changes a rule is exactly the one that the last change of its id brought, or is gone if that deleted it |
| RuleSync.NoChangeDecides | crates/waf-cluster/src/sync/rules.rs:138-154 | without such a change it is as before |
| RuleSync.SameReplay | crates/waf-cluster/src/sync/rules.rs:138-154 | two registries agree after a list of changes if and only if every rule on which they differ is touched by it |
| RuleSync.RoundTripConverges | crates/waf-cluster/src/sync/rules.rs:120-195 | one undisturbed round trip brings every worker that can still catch up exactly to the main node's rules and version |
| RuleSync.FailedSyncIff | crates/waf-cluster/src/sync/rules.rs:138-195 | applying any changes of the history to any worker that may not be able to read them all: it can catch up afterwards if and only if the version it is left with exists and every rule not touched after it is as in that version, by the applied changes or as it was |
| RuleSync.FreshWorker | crates/waf-cluster/src/sync/rules.rs:56-60 | a new worker ends with the main node's rules if and only if a change was ever recorded or there was nothing to copy |
| RuleSync.WorkerAhead | crates/waf-cluster/src/sync/rules.rs:66-72 | a worker ahead of the main node keeps its rules and takes over the lower version |
| RuleSync.DeltaIffHarmless | crates/waf-cluster/src/sync/rules.rs:138-195 | for any worker, whatever it holds and reports: after the changes from one version to another it can catch up if and only if every rule in which it differs from the first of them is touched from there on |
| RuleSync.DeltaAcrossGap | crates/waf-cluster/src/sync/rules.rs:138-154 | so changes delivered to a worker that holds exactly an older version do no harm if and only if every rule that differs between the two versions is touched again |
| RuleSync.RoundTripIff | crates/waf-cluster/src/sync/rules.rs:120-195 | an undisturbed round trip brings a worker to the main node's rules if and only if it can catch up or its version is no longer buffered |
| RuleRuns.AttemptIsStep | crates/waf-cluster/src/sync/rules.rs:138-195 | whatever a worker can and cannot read of a response, applying it is a delivery, a failure after some changes, or nothing, as in the runs below |
| RuleRuns.StepWell | crates/waf-cluster/src/sync/rules.rs:120-195 | a worker for which one round trip is enough stays so across a step, be it recording, asking, answering, delivery or failing half-way, if and only if the step is safe |
| RuleRuns.WellIffSafe | crates/waf-cluster/src/sync/rules.rs:120-195 | in all runs with delay, repetition, reordering, loss and half-applied responses: a worker can catch up or is still joining in every state, if and only if all changes that arrive, in whole or in part, are harmless for the rules and the version they meet |
| RuleRuns.WorkersConverge | crates/waf-cluster/src/sync/rules.rs:169-195 | in those runs a worker at the main node's version has its rules, and one round trip always gets it there |
| RuleRuns.OrderedRunsAreSafe | crates/waf-cluster/src/sync/rules.rs:178-195 | among them are all runs in which changes reach no worker below the version they start from, and those that fail half-way only one at that version |
| RuleRuns.GuardIff | crates/waf-cluster/src/sync/rules.rs:178-195 | changes keep every worker of one version able to catch up, for all histories and rules, if and only if that version is not below the one they start from |
| RuleRuns.PartGuardIff | crates/waf-cluster/src/sync/rules.rs:138-154 | the same for changes of which only some could be read: if and only if it is exactly that version, or none was read |
| RuleRuns.SnapshotArrivesLate | crates/waf-cluster/src/sync/rules.rs:178-195 | a run with one late snapshot after which a worker reports the main node's version with other rules |
| RuleRuns.DeltaArrivesLate | crates/waf-cluster/src/sync/rules.rs:178-195 | a run with one late list of changes after which it does so, and a deleted rule is back |
| RateLimiter.ApiRateLimiter.Check | crates/waf-api/src/security.rs:107-128 | new addresses start with a full burst; others refill by elapsed time up to the burst, and pass if a whole token is there |
| RateLimiter.ApiRateLimiter.Cleanup | crates/waf-api/src/security.rs:132-149 | entries refilled in the last 600 seconds stay, unchanged, and of those the youngest 50,000; all others go |
| RateLimiter.ApiRateLimiter.EvictOldest | crates/waf-api/src/security.rs:139-148 | sorting and removing from the front is a permitted choice: exactly the excess, none newer than any survivor |
| RateLimiter.SortByAge | crates/waf-api/src/security.rs:142 | oldest first, and a permutation |
| RateLimiter.RunKeepsSane | crates/waf-api/src/security.rs:107-149 | in every run tokens stay between 0 and the burst |
| RateLimiter.TtlRefillsToBurst | crates/waf-api/src/security.rs:65-89 | a bucket idle for the TTL has refilled to the burst, for every rate |
| RateLimiter.TtlEvictionIsInvisible | crates/waf-api/src/security.rs:65-137 | in every run of checks and cleanups an address that was not evicted by the cap gets exactly the answers of a limiter that never evicts |
| RateLimiter.AdmissionBound | crates/waf-api/src/security.rs:107-149 | between times s and t an address evicted k times by the cap is admitted at most (k+1)*burst + rps*(t-s) times; TTL evictions cost nothing |
| RateLimiter.RefusedIff | crates/waf-api/src/security.rs:107-128 | exactly when a check is refused, in every run: if and only if from some moment s on, since which the cap has not evicted the address, it was admitted more than burst + rps*(t-s) - 1 times |
| RateLimiter.BurstIs | crates/waf-api/src/security.rs:86-89 | the burst is 5*rps, at least 10 and at most 2^32 - 1 |
| RateLimiter.FirstChecksPass | crates/waf-api/src/security.rs:107-128 | the first 10 checks of an address without an entry pass, or 5*rps if that is more, whenever they come; with a rate of 0 all do |
| RateLimiter.PacedChecksPass | crates/waf-api/src/security.rs:107-128 | a check at least 1/rps after the previous one of its address passes, whatever happened between |
| RateLimiter.GainIsProduct | crates/waf-api/src/security.rs:118-119 | the recursive refill amount is rate times elapsed time |
| LoadBalancer.Balancer.FetchAdd | crates/gateway/src/lb.rs:175 | the old value is returned, and the counter wraps at 64 bits |
| LoadBalancer.WeightedIndex | crates/gateway/src/lb.rs:178-187 | in wrapping 32-bit arithmetic the accumulation loop returns the first backend whose cumulative weight exceeds the slot; the fallback behind it is not reached, even on overflow |
| LoadBalancer.FirstIsOwner | crates/gateway/src/lb.rs:178-187 | without overflow the walk finds the owner of the slot |
| LoadBalancer.Balancer.PickWeighted | crates/gateway/src/lb.rs:168-188 | for all weights: the owner of the counter truncated to 32 bits, modulo the total weight, when the total fits 32 bits; round robin when it wraps to zero; otherwise the wrapped walk |
| LoadBalancer.Balancer.NextBackend | crates/gateway/src/lb.rs:130-195 | `None` only without backends; a healthy backend whenever there is one; all backends in turn when none is healthy; which picks advance the counter |
| LoadBalancer.Balancer.PickHealthy | crates/gateway/src/lb.rs:142-195 | each strategy: counter or hash modulo the length, the weighted pick, or the first backend with the fewest connections |
| LoadBalancer.HealthyKeepsOrder | crates/gateway/src/lb.rs:113-120 | the list of healthy backends holds each healthy one once, in order |
| LoadBalancer.OwnerRange | crates/gateway/src/lb.rs:178-187 | a slot belongs to backend i if and only if it lies in i's stretch of weight_i slots |
| LoadBalancer.SlotIsTruncated | crates/gateway/src/lb.rs:175-176 | the slot used in the fairness proofs is the counter modulo 2^64, 2^32 and the total weight |
| LoadBalancer.ExactlyFair | crates/gateway/src/lb.rs:168-188 | as many consecutive picks as the configured weights sum up to, with 1 for 0, choose each backend exactly as often as its weight says, unless they cross the wrap |
| LoadBalancer.FairAcrossWraps | crates/gateway/src/lb.rs:168-188 | n picks across at most k wraps choose backend i between n/W - k and n/W + k + 1 times its weight |
| LoadBalancer.UnfairWindow | crates/gateway/src/lb.rs:175-176 | if W does not divide the counter range, the window at the wrap gives the first backend too many turns |
| LoadBalancer.FairForever | crates/gateway/src/lb.rs:168-188 | for every list of backends, every such window is fair if and only if there is one backend or the sum of the configured weights divides the counter range |
| LoadBalancer.StaysBalanced | crates/gateway/src/lb.rs:190-195 | counts within one of each other stay so in every run of pick and acquire |
| LoadBalancer.LeastConnectionsRotates | crates/gateway/src/lb.rs:190-195 | from equal counts, least connections is round robin: after n picks, backend i holds n/L more, plus one if i < n mod L |
| LoadBalancer.CounterIsExact | crates/gateway/src/lb.rs:60-70 | if each release follows its own acquire, the counter is the number of open connections in every interleaving and the repair never runs |
| LoadBalancer.RepairLosesAnAcquire | crates/gateway/src/lb.rs:60-70 | after one stray release the counter is wrong in every run until a repair strikes; a repair is due exactly once no connection was open; it makes the counter right if and only if none is open then |
| LiveSwap.BucketsOldOrNew | crates/waf-engine/src/rules.rs:105-122 | at every moment of a swap each bucket is the old or the new one, and a key of both sets is never absent |
| LiveSwap.SwapInstallsSource | crates/waf-engine/src/rules.rs:105-122 | in every order of iteration the swap ends with exactly the source |
| LiveSwap.CompleteRun | crates/waf-engine/src/rules.rs:105-122 | every partial swap can be completed |
| LiveSwap.ReaderGuarantee | crates/waf-engine/src/rules.rs:48-62 | a two-lookup reader finds a match at every moment of every swap if and only if old and new sets are covered in one of the ways listed at `Covered` |
| LiveSwap.MissedRead | crates/waf-engine/src/checker.rs:36-37 | outside that condition some order of the swap and some timing of the reader give a miss |
| LiveSwap.NoFalseRead | crates/waf-engine/src/rules.rs:48-62 | a reader never finds a match if and only if neither bucket of either set has one |
| RuleSets.RuleSet.Load | crates/waf-engine/src/rules.rs:176-178 | replaces one host's bucket |
| RuleSets.RuleSet.Push | crates/waf-engine/src/rules.rs:196-198 | appends to one host's bucket, creating it if needed |
| RuleSets.RuleSet.ClearHost | crates/waf-engine/src/rules.rs:200-202 | removes one host's bucket |
| RuleSets.RuleSet.SwapFrom | crates/waf-engine/src/rules.rs:105-122 | the two loops end with the source's entries, and their steps are a run of the swap protocol |
| RuleSets.LoadIps | crates/waf-engine/src/rules.rs:29-46 | the bucket becomes all entries that parse, in order |
| RuleSets.InsertIp | crates/waf-engine/src/rules.rs:65-75 | an entry that parses is appended, another is ignored |
| RuleSets.UrlMatchesMeans | crates/waf-engine/src/rules.rs:154-161 | a rule matches the path itself, what it begins with, what occurs in it or what it ends with, by its kind |
| RuleSets.ContainsMeans | crates/waf-engine/src/rules.rs:48-62 | a network holds the addresses of its family in the aligned block of 2^(32 - prefix) or 2^(128 - prefix) around its base |
| RuleSets.ContainsAtEnds | crates/waf-engine/src/rules.rs:48-62 | which is the base alone for a full prefix and the whole family for prefix 0 |
| RuleSets.IpReadersDuringSwap | crates/waf-engine/src/rules.rs:48-62 | an address in the same bucket of both sets is always matched during a swap, one in no bucket of either never |
| RuleReload.GroupRows | crates/waf-engine/src/checker.rs:104-108 | the grouping loop keeps each host's rows in row order |
| RuleReload.PopulateIps | crates/waf-engine/src/checker.rs:99-112 | the new set holds for each host the entries of its rows that parse |
| RuleReload.PopulateUrls | crates/waf-engine/src/checker.rs:117-130 | the new set holds for each host the rules of its rows in order |
| RuleReload.RuleStore.ReloadAll | crates/waf-engine/src/checker.rs:38-94 | all four live sets become what their tables say, each by a run of the swap protocol, or none changes if any table fails to load |
| RuleReload.ReloadedIps | crates/waf-engine/src/rules.rs:48-62 | after a reload an address matches a host if and only if some row of that host or of "*" parses and contains it |
| RuleReload.ReloadedUrls | crates/waf-engine/src/rules.rs:180-194 | after a reload a path yields the first matching row of the host, else the first of "*", else nothing |
| RuleReload.InsertAnswersLikeReload | crates/waf-storage/src/repo.rs:135-149 | every lookup answers as after a reload of the rows with the new one first, which is how the database lists them |
| RuleReload.ReloadHostIps | crates/waf-engine/src/checker.rs:166-178 | one host's bucket is replaced, or removed if there are no rows; others stay |
| RuleReload.ReloadHostUrls | crates/waf-engine/src/checker.rs:180-190 | the same for a URL set |
| RuleReload.RuleStore.ReloadHost | crates/waf-engine/src/checker.rs:137-193 | all four sets reflect the database again if only that host's rows changed; nothing changes if a query fails |
| ClusterForward.PendingForwards.Register | crates/waf-cluster/src/cluster_forward.rs:46-50 | the id becomes pending, as the register step of the protocol does |
| ClusterForward.PendingForwards.Resolve | crates/waf-cluster/src/cluster_forward.rs:56-72 | the entry is removed and its caller, if still waiting, has the response; without an entry nothing changes; as the arrival step does |
| ClusterForward.PendingForwards.CancelAll | crates/waf-cluster/src/cluster_forward.rs:77-79 | all entries are dropped and every waiting caller fails, as the cancel step does |
| ClusterForward.RunKeepsInv | crates/waf-cluster/src/cluster_forward.rs:46-132 | in every run pending, resolved and cancelled requests are disjoint and account for all registered ones, callers agree with them, and messages on the wire are real |
| ClusterForward.RequestsAreConserved | crates/waf-cluster/src/cluster_forward.rs:46-84 | registered = pending + resolved + cancelled in every reachable state, timeouts included |
| ClusterForward.CallersGetTheirOwnResponse | crates/waf-cluster/src/cluster_forward.rs:102-132 | a caller gets at most one response, a real one to its own request |
| ClusterForward.CallerFate | crates/waf-cluster/src/cluster_forward.rs:46-132 | exactly what becomes of every caller in every run: it has the response r if and only if, after it registered, the arrival of r came before any other reply to it, its timeout, its failed send and any cancel; likewise for each of those; and it waits as long as none has come |
| ClusterForward.HistoryIs | crates/waf-cluster/src/cluster_forward.rs:46-132 | what counts as registered, sent and answered are the steps that did so |
| ClusterForward.RequestCanSucceed | crates/waf-cluster/src/cluster_forward.rs:102-132 | after every run a new request can be made and its response gets to its caller |
| ClusterForward.UnmatchedReplies | crates/waf-cluster/src/cluster_forward.rs:65-71 | a reply finds no entry if and only if its request was already resolved or cancelled |
| ClusterForward.TimeoutsKeepTheEntry | crates/waf-cluster/src/cluster_forward.rs:120-131 | after a timeout or a failed send the entry is there if and only if no reply for it and no cancel has come since, and does not return |
| Proxy.GatewayCtx.RequestFilter | crates/gateway/src/proxy.rs:434-476 | bypass, WAF verdict, cache lookup and the conditions under which a store is prepared |
| Proxy.GatewayCtx.RequestBodyFilter | crates/gateway/src/proxy.rs:486-509 | buffering up to the preview limit and the one inspection |
| Proxy.GatewayCtx.ResponseFilter | crates/gateway/src/proxy.rs:550-594 | the masking decision and the start or refusal of the capture |
| Proxy.GatewayCtx.ResponseBodyFilter | crates/gateway/src/proxy.rs:609-627 | masked bodies bypass the capture; others are appended and stored at the end |
| Proxy.AnsweredIff | crates/gateway/src/proxy.rs:434-476 | over every callback sequence: a request does not go upstream if and only if it has no host, is for the health route, is refused by the access lists or by the engine, or hits the cache; then nothing is inspected or stored; and it is exempt from body inspection if and only if the access lists say so |
| Proxy.ForwardedBody | crates/gateway/src/proxy.rs:479-510 | the body of a forwarded request is inspected once, on its first 64 KiB, unless exempt or empty, and the exchange fails if and only if the engine refuses it |
| Proxy.MaskedIff | crates/gateway/src/proxy.rs:557-576 | the response body is masked if and only if an identity-encoded header came and the mask of the host does something |
| Proxy.IdentityMeans | crates/gateway/src/proxy.rs:560-567 | identity-encoded is: no such header, one that is no text or blank, or one that reads "identity" in any case between white space |
| Proxy.CacheStoreSafety | crates/gateway/src/response_cache_integration.rs:51-109 | in every callback sequence at most one entry is stored, and only for an allowed, not bypassed GET without authorization or cookies under a caching policy, with a 2xx, Vary-free, identity-encoded, unmasked response |
| Proxy.InspectionIgnoresChunking | crates/gateway/src/proxy.rs:486-509 | for every split of a body the engine inspects exactly once its first 64 KiB, and never an empty body |
| Proxy.CaptureIgnoresChunking | crates/gateway/src/response_cache_integration.rs:82-109 | for every split the stored body is the first 2 MiB; it is the whole body if and only if it fits |
| Proxy.StoredExactly | crates/gateway/src/proxy.rs:444-628 | exactly which exchanges are stored and as what: a cacheable miss whose request body, if any, the engine let pass, with a capturable, unmasked header; once, under its key, with that header and the first 2 MiB of the response body, for every split of both bodies |
| Proxy.BodyCommutes | crates/gateway/src/proxy.rs:479-510 | wherever the request body chunks fall between the other callbacks, the response side is the same as without them |
| BodyMask.ScanAndReplace | crates/gateway/src/filters/response_body_mask_filter.rs:135-166 | the cursor loop equals its tail-recursive specification |
| BodyMask.ScanFromStart | crates/gateway/src/filters/response_body_mask_filter.rs:135-166 | which in turn is the scan on suffixes used in the proofs |
| BodyMask.BodyMasker.Apply | crates/gateway/src/filters/response_body_mask_filter.rs:87-124 | one chunk: pass-through past the ceiling, otherwise scan of tail and chunk, with no tail kept at the end of the stream |
| BodyMask.FindIsLeftmost | crates/gateway/src/filters/response_body_mask_filter.rs:140 | a search returns the leftmost match, or none if and only if nothing matches |
| BodyMask.FirstPatternWins | crates/gateway/src/filters/response_body_mask_filter.rs:135-166 | of several patterns at one place the first in the list is taken |
| BodyMask.KeepTailIs | crates/gateway/src/filters/response_body_mask_filter.rs:65-67 | the tail is one byte shorter than the longest pattern, at most 1024 bytes, and empty if no pattern is longer than one byte |
| BodyMask.ScanIsFinal | crates/gateway/src/filters/response_body_mask_filter.rs:127-166 | what a scan emits never has to be changed: masking buffer and any continuation is the output followed by masking tail and continuation |
| BodyMask.LastScan | crates/gateway/src/filters/response_body_mask_filter.rs:108 | at the end of the stream the scan is the replacement on the whole buffer |
| BodyMask.ChunksDoNotMatter | crates/gateway/src/filters/response_body_mask_filter.rs:87-166 | for settled patterns the client receives the masked body, however it was split |
| BodyMask.ChunkingTheorem | crates/gateway/src/filters/response_body_mask_filter.rs:127-166 | for every list of patterns and every ceiling, chunking is invisible for all bodies and splits if and only if the patterns are settled: cut anywhere, a pattern is neither flushed without a match at its start nor replaced by a match that the whole pattern would not have |
| BodyMask.ShortPatterns | crates/gateway/src/filters/response_body_mask_filter.rs:65-67 | for patterns of up to 1025 bytes that means: no proper prefix of a pattern hides a match behind its first byte |
| BodyMask.SinglePattern | crates/gateway/src/filters/response_body_mask_filter.rs:19-22 | for one pattern chunking is invisible if and only if it has at most 1025 bytes |
| BodyMask.PastCeiling | crates/gateway/src/filters/response_body_mask_filter.rs:91-101 | past the ceiling only the remaining chunks are sent, never the tail |
| BodyMask.CeilingTruncates | crates/gateway/src/filters/response_body_mask_filter.rs:91-101 | a body without a match arrives unchanged if and only if the ceiling is not reached before the last chunk, or is zero, or no pattern is longer than one byte |
| BodyMask.CeilingReached | crates/gateway/src/filters/response_body_mask_filter.rs:87-124 | any body whose ceiling is reached in mid-body arrives as what was sent up to there, then the rest unmasked; for settled patterns the masked tail is missing, and with a mask that is not empty nothing is missing if and only if no pattern is longer than one byte |
| Inspection.WafEngine.InspectRequest | crates/waf-engine/src/engine.rs:487-744 | lists first, then the detectors; decision, detector states and side effects equal the specification |
| Inspection.WafEngine.RunDetectors | crates/waf-engine/src/engine.rs:532-744 | the detector loop stops at the first detection and performs its side effects |
| Inspection.RowsDecide | crates/waf-engine/src/engine.rs:498-530 | after a reload the database rows decide: IP whitelist over IP blacklist over URL whitelist over URL blacklist, each by rows of the host or "*"; without such a row the lists have no say |
| Inspection.ListsDecideFirst | crates/waf-engine/src/engine.rs:487-530 | without the guard everything passes untouched; what the lists decide stands, no detector runs, and a blacklist hit is logged, reported and audited as far as that is configured |
| Inspection.StagesInOrder | crates/waf-engine/src/engine.rs:532-744 | every detector that is configured runs, once, in the order of the code |
| Inspection.FirstDetectorDecides | crates/waf-engine/src/engine.rs:532-744 | the first detector that fires decides: blocked with status 403 and the block page, or let through in log-only mode, with its detection; a security event, a community signal and an audit event go out except where the code leaves them out; detectors up to it have advanced, those behind it are untouched |
| Inspection.PassesWhenQuiet | crates/waf-engine/src/engine.rs:532-744 | if none fires the request is allowed without side effects |
| Inspection.LogOnlySimulates | crates/waf-engine/src/engine.rs:487-744 | with log-only on, the same detection at the same stage with the same states, and only Block becomes LogOnly; list decisions are the same in both |
| Inspection.OneRecordPerDetection | crates/waf-engine/src/engine.rs:487-744 | exactly one storage record if a blacklist or detector fired, none otherwise |
| ReloadInspection.StandingStill | crates/waf-engine/src/engine.rs:498-530 | lookups all made at one moment decide as the list checks of the pipeline do on the lists of that moment |
| ReloadInspection.DecidedThroughout | crates/waf-engine/src/checker.rs:80-83 | one list decides a request at every moment of a reload of all four, for every order of the swaps and timing of its eight lookups, if and only if its match is covered and no list before it matches in the old or the new rules; so an address blocked in the same bucket before and after, and whitelisted in neither, stays blocked |
| ReloadInspection.UndecidedThroughout | crates/waf-engine/src/checker.rs:80-83 | the lists have no say at any moment if and only if no list matches, old or new |
| ReloadInspection.OutcomeStandingStill | crates/waf-engine/src/engine.rs:498-530 | with all lookups at one moment the outcome below is that of the pipeline's list checks |
| ReloadInspection.DeniedThroughout | crates/waf-engine/src/checker.rs:80-83 | a request is denied at every moment of a reload, by whichever list, if and only if the IP whitelist never matches and the IP blacklist covers it, or the URL blacklist covers it and the URL whitelist never matches |
| ReloadInspection.AllowedThroughout | crates/waf-engine/src/checker.rs:80-83 | it is allowed by the lists throughout if and only if the IP whitelist covers it, or the URL whitelist does and the IP blacklist never matches |
| WsAdmission.RunIsCounted | crates/waf-api/src/websocket.rs:119-131 | in every interleaving the counter is the number of admitted, lost and still rejecting handlers, modulo 2^32 |
| WsAdmission.NeverOverLimit | crates/waf-api/src/websocket.rs:119-131 | with at most 2^32 handlers in flight at most 50 connections are admitted |
| WsAdmission.LimitTheorem | crates/waf-api/src/websocket.rs:119-131 | the limit holds in all runs if and only if at most 2^32 handlers can be in flight |
| WsAdmission.AdmittedIff | crates/waf-api/src/websocket.rs:119-127 | a request is admitted if and only if fewer than 50 handlers are in flight, including those being turned away |
| WsAdmission.LostSlotsStayLost | crates/waf-api/src/websocket.rs:131-175 | slots of upgrades that never complete are not given back: after 50 of them nobody is admitted any more |
| WsAdmission.QuietCounter | crates/waf-api/src/websocket.rs:175 | once every handler is done the counter is the number of lost slots |
| HostRouter.HostRouter.Register | crates/gateway/src/router.rs:24-33 | the table stays that of the history, extended by the registration |
| HostRouter.HostRouter.Unregister | crates/gateway/src/router.rs:36-42 | the table stays that of the history, extended by the removal |
| HostRouter.HostRouter.Resolve | crates/gateway/src/router.rs:45-61 | exact key first, then the text before the first colon |
| HostRouter.KeyInjective | crates/gateway/src/router.rs:26 | keys agree if and only if host and port do, for all host names: the last colon separates them |
| HostRouter.DecimalReads | crates/gateway/src/router.rs:26 | the port is written in decimal without leading zeros |
| HostRouter.ResolvesByLatest | crates/gateway/src/router.rs:24-61 | for every history and all host names: the last operation on the header's own text decides, else the last one on the text before its first colon |
| HostRouter.ResolvesByHistory | crates/gateway/src/router.rs:24-61 | for every history over colon-free hosts: the live configuration of exactly the named port if there is one, else what the last default-port operation on the host left |
| HostRouter.NeverAnotherHost | crates/gateway/src/router.rs:45-61 | after every history, no header resolves to a configuration of another host than the text before its first colon, if and only if no live entry has a colon in its host name |
| HostRouter.ColonsClash | crates/gateway/src/router.rs:29-32 | one such way: a default-port host whose name is another host's key takes over that key |
| HostRouter.OtherDefaultPortLost | crates/gateway/src/router.rs:39-41 | after every history: registering port 80 and removing port 443 takes the bare name away, although port 80 is live |
| LogsQuery.TestPipe | crates/waf-api/src/logs.rs:109-112 | the trimmed-prefix test at one pipe holds if and only if the word stands there after white space, as a whole word |
| LogsQuery.FindPiped | crates/waf-api/src/logs.rs:107-119 | the suffix loop ends and finds the word if and only if it stands behind some pipe |
| LogsQuery.FirstPiped | crates/waf-api/src/logs.rs:104-121 | the error names the first forbidden word of the list that occurs |
| LogsQuery.EnsureReadOnly | crates/waf-api/src/logs.rs:102-122 | a query is accepted if and only if no forbidden word, in any ASCII case, stands behind a `\|` with only white space between, as a whole word |
| CookieHeader.ParseCookieHeader | crates/waf-common/src/types.rs:62-79 | the loop over the pieces equals the specification |
| CookieHeader.ParseIsGood | crates/waf-common/src/types.rs:66-76 | for every header, names are non-empty, trimmed and free of `;` and `=`, values trimmed and free of `;` |
| CookieHeader.LastOneWins | crates/waf-common/src/types.rs:76 | a name is present if and only if some piece holds it, with the value of the last one |
| CookieHeader.RoundTrip | crates/waf-common/src/types.rs:62-79 | parsing a printed list of good cookies gives them back, the last of equal names |
| CookieHeader.SurvivesIffGood | crates/waf-common/src/types.rs:62-79 | a single cookie survives printing and parsing if and only if its name and value are good |
| CookieHeader.Normalises | crates/waf-common/src/types.rs:62-79 | for every header, printing the parsed cookies in any order and parsing again gives the same map |
| OptionSplitter.SplitOptions | rules/tools/modsec2yaml.py:291-316 | the character loop equals the recursive splitter |
| OptionSplitter.ScanIsClean | rules/tools/modsec2yaml.py:299-313 | no part contains a comma outside quotes |
| OptionSplitter.SplitRejoins | rules/tools/modsec2yaml.py:291-316 | for every input the parts rejoin to it, up to one trailing unquoted comma |
| OptionSplitter.EmptyLastIsLost | rules/tools/modsec2yaml.py:314-315 | a list that ends in an empty part does not come back |
| OptionSplitter.RoundTrip | rules/tools/modsec2yaml.py:291-316 | a list of parts survives joining and splitting if and only if its parts are quote-balanced (the last may be open), free of outer commas, and the last is not empty |
| OptionSplitter.PlainRoundTrip | rules/tools/modsec2yaml.py:291-316 | text without quotes is split at every comma |
| OptionSplitter.QuotedStays | rules/tools/modsec2yaml.py:299-313 | text between two equal quotes of either kind stays in one part, with its commas and the quotes of the other kind |

## Left out

- Election.ElectionManager.IncrementTermAndVoteForSelf: 64-bit overflow of the term is not modelled, and neither are nodes that restart and forget their vote.
- Election.ElectionManager.HandleVoteRequest: one step in the cluster machine; interleaved operations of one node are the subject of ElectionRace.
- Election.RunKeepsInv: the single-node path is a step open to every node that is not Main, because the peers it looks at twice can disappear between; heartbeats and failure detection only decide when a node stands and are left open.
- ElectionDoubles.DoublesNeeded: of the races that RaceWindow lists, two requests of one newer term are an event of the cluster machine; the others, which need a vote already held or an own start at the same time, are not.
- RateLimiter.ApiRateLimiter.Check: tokens are exact reals instead of 64-bit floats, and the clock does not run backwards between calls (the code reads it before taking the bucket's lock).
- RateLimiter.TtlEvictionIsInvisible: speaks of addresses the size cap did not evict; for the others AdmissionBound counts the evictions.
- LoadBalancer.Balancer.PickWeighted: arithmetic wraps as in the release profile; a debug build would stop on overflow.
- LoadBalancer.Balancer.NextBackend: the address hash is a parameter; the list of backends is fixed during a pick, as the code works on a copy, and editing it is not modelled.
- RuleSets.LoadIps: parsing of addresses and CIDR text is a parameter; containment in a network is modelled.
- RuleSync.RuleRegistry.ApplyFullSnapshot: JSON and lz4 are not modelled; a snapshot is the list it encodes, and which rules a worker can deserialize is a parameter.
- RuleSync.RuleRegistry.Clear: the time of loading is not kept.
- RuleRuns.WorkersConverge: one worker, since workers do not interact.
- ClusterForward.PendingForwards.Register: ids are unique, as the caller is required to make them.
- Proxy.GatewayCtx.RequestFilter: the access lists and health route in front, the filter chains on headers and error pages are one input each.
- BodyMask.ScanAndReplace: patterns are non-empty literals; general regular expressions, invalid patterns that are dropped, and the log flag are not modelled.
- Inspection.WafEngine.RunDetectors: detectors are arbitrary state transformers, so what each recognises is not modelled; nor are the texts of decisions and the GeoIP enrichment.
- HostRouter.ResolvesByHistory: hosts without a colon, where keys and bare names cannot meet; ResolvesByLatest is the statement for all hosts.
- WsAdmission.RunIsCounted: token checks and the event loop of an open connection are not modelled.
- LogsQuery.TestPipe: words made of letters, digits and underscores, as the source's list is.
- Detector patterns, tier classification, TLS, plugins, storage, the admin panel and command line tools are not part of this model.
