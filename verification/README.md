# Verified model of the NCN core console

This project models the decision-making parts of the core console and its node agent and proves what
they guarantee over whole runs and interleavings:

- the **alert engine**: a tick over nodes and rules that feeds rolling baselines, evaluates rules,
  debounces on both sides, opens, escalates and closes incidents, decides what goes to Telegram,
  coalesces a tick's first fires into cards, and shares its maps with asynchronous triages,
  acknowledgements and evictions;
- the **rule store** whose edits feed the engine, and the compiler between them;
- the **tool-calling agent loop** and the assembler of streamed model answers;
- the **capacity forecast** (least squares, percentiles, projection to saturation);
- the **wire** between scraper and agent (probe header, authorization header) and the agent's nonce cache;
- the **dual write** of config documents to a file and a database, with recovery at boot.

How it is laid out: code that changes state in place is a class or a method with loops
(`AlertEngine.AlertEngine`, `RuleStore.AlertRuleStore`, `Anomaly.EwmaStat`, `Forecast.CapStore`,
`StreamAssembly.StreamState`, `NonceCache.Cache`, `DualWrite.ConfigDocs`, and the methods of
`AgentLoop`, `ProbeWire` and `AuthWire`). Each is proved to compute a function of its old state, and the
lemmas are about those functions, over arbitrary sequences of steps. `AlertSystem` puts the engine among
the goroutines that run beside it: a step is a tick, a triage posting its card, that triage marking its
keys, an acknowledgement, an eviction or a notifier change, in any order. A triage's posting and marking
are separate steps because the program sends first and takes the lock afterwards.

What the functions mean is said a second time, apart from them, in the system's own constants and field
names: `AlertGates`, `AlertCards`, `AlertContent` and `AlertAck` for notifications and incidents,
`StoredRules` and `StoreEdits` for rules, `AgentAnswers` for transcripts, `ForecastMeaning` for the
forecast, and the last lemmas of `StreamAssembly`, `AuthWire`, `ProbeWire`, `NonceCache` and `DualWrite`.

Findings, each stated as a lemma with its exact condition or a concrete input:

1. A late triage mark reaches a later incident of the same key, so a "resolved" nudge can go out for an
   incident that never had a card, against the comment at `alerts.go:668-671`. A mark is harmless for a
   key, in that no mark-free continuation announces an uncovered close, iff it meets no active incident or
   one whose own card is already out (`AlertLateMark.MarkHarmlessIff`). After any other mark the incident
   may still close unannounced or get its card later, so announced closes alone can stay covered. As a
   count per key the pairing always holds.
2. The fixed-threshold compile branch drops `GroupKey`, so two rules declaring the same key share a card
   exactly when both are baseline rules, or when one is and the key spells the fixed rule's own fallback
   key "rule:id"; among the seeded rules it never happens outside a storm.
3. A baseline rule judges a sample after the baseline has absorbed it. It can fire against a varying
   baseline for some history exactly when sigma^2 <= (window-1)/2; validation also admits rules above that.
4. When the model fails after an approved write has run, the caller keeps the transcript without the
   answer, and approving again runs the write again; `AgentLostTurn.ALostTurn` is such a chain of requests.
   A turn is harmless, in that no continuation without lost turns runs a call twice, iff it is not lost in
   this way: an admin's approval of an approvable call whose resumed loop fails.
5. Eviction leaves the dropped incident's history entry open for good: an entry hangs, open with no incident
   behind it, iff its incident was evicted. The key's debounce counters are kept: the next incident opens
   early when ticks match right away, and closes early when it has not matched again after opening.
6. A deleted rule's active alert is never visited again, so it stays active.
7. Inhibition depends on rule order: an earlier rule's outcome of the same tick counts, a later rule's does not.
8. A boot after a failed push loads the older database document if the database still answers.
9. A pair of timestamp and nonce, once accepted, can pass again in order iff a flood eviction gives up this
   very nonce while its window is open (`NonceCache.NeverReplayableIff`); otherwise it passes again only in
   a request whose two clock readings straddle a sweep (`NonceCache.ProtectedPassesStraddled`). Both happen.

## Model

| member | source | states |
|---|---|---|
| AlertEngine.AlertEngine.TickOnce | core-console/backend/alerts.go:512-690 | the nested loops over the shared maps, baselines and ring compute the tick specification: feed, read, one step per key in visiting order, then the flush of that tick's first fires |
| AlertEngine.AlertEngine.FeedBaselines | core-console/backend/alerts.go:534-549 | every watched series the node reports absorbs exactly one sample; a new series starts empty |
| AlertEngine.AlertEngine.ReadRule | core-console/backend/alerts.go:550-560 | a rule that is disabled, muted or out of scope reads as clear with no message; otherwise the evaluator's verdict on the baselines as they stand after the feed |
| AlertEngine.AlertEngine.VisitKey | core-console/backend/alerts.go:550-688 | one (node, rule) pair has the effect of one key step on every engine field, and returns the first fire it claimed |
| AlertEngine.AlertEngine.Debounce | core-console/backend/alerts.go:561-597 | matching ticks are counted up to the requirement while inactive, clear ticks while active, and the counter of the other side is dropped |
| AlertEngine.AlertEngine.Activate | core-console/backend/alerts.go:600-629 | a fresh incident takes the next number, is active and pushed on the ring, and sends nothing on its first tick although the notification decision is called |
| AlertEngine.AlertEngine.Sustain | core-console/backend/alerts.go:631-663 | sample, tick counter, one-shot escalation and ring update come before the notification decision; a resolve-hold keeps the last real message |
| AlertEngine.AlertEngine.Resolve | core-console/backend/alerts.go:665-685 | the ring entry is closed, the nudge goes out iff a notifier is set and the incident was posted, and the key's counters go; the cooldown stays |
| AlertEngine.AlertEngine.MaybeFireTG | core-console/backend/alerts.go:711-764 | the gates in order; a first fire is claimed and returned, a repeat is sent at once, both restart the cooldown, anything else changes nothing |
| AlertEngine.AlertEngine.GroupFires | core-console/backend/alerts.go:789-801 | buckets by correlation key: first-appearance order, members in input order, no empty bucket |
| AlertEngine.AlertEngine.FlushFires | core-console/backend/alerts.go:776-809 | a storm is one batch, otherwise one dispatch per correlation key in order |
| AlertEngine.AlertEngine.DispatchBatch | core-console/backend/alerts.go:833-863 | warn or crit goes to an asynchronous triage, anything lower is a card at once with its still-active keys marked posted; a group carries its maximum severity |
| AlertEngine.AlertEngine.MarkKeysPosted | core-console/backend/alerts.go:867-875 | whatever incident is active under the keys now is marked posted; absent keys are ignored |
| AlertPairing.PostBalance | core-console/backend/alerts.go:914-917 | a triage's card counts once for exactly the keys of its batch and marks nothing, so it pays for one announced close of each |
| AlertEngine.AlertEngine.Evict | core-console/backend/alerts.go:1021-1031 | the node's incidents and cooldowns go; counters, ring and everything else stay |
| AlertEngine.AlertEngine.PushHistoryEntry | core-console/backend/alerts.go:1033-1039 | the newest 200 entries are kept |
| AlertEngine.AlertEngine.UpdateHistoryByID | core-console/backend/alerts.go:1057-1065 | the first entry with the incident's number is replaced, without one nothing changes |
| AlertEngine.AlertEngine.AckByKey | core-console/backend/alerts.go:1178-1199 | acknowledging marks the key's active incident and its ring entry, and reports whether there was one |
| AlertEngine.AlertEngine.AckByID | core-console/backend/alerts.go:1181-1199 | acknowledging by number hits an active incident carrying it, and fails only if none does |
| AlertEngine.AlertEngine.Reload | core-console/backend/alerts.go:309-437 | the store's rules are compiled and swapped in with the distinct series they need; baselines survive unless no series is left; no incident or counter is touched |
| AlertPairing.ResolvesArePaired | core-console/backend/alerts.go:665-685 | in every interleaving and for every key, resolved nudges, plus one for a posted active incident, plus posted triages still to mark, never exceed the fire cards covering that key |
| AlertLateMark.StepIsExact | core-console/backend/alerts.go:867-875 | from a state where a key's announced closes and posted incident had their own cards, any step whose tick meets the key at most once keeps that iff it is not a mark of the key meeting an active incident without its own card |
| AlertLateMark.OwnIffMarksCovered | core-console/backend/alerts.go:668-671 | over any run whose ticks meet the key at most once: after every prefix all announced closes were opened and a posted active incident had its own card, iff every mark of the key was covered when it came |
| AlertLateMark.SafeIffOwnCard | core-console/backend/alerts.go:665-682 | from any reachable state whose closes were opened, every mark-free continuation with nondecreasing ticks from any given time on announces only covered closes of the key iff its posted incident, if any, had its own card |
| AlertLateMark.MarkHarmlessIff | core-console/backend/alerts.go:969-976 | a mark is harmless for the key, whatever follows short of another mark, iff it meets no active incident there or one that already had its own card |
| AlertLateMark.FittingMarksPairPerIncident | core-console/backend/alerts.go:867-875 | a sufficient case: when the marks of a key meet the incident they were started for, or none, and ticks meet the key at most once, all its marks are covered and its closes opened |
| AlertLateMark.LateMarkAnnouncesWithoutCard | core-console/backend/alerts.go:969-976 | a concrete run in which a close is announced for an incident no card ever named |
| AlertClaims.EveryClaimIsDispatched | core-console/backend/alerts.go:736-746 | after any run each incident was dispatched in a single, group or storm batch exactly as often as it was claimed, before its escalation and after it |
| AlertClaims.TickAccounted | core-console/backend/alerts.go:512-690 | one tick dispatches exactly the claims it makes, none carried over |
| AlertClaims.AtMostTwoClaims | core-console/backend/alerts.go:645-658 | in any run every incident, active, closed or evicted since, is dispatched at most once before its escalation and at most once after, and not after it while it has not escalated |
| AlertDispatch.BatchesPartition | core-console/backend/alerts.go:776-809 | the batches together hold every fire exactly once, and none is empty |
| AlertDispatch.BatchesByKey | core-console/backend/alerts.go:783-809 | below the storm threshold each batch is the input filtered by its own key, and the keys are distinct |
| AlertDispatch.OrderByFirst | core-console/backend/alerts.go:789-801 | batches come in the order their keys first appear, each key once |
| AlertCards.TickDispatchesRightly | core-console/backend/alerts.go:833-863 | in every reachable state: whatever a tick triages or posts at once goes out with a severity at least every member's and some member's own, or info for a group of lesser ones; it is triaged iff some member is warn or crit; after the tick an incident is marked posted iff it was or a card posted at once names its key |
| AlertCards.TogetherIff | core-console/backend/alerts.go:776-809 | two fires of a tick share a batch iff the tick has six or more, or their group keys agree, a rule without one standing for "rule:" and its id |
| AlertCooldown.SendsAreSpaced | core-console/backend/alerts.go:711-764 | with a nondecreasing clock and no eviction of the key's node, a first nudge is claimed at least 30 minutes and a repeat sent at least max(60 s, RepeatSecs) after any earlier claim or repeat of the key; when a triage posts its claimed card is not part of it, so two cards can be closer |
| AlertCooldown.RepeatsWerePosted | core-console/backend/alerts.go:751-757 | a tick repeats only incidents that were active, posted and unacknowledged when it began |
| AlertCooldown.MutedStaysQuiet | core-console/backend/alerts.go:1119-1131 | while a root cause is active on the node a dependent's visit sends neither first nudge nor repeat |
| AlertGates.MutedMeans | core-console/backend/alerts.go:1105-1131 | a key is muted iff node-unreachable is active on its node and its rule is one of the nine dependents, or bird-unreachable is and its rule is bgp-peer-down |
| AlertGates.SendsPassEveryGate | core-console/backend/alerts.go:711-764 | over any tick meeting no key twice, every claim and repeat names the key's still active incident, and it and every dispatched fire has the rule's toggle on, the group not suppressed, the severity at its floor (info when unset), two ticks of age and the notifier on |
| AlertGates.ClaimedExactly | core-console/backend/alerts.go:711-746 | after a tick an incident that kept firing carries a claim iff it did before and did not just escalate, or all those gates are open, no root cause is active at its turn, and the key sent nothing for 1800 seconds |
| AlertProgress.EscalatesExactly | core-console/backend/alerts.go:645-658 | over a whole tick an incident's severity changes iff it is overdue, unacknowledged, below crit and not yet escalated; then it is crit for good, and its number, start and acknowledgement stay |
| AlertGates.EligibleIsClaimed | core-console/backend/alerts.go:711-742 | an incident that keeps firing with all those gates open and no root cause at its turn is claimed by the end of the tick unless its key sent within the last 1800 seconds |
| AlertGates.RepeatedExactly | core-console/backend/alerts.go:748-764 | a tick repeats an incident that keeps firing iff its claim stands, it was posted and not acknowledged, its rule repeats, all those gates are open, no root cause is active at its turn, and the last send is RepeatSecs and 60 seconds ago |
| AlertAck.AckTakesHold | core-console/backend/alerts.go:1166-1199 | an acknowledgement marks the key's incident with who did it and changes nothing else of it or of any other |
| AlertAck.AckReachesHistory | core-console/backend/alerts.go:1197 | in every reachable state the incident's ring entry is acknowledged with it |
| AlertAck.AckedStaysQuiet | core-console/backend/alerts.go:645-648 | whatever runs afterwards, an acknowledged incident stays acknowledged, keeps its severity and is never repeated |
| AlertProgress.EscalatedStaysCrit | core-console/backend/alerts.go:645-658 | in every interleaving an escalated active incident is crit |
| AlertContent.OpenedIncident | core-console/backend/alerts.go:600-629 | an incident opened by a tick carries its node, its rule's id, severity and six policy fields, its message and second as only sample, age one, and no acknowledgement, claim or escalation |
| AlertContent.SustainedContent | core-console/backend/alerts.go:631-660 | a tick that keeps it firing makes it one tick older, refreshes the message iff the condition matches, adds a sample iff the message changed and one for an escalation, keeps the newest 60, and keeps policy and identity |
| AlertContent.ClosingVisit | core-console/backend/alerts.go:665-685 | closing writes the second and a last sample into the incident's ring entry and no other, announces iff a notifier is set and it was posted, drops the counters and keeps the cooldown |
| AlertContent.RingHoldsNewest | core-console/backend/alerts.go:1033-1039 | from an empty start the ring holds exactly the newest 200 incidents by number, without a gap, in every interleaving |
| AlertHistory.HistoryMirrorsActive | core-console/backend/alerts.go:600-686 | in every interleaving from an empty start: at most 200 entries, strictly increasing numbers, every active incident in the ring has an identical record, any other entry is closed or was evicted, trails hold at most 60 samples |
| AlertHistory.HangsIffEvicted | core-console/backend/alerts.go:1021-1065 | in every interleaving a ring entry is open with no active incident behind it iff its incident was evicted |
| AlertHistory.NoEvictionNothingHangs | core-console/backend/alerts.go:1057-1065 | without evictions a ring entry is open iff its incident is active |
| AlertHistory.EvictionLeavesEntryOpen | core-console/backend/alerts.go:1021-1031 | after an eviction and any steps whatever, as long as the dropped incident's entry is in the ring it is open and no active incident carries its number |
| AlertDebounce.KeyInjective | core-console/backend/alerts.go:551 | the key text determines node and rule when rule ids hold no colon, whatever the node names hold |
| AlertDebounce.CleanFleetDistinctKeys | core-console/backend/alerts.go:530-551 | one tick never meets a key twice |
| AlertDebounce.KeysAreIndependent | core-console/backend/alerts.go:530-688 | the walk leaves each key as one step from its own state at the start of the tick would; only the incident number and the inhibition come from the walk |
| AlertDebounce.LivesAreIndependent | core-console/backend/alerts.go:561-597 | a key's counters and activity depend on nothing but its own counters, settings and condition |
| AlertDebounce.InhibitorSeen | core-console/backend/alerts.go:1119-1131 | at its turn a rule sees an earlier pair's outcome of this tick and a later pair's of the tick before |
| AlertDebounce.RecordIgnoresNotification | core-console/backend/alerts.go:1105-1115 | inhibition and the notifier never change what the history shows |
| AlertDebounce.RunLife | core-console/backend/alerts.go:561-597 | over any run without eviction of its node a key's counters and activity are the debounce of the conditions reported for it, whatever else interleaves |
| AlertDebounce.OpensAndClosesExactly | core-console/backend/alerts.go:561-685 | a key opens iff its condition held on the last max(1, ceil(SustainSecs/30)) ticks and closes iff it was clear on the last max(1, ceil(ResolveSecs/30)) |
| AlertDebounce.InapplicableResolves | core-console/backend/alerts.go:132-147 | while a key is met only by a disabled, muted or out-of-scope rule, its active incident stays active iff its clear ticks, those already counted and those since, number less than max(1, ceil(ResolveSecs/30)) |
| AlertLeftovers.DeletedRuleHangsOn | core-console/backend/alerts.go:550-552 | over any steps in which no tick meets the key and its node is not evicted, its active incident stays active and the same, acknowledgement and posted mark aside |
| AlertLeftovers.OpensFromAnyState | core-console/backend/alerts.go:561-597 | from any reachable state, an inactive key opens on exactly the tick that completes its streak of matches, a pending count left over counting until a clear tick comes; a clearing count left over is still there when it opens |
| AlertLeftovers.ClosesFromAnyState | core-console/backend/alerts.go:561-597 | from any reachable state, an active key closes on exactly the tick that completes its clear streak, a clearing count left over counting until a matching tick comes |
| AlertLeftovers.EvictedReopens | core-console/backend/alerts.go:1021-1031 | after an eviction the key opens again by that rule with the evicted incident's own pending count, and carries that incident's clearing count |
| AlertLeftovers.EvictionKeepsCounts | core-console/backend/alerts.go:1021-1031 | an eviction drops exactly the node's incidents, by name or key prefix, with their cooldowns, and leaves counters, other incidents and cooldowns, and history |
| AlertDebounce.ReqTicksPositive | core-console/backend/alerts.go:566-573 | the requirement is 1 tick for no seconds and else the seconds over 30, rounded up |
| AlertScan.BaselineIsBatch | core-console/backend/alerts.go:534-549 | after any reloads and passes a baseline is the weighted mean and variance of exactly the samples its own node reported for its own series while it was watched |
| StoredRules.FixedRuleReading | core-console/backend/alertmetrics.go:359-375 | a stored rule that keeps no baseline, compiled and scanned, fires on a node iff the node reports its metric and the value stands to the stored threshold as the stored operator says, all six spelled out |
| StoredRules.BaselineRuleReading | core-console/backend/alertanomaly.go:66-112 | a stored rule with a sigma fires in any run iff the metric is reported, max(5, window/4) samples were seen (window 120 when under 4), and the sample is off the weighted mean by minDelta, on the stored operator's side, and by sigma deviations unless the baseline is flat |
| StoredRules.StoredRuleVisit | core-console/backend/alerts.go:388-409 | its condition in a tick is its reading while rule and group are enabled, both mutes are over and the group names nothing, the node or its region; severity, toggle and timers come from the rule (sustain from the group when zero), kill switch and floor from the group, the group key only for baseline rules |
| StoredRules.CpuHighExample | core-console/backend/alertrules.go:573-621 | the seeded cpu-high rule fires iff the reported CPU is above 85 |
| StoredRules.ReadingText | core-console/backend/alerts.go:409-421 | a firing reading carries the text its own rule prints for the node, a clear one none |
| AlertScan.AnomalyReading | core-console/backend/alerts.go:354-373 | in any run a baseline rule fires on a node iff the node reports the metric, enough samples were seen, and the sample stands out of the statistics of all samples including itself |
| AlertScan.AboveCeilingOnlyFlat | core-console/backend/alerts.go:534-549 | above sigma^2 = (window-1)/2 a rule in the running engine fires only while the variance is flat |
| AlertScan.FedAt | core-console/backend/alerts.go:534-549 | feeding the distinct series in any order adds one observation to each watched and reported series of that node and touches no other |
| AlertScan.KeyTextInjective | core-console/backend/alerts.go:543 | the text node, metric and window joined with bars determines all three when metrics hold no bar, whatever the node names hold |
| AlertScan.SeriesDistinct | core-console/backend/alerts.go:334-339 | the watched series are distinct and contain the series of every compiled baseline rule |
| RuleCompile.ReloadRules | core-console/backend/alerts.go:316-424 | the loop compiles, in order, every rule whose group and metric exist, against the last group with that id |
| RuleCompile.EveryRuleCompiles | core-console/backend/alerts.go:322-330 | with valid rules in existing groups there is one evaluator per stored rule, in order, none skipped |
| RuleCompile.ReachableStoresCompile | core-console/backend/alertrules.go:336-566 | after any edits from the seed, under any metric whitelist holding the seed's metrics, every stored rule is compiled and no tick over distinct nodes meets a key twice |
| RuleCompile.CompiledRulesAreClean | core-console/backend/alertrules.go:130-132 | a sound store's rules give distinct keys on any distinct nodes |
| RuleCompile.CorrelateIff | core-console/backend/alerts.go:393-422 | fires of two rules declaring the same non-empty GroupKey share a card outside a storm iff both rules compile to baseline rules, or one does and the key equals "rule:" followed by the other's id |
| RuleCompile.SeedNeverCorrelates | core-console/backend/alertrules.go:610-618 | no two different seeded rules ever share a card outside a storm, although keys are declared for it |
| RuleStore.AlertRuleStore.AddRule | core-console/backend/alertrules.go:336-357 | a valid rule with a new id in an existing group is appended as non-builtin; anything else is refused and changes nothing |
| RuleStore.AlertRuleStore.UpdateRule | core-console/backend/alertrules.go:381-453 | the named fields of exactly that rule change, after validation of the result; refusals change nothing |
| RuleStore.AlertRuleStore.RemoveRule | core-console/backend/alertrules.go:455-468 | only an existing rule that is not builtin goes |
| RuleStore.AlertRuleStore.AddGroup | core-console/backend/alertrules.go:470-490 | a valid group with a new id is appended, or nothing changes |
| RuleStore.AlertRuleStore.UpdateGroup | core-console/backend/alertrules.go:503-546 | the named fields of exactly that group change after validation, or nothing does |
| RuleStore.AlertRuleStore.RemoveGroup | core-console/backend/alertrules.go:548-566 | a group goes only if it exists, is not the default group and no rule points at it |
| RuleStore.EditsKeepSound | core-console/backend/alertrules.go:336-566 | under any metric whitelist holding the seed's metrics, after any sequence of edits ids are unique, every rule is valid and in an existing group, the default group is present and every seeded builtin rule is still there |
| RuleStore.RemovalIsExact | core-console/backend/alertrules.go:455-468 | an accepted removal leaves every other rule in place and order, and the id is gone |
| StoreEdits.AddingARule | core-console/backend/alertrules.go:274-357 | a rule is appended, not builtin and in the default group unless it names one, iff it is within every limit of the API, new and its group exists; else nothing changes |
| StoreEdits.PatchingARule | core-console/backend/alertrules.go:381-453 | exactly that rule changes, each field to the patch's value or its old one, with id, builtin flag and group key kept, iff the result is within the limits and a named group exists; else nothing changes |
| StoreEdits.AddingAGroup | core-console/backend/alertrules.go:470-490 | a group is appended iff its id, name and limits are good and it is new; else nothing changes |
| StoreEdits.PatchingAGroup | core-console/backend/alertrules.go:503-546 | exactly that group changes, each field to the patch's value or its old one, iff the result is within the limits; else nothing changes |
| StoreEdits.RemovingAGroup | core-console/backend/alertrules.go:548-566 | a group goes, the others keeping their order, iff it is not the default one and no rule is in it |
| StoreEdits.EveryStoredRuleIsStorable | core-console/backend/alertrules.go:274-318 | after any edits from the seed every stored rule is within every limit and in a stored group |
| RuleStore.SeedIsSound | core-console/backend/alertrules.go:573-621 | the seeded groups and rules satisfy every store invariant |
| Ewma.RecurrenceIsBatch | core-console/backend/alertanomaly.go:35-45 | folding samples in one by one yields the weighted mean and weighted variance of the whole sequence |
| Ewma.WeightsSumToOne | core-console/backend/alertanomaly.go:27-45 | the geometric weights of any number of samples sum to one |
| Ewma.BaselineBounds | core-console/backend/alertanomaly.go:35-45 | the mean stays within the samples and the variance between 0 and ((max-min)/2)^2 |
| Ewma.ParallelAxis | core-console/backend/alertanomaly.go:40-43 | weighted squared distance to any centre is the variance plus the squared offset of that centre |
| Anomaly.EwmaStat.ObserveSample | core-console/backend/alertanomaly.go:35-45 | the in-place update leaves the batch statistics of all samples seen |
| Anomaly.EwmaStat.Stats | core-console/backend/alertanomaly.go:48-53 | ready iff enough samples were seen; then the batch mean and the root of the batch variance, otherwise zeros |
| Anomaly.JudgeIsHot | core-console/backend/alertanomaly.go:78-112 | with any non-negative root of the variance the program's z-score test equals a test on squares, in every direction, with the flat branch and the absolute floor |
| Anomaly.NeverAboveCeiling | core-console/backend/alerts.go:534-549 | above sigma^2 = (window-1)/2 no history makes a rule fire against a varying baseline |
| Anomaly.CanFireIff | core-console/backend/alertanomaly.go:78-112 | some history makes a rule fire against a varying baseline iff sigma^2 <= (window-1)/2 |
| Anomaly.SigmaEightNeverFires | core-console/backend/alertrules.go:287-299 | an admissible rule, sigma 8 on the default window, that never does |
| AgentLoop.FindLastAsk | core-console/backend/agent.go:77-87 | the backward scan finds the latest assistant message with tool calls |
| AgentLoop.FirstUnansweredToolCall | core-console/backend/agent.go:77-100 | the set-filling scans find the first call of the latest ask without an answer after it |
| AgentLoop.AgentAdvance | core-console/backend/agent.go:123-177 | the bounded loop computes the turn of the specification for any model and tools |
| AgentLoop.AgentExecuteApproved | core-console/backend/agent.go:182-235 | the lookup and guards select exactly the approvable call, refuse every other with its own reason in the source's order, and resume the loop |
| AgentAnswers.OpenCallIsFirst | core-console/backend/agent.go:77-100 | the call the loop turns to is the first without an answer in the latest assistant message with calls, and there is none iff no call is open |
| AgentAnswers.TurnIsGrounded | core-console/backend/agent.go:123-177 | every message of a turn answers the first open call, with the tool's output for a registered read and the error text for an unknown tool, or is the model's own answer to the transcript before it; a turn ends on a plain answer or out of steps, pauses on a write, or fails with the model's error |
| AgentAnswers.ChatIsGrounded | core-console/backend/agent.go:139 | a chat turn has twelve steps |
| AgentAnswers.DenialIsAnswered | core-console/backend/agent.go:215-218 | a denied write is answered with the denial text directly after the held transcript, and the turn goes on from there |
| AgentAnswers.ApprovalIsAnswered | core-console/backend/agent.go:219-235 | an approved write is answered with exactly what its tool printed on the held transcript |
| AgentAnswers.DenialNeedsNoTool | core-console/backend/agent.go:215-218 | a denial gives the same turn whatever the tools would print on the held transcript |
| AgentAnswers.RefusalNeedsNothing | core-console/backend/agent.go:182-221 | a refused decision fails whatever model and tools are |
| AgentAnswers.ApprovableMeans | core-console/backend/agent.go:184-214 | a decision is about the first call with its id in the latest ask, unanswered after it and naming a registered write |
| AgentSafety.AdvanceIsSafe | core-console/backend/agent.go:123-177 | at most as many messages and executions as steps, the transcript is only extended, only registered reads run, and a pending result is the first unanswered call and a registered write |
| AgentSafety.AdvanceKeepsWellFormed | core-console/backend/agent.go:123-177 | answers belong to a call of the ask before them, no id is answered twice under one ask, and only the latest ask may be open |
| AgentSafety.ApproveKeepsWellFormed | core-console/backend/agent.go:182-235 | a decision extends the transcript and keeps it well formed |
| AgentSafety.PendingIsWhatRuns | core-console/backend/agent.go:182-235 | approving the returned id runs the very call that was pending, duplicate ids or not; denying runs nothing |
| AgentSafety.WritesNeedApproval | core-console/backend/agent.go:207-219 | a write runs iff the caller is admin, did not deny, and the call is listed by the latest ask, unanswered and a registered write; never more than one |
| AgentSafety.ExecutedAtMostOnce | core-console/backend/agent.go:204-209 | along any chain of requests on returned transcripts without a lost turn each (assistant message, call id) is executed at most once |
| AgentSafety.LostTurnRunsTwice | core-console/backend/agent.go:219-235 | after a lost turn the caller still holds the open call, and approving again executes the same call again |
| AgentLostTurn.LostIff | core-console/backend/agent.go:207-235 | a turn is lost iff it is an admin's approval, not a denial, of an approvable call, and the loop resumed after the write fails |
| AgentLostTurn.RecordedIffNotLost | core-console/backend/agent.go:204-235 | from a session whose executed writes are all answered in the held transcript and distinct, a turn keeps that iff it is not lost |
| AgentLostTurn.AlwaysRecordedIffNoneLost | core-console/backend/agent.go:182-235 | along any chain of requests that record stays complete throughout iff no turn is lost |
| AgentLostTurn.HarmlessIffNotLost | core-console/backend/agent.go:182-235 | from such a session a turn is followed by no double execution in any continuation without lost turns iff it is not lost itself |
| AgentLostTurn.ALostTurn | core-console/backend/agent.go:219-235 | a concrete chain of a chat and two approvals that executes one call twice |
| AgentSafety.ChatIsNeverLost | core-console/backend/agent.go:123-177 | only decisions can lose a turn |
| AgentSafety.SessionsStayWellFormed | core-console/backend/agent.go:240-275 | clients that only add their own messages hold well-formed transcripts throughout |
| AgentSafety.ReadsRunOnce | core-console/backend/agent.go:123-177 | one turn runs no read twice and none that was already answered |
| StreamAssembly.StreamState.ApplyChunk | core-console/backend/deepseek.go:284-328 | a chunk appends its text to content and to what was shown live, and merges its deltas into their slots |
| StreamAssembly.StreamState.Result | core-console/backend/deepseek.go:330-338 | the message holds all content and the named slots in index order |
| StreamAssembly.AssembledMeans | core-console/backend/deepseek.go:330-338 | the message is the assistant's, its content the chunks' text in order, its calls the named among what each index received |
| StreamAssembly.SlotsByIndex | core-console/backend/deepseek.go:306-326 | slot i is the merge of exactly the deltas with index i, whatever came between |
| StreamAssembly.RecutAssemblesAlike | core-console/backend/deepseek.go:278-338 | any chain of moving chunk boundaries, cutting and joining argument fragments and swapping deltas of different indices leads to a stream that assembles to the same message |
| StreamAssembly.CuttingArguments | core-console/backend/deepseek.go:325 | cutting an argument fragment in two changes no call |
| StreamAssembly.InterleavingIndices | core-console/backend/deepseek.go:306-326 | swapping neighbouring deltas of different indices changes no slot |
| StreamAssembly.NamedKeepsOrder | core-console/backend/deepseek.go:330-338 | dropping nameless slots keeps the order of the others |
| StreamAssembly.NamedOnlyNamed | core-console/backend/deepseek.go:330-338 | a slot appears in the message iff it has a name |
| LeastSquares.DenominatorClosedForm | core-console/backend/capacity.go:401-412 | the denominator is n^2(n^2-1)/12 |
| LeastSquares.DenominatorPositive | core-console/backend/capacity.go:412-415 | for two or more days the zero guard is unreachable |
| LeastSquares.SlopeMinimises | core-console/backend/capacity.go:388-417 | the slope, with its intercept, is the only minimiser of the squared error over all lines |
| LeastSquares.ExactOnLines | core-console/backend/capacity.go:388-417 | data on a line gives that line back |
| LeastSquares.NonDecreasingSlope | core-console/backend/capacity.go:388-417 | nondecreasing data has a slope of at least zero |
| Forecast.TrendSlope | core-console/backend/capacity.go:388-417 | the accumulator loop returns the least-squares slope and the newest value of the last window days, and fails iff there are fewer than two |
| Forecast.P95Latest | core-console/backend/capacity.go:371-383 | the newest day's p95, 0 without days |
| Forecast.CapStore.RecomputeForecast | core-console/backend/capacity.go:339-369 | the table has an entry for exactly the nodes that can be forecast, each with its projection |
| Forecast.ForecastMeetsTarget | core-console/backend/capacity.go:355-366 | a positive forecast satisfies latest + eta * slope = 0.9 * capacity, zero means already there, the slope is positive |
| ForecastMeaning.ForecastIsPrediction | core-console/backend/capacity.go:339-417 | with 7 days of the direction whose newest p95 is larger (received on a tie), a forecast exists iff the capacity is known and the best of all lines through its newest 60 p95 values rises; it is 0 iff the newest value is at 0.9 of the capacity or above, else newest + eta * slope is 0.9 of the capacity; with fewer days there is none |
| ForecastMeaning.TableIsPrediction | core-console/backend/capacity.go:339-369 | the rebuilt table says so for every stored node, an unconfigured capacity counting as 0, and has no other node |
| Forecast.RecentIsNewest | core-console/backend/capacity.go:393-396 | the fit looks at no more than the window and ends on the newest day |
| Forecast.Summarize | core-console/backend/capacity.go:306-331 | a day's mean, its maximum floored at zero and its p95 rank in the sorted samples |
| Forecast.P95IsPercentile | core-console/backend/capacity.go:321-329 | the p95 is a sample, at least 95% of the samples are at most it and fewer than 95% below it |
| Forecast.SumWithin | core-console/backend/capacity.go:311-320 | the sum behind the mean lies between n times any bounds of the samples |
| Forecast.SumAppends | core-console/backend/capacity.go:313-319 | one more sample adds exactly its own value to it |
| ProbeWire.EncodeProbeHeader | core-console/backend/fleet.go:1068-1084 | the builder loop prints the joined triples |
| ProbeWire.ParseProbeHeader | core-console/agent/main.go:389-416 | entries are read left to right, blanks skipped, and the first bad one fails the whole header with its own error |
| ProbeWire.ProbeRoundTrip | core-console/agent/main.go:389-433 | the agent reads back exactly the printed list iff every probe in it is valid |
| ProbeWire.CarriedIff | core-console/agent/main.go:405-433 | a list comes back unchanged iff every name and target has 1 to 80 of the allowed characters and every type is ping4 or ping6 |
| ProbeWire.AcceptedAreCarried | core-console/agent/main.go:389-433 | whatever the header, the agent accepts only such probes |
| ProbeWire.PrintedHeader | core-console/backend/fleet.go:1068-1084 | fields are joined with bars and probes with commas |
| ProbeWire.EntryIff | core-console/agent/main.go:400-414 | an entry is accepted as a probe iff it is that probe's printed text and the probe is such a one |
| ProbeWire.PaddedHeader | core-console/agent/main.go:395-399 | blanks and tabs around an entry do not matter |
| ProbeWire.AcceptedHeadersReencode | core-console/agent/main.go:389-433 | any accepted header, however spaced, re-encodes to one that parses to the same list |
| AuthWire.ParseAuthHeader | core-console/agent/main.go:258-295 | the scheme, field and completeness checks of the parser, with its error for each |
| AuthWire.AcceptedIsComplete | core-console/agent/main.go:258-295 | an accepted header has the scheme, a non-zero timestamp, a nonce and a signature |
| AuthWire.PartsComeFromFields | core-console/agent/main.go:268-290 | each part is the value of the last field of its name, the timestamp read as a decimal and the signature decoded |
| AuthWire.PrintedAuth | core-console/backend/fleet.go:1038-1039 | the printed header: scheme, then timestamp, nonce and signature by name |
| AuthWire.Base64Vectors | core-console/backend/fleet.go:1026-1039 | vectors of section 10 of RFC 4648 without padding, and the two letters of the URL form |
| AuthWire.DecimalText | core-console/backend/fleet.go:1022-1039 | timestamps are printed in base ten |
| AuthWire.Base64RoundTrip | core-console/backend/fleet.go:1026-1039 | unpadded base64url (section 5 of RFC 4648) decodes to the bytes encoded and uses no comma and no equals sign |
| AuthWire.IntRoundTrip | core-console/backend/fleet.go:1022-1039 | a printed timestamp, negative ones included, parses back |
| AuthWire.AuthRoundTrip | core-console/agent/main.go:258-295 | the header the scraper prints parses back to its timestamp, nonce and signature |
| AuthWire.RandomNonceRoundTrip | core-console/backend/fleet.go:1022-1039 | the same for every nonce and signature the scraper can form from raw bytes |
| NonceCache.Cache.Check | core-console/agent/main.go:206-232 | a nonce passes iff it is not recorded; then it is recorded after a sweep if full, giving up one entry only if the sweep freed nothing |
| NonceCache.PassesIff | core-console/agent/main.go:297-303 | a request passes iff its timestamp is at most 300 seconds off and its nonce is not recorded |
| NonceCache.ServeRecords | core-console/agent/main.go:206-232 | passing records the nonce; below 10000 entries nothing else changes, at 10000 those older than 600 seconds go, and a younger one only as the victim |
| NonceCache.CacheStaysBounded | core-console/agent/main.go:206-232 | in every run, floods included, at most 10000 nonces are held |
| NonceCache.ServeProtectsIff | core-console/agent/main.go:206-232 | a request takes away a pair's protection iff a flood eviction gives its nonce up while its window is open |
| NonceCache.ReplayableIff | core-console/agent/main.go:297-303 | some request with its readings in order passes with the pair now iff the nonce is not recorded and no sweep has happened after the pair's window closed |
| NonceCache.NeverReplayableIff | core-console/agent/main.go:195-232 | over any run whose check times do not go back, a protected pair, as every pair is when it is accepted, is never replayable again iff no request gives it up; evictions of other nonces do not matter |
| NonceCache.ProtectedPassesStraddled | core-console/agent/main.go:297-303 | a protected pair passes only in a request with a sweep after its first reading |
| NonceCache.PairPassesOnce | core-console/agent/main.go:297-303 | a pair passes at most once in every run that does not give it up and in which no request carrying it straddles a sweep, floods of other nonces included |
| NonceCache.NoPairPassesTwice | core-console/agent/main.go:297-303 | hence, without flood evictions and straddled sweeps, no (timestamp, nonce) pair at all passes both checks twice |
| NonceCache.OneReadingNoReplay | core-console/agent/main.go:297-303 | one nondecreasing clock reading per request is enough for that |
| NonceCache.NonceIsLostIff | core-console/agent/main.go:206-232 | a request makes the cache lose a nonce iff it passes a full cache and the nonce is expired, or is the one given up in a flood |
| NonceCache.FloodLetsPairPassTwice | core-console/agent/main.go:220-228 | a concrete run with one reading per request in which a flood eviction lets a pair pass twice |
| NonceCache.SweepBetweenReadingsLetsPairPassTwice | core-console/agent/main.go:213-219 | a concrete run without floods in which a sweep between a request's two readings lets a pair pass twice |
| DualWrite.RunConsistent | core-console/backend/db.go:204-209 | after any ordered steps the file holds the last renamed document and a row that is not older agrees with it |
| DualWrite.ConfigDocs.LoadStore | core-console/backend/alertrules.go:139-171 | a boot takes the database's document if one is configured, answers and holds a row, else a non-empty file, else nothing |
| DualWrite.ConfigDocs.PersistLocked | core-console/backend/alertrules.go:231-251 | file then row, either possibly missing, and no other store touched |
| DualWrite.ConfigDocs.ReconcileConfigDocs | core-console/backend/db.go:156-201 | every registered store is pushed iff its file exists, is not empty and is strictly newer, or the row is absent or its time could not be read; other rows stay |
| DualWrite.BootMeans | core-console/backend/db.go:156-201 | one boot of one store, in its own terms: when the row is overwritten and with what, and that the file never changes |
| DualWrite.BootLoadsLastRenamed | core-console/backend/alertrules.go:139-171 | after any writes, crashes, database failures, unread row times and restarts a boot loads the last renamed document iff it is not the case that a needed push failed while the database answers with an older, different document |
| DualWrite.SuccessfulPushRecovers | core-console/backend/db.go:156-201 | with a successful push the last renamed document is always loaded |
| DualWrite.SteadyStateIsQuiet | core-console/backend/db.go:149-155 | after a write that reached both copies a boot that reads the row's time pushes nothing |

## Left out

- HTTP handlers, JSON, cookies, SSE, webhooks, Telegram sending, SSH, SQL text and the frontend; only the state change of each modelled handler is kept.
- Display text: titles, descriptions, threshold texts, metric details and the fixed wording of escalation and resolve samples. A message is whatever text an evaluator is given.
- Floating-point rounding: all metrics and statistics are reals. The standard deviation is any non-negative root of the variance; `Anomaly.JudgeIsHot` connects it to the test on squares used in the engine.
- Cryptography and randomness: signatures and nonces are arbitrary bytes or strings, MAC comparison is not part of the model.
- The language model's answers, its being configured at all, the tools it is offered and what tools print: arbitrary functions of the transcript. A triage posts or stays silent at will, at any later time.
- Go's randomised map iteration: `AlertEngine.AlertEngine.AckByID` and the flood eviction of `NonceCache.Cache.Check` may pick any entry; the watched series are fed in first-appearance order, which by `AlertScan.FedAt` makes no difference.
- Engine baselines are values in the engine's map rather than shared objects; the object form of one baseline is `Anomaly.EwmaStat`. Their keys are tuples instead of the joined text, which `AlertScan.KeyTextInjective` shows to be the same; the metric names of the whitelist hold no bar.
- Metric extractors: a node comes with the values they report. An evaluator that panics is a rule that reads clear, as the engine's guard has it; an extractor that panics while a baseline is fed, which the source does not guard, is not represented.
- Severity strings outside info, warn and crit are collapsed to one value; incident ids are kept as numbers; calendar days are integers instead of ISO text with the same order.
- Restoring the history ring at boot (`lastSeq` starts at 0 even then) and flushing it to the database: the history claims are for an empty start. Reloading rules during a run is a change of the rules passed to the next tick.
- Unique node ids in a fleet snapshot are assumed where a lemma asks for them; the registry that provides them is not part of this model.
- RuleStore.EditsKeepSound: speaks of the document in memory; an error from persisting is returned after memory has changed, and what reaches disk is the subject of `DualWrite`.
- RuleStore.AlertRuleStore.AddRule: refuses with one error for every reason, like the other store methods; only whether a call is refused is kept.
- StreamAssembly.StreamState.ApplyChunk: a negative tool-call index, on which the source panics, and chunks that are not JSON are not represented.
- DualWrite.BootLoadsLastRenamed: file and database times come from one strictly increasing clock, and the load meets no database that the reconciliation did not.
- Anomaly.EwmaStat.Stats: the square root is supplied by the caller as any non-negative root of the variance.
- The rule store's repairs of a loaded document (a missing default group, empty group keys of builtin rules): the store is followed from the seed, which needs neither.
- Library sorting is an insertion sort or repeated minimum with the same result, proved sorted and a permutation.
- Incidents, billing, on-call escalation, the anycast watcher, audit queries, heartbeats, login, invites and the Telegram agent session: easy invariants or plumbing around what is covered.
- `authStore.persist` writes outside its lock, so the recovery results are for stores that persist while holding theirs.
