# Verified model of the tori agent and client

A Dafny model of the parts of tori that keep state: the agent's alert engine and its alerts
table, history downsampling, the hub and the request protocol between agent and client, log
parsing and its migration, the notification queue, and the client's buffers and scanners.
`dafny verify dfyconfig.toml` checks all of it.

Code that changes state in place is a class whose methods are proved equal to functions on
values; what the program promises is then proved of those functions over whole runs. Protocols
between goroutines are state machines whose steps are single locked sections, atomic operations
or channel operations, and their results hold for every interleaving.

| file | models |
|---|---|
| AlertModel.dfy | rules, snapshots, the alerts table and the alert engine as functions |
| AlertStore.dfy, Alerter.dfy, Agent.dfy | the same as classes: statements on the table, the alerter, adoption and reload |
| AlertFacts.dfy, AlertObserved.dfy | how observations compose, and what is observed of the things in a snapshot |
| AlertRuns.dfy | whole runs of the agent, crashes included: the table and the alerter agree |
| AlertLimit.dfy | a run past the limit of the query that a restart adopts from |
| AlertTimers.dfy, AlertLives.dfy | the timers of one instance, and of an instance in the life of an alerter |
| AlertNotices.dfy | which notifications are queued, and when |
| DeferredCalls.dfy, Notifier.dfy | the deferred queue shared by concurrent calls, and the notification queue |
| Buckets.dfy, DownsampleHost.dfy, DownsampleContainers.dfy, ContainerMemory.dfy | bucket arithmetic, two-stage downsampling, and histories that lose the memory peak |
| HubModel.dfy, HubPublish.dfy, HubOverlap.dfy, Hub.dfy | pub/sub and connections, as a protocol, one publish alone, overlapping publishes, and as classes |
| ClientProtocol.dfy, Codec.dfy | request/response matching, and the length-prefixed stream |
| LogParse.dfy, LogFields.dfy, LogLines.dfy, Backfill.dfy | log-line parsing, what lines mean by their words, and the migration that uses it |
| RingBuffer.dfy, LogHistory.dfy | the ring buffer, and merging history with live entries |
| PrettyMap.dfy, MaskedField.dfy | the raw-to-pretty position map, and the masked input field |
| Options.dfy, Sets.dfy | shared helpers |

## What turned out to have conditions

Each of these is stated in the model as an exact condition or a concrete witness.

- A restart adopts every firing alert exactly when at most 1000 are unresolved; beyond that the
  rest stay unresolved with no owner (`RestartConsistentIff`), and one evaluation of 1001 full
  disks gets there (`LimitCanBeExceeded`).
- The backfill loop is sure to end exactly when fewer than 1000 blank rows have an empty message;
  from there on it never does, whichever rows it picks, and can even repeat one batch
  (`LoopEndsIff`, `NextBatchIsFull`, `CanRepeatForeverIff`). The
  comment in store.go says that its short-batch exit covers such rows; it does so only below that
  number.
- The documentation of downsampleContainers promises maxima per bucket. For CPU its two branches
  agree exactly when a bucket is empty or has a CPU that is not negative (`BranchesAgreeIff`). For
  memory a long series keeps the peaks (`PeakIsKept`), but a short one keeps a bucket's peak exactly
  when the first of its records with the highest CPU has it (`SparseKeepsIff`,
  `ShortSeriesShowsIff`), and a service's peak can be missing from its whole history
  (`MemoryPeakIsLost`, `SuchRowsExist`).
- Two rules can move the same instance exactly when they are both on host values and have the same
  name, or one is on a host value and its name begins with the other's and a colon, or neither is
  and their names are equal or one begins with the other and a colon (`ClashIff`,
  `KeysAreOwnIff`). The configuration allows such names (`ColonNamesCollide`). A key found in the
  table at a restart can be taken for either rule's exactly when the names are equal or one begins
  with the other and a colon, whatever the rules are on (`NamesApartIff`, `NameIsOwnIff`).
- Another service can share a service's series exactly when its project or service name has a NUL
  (`ServiceKeyUniqueIff`, `NulNamesCollide`).
- Publish takes only the read lock: a publish can overtake an earlier one on its topic exactly when
  that one still had a subscriber to send to as it entered (`MayOvertakeIff`), so two subscribers
  can get opposite orders (`OrdersCanDiffer`).
- What the peer has sent can block the client's reader for good exactly when the reader holds a
  reply for a channel that already holds one (`MayStickIff`), which a peer that answers a request
  twice can bring about (`TwoAnswersCanBlockTheReader`). Ids are distinct and non-zero exactly
  below 2^32 requests (`IdsDistinctIff`).
- The calls made of a notifier can make the program panic exactly when a Send began after Stop, or
  Stop was called before an earlier Send had returned (`MayPanicIff`). A reload stops the
  notifier of an alerter that the event watcher may still be using (`SendAfterStopPanics`).
- A stream cut right after a frame's header reads as a clean end of file (`PrefixRoundTrip`).
- The merged log view is in order unless the live entries start at time zero and later history is
  kept (`MergedAscendingIff`).
- Filling a masked field keeps it well-formed only for a value that reaches its slots with digits
  (`FillKeepsIff`).

## Model

| member | source | states |
|---|---|---|
| AlertStore.Store.InsertAlert | internal/agent/store_queries.go:123-133 | a new unresolved row under the next id, which is returned; nothing else changes |
| AlertStore.Store.ResolveAlert | internal/agent/store_queries.go:135-141 | writes the resolution, in whole seconds, of the row with this id and of no other, and does nothing if there is none |
| AlertStore.Store.ResolveOrphanedAlerts | internal/agent/store_queries.go:145-151 | resolves exactly the unresolved rows |
| AlertStore.Store.QueryFiringAlerts | internal/agent/store_queries.go:154-182 | distinct unresolved rows, newest first, at most 1000, none left out that is newer than one returned |
| AlertStore.Store.AckAlert | internal/agent/store_queries.go:547-560 | acknowledges that row and no other, or reports that there is none |
| AlertStore.Store.PruneAlerts | internal/agent/store_queries.go:641-666 | deletes only rows older than the cutoff, all of them unless cancelled after a given number of full batches, and leaves the others as they are |
| AlerterClass.Alerter.Evaluate | internal/agent/alert.go:120-159 | one evaluation is the observations of the rules in order and then stale cleanup, whatever order the map iterates in, and runs what it queued |
| AlerterClass.Alerter.EvalHostRule | internal/agent/alert.go:204-217 | the observation a host rule makes, and the key it marks even when the section is missing |
| AlerterClass.Alerter.EvalDiskRule | internal/agent/alert.go:219-237 | one observation per disk; with no section, marks the rule's instances instead |
| AlerterClass.Alerter.EvalContainerRule | internal/agent/alert.go:239-263 | one observation per container; with no section, marks the rule's instances instead |
| AlerterClass.Alerter.EvalLogRule | internal/agent/alert.go:265-294 | one observation per container of its match count; with no section or a failed count, marks the rule's instances instead |
| AlerterClass.Alerter.RemoveStale | internal/agent/alert.go:141-156 | removes exactly the keys that were neither observed nor protected, resolving those firing, for every iteration order |
| AlerterClass.Alerter.EvaluateContainerEvent | internal/agent/alert.go:164-190 | transitions the string rules on containers for one container, with no cleanup |
| AlerterClass.Alerter.Transition | internal/agent/alert.go:296-344 | one transition of one instance with its effects on the table, the queue and the silences |
| AlerterClass.Alerter.Fire | internal/agent/alert.go:346-399 | inserts the row, takes its id and queues the due notifications |
| AlerterClass.Alerter.Resolve | internal/agent/alert.go:401-432 | resolves the row if the instance has one and clears its id |
| AlerterClass.Alerter.IsSilenced | internal/agent/alert.go:599-611 | silenced up to and including the end, after which the entry is removed |
| AlerterClass.Alerter.FindRule | internal/agent/alert.go:435-442 | the first rule that the key belongs to |
| AlerterClass.Alerter.AdoptFiring | internal/agent/alert.go:448-475 | for some answer to the query, adopts the rows that belong to a rule and resolves the others |
| AlerterClass.Alerter.ResolveAll | internal/agent/alert.go:478-487 | resolves every firing instance, for every iteration order |
| AgentClass.Agent.constructor | internal/agent/agent.go:78-98 | starting is a restart: adoption if there are rules, otherwise resolving every leftover |
| AgentClass.Agent.ApplyConfig | internal/agent/agent.go:178-224 | a reload resolves what the old alerter has firing and starts an empty one; rules that do not parse change nothing |
| AlertFacts.ApplyObsConcat | internal/agent/alert.go:127-139 | evaluating rules one after the other is evaluating all their observations in order |
| AlertFacts.MarkedExtends | internal/agent/alert.go:204-294 | after each rule the marks are exactly right for every key in the map: observed, or protected by a missing section |
| AlertFacts.DropOneMore | internal/agent/alert.go:143-156 | dropping keys one at a time is dropping the set of them, so the iteration order does not matter |
| AlertFacts.ResolveKeysOneMore | internal/agent/alert.go:482-486 | likewise for resolving every firing instance |
| AlertRuns.TransitionKeeps | internal/agent/alert.go:296-432 | a transition keeps the agreement of table and instances and changes only the rows it may |
| AlertRuns.TransitionWrites | internal/agent/alert.go:296-432 | a firing inserts one row, under the id the instance takes; a resolve writes its time into the instance's row; anything else writes nothing, and no other instance is touched |
| AlertRuns.ReactKeeps | internal/agent/alert.go:120-190 | an evaluation, event or silence keeps it, and only adds rows fired now or resolves rows now |
| AlertRuns.ReloadKeeps | internal/agent/agent.go:190-214 | a reload keeps it, leaves no unresolved row, and starts an alerter with the new rules, if there are any, and nothing else |
| AlertRuns.RestartConsistentIff | internal/agent/store_queries.go:154-157 | a restart keeps the agreement exactly when at most 1000 alerts are unresolved |
| AlertLimit.LimitCanBeExceeded | internal/agent/alert.go:219-237 | a run within the limit that ends with 1001 unresolved alerts, after which no restart with those rules keeps the agreement |
| AlertRuns.CrashKeeps | internal/agent/alert.go:296-487 | a crash after any statement of an evaluation, event, reload or restart leaves a table that the next restart can adopt, with nothing lost or rewritten |
| AlertRuns.RestartIsQuiet | internal/agent/alert.go:444-447 | firing alerts survive a restart: exactly the unresolved rows whose rule still exists are adopted, firing, under their ids and without touching the table, and exactly the others are resolved |
| AlertRuns.RestartForgets | internal/agent/agent.go:78-98 | a restart with rules starts an alerter with these rules that remembers no silence and no notification |
| AlertRuns.RestartWithoutRules | internal/agent/agent.go:78-98 | a restart without rules has no alerter and resolves every alert that was left, touching no other row |
| AlertRuns.QueryComplete | internal/agent/store_queries.go:154-157 | the query returns every unresolved row exactly when there are at most 1000 |
| AlertRuns.FiringQueryReturns | internal/agent/store_queries.go:154-182 | the query returns at most 1000 unresolved rows, each once, newest first, and leaves one out only when 1000 are returned, none of them older |
| AlertRuns.OwnershipHolds | internal/agent/alert.go:296-487 | in every run of evaluations, events, silences, acknowledgements, prunes, reloads, crashes and restarts within the limit, table and alerter agree at every point |
| AlertRuns.OwnershipSpelledOut | internal/agent/alert.go:346-487 | each unresolved row has exactly one firing owner, there is at most one per key, and a firing instance's row is its own and unresolved unless pruned |
| AlertRuns.RowsKeptOverRuns | internal/agent/store.go:126-136 | over any run ids are not reused, rows keep their identity, a written resolution is never rewritten, acknowledgements stay, and pruned rows never return |
| AlertTimers.FiresExactlyWhenDue | internal/agent/alert.go:303-324 | an inactive instance fires at an observation exactly when an unbroken true streak past the cooldown is at least `for` old |
| AlertTimers.ResolvesExactlyWhenDue | internal/agent/alert.go:325-342 | a firing instance resolves at an observation exactly when an unbroken false streak is at least `resolve_for` old |
| AlertTimers.GraceStaysClear | internal/agent/alert.go:331-341 | no resolve grace is left over when an instance stops firing, so each firing starts with none |
| AlertTimers.RefiresAfterCooldown | internal/agent/alert.go:306-317 | however often it cycles, an instance fires no sooner than cooldown plus `for` after any earlier resolve |
| AlertLives.EvaluateByKey | internal/agent/alert.go:120-159 | an evaluation acts on each key alone: an observed key moves by its own observations, a protected one is left exactly as it was, any other is gone |
| AlertLives.EvaluateRowsByKey | internal/agent/alert.go:141-156 | the row of a protected firing key is untouched and the row of a stale one is resolved now |
| AlertLives.EventByKey | internal/agent/alert.go:161-187 | an event moves each key by its own observations and drops none |
| AlertLives.EventSparesOtherRules | internal/agent/alert.go:171-178 | an event leaves every instance exactly as it was that no string rule on containers observes |
| AlertLives.NamesApartIff | internal/agent/alert.go:435-442 | no key is taken for that of two rules exactly when their names differ and neither begins with the other and a colon |
| AlertLives.NameIsOwnIff | internal/agent/alert.go:435-442 | a rule's name is its own among all rules exactly when no key can be taken for its own and another's |
| AlertLives.ObservesIff | internal/agent/alert.go:204-294 | the keys a rule can observe: its name for a host rule, and its name, a colon and anything for the others |
| AlertLives.ClashIff | internal/agent/alert.go:204-294 | two rules can observe the same key exactly under a condition on their kinds and names |
| AlertLives.KeysAreOwnIff | internal/agent/alert.go:204-294 | a rule clashes with no other exactly when no key can be observed by it and by another |
| AlertLives.KeyObservedByItsRule | internal/agent/alert.go:204-294 | when a rule clashes with no other and the things in a snapshot are distinct, its keys are observed at most once, by it, and not at all when its section is missing |
| AlertLives.EachThingObservedOnce | internal/agent/alert.go:231-236 | and everything a rule sees in the snapshot is observed exactly once |
| AlertLives.RuleForKeyFound | internal/agent/alert.go:435-442 | the rule found for a key is the rule whose observations carry it |
| AlertLives.ColonNamesCollide | internal/agent/alert.go:207-252 | a host rule named `a:b` and a container rule named `a` share a key, and one evaluation moves its instance twice |
| AlertLives.LifeAt | internal/agent/alert.go:120-190 | over a whole life of evaluations and events, a key that is never dropped is moved by its own history and nothing else |
| AlertLives.AlertFiresExactlyWhenDue | internal/agent/alert.go:303-324 | the `for` window over a whole life, both directions |
| AlertLives.NewAlertFiresExactlyWhenDue | internal/agent/alert.go:298-324 | the same for a key that the alerter does not know: its first firing waits for no cooldown and leaves no grace running |
| AlertLives.AlertResolvesExactlyWhenDue | internal/agent/alert.go:325-342 | the resolve grace over a whole life, both directions, whether or not a grace is already running |
| AlertLives.AlertFiresWithNoGrace | internal/agent/alert.go:325-342 | an alert that fires has no grace running |
| AlertLives.AlertRefiresAfterCooldown | internal/agent/alert.go:306-317 | the cooldown over a whole life |
| AlertLives.AdoptedResolvesExactlyWhenDue | internal/agent/alert.go:448-475 | an alert adopted at a restart resolves exactly when its condition has been false for `resolve_for` since the restart |
| AlertObserved.CompareNumIff | internal/agent/condition.go:104-120 | which signs of the difference each comparison accepts |
| AlertObserved.FieldsRead | internal/agent/condition.go:139-188 | the value that each field name reads from a host or container, percentages with their zero cases |
| AlertObserved.HostIsObserved | internal/agent/alert.go:204-217 | a host rule observes the host once, as its comparison says of the field's value |
| AlertObserved.DiskIsObserved | internal/agent/alert.go:219-237 | a disk rule observes every disk of the snapshot once, under the rule's name and the mount point |
| AlertObserved.ContainerIsObserved | internal/agent/alert.go:239-263 | a container rule observes every container of the snapshot once, by its text or its value |
| AlertObserved.LogIsObserved | internal/agent/alert.go:265-294 | a log rule observes every container of the snapshot once, by its number of matches, none being zero |
| AlertObserved.EventIsObserved | internal/agent/alert.go:164-190 | a container event is observed once by each string rule on containers and by no other |
| AlertObserved.NotCollectedIsLeft | internal/agent/alert.go:204-294 | while what a rule is about is not collected, or its log count failed, its instances stay exactly as they were |
| AlertObserved.KeptExactlyIf | internal/agent/alert.go:120-159 | after an evaluation an instance exists exactly if the snapshot has the thing for it, or it existed and a rule that covers its key was not collected |
| AlertNotices.NotifiesAtMostOnce | internal/agent/alert.go:383-398 | with a notify_cooldown a firing queues one notification exactly when "notify" is an action, the rule is not silenced and the cooldown is over |
| AlertNotices.NotifiesPerAction | internal/agent/alert.go:383-398 | without one it queues one per "notify" action unless silenced |
| AlertNotices.SilencedFiringIsRecorded | internal/agent/alert.go:370-398 | a silenced firing still has its row and instance, but neither notifies nor starts the cooldown |
| AlertNotices.NotificationsSpaced | internal/agent/alert.go:385-391 | over an alerter's life, for any clock, two notifications of a rule are at least its notify_cooldown apart |
| AlertNotices.SilenceHolds | internal/agent/alert.go:500-504 | until a silence ends no notification of its rule is queued, whatever fires |
| AlertNotices.NotificationsAnnounceFirings | internal/agent/alert.go:381-397 | every notification announces a row inserted in the same call for the same rule and instance |
| AlertNotices.NotifiesExactlyWhenDue | internal/agent/alert.go:383-398 | over a life, an unsilenced firing with "notify" queues one notification exactly when none of the rule's earlier ones is younger than its notify_cooldown, and nothing else queues any |
| AlertNotices.NotifiesEachFiring | internal/agent/alert.go:383-398 | without a notify_cooldown every unsilenced firing queues one per "notify" action, and nothing else queues any |
| AlertNotices.SilencedExactlyUntil | internal/agent/alert.go:500-504 | over a life, a rule is silenced exactly until the latest silence set has lasted its duration |
| DeferredCalls.EveryNoticeRunsOnce | internal/agent/alert.go:192-202 | under any interleaving, although calls share the queue's storage, each runs exactly what it queued, in order and once |
| DeferredCalls.CallsProceed | internal/agent/alert.go:120-159 | no call is stuck: the lock is taken only while another call holds it, and that one can always queue more or let go with all it queued |
| Notifier.SendWithRetry | internal/agent/notify.go:138-157 | one to three attempts, stopping at the first success or a cancelled wait |
| Notifier.AcceptedMessagesAreHandedOver | internal/agent/notify.go:87-119 | in every run that has not panicked the pending counter is queued plus in-hand plus mid-send; accepted messages are handed over in order, to every channel exactly once, in one to three attempts |
| Notifier.AcceptedExactlyIfRoom | internal/agent/notify.go:108-119 | in every such run the messages accepted are exactly those whose send found fewer than 64 queued, in that order |
| Notifier.DrainedWhenNothingIsPending | internal/agent/notify.go:121-134 | when Flush or Stop returns, every accepted message has been handed to every channel |
| Notifier.QueueDrains | internal/agent/notify.go:87-119 | with no new Send or Stop only so many steps are left, and while anything is pending there is one to take, so the queue drains |
| Notifier.MayPanicIff | internal/agent/notify.go:113-132 | the calls made so far can end in a panic exactly when a Send began after Stop, or Stop was called before an earlier Send had returned |
| Notifier.SendAfterStopPanics | internal/agent/agent.go:199-203 | a run that panics, as when the event watcher still uses an alerter that a reload has stopped |
| Buckets.IndexIsQuotient | internal/agent/downsample.go:26-32 | the rational bucket index is the whole-number quotient, clamped |
| Buckets.GroupShiftsAtMostOneBucket | internal/agent/socket.go:518-535 | a row's SQL group falls in the row's own bucket or the one before, never later |
| Buckets.ShiftHappens | internal/agent/socket.go:518-535 | the shift by one bucket does occur |
| Buckets.LabelsCoverTheirPoints | internal/agent/downsample.go:22-24 | a bucket's label is the first label not before its points, and the last label is the end of the range |
| DownsampleHost.DownsampleHost | internal/agent/downsample.go:12-60 | exactly n points, each with the maximum of every kept field over its bucket and the first point's other fields, or zero |
| DownsampleHost.HostBucketUnique | internal/agent/downsample.go:12-60 | that description leaves nothing open |
| DownsampleHost.QueryHostMetricsGrouped | internal/agent/store_queries.go:189-221 | one row per non-empty group, in time order, with the maximum of every column |
| DownsampleHost.RowsAreCovered | internal/agent/socket.go:516-534 | after both stages every raw row's bucket, or the one before, shows at least its values |
| DownsampleHost.ValuesAreAttained | internal/agent/socket.go:516-534 | a bucket is all zero, or each kept value is that of a raw row of this bucket or the next |
| DownsampleHost.PeakIsKept | internal/agent/socket.go:516-534 | the overall peak of every kept field survives both stages |
| DownsampleContainers.ServiceKeyInjective | internal/agent/downsample.go:62-65 | NUL-free project names give different services different keys |
| DownsampleContainers.ServiceKeyUniqueIff | internal/agent/downsample.go:62-65 | no other service shares a service's key exactly when neither of its names has a NUL |
| DownsampleContainers.NulNamesCollide | internal/agent/downsample.go:62-65 | a NUL in a project name can make two services share a key |
| DownsampleContainers.KeysInFirstSeenOrder | internal/agent/downsample.go:84-94 | the keys are those present, each once, in the order first seen |
| DownsampleContainers.SeriesHasItsPoints | internal/agent/downsample.go:87-94 | a point is in the series of its key and in no other |
| DownsampleContainers.SeriesOfConcat | internal/agent/downsample.go:76-93 | a series keeps the order and number of its points |
| DownsampleContainers.GroupByService | internal/agent/downsample.go:84-94 | the keys in first-seen order, each with its points in order and the first point's project and service |
| DownsampleContainers.SparseBuckets | internal/agent/downsample.go:99-121 | per bucket, the first whole record with the highest CPU, or zero under the service's name |
| DownsampleContainers.DenseBuckets | internal/agent/downsample.go:125-149 | per bucket, the peaks of CPU and memory counted from zero, under the service's name |
| DownsampleContainers.EmptyBucketIsZero | internal/agent/downsample.go:99-149 | in either branch a bucket without points is all zero under the service's name |
| DownsampleContainers.DownsampleContainers | internal/agent/downsample.go:71-153 | n points per service, in first-seen order, by the branch its length selects |
| DownsampleContainers.BranchesAgreeIff | internal/agent/downsample.go:99-149 | the branches agree on a bucket's CPU exactly when it is empty or has a CPU that is not negative |
| DownsampleContainers.SparseKeepsIff | internal/agent/downsample.go:99-121 | a short series keeps a bucket's peak of a field exactly when the first of its records with the highest CPU has it |
| DownsampleContainers.ShortSeriesShowsIff | internal/agent/downsample.go:99-121 | the output for a short series shows at least a value of a field exactly when, in some bucket, the first grouped row with the highest CPU has it |
| DownsampleContainers.QueryContainerMetricsGrouped | internal/agent/store_queries.go:226-253 | one row per group and service with rows in range, with the largest CPU and memory among them |
| ContainerMemory.MemoryPeakIsLost | internal/agent/downsample.go:99-121 | of two rows in different groups of one bucket, the busy one hides the memory of the large one from the whole history |
| ContainerMemory.SuchRowsExist | internal/agent/socket.go:518-535 | two such rows |
| ContainerMemory.HistoryExists | internal/agent/socket.go:528-535 | and any such rows have a history |
| DownsampleContainers.PointsOfServices | internal/agent/downsample.go:95-153 | the output has n points, in one place and under its key, for each service with a row in range and for no other |
| DownsampleContainers.RowsAreCovered | internal/agent/socket.go:528-535 | among its service's points in the output, that of every raw row's bucket or the one before shows at least its CPU and, for a long series, its memory |
| DownsampleContainers.ValuesAreAttained | internal/agent/socket.go:528-535 | a CPU or memory shown is zero or that of a raw row of the service, of this bucket or the next |
| DownsampleContainers.PeakIsKept | internal/agent/socket.go:528-535 | a service's peak CPU and, for a long series, its peak memory is exactly the largest among its points in the output |
| HubClass.Hub.Subscribe | internal/agent/hub.go:39-48 | a new open channel registered under the topic |
| HubClass.Hub.Unsubscribe | internal/agent/hub.go:51-60 | unregisters and closes a registered subscriber and leaves anything else alone |
| HubClass.Hub.Publish | internal/agent/hub.go:64-75 | a publish that nothing overlaps offers the message to every subscriber of the topic, dropping it where 64 are queued, for every iteration order |
| HubClass.ConnState.SubscribeSimple | internal/agent/socket.go:445-453 | at most one subscription per topic |
| HubClass.ConnState.Unsubscribe | internal/agent/socket.go:480-484 | drops the connection's subscription, if any, from the hub and from its map |
| HubClass.ConnState.Cleanup | internal/agent/socket.go:212-218 | drops every subscription once, in some order, and leaves none |
| HubPublish.PublishIsItsSteps | internal/agent/hub.go:64-75 | entering, sending to every subscriber once in any order and leaving is that publish |
| HubModel.SubscribersAreServed | internal/agent/hub.go:39-75 | under any interleaving, overlapping publishes included, no closed channel is sent to or closed again, a channel is open exactly while registered, a subscriber is offered exactly once each publish whose section lies in its registration, and gets these in the order of the sends to it, less exactly what came when 64 were queued |
| HubModel.PublishesEntered | internal/agent/hub.go:64-75 | the publishes of a run are those that entered, with their topics and messages |
| HubModel.OrderIsKept | internal/agent/hub.go:64-75 | publishes that do not overlap reach every subscriber in their order |
| HubOverlap.MayOvertakeIff | internal/agent/hub.go:64-75 | a publish can overtake an earlier one on its topic exactly when, as it entered, that one still had a subscriber to send to |
| HubOverlap.OrdersCanDiffer | internal/agent/hub.go:64-75 | a run in which overlapping publishes reach two subscribers in opposite orders |
| HubModel.PublishesLeave | internal/agent/hub.go:68-74 | a publish never blocks: each of its steps can be taken and leaves less to do |
| HubModel.WriteLockBecomesFree | internal/agent/hub.go:64-75 | over a run with no new publish only so many steps of publishes are left, and while the lock is taken there is one to take |
| HubModel.ConnectionsLeaveNothing | internal/agent/socket.go:212-218 | a cleaned-up connection leaves no subscriber, and a live one has at most one per topic |
| HubModel.RequestsTakeEffect | internal/agent/socket.go:445-484 | while no publish is inside the lock, subscribing leaves a connection one open channel under the topic and unsubscribing none, its other topics being untouched |
| HubModel.CleanupFinishes | internal/agent/socket.go:212-218 | cleanup can drop another subscription exactly when no publish is inside the lock, and each drop leaves one fewer |
| ClientProtocol.IdsDistinctIff | internal/tui/client.go:154 | the ids that a run has handed out are distinct and never 0 exactly below 2^32 requests |
| ClientProtocol.StepKeeps | internal/tui/client.go:84-207 | every step keeps channels, pending entries and answers in agreement |
| ClientProtocol.RepliesCarryTheirIds | internal/tui/client.go:84-207 | in every run an envelope that a request returns carries the request's own id and is not an error, and nothing is sent to or closed on a closed channel |
| ClientProtocol.RepliesReachTheirRequests | internal/tui/client.go:84-207 | below 2^32 requests and with a peer that answers each id once, that envelope is the one sent for it, the reader never blocks on a reply channel, and a returned request is no longer pending |
| ClientProtocol.NobodyWaitsForADeadReader | internal/tui/client.go:85-97 | once the reader is gone every request can step by itself and each step brings it nearer to returning |
| ClientProtocol.ReaderClosesWhatIsPending | internal/tui/client.go:85-97 | as it leaves, the reader closes the channel of every request pending then, for good |
| ClientProtocol.ReplyIsReturned | internal/tui/client.go:104-201 | over any run, a reply read while its request is pending is what the request returns, as an error if its type says so, unless the request gives up by itself |
| ClientProtocol.ReplyProceeds | internal/tui/client.go:104-201 | and until it is returned some step that brings it nearer can be taken |
| ClientProtocol.StuckForever | internal/tui/client.go:108-110 | a reader holding a second answer for a request that left its channel full stays so through every continuation of the run |
| ClientProtocol.MayStickIff | internal/tui/client.go:104-110 | with nothing more delivered some continuation blocks the reader for good exactly when it holds a reply for a channel that already holds one |
| ClientProtocol.TwoAnswersCanBlockTheReader | internal/tui/client.go:104-203 | a run in which a peer that answers twice brings that about |
| Codec.HeaderRoundTrip | internal/protocol/codec.go:24-25 | the big-endian header reads back as the length written |
| Codec.Writer.WriteMsg | internal/protocol/codec.go:15-31 | appends one frame, or refuses an envelope that does not marshal or is over 16 MiB and writes nothing |
| Codec.Reader.ReadMsg | internal/protocol/codec.go:34-55 | reads one frame off the front, or says why not |
| Codec.FrameIff | internal/protocol/codec.go:15-31 | an envelope can be written exactly if it marshals to at most 16 MiB, and its frame is that length and those bytes |
| Codec.ReadOneIff | internal/protocol/codec.go:34-55 | exactly which bytes read as an envelope, and which as the end of file |
| Codec.RoundTrip | internal/protocol/codec.go:15-55 | writing a list and reading the stream back gives the list and then end of file |
| Codec.CutFrameStops | internal/protocol/codec.go:34-48 | a cut frame gives no envelope: end of file before or right after its header, an error elsewhere |
| Codec.PrefixRoundTrip | internal/protocol/codec.go:15-55 | any prefix of a stream reads as exactly the envelopes complete in it, then end of file or an error as the cut decides |
| LogParse.ParseLogfmtFields | internal/agent/logparse.go:190-244 | the scanner stays in bounds, terminates on every line, and finds what its items say |
| LogParse.LogfmtRoundTrip | internal/agent/logparse.go:190-244 | on a line of space-separated plain or quoted pairs it finds, for each wanted key up to case, exactly the raw text of the last value given |
| LogFields.ParsePlainLevel | internal/agent/logparse.go:75-126 | skips timestamp-like tokens and stops at the first other token, level or not |
| LogFields.ParseLogFields | internal/agent/logparse.go:12-63 | JSON first, then logfmt, then plain text, each only if it gives something |
| LogFields.DisplayMessageEmptyIff | internal/agent/logparse.go:12-63 | whatever JSON decoding gives, the display message is empty exactly for the empty line |
| LogFields.LevelNormalized | internal/agent/logparse.go:247-262 | the level is one of the four normal forms or none |
| LogFields.TimestampedLevelFound | internal/agent/logparse.go:65-120 | after any number of timestamp tokens a level in any case is found, and the rest of the line is the message |
| LogLines.LevelIsNamed | internal/agent/logparse.go:247-262 | the words for each level, in any case and between blanks; any other text is none |
| LogLines.FirstWordDecides | internal/agent/logparse.go:65-126 | on a plain line the first token that is not part of a timestamp decides: in brackets, after a timestamp or with a colon any case will do, otherwise only capitals |
| LogLines.StampIff | internal/agent/logparse.go:94-109 | a token is part of a timestamp exactly if it has a digit and is not a level in brackets |
| LogLines.LineIsParsedAs | internal/agent/logparse.go:12-63 | which format a line is taken for, and which of its fields give the level and the message |
| LogLines.TrimIs | internal/agent/logparse.go:107-120 | trimming drops the blanks around a text and nothing else |
| LogLines.LettersFold | internal/agent/logparse.go:247-262 | folding takes an ASCII letter to the same one in the other case and changes nothing else |
| Backfill.LogStore.SelectBatch | internal/agent/store.go:361-364 | any 1000 blank rows, or all there are |
| Backfill.LogStore.UpdateBatch | internal/agent/store.go:398-417 | exactly the rows of the batch take what their messages parse to |
| Backfill.LogStore.BackfillLogFields | internal/agent/store.go:359-429 | ends whenever fewer than 1000 blank rows have an empty message, with every originally blank row filled and every other untouched |
| Backfill.BatchShrinks | internal/agent/store.go:382-413 | a batch leaves exactly the fillable rows outside it, and all rows with an empty message |
| Backfill.LoopEndsIff | internal/agent/store.go:382-424 | the loop is sure to end, whichever rows the batches pick, exactly when fewer than 1000 blank rows have an empty message |
| Backfill.NextBatchIsFull | internal/agent/store.go:382-424 | from 1000 such rows on, every batch is full whatever was picked before, so the loop never ends |
| Ring.RingBuffer.Push | internal/tui/state.go:21-27 | the buffer then holds the last values pushed, oldest overwritten first |
| Ring.RingBuffer.Data | internal/tui/state.go:30-40 | the last `size` values pushed since the reset, in push order |
| Ring.RingBuffer.Last | internal/tui/state.go:43-50 | the newest value, if any |
| Ring.RingBuffer.Reset | internal/tui/state.go:58-61 | nothing is stored |
| Ring.KeptAfterPush | internal/tui/state.go:21-27 | writing at the head adds a value and, when full, drops the oldest |
| LogHistory.InjectDeploySeparators | internal/tui/detail_log.go:19-45 | a separator exactly before each entry whose container name last appeared under another ID, events aside |
| LogHistory.RedeploysIffSeen | internal/tui/detail_log.go:31-32 | the map of last-seen IDs detects exactly the redeploys |
| LogHistory.ErasingGivesBack | internal/tui/detail_log.go:25-44 | erasing the separators gives back the entries |
| LogHistory.SeparatorsAnnounce | internal/tui/detail_log.go:33-39 | a separator comes right before an entry, at its time and about its container, and is an event that says so |
| LogHistory.ReverseInPlace | internal/tui/detail.go:278-281 | the page reversed |
| LogHistory.DetailState.HandleBackfill | internal/tui/detail.go:259-307 | which replies are ignored, stale, empty or used, and that a used one leaves the last 500 of older history and live entries |
| LogHistory.LiveEntriesSurvive | internal/tui/detail.go:291-299 | no live entry is lost |
| LogHistory.OlderIsKept | internal/tui/detail.go:284-296 | of the history exactly what is older than the first live entry is kept, in order; a first live entry at time zero counts as none |
| LogHistory.ErasingSeparatorsGivesHistory | internal/tui/detail.go:289-296 | the view keeps the end of the page's older entries with the separators inserted among them, cut only when full, and with these erased it is the end of the older entries |
| LogHistory.MergedAscendingIff | internal/tui/detail.go:278-299 | when the merged view is in order, both directions |
| PrettyMap.RawToPrettyMap | internal/tui/detail_highlight.go:37-63 | if the texts agree once whitespace is erased, each significant byte goes to the equal byte of the same rank, in range; the map is monotone, strictly on significant bytes, for any texts |
| PrettyMap.CorrespondsUnique | internal/tui/detail_highlight.go:35-36 | that determines where each significant byte goes |
| PrettyMap.ErasesGaps | internal/tui/detail_highlight.go:35-63 | what is erased is exactly the whitespace between tokens; string literals stay whole, with their escapes |
| PrettyMap.SignificantIsLeft | internal/tui/detail_highlight.go:35-63 | the significant bytes are those that are left, each at the position that its rank says |
| Masked.MaskedField.TypeRune | internal/tui/detail_log.go:164-176 | accepts a digit at the cursor and moves past literals; anything else changes nothing |
| Masked.MaskedField.Backspace | internal/tui/detail_log.go:178-197 | restores the last editable slot before the cursor, if any, and recomputes whether anything is typed |
| Masked.MaskedField.Fill | internal/tui/detail_log.go:199-209 | fills the editable slots the value reaches |
| Masked.MaskedField.Resolved | internal/tui/detail_log.go:211-216 | the slots, or nothing if untouched |
| Masked.InvHolds | internal/tui/detail_log.go:126-197 | over every run of keystrokes literals stay, the cursor is editable or at the end, and a slot is typed exactly when editable and before the cursor |
| Masked.BackspacesUndoDigits | internal/tui/detail_log.go:164-197 | as many backspaces as accepted digits restore the field completely |
| Masked.FreshShows | internal/tui/detail_log.go:126-162 | a fresh field shows the current time where the format has digits, and resolves to nothing |
| Masked.TypedDigitsShow | internal/tui/detail_log.go:164-176 | the digits that are accepted show in the editable slots before the cursor, in order |
| Masked.FillShowsValue | internal/tui/detail_log.go:199-209 | filling in a whole value that agrees with the literals makes the field show and resolve to it |
| Masked.FillStops | internal/tui/detail_log.go:199-209 | a shorter value leaves the slots it does not reach as they were |
| Masked.FillKeepsIff | internal/tui/detail_log.go:199-209 | exactly which values can be filled in without breaking that |

## Left out

- Failing database statements: every statement on the alerts table succeeds. An insert that fails leaves a firing instance with no row, and a failed update leaves a row unresolved.
- The moment between retiring an old alerter and installing the new one: a reload is one step.
- Silences have a lock of their own in the source, so a silence can be set between two firings of one evaluation; here it is set before or after the whole evaluation.
- The clock reading of a silence check is a function of the instance's key within one evaluation; that is every reading the code can take as long as the things in a snapshot are distinct.
- alertInstance pointers are values in the map, since no pointer outlives the map entry it came from.
- AlertTimers.FiresExactlyWhenDue: starts from an inactive instance; each new cycle of an instance is a new start.
- Message text, severities, the state-change callback, rule listings and test notifications.
- Reading and validating the configuration and parsing conditions; rules are given.
- Docker, /proc, sockets, SMTP and webhooks.
- float64 rounding: real numbers stand for float64, so a value that rounds across a bucket edge is outside the model.
- DownsampleContainers.PeakIsKept: speaks of memory only for a series longer than n, because a shorter one keeps one whole record per bucket.
- The order in which the grouped container query returns rows, its filters, and its columns other than CPU and memory.
- The order in which goroutines waiting for the hub's lock get it: a publish that waits has not begun, and which step comes next is open.
- The cap on the number of points and the choice between raw and downsampled queries.
- Subscription filters, the forwarding goroutines of connections and their writes to the socket.
- Decoding of streaming messages and error bodies in the client, which only choose between an envelope and an error.
- msgpack: any pair of functions in which unmarshalling inverts marshalling. JSON decoding: any function.
- Unicode: letters are folded and blanks trimmed as in ASCII, on bytes.
- LogParse.LogfmtRoundTrip: for lines of well-formed pairs; on any other line only bounds, termination and the scan itself are stated.
- A database that changes while the backfill runs, and errors that abort it.
- The TUI's rendering, key handling, themes and dialogs, and the SSH tunnel.
