# Verification model

A Dafny model of the parts of NetInv that keep state and have meaning without
the network, the databases or the screen, with proofs about all their inputs
and all their runs.

| file | what it models |
|---|---|
| `FlowWriter.dfy` | the flow queue, its retries and the token each insert carries |
| `TemplateCache.dfy`, `RecordWalk.dfy`, `IpfixTemplates.dfy`, `V9Templates.dfy`, `FlowRecords.dfy`, `FlowDecode.dfy` | NetFlow v9 (RFC 3954) and IPFIX (RFC 7011) decoding over a bounded, expiring template cache |
| `SFlow.dfy` | sFlow version 5 decoding over XDR (RFC 4506) |
| `Aggregator.dfy` | per-interface counters with a cap, an overflow bucket and a top-N drain |
| `FlowAccounting.dfy` | the collector's dispatch and hand-over to the aggregator: from a run of datagrams to buckets |
| `SyncDiff.dfy`, `SyncRuns.dfy`, `SyncDiffer.dfy` | inventory reconciliation: which stored interface a reported one is |
| `AlertEvaluator.dfy`, `NoiseSuppression.dfy` | firing, resolving, flapping, and which interface series are worth an alert |
| `PollerBuffer.dfy` | a poller's batch, its disk buffer and their interleavings |
| `RateLimiter.dfy` | the trap rate limiter, its sweep, and the cap on trap names |
| `QueryPacking.dfy` | packing report expressions into queries |
| `TokenFamilies.dfy` | refresh-token families |
| `PrefixRange.dfy`, `GeoTable.dfy` | prefix filters and address range lookup |
| `Common.dfy`, `Wrap.dfy`, `Bytes.dfy`, `FlowTypes.dfy` | shared vocabulary |

Each component has a specification in functions and predicates, methods and
classes in the source's own form proved against it, and lemmas about the
specification. Concurrent parts (the flow writer, the poller) are state machines
whose steps are the source's critical sections and unlocked operations; their
theorems quantify over every sequence of steps. Encoders are written as ghost
functions so that decoding can be proved to undo them.

What the surroundings do is a parameter: clocks, outcomes of inserts, sends and
repository calls, lookups, hashes and text rendering. Maps are walked in an
arbitrary order. Counters the source keeps in 64 bits wrap modulo 2^64.

## Where code and documentation part

The model follows the code.

- Reports are packed "into as few queries as fit under the length limit". The
  loop counts one separator too many: this holds for any expressions of which no
  two or more in a row, joined, come within four bytes of the limit, and fails
  for such a row alone (`QueryPacking.FewestExactlyWhenNoneJustMisses`).
- "Flapping alerts stop notifying until stable": only their firings do; their
  resolves are announced (`AlertEvaluator.FlappingIsNotQuiet`).
- The service side names an exchange, but a lone zero port is replaced when it is
  the source and believed when it is the destination
  (`Aggregator.ApplicationIgnoresDirection`).
- "One live token per family" needs refreshes that do not overlap
  (`TokenFamilies.InterleavedRefreshesFork`).
- "Reuse of a consumed token revokes the whole family" unless revoking fails: its
  error is ignored (`TokenFamilies.ReuseEndsTheFamily`).
- A batch spilled to disk may be the one the cap removes
  (`PollerBuffer.NewestSurvivesIfItFits`).
- The drain discards "corrupt" files; it takes any read error for corruption, so
  one failed read of an intact batch loses it uncounted
  (`PollerBuffer.AllHeldExactlyWhenReadsWork`).
- The sweep forgets sources "idle long enough to have refilled": with requests
  timed by another clock reading this holds up to half a minute of stepping back
  (`RateLimiter.InvisibleUpToHalfAMinute`, `RateLimiter.HalfAMinuteIsTheMost`).
- A number too wide for its attribute becomes zero, never its low bits, up to
  eight bytes of width (`FlowRecords.NarrowsRightUpToEightBytes`).
- IPFIX withdrawals are skipped and leave cached templates as they are. An
  options withdrawal is read with a scope count it does not have (RFC 7011
  section 8.1), which hides the definitions after it
  (`IpfixTemplates.ReadRightExactlyWhenWithdrawalsLast`).

## Model

| member | source | states |
|---|---|---|
| FlowWriter.StoreHoldsAcceptedPrefix | backend/internal/flowstore/writer.go:70-160 | over every interleaving of adding and the single flusher, inserts that land but report failure included, the store holds the accepted rows in acceptance order, each once: everything committed, what the flush in progress has had acknowledged, and at most the batch then at the head; between flushes nothing is acknowledged and not committed |
| FlowWriter.NothingLostUncounted | backend/internal/flowstore/writer.go:70-168 | every offered row is committed, queued or counted as dropped; the queued counter is exact and never above the bound |
| FlowWriter.OnlyLastSendIsRepeated | backend/internal/flowstore/writer.go:118-152 | a token sent twice was sent twice in a row, with the same rows |
| FlowWriter.CleanFlushDelivers | backend/internal/flowstore/writer.go:118-160 | whatever failed before, one flush without failures leaves the store with exactly the accepted rows and the queue empty |
| FlowWriter.CutKeepsRows | backend/internal/flowstore/writer.go:119-131 | cutting the queue into batches loses, reorders and renumbers nothing |
| FlowWriter.SendLoopIsARun | backend/internal/flowstore/writer.go:133-152 | the send loop is a run of single sends, so the theorems over runs cover it |
| FlowWriter.Writer.Add | backend/internal/flowstore/writer.go:70-95 | one critical section: what fits is appended, the rest is counted as dropped |
| FlowWriter.Writer.BeginFlush | backend/internal/flowstore/writer.go:119-131 | first critical section of a flush: pending rows become numbered batches behind those being retried |
| FlowWriter.Writer.SendAll | backend/internal/flowstore/writer.go:133-152 | the unlocked loop sends in order and stops at the first failure |
| FlowWriter.Writer.EndFlush | backend/internal/flowstore/writer.go:154-160 | last critical section: exactly the landed batches leave the retry list and the counters follow |
| FlowWriter.Writer.Flush | backend/internal/flowstore/writer.go:118-160 | a whole flush is the three sections in sequence |
| FlowWriter.Client.Insert | backend/internal/flowstore/writer.go:137-143 | an insert that lands is stored once per token, reported or not |
| TemplateCache.HitIsNewest | backend/internal/flow/netflow9.go:215-252 | after any run on any clock the cache is within its bound and a hit is the newest definition announced for that key, within its time to live |
| TemplateCache.LiveEntrySurvives | backend/internal/flow/netflow9.go:215-252 | no operation on one key removes another key's unexpired template |
| TemplateCache.RefusedExactlyWhenFull | backend/internal/flow/netflow9.go:215-229 | an announcement is refused exactly when it is new and unexpired templates fill the bound |
| TemplateCache.BoundIsInvisible | backend/internal/flow/netflow9.go:215-252 | with a clock that does not step back and room at every announcement, every answer is that of an unbounded cache |
| TemplateCache.BoundShowsWhenFull | backend/internal/flow/netflow9.go:215-229 | the room condition is needed: a second live template does not fit in a cache of one |
| TemplateCache.LearnedWithRoom | backend/internal/flow/netflow9.go:215-229 | with room, every announcement is learned and the last definition of an id wins |
| TemplateCache.Cache.Put | backend/internal/flow/netflow9.go:215-229 | one announcement on the maps: expire, refuse when full, else store |
| TemplateCache.Cache.Get | backend/internal/flow/netflow9.go:232-244 | a lookup answers with an unexpired entry only, and removes one found expired |
| TemplateCache.Cache.ExpireLocked | backend/internal/flow/netflow9.go:246-252 | exactly the expired entries go, in whatever order the map is walked |
| RecordWalk.DecodingUndoesEncoding | backend/internal/flow/netflow9.go:434-492 | for any layout, any records in either length form of RFC 7011 section 7 and any padding too short for a record, exactly those records come out |
| RecordWalk.FastPathIsTheWalk | backend/internal/flow/netflow9.go:438-453 | without variable fields, indexing by multiplication yields what walking would |
| RecordWalk.EachRecord | backend/internal/flow/netflow9.go:434-492 | the calls made, in order, are the records of the layout |
| RecordWalk.EachFixed | backend/internal/flow/netflow9.go:438-453 | the multiplicative loop over fixed-width records |
| RecordWalk.WalkOne | backend/internal/flow/netflow9.go:458-491 | the sequential loop over one record's fields, giving up when one does not fit |
| RecordWalk.TakeField | backend/internal/flow/netflow9.go:462-486 | one field in the fixed, short or long form |
| Bytes.BeUint | backend/internal/flow/netflow9.go:648-656 | a big-endian number of any width, modulo 2^64 |
| IpfixTemplates.ParsingUndoesEncoding | backend/internal/flow/ipfix.go:109-172 | a template or options-template set of RFC 7011 sections 3.2, 3.4.1 and 3.4.2, enterprise and plain fields mixed, parses to exactly the definitions encoded; withdrawals in the form of section 8.1 stand anywhere in a template set, and after the definitions in an options set |
| IpfixTemplates.SetReachesCache | backend/internal/flow/ipfix.go:109-172 | given room, after such a set is parsed the cache answers with the last definition of every id |
| IpfixTemplates.ReadRightExactlyWhenWithdrawalsLast | backend/internal/flow/ipfix.go:111-130 | options sets with their withdrawals at given places are parsed as encoded, whatever their definitions, exactly when no definition follows a withdrawal |
| IpfixTemplates.OnlyEarlierDefinitionsAreLearned | backend/internal/flow/ipfix.go:111-134 | when the number of the first field is above the scope count, as it is for the usual scope fields, a withdrawal before a definition drops it and the rest of the set; the definitions before are learned |
| IpfixTemplates.WithdrawalsAnnounceNothing | backend/internal/flow/ipfix.go:120-130 | any number of options withdrawals, read two bytes too long each, announce nothing, whatever the padding |
| IpfixTemplates.ParseIpfixTemplates | backend/internal/flow/ipfix.go:109-172 | the loop over a set learns what the set announces, in order |
| IpfixTemplates.ParseOne | backend/internal/flow/ipfix.go:111-170 | one record of the set: its header, its scope count, its fields |
| IpfixTemplates.ReadTemplate | backend/internal/flow/ipfix.go:136-164 | the field loop: enterprise numbers taken where flagged, variable lengths noted |
| V9Templates.ParsingUndoesEncoding | backend/internal/flow/netflow9.go:369-425 | an encoded template or options-template FlowSet of RFC 3954 sections 5.2 and 6.1 parses to exactly its definitions, whatever the padding |
| V9Templates.LearnFlowSet | backend/internal/flow/netflow9.go:369-425 | the loop over a FlowSet learns what it announces, in order |
| V9Templates.ReadTemplate | backend/internal/flow/netflow9.go:371-391 | one template definition, or the end of the FlowSet |
| V9Templates.ReadOptions | backend/internal/flow/netflow9.go:397-421 | one options definition: scope and option lengths in bytes, refused when they do not tile |
| V9Templates.ReadLayout | backend/internal/flow/netflow9.go:379-387 | the field loop and the record length it adds up |
| FlowRecords.ScaledExactlyOnce | backend/internal/flow/netflow9.go:496-590 | a record's counters are its raw sums times exactly one rate modulo 2^64: its own if above 1, else the last announced, else 1; sampled exactly when that rate is above 1 |
| FlowRecords.SamplingSettles | backend/internal/flow/netflow9.go:349-367 | scaling touches the counters only and applying an interval again changes nothing |
| FlowRecords.SamplingFieldFloats | backend/internal/flow/netflow9.go:496-590 | where the sampling field stands among the counters makes no difference |
| FlowRecords.NarrowsRightUpToEightBytes | backend/internal/flow/netflow9.go:614-656 | a value too wide for its attribute reads as zero and any other as itself, exactly for fields of at most eight bytes; a wider one loses its high bytes first |
| FlowRecords.ReadRecord | backend/internal/flow/netflow9.go:496-590 | one row read field by field in place is the record the row describes |
| FlowRecords.ReadField | backend/internal/flow/netflow9.go:504-561 | one field's effect on the record being read |
| FlowRecords.Accumulate | backend/internal/flow/netflow9.go:510-513 | counters of one kind add up modulo 2^64 |
| FlowRecords.Packet.ApplySampling | backend/internal/flow/netflow9.go:352-367 | rewrites every record by the announced interval, in place and once |
| FlowDecode.MessageIsFold | backend/internal/flow/netflow9.go:295-347 | a well-formed message decodes to the fold of its sets: the records of data sets whose template was known when reached, in order, and a count of the rest |
| FlowDecode.FoldSplits | backend/internal/flow/netflow9.go:310-341 | the fold goes set by set: later sets see all that earlier ones taught |
| FlowDecode.OnlyEarlierSetsMatter | backend/internal/flow/ipfix.go:69-98 | what a set yields depends only on the sets before it |
| FlowDecode.TrailingBytesIrrelevant | backend/internal/flow/ipfix.go:50-60 | bytes past an IPFIX message's declared length change nothing |
| FlowDecode.TemplateThenData | backend/internal/flow/ipfix.go:43-100 | templates announced and data under one of them yield exactly the flows encoded |
| FlowDecode.IpfixBytesAreFlows | backend/internal/flow/ipfix.go:43-102 | from the wire to flows: the bytes of an IPFIX message of templates and data decode to exactly the flows encoded, sampled by what the exporter announced before |
| FlowDecode.V9TemplateThenData | backend/internal/flow/netflow9.go:295-347 | the same for NetFlow v9 FlowSets |
| FlowDecode.V9BytesAreFlows | backend/internal/flow/netflow9.go:295-347 | the same for the bytes of a v9 datagram |
| FlowDecode.AdvancingIsFolding | backend/internal/flow/ipfix.go:69-98 | accumulating records and misses as the loop does gives the fold |
| FlowDecode.IntervalIsLastStated | backend/internal/flow/netflow9.go:261-276 | a message is sampled by the last interval stated in it, or else the one remembered of its exporter, or else none; no other exporter's is touched |
| FlowDecode.DecodeNetFlowV9 | backend/internal/flow/netflow9.go:295-347 | a v9 datagram, sampled at its end by what the exporter last announced |
| FlowDecode.DecodeIpfix | backend/internal/flow/ipfix.go:43-102 | an IPFIX message, cut to its declared length |
| FlowDecode.DecodeBody | backend/internal/flow/ipfix.go:66-101 | the shared end of both decoders: walk the sets, apply the sampling |
| FlowDecode.WalkSets | backend/internal/flow/ipfix.go:69-98 | the loop over sets advances the cache and the packet as the fold says |
| FlowDecode.HandleSet | backend/internal/flow/ipfix.go:78-96 | one set by its id: learn, decode, or count as waiting |
| FlowDecode.NextSet | backend/internal/flow/ipfix.go:70-76 | the set framed here, or none when its length does not fit |
| FlowDecode.ReadFlowData | backend/internal/flow/netflow9.go:496-590 | appends the flows of one data set |
| FlowDecode.ReadOptionsData | backend/internal/flow/netflow9.go:598-612 | the last interval an options data set states reaches the cache |
| SyncDiff.DiffPartitions | backend/internal/inventory/app/sync.go:126-227 | one upsert per reported interface in order; every live interface is matched by exactly one record, newly missing, still missing or removed |
| SyncDiff.ApplyKeepsPairsDistinct | backend/internal/inventory/app/sync.go:126-227 | distinct live and distinct reported index and name pairs stay distinct after applying |
| SyncDiff.ApplyKeepsIdsDistinct | backend/internal/inventory/adapters/postgres/sync.go:62-169 | applying keeps interface ids distinct |
| SyncDiff.SecondSyncIsQuiet | backend/internal/inventory/app/sync.go:126-227 | the same snapshot again reports no field change, creation, restoral or new absence |
| SyncDiff.RenumberingKeepsIdentity | backend/internal/inventory/app/sync.go:126-227 | with the same distinct names, any renumbering keeps every id and loses no interface |
| SyncDiff.HardwareIdentifies | backend/internal/inventory/app/sync.go:126-161 | with name and index new, the one free interface with that hardware address, in any case, and type is the match |
| SyncDiff.HistoryExplainsTheReport | backend/internal/inventory/app/sync.go:177-206 | replaying the reported changes on the stored interface, each from its old value, gives the reported one |
| SyncRuns.LifecycleCountsAbsences | backend/internal/inventory/app/sync.go:209-227 | over any run of syncs an interface is present exactly when just reported, missing with its streak counting the absences below three, removed for good from the third on |
| SyncDiff.MatchesAreTakenOnce | backend/internal/inventory/app/sync.go:145-175 | every match is a live row still free and no row is matched twice |
| SyncDiff.Origin | backend/internal/inventory/adapters/postgres/sync.go:62-169 | every live row after a sync is a reported record or an absent row, unchanged but for its lifecycle |
| SyncDiffer.BuildIndexes | backend/internal/inventory/app/sync.go:126-144 | the index maps answer as searching the rows would, the last live row winning |
| SyncDiffer.Match | backend/internal/inventory/app/sync.go:145-161 | index and name first, then name, then hardware, each only if still free |
| SyncDiffer.ResolveRecords | backend/internal/inventory/app/sync.go:162-207 | the loop over records resolves them in order and collects their changes |
| SyncDiffer.ClassifyAbsent | backend/internal/inventory/app/sync.go:209-227 | what is left over is split by state and streak, in any order |
| SyncDiffer.DiffInterfaces | backend/internal/inventory/app/sync.go:126-227 | the interface part of the differ computes the specified outcome |
| Aggregator.CappedIsExact | backend/internal/flow/aggregate.go:167-186 | a bucket other than "other" holds its key's exact total, "other" exactly the rest of its group, keys go without a bucket only once the table is full, and at most MaxKeys have one |
| Aggregator.AgreesWithUncapped | backend/internal/flow/aggregate.go:167-186 | every bucket with a value of its own equals the one of an unlimited table |
| Aggregator.DroppedCounts | backend/internal/flow/aggregate.go:167-186 | when no value is written "other", the dropped counter is the number of contributions without a bucket |
| Aggregator.NothingIsLost | backend/internal/flow/aggregate.go:167-186 | the buckets of a group, "other" included, add up to everything the group was given, modulo 2^64 |
| Aggregator.TotalsAreHonest | backend/internal/flow/aggregate.go:123-186 | per exporter and interface, conversation, application, protocol and DSCP each add up to the attributable bytes and talkers to twice them, at any cap |
| Aggregator.ConversationIgnoresDirection | backend/internal/flow/aggregate.go:245-250 | both directions of an exchange are one conversation |
| Aggregator.ApplicationIgnoresDirection | backend/internal/flow/aggregate.go:263-289 | an exchange is named alike in both directions exactly when an end is recognised or the ports are both zero or both not |
| Aggregator.RankIsPosition | backend/internal/flow/aggregate.go:199-232 | in a sorted group exactly the rows before a bucket beat it |
| Aggregator.Aggregator.AddKey | backend/internal/flow/aggregate.go:167-186 | one contribution on the map: its own bucket, or "other" when new and full |
| Aggregator.Aggregator.AddRecord | backend/internal/flow/aggregate.go:136-163 | one record contributes to every dimension it has, by its ingress interface or else its egress one |
| Aggregator.Aggregator.Add | backend/internal/flow/aggregate.go:123-165 | a packet contributes its records in order |
| Aggregator.Aggregator.Drain | backend/internal/flow/aggregate.go:199-232 | hands out in each group the buckets fewer than N others beat, and starts a new interval |
| Aggregator.TopOf | backend/internal/flow/aggregate.go:211-231 | grouping, sorting and cutting keep exactly the top N of each group, once each |
| FlowAccounting.RunIsCounted | backend/internal/flow/collector.go:172-240 | over any run of NetFlow, IPFIX and sFlow datagrams between two drains, well formed or not, from any exporters and whatever templates were known before: at any cap, conversation, application, protocol and DSCP of an exporter's interface each add up to what its datagrams are worth there, and talkers to twice that, modulo 2^64 |
| FlowAccounting.MessageIsCounted | backend/internal/flow/netflow9.go:295-347 | a v9 or IPFIX message is handed on exactly when its framing holds, and carries per interface what its flow rows are worth: each row's octets, read with the template known when its set is reached, times its one rate |
| FlowAccounting.IpfixIsWorth | backend/internal/flow/ipfix.go:43-102 | an encoded IPFIX message of templates and data is worth exactly the rows encoded |
| FlowAccounting.V9IsWorth | backend/internal/flow/netflow9.go:295-347 | the same for an encoded v9 datagram |
| FlowAccounting.DatagramIsCounted | backend/internal/flow/collector.go:172-240 | a datagram goes to the decoder its first bytes name; what it hands on carries what it is worth, and nothing when it does not decode |
| FlowAccounting.IpfixBytesAreCounted | backend/internal/flow/aggregate.go:123-186 | for one IPFIX message into an empty interval, from its bytes to the buckets: the octets of the rows exported on an interface, each times its own rate |
| FlowAccounting.V9BytesAreCounted | backend/internal/flow/aggregate.go:123-186 | the same from the bytes of a v9 datagram |
| FlowAccounting.SflowBytesAreCounted | backend/internal/flow/aggregate.go:123-186 | the same from the bytes of an sFlow datagram, each sample counted by what it decodes to alone |
| FlowAccounting.RowsAreCounted | backend/internal/flow/aggregate.go:136-163 | the records decoded from rows carry, interface by interface, what the rows are worth |
| FlowAccounting.AddressesStayApart | backend/internal/flow/aggregate.go:245-250 | different addresses stay different to the aggregator |
| AlertEvaluator.EveryRunKeeps | backend/internal/alerting/app/evaluator.go:121-235 | in every run at most one instance of a series is live, firings and resolves take turns, flaps follow the window rule, and a firing is announced at most once and never while flapping |
| AlertEvaluator.EvaluationSettles | backend/internal/alerting/app/evaluator.go:121-235 | after an evaluation the live series are exactly the matching ones |
| AlertEvaluator.UnchangedSeriesDoNothing | backend/internal/alerting/app/evaluator.go:137-146 | evaluating the same series again, in any order or number, changes nothing |
| AlertEvaluator.ChainIsAnnouncedAtMostThrice | backend/internal/alerting/domain/alert.go:56-63 | of any chain of re-fires each within the window of the last resolve, at most FlapThreshold firings are announced, the first ones |
| AlertEvaluator.ChainCountsUp | backend/internal/alerting/app/evaluator.go:148-151 | along such a chain the flap count goes up by one each time |
| AlertEvaluator.FlappingEndIsAnnounced | backend/internal/alerting/app/evaluator.go:312-327 | in any run, a flapping instance was never announced as fired, yet its end is, unless silenced |
| AlertEvaluator.FlappingIsNotQuiet | backend/internal/alerting/app/evaluator.go:312-327 | a run that reaches it: a series that comes and goes more than three times has its last, flapping, instance's end announced and not its firing |
| AlertEvaluator.BouncingIsReached | backend/internal/alerting/app/evaluator.go:121-235 | such a run exists for any number of comings and goings, and leaves exactly these instances, events and notices |
| AlertEvaluator.BouncedNotices | backend/internal/alerting/app/evaluator.go:312-327 | of such a series every end is announced, and of its firings exactly the first three |
| AlertEvaluator.RecentIsLast | backend/internal/alerting/adapters/postgres/store.go:93-104 | the newest resolved instance within the window is the last one of its series |
| AlertEvaluator.MarkKeepsInv | backend/internal/alerting/adapters/postgres/store.go:223-250 | acknowledging and taking it back keep every alert live and every count |
| AlertEvaluator.Evaluator.EvalRule | backend/internal/alerting/app/evaluator.go:121-235 | fires what is new once each, then resolves what no longer matches, in any order |
| AlertEvaluator.Evaluator.FireNew | backend/internal/alerting/app/evaluator.go:137-218 | the firing loop: duplicates collapse, live series are left alone |
| AlertEvaluator.Evaluator.ResolveUnmatched | backend/internal/alerting/app/evaluator.go:220-234 | the resolving loop over the live map, each instance once |
| AlertEvaluator.Evaluator.Fire | backend/internal/alerting/app/evaluator.go:147-217 | one firing with its flap count, its event and its notice |
| AlertEvaluator.Evaluator.Resolve | backend/internal/alerting/app/evaluator.go:226-232 | one resolve with its event and its notice |
| AlertEvaluator.Evaluator.Notify | backend/internal/alerting/app/evaluator.go:312-327 | flapping firings are announced to nobody, silenced ones only noted |
| AlertEvaluator.Evaluator.Newest | backend/internal/alerting/adapters/postgres/store.go:93-104 | the newest resolved instance of a series since a moment |
| NoiseSuppression.EveryConsequenceHasACause | backend/internal/alerting/app/evaluator.go:263-309 | whatever is dropped as dependent has a firing dotted ancestor on its device whose own parent is not firing, dropped itself only if never up |
| NoiseSuppression.IndexlessPasses | backend/internal/alerting/app/evaluator.go:241-309 | with inventories keyed by written interface indexes, as the store keys them, every series without an index passes |
| NoiseSuppression.IndexlessPassesUnlessListed | backend/internal/alerting/app/evaluator.go:281-304 | for any inventory at all: it passes exactly unless its device was looked up for another series and an entry under the empty index is dependent or never up |
| NoiseSuppression.KeepIsSubsequence | backend/internal/alerting/app/evaluator.go:281-304 | the result is a subsequence and holds exactly the series that are neither dependent nor never up |
| NoiseSuppression.ParentIsNearest | backend/internal/alerting/app/evaluator.go:241-246 | the parent is the longest proper dotted prefix, if there is one |
| NoiseSuppression.TopFires | backend/internal/alerting/app/evaluator.go:285-292 | following firing parents ends at one whose parent is not firing |
| NoiseSuppression.Survey | backend/internal/alerting/app/evaluator.go:264-280 | looks up each device once and notes which of its names are firing |
| NoiseSuppression.SuppressNoise | backend/internal/alerting/app/evaluator.go:263-309 | the second pass keeps what the specification keeps; without an inventory, everything |
| NoiseSuppression.FindParent | backend/internal/alerting/app/evaluator.go:241-246 | scans for the last dot, which must not come first |
| PollerBuffer.NothingVanishes | backend/internal/collection/pollerrt/runtime.go:463-503 | in every interleaving, whichever publishes, writes, reads and removals fail, every sample appended or left on disk is in memory, with a worker, on disk, published, in a file removed by the cap, or in a file discarded because reading it failed, as often as appended plus once per delivery or write that took while its batch was kept |
| PollerBuffer.FilesLeaveSentCountedOrUnread | backend/internal/collection/pollerrt/buffer.go:49-136 | in every run a file leaves the disk only after its publishing was reported, in order of age; counted as dropped; or when reading it failed |
| PollerBuffer.AllHeldExactlyWhenReadsWork | backend/internal/collection/pollerrt/buffer.go:117-126 | no sample goes missing uncounted exactly when no read of an intact batch fails and removes it |
| PollerBuffer.AReadErrorLosesASample | backend/internal/collection/pollerrt/buffer.go:117-120 | a run that loses one: a sample spilled, one failed read, and it is nowhere and counted nowhere |
| PollerBuffer.DroppedIsExactWhenRemovalsWork | backend/internal/collection/pollerrt/buffer.go:49-59 | the dropped counter is the number of files dropped exactly while every removal by the cap works; otherwise it is too high by those left standing |
| PollerBuffer.CapRemovesShortestPrefix | backend/internal/collection/pollerrt/buffer.go:49-59 | the cap removes a prefix of the oldest, no longer than needed for the rest to fit |
| PollerBuffer.FitsUnlessStuck | backend/internal/collection/pollerrt/buffer.go:49-59 | after the cap the disk holds at most the limit, and what could not be removed |
| PollerBuffer.NewestSurvivesIfItFits | backend/internal/collection/pollerrt/buffer.go:34-47 | a batch just written survives its own cap exactly when it fits alone |
| PollerBuffer.EveryRunKeeps | backend/internal/collection/pollerrt/buffer.go:34-136 | every run, failures included, keeps the accounts and the order of replay |
| PollerBuffer.DiskBuffer.Put | backend/internal/collection/pollerrt/buffer.go:34-47 | writes a batch and makes the directory fit; a write that fails changes nothing or leaves a file behind |
| PollerBuffer.DiskBuffer.EnforceCap | backend/internal/collection/pollerrt/buffer.go:49-59 | removes oldest first while the running total is above the cap, counting each, removed or not |
| PollerBuffer.DiskBuffer.Inventory | backend/internal/collection/pollerrt/buffer.go:67-84 | lists the files and adds up their sizes |
| PollerBuffer.DiskBuffer.Drain | backend/internal/collection/pollerrt/buffer.go:102-136 | replays as specified, turn by turn, with reads, sends and removals that fail |
| PollerBuffer.ReplayIsARun | backend/internal/collection/pollerrt/buffer.go:102-136 | a drain left alone is a run of the state machine: what it sends is published and what it loses is discarded |
| PollerBuffer.ReplayTakesOldest | backend/internal/collection/pollerrt/buffer.go:102-136 | a drain leaves a suffix of the files, and every file before it was sent or lost |
| PollerBuffer.ReplaySendsInOrder | backend/internal/collection/pollerrt/buffer.go:102-136 | what a drain sends was there and readable, and goes in order of age |
| PollerBuffer.CleanReplaySendsAll | backend/internal/collection/pollerrt/buffer.go:102-136 | while everything works a drain sends all there is, once each, oldest first |
| PollerBuffer.Runtime.Append | backend/internal/collection/pollerrt/runtime.go:463-474 | appends and says whether the batch is full |
| PollerBuffer.Runtime.Flush | backend/internal/collection/pollerrt/runtime.go:476-503 | a batch is published, spilled, or back in memory as it was |
| RateLimiter.RateIsBounded | backend/internal/events/listener.go:382-400 | even with timestamps out of order, the requests allowed up to an allowed one are at most burst plus rate times its distance from the first |
| RateLimiter.SourceIsBounded | backend/internal/events/listener.go:382-413 | the same for one source among any others, with sweeps at any moments, while no operation is over half a minute earlier than one before it |
| RateLimiter.HalfAMinuteIsTheMost | backend/internal/events/listener.go:382-413 | the bound survives sweeping for all rates, bursts and runs exactly when clocks step back by at most half a minute, to the nanosecond |
| RateLimiter.OverdrawnIsUnbounded | backend/internal/events/listener.go:402-413 | a run one nanosecond beyond: two traps allowed where less than two were earned |
| RateLimiter.UnsweptIsBounded | backend/internal/events/listener.go:382-400 | without sweeps the bound for one source holds however the clock steps |
| RateLimiter.SweepingIsInvisible | backend/internal/events/listener.go:402-413 | while the clock steps back by at most half a minute, sweeping at any moments changes no answer |
| RateLimiter.InvisibleUpToHalfAMinute | backend/internal/events/listener.go:382-413 | sweeping changes no answer for all rates, bursts and runs exactly when clocks step back by at most half a minute, to the nanosecond |
| RateLimiter.OverdrawnIsSeen | backend/internal/events/listener.go:402-413 | a run one nanosecond beyond: the swept limiter allows a trap the unswept one refuses |
| RateLimiter.SourcesAreSeparate | backend/internal/events/listener.go:382-400 | each source sees a bucket of its own |
| RateLimiter.IdleFills | backend/internal/events/listener.go:404-413 | a bucket idle long enough to be swept was full again half a minute before, even if it owed that much |
| RateLimiter.LabelsAreStable | backend/internal/events/listener.go:421-437 | a trap of a device is labelled alike from its first appearance on |
| RateLimiter.LabelsAreFew | backend/internal/events/listener.go:421-437 | a device uses at most max names besides "other" |
| RateLimiter.Limiter.Allow | backend/internal/events/listener.go:382-400 | one request on the bucket object |
| RateLimiter.Limiter.SweepIdle | backend/internal/events/listener.go:402-413 | forgets exactly the sources idle too long |
| RateLimiter.LabelCap.Label | backend/internal/events/listener.go:421-437 | one label on the per-device sets |
| QueryPacking.PackIsFewest | backend/internal/reports/bycustomer.go:204-222 | no way of cutting the expressions in order into batches that meet the loop's rule uses fewer queries |
| QueryPacking.PackKeepsAll | backend/internal/reports/bycustomer.go:204-222 | the batches put back together are the expressions in order, and each fits or is a single one |
| QueryPacking.QueriesFit | backend/internal/reports/bycustomer.go:162-166 | every query is one expression or at least four bytes within the limit |
| QueryPacking.FewestExactlyWhenNoBatchJustMisses | backend/internal/reports/bycustomer.go:196-222 | as few queries as fit under the limit are used exactly when four more bytes would save none |
| QueryPacking.FewestExactlyWhenNoneJustMisses | backend/internal/reports/bycustomer.go:196-222 | before packing: the expressions and every stretch of them go out in as few queries as fit exactly when no two or more in a row, joined, come within a separator of the limit |
| QueryPacking.FewestWhenNoneJustMisses | backend/internal/reports/bycustomer.go:196-222 | when none does, the expressions are packed into as few queries as fit under the limit |
| QueryPacking.TwoSentApart | backend/internal/reports/bycustomer.go:211 | two expressions that fit together are sent apart exactly in a four-byte window |
| QueryPacking.LimitCountsASeparatorTooMany | backend/internal/reports/bycustomer.go:162-166 | at the limit of 14000, two expressions of 6998 bytes, exactly the limit when joined, go out as two queries |
| QueryPacking.SelectorsNameExactly | backend/internal/reports/bycustomer.go:175-193 | the selectors name exactly the interfaces given, as often as given, one selector per device, indexes sorted |
| QueryPacking.SortSorts | backend/internal/reports/bycustomer.go:188 | sorting indexes as text orders them and keeps each |
| QueryPacking.PackExprs | backend/internal/reports/bycustomer.go:206-221 | the packing loop is greedy packing |
| QueryPacking.GroupByDevice | backend/internal/reports/series.go:222-230 | devices in order of first appearance, each with its indexes |
| QueryPacking.BatchGroups | backend/internal/reports/bycustomer.go:204-222 | groups are packed whole, in order |
| QueryPacking.InterfaceBatches | backend/internal/reports/series.go:221-248 | per-device selectors are packed in order |
| TokenFamilies.FamiliesStaySingle | backend/internal/iam/app/auth.go:64-203 | in every sequential run each family has at most one token neither rotated nor revoked |
| TokenFamilies.ReuseEndsTheFamily | backend/internal/iam/app/auth.go:146-158 | presenting a rotated or revoked token leaves its family without a live token exactly when revoking worked or none was live, and then for good |
| TokenFamilies.TokensAreSingleUse | backend/internal/iam/app/auth.go:139-190 | a token is exchanged at most once in any run |
| TokenFamilies.ExchangeKeepsSingle | backend/internal/iam/app/auth.go:168-177 | exchanging keeps families single exactly when the family has no other live token |
| TokenFamilies.InterleavedRefreshesFork | backend/internal/iam/app/auth.go:139-177 | two refreshes that both check before either exchanges leave two live tokens |
| TokenFamilies.LogoutEndsOneToken | backend/internal/iam/app/auth.go:193-203 | logging out withdraws the presented token alone |
| TokenFamilies.StepKeepsDead | backend/internal/iam/domain/user.go:41-50 | no operation revives a family without a live token |
| TokenFamilies.AuthService.Login | backend/internal/iam/app/auth.go:64-132 | a token of a new family, only after every check, the access token and the insert succeeded |
| TokenFamilies.AuthService.Refresh | backend/internal/iam/app/auth.go:139-190 | reuse revokes the family, an unusable token is refused, a usable one is rotated before its successor is inserted; when the access token then cannot be issued the successor lives on unheld |
| TokenFamilies.AuthService.Logout | backend/internal/iam/app/auth.go:193-203 | revokes one token, keeping the time of an earlier revocation |
| TokenFamilies.AuthService.WithdrawFamily | backend/internal/iam/app/auth.go:148-150 | every token of the family ends, others are untouched |
| SFlow.FormsAgree | backend/internal/flow/sflow.go:206-230 | a sample the compact form can hold decodes alike from either form, whatever its records |
| SFlow.DecodingIsPerSample | backend/internal/flow/sflow.go:141-189 | a datagram decodes to what each sample gives alone, in order, also without its last padding (RFC 4506 section 4.10) |
| SFlow.SamplesAreIndependent | backend/internal/flow/sflow.go:198-210 | replacing one sample, by a malformed one say, changes no other sample's records |
| SFlow.SamplesAreCounted | backend/internal/flow/sflow.go:232-280 | bytes are the frame length of the last header, or else the last IP data, times the rate, which is at least one; sampled exactly when above one |
| SFlow.ProductFits | backend/internal/flow/sflow.go:275-279 | scaled bytes never overflow 64 bits |
| SFlow.WorkIsBounded | backend/internal/flow/sflow.go:156-158 | however large the claimed counts, at most 512 records come out |
| SFlow.Path | backend/internal/flow/sflow.go:498-525 | reads at most 256 AS path entries |
| SFlow.PathUndoesEncoding | backend/internal/flow/sflow.go:498-525 | an encoded AS path is read back whole exactly when it has no more than 256 entries |
| SFlow.TakeUndoesOpaque | backend/internal/flow/sflow.go:86-105 | reading opaque data undoes writing it, a missing last padding forgiven |
| SFlow.FoldedLength | backend/internal/flow/sflow.go:232-263 | the frame length is the last header's, without one the last IP data's |
| SFlow.XdrReader.ReadWord | backend/internal/flow/sflow.go:74-82 | four bytes, or zero and failed for good; the offset stays in the buffer |
| SFlow.XdrReader.ReadBytes | backend/internal/flow/sflow.go:86-105 | opaque bytes and their padding; the offset stays in the buffer |
| SFlow.XdrReader.SkipOver | backend/internal/flow/sflow.go:107-113 | skips within the buffer, or fails for good |
| SFlow.XdrReader.ReadAddress | backend/internal/flow/sflow.go:117-131 | an address by its type; an unknown type fails for good |
| SFlow.XdrReader.ReadPath | backend/internal/flow/sflow.go:508-525 | the loop over path segments |
| SFlow.ReadExtGateway | backend/internal/flow/sflow.go:498-532 | the gateway record: all of it, or nothing |
| SFlow.DecodeSample | backend/internal/flow/sflow.go:206-280 | one sample in either form |
| SFlow.DecodeFrames | backend/internal/flow/sflow.go:160-187 | the loop over samples; broken framing discards everything |
| SFlow.DecodeDatagram | backend/internal/flow/sflow.go:141-189 | a datagram and its errors |
| PrefixRange.BetweenIsMembership | backend/internal/flowstore/query.go:427-440 | an address lies between a prefix's ends exactly when it agrees with the prefix on its first bits, for every length |
| PrefixRange.Ipv4PrefixSelectsIpv4 | backend/internal/flowstore/query.go:427-434 | an IPv4 prefix selects exactly the mapped IPv4 addresses agreeing on its own bits |
| PrefixRange.Range | backend/internal/flowstore/query.go:427-440 | setting the bits one by one gives the prefix's last address |
| PrefixRange.SetFrom | backend/internal/flowstore/query.go:435-438 | the bit-setting loop sets exactly the bits from there on |
| PrefixRange.Condition | backend/internal/flowstore/query.go:332-343 | the compiled filter accepts exactly the addresses of the prefix, host bits given or not |
| PrefixRange.CanonicalEnds | backend/internal/flowstore/query.go:340 | clearing the host bits first changes neither end |
| GeoTable.LastStartDecides | backend/internal/flow/geo/geo.go:99-127 | in sorted disjoint ranges the last one starting at or before an address decides as a linear scan would |
| GeoTable.ScanIgnoresOrder | backend/internal/flow/geo/geo.go:90-96 | for disjoint ranges the answer does not depend on insertion order |
| GeoTable.WordsAreNumbers | backend/internal/flow/geo/geo.go:92-96 | comparing two words is comparing 128-bit numbers |
| GeoTable.SortedLookup | backend/internal/flow/geo/geo.go:90-127 | sorting and searching answers as scanning the ranges as they were added, if none overlap |
| GeoTable.Search | backend/internal/flow/geo/geo.go:106 | the binary search finds the least index its predicate holds at |
| GeoTable.Table.Add | backend/internal/flow/geo/geo.go:74-88 | ends are unmapped; mixed families and reversed ends are refused |
| GeoTable.Table.Sort | backend/internal/flow/geo/geo.go:90-96 | both tables sorted by start, contents kept |
| GeoTable.Table.Find | backend/internal/flow/geo/geo.go:99-127 | binary search over either family |
| GeoTable.Table.Find4 | backend/internal/flow/geo/geo.go:101-111 | the IPv4 search |
| GeoTable.Table.Find6 | backend/internal/flow/geo/geo.go:115-126 | the IPv6 search by two-word comparison |

## Left out

- FlowWriter.Writer.Add: takes rows already built; turning a flow record into a row, its geographic fields and the encoding of a batch are not modelled, and a batch that fails to encode is an insert that fails.
- FlowWriter.StoreHoldsAcceptedPrefix: the store is taken to remember every token; the real deduplication window is finite, and the sequence number inside a token does not wrap.
- The flow writer's status report and counters beyond written, dropped, failed and queued.
- TemplateCache.Cache.Put: stores templates as values, so sharing one template object between the cache and a decoder is not captured; durations do not saturate.
- RecordWalk.EachRecord: collects its calls; the reuse of one value slice between calls on fixed-width records is not captured.
- FlowRecords.ReadRecord: covers the attributes the aggregates use; fields kept only for raw storage, the export clock and timestamps are left out.
- Error texts of the decoders: each refusal is one value.
- FlowDecode.V9TemplateThenData: for layouts without a field of 65535 bytes, the width that stands for a variable field in IPFIX; no FlowSet can hold a record with one.
- FlowAccounting.RunIsCounted: the decoder of NetFlow version 5 is a parameter, and its datagrams are worth what it reads; the allow list, the counters of the collector and raw storage are left out. How an address is written is a parameter.
- FlowDecode.OnlyEarlierSetsMatter: sampling intervals are the exception, as they are applied once at the end of a message; MessageIsFold states both.
- SyncDiff.Diff: interface part only; device fields, reboot detection, the connector rematch, device locking, topology links and the history rows of absences are left out, and address text is compared by ASCII case.
- SyncDiff.Apply: the effect of the SQL on interface rows, taken to store the reported values as given and to hand out new ids; the unique index on present interfaces of one ifIndex, which can refuse a snapshot reporting an index twice, is not modelled.
- Aggregator.Aggregator.Add: a nil packet is ignored by the source and has no counterpart; how addresses, subnets, protocols, code points, flags and numbers are written out is a parameter, as is the table of well-known ports.
- Aggregator.Aggregator.Drain: sorting is an insertion sort; the order between groups is left open, as in the source.
- AlertEvaluator.Evaluator.EvalRule: repository and query errors end or skip work in the source and are left out, as are the readable labels added after fingerprinting; fingerprints are a function of labels, silences a set of series per evaluation, and publishing is taken to be attempted once.
- AlertEvaluator.EveryRunKeeps: evaluations happen at strictly rising times.
- NoiseSuppression.SuppressNoise: returns the series only; the interface lookup it also returns serves labels.
- PollerBuffer.DiskBuffer.Put: listing a directory shows every file with its size, and stamps are distinct, rising and of equal length, so name order is age order; encoding a batch always succeeds.
- PollerBuffer.DiskBuffer.Drain: with nothing interleaved; interleavings are the steps of the state machine. Pacing and cancellation are the end of the list of attempts, which also bounds the turns spent on a file that can be neither read nor removed.
- RateLimiter.Limiter.Allow: tokens and rates are real numbers, so rounding is not modelled; rate and burst are positive, as their defaults make them.
- QueryPacking.BatchGroups: the wording of selectors and expressions is a parameter; escaping and the meaning of the queries belong to the metrics store.
- TokenFamilies.AuthService.Login: the lockout counter, password hashing, access tokens and audit are answers given from outside; secrets and family names are new whenever one is made.
- SFlow.DecodeSample: parsing the sampled packet's own Ethernet, IP and transport headers is a parameter; the straight-line record readers other than the gateway's are used as functions.
- PrefixRange.Range: addresses are sequences of bytes and setting a bit is arithmetic on one byte; text forms of addresses are left out.
- GeoTable.Table.Sort: an insertion sort in place of the library's; parsing the data files, names and country codes are left out.
- Sockets, tickers, message brokers, databases and HTTP: their results are parameters.
- SQL and MetricsQL text, apart from lengths, selectors and prefix ends.
- SNMP connectors, trap rendering, vendor tables, PDF and charts, map layout, projections, retention and unit formatting: little state and few properties.
- The frontend, configuration, migrations and logging.
