# Verified models of an Indy node

Indy Node is the ledger software of a Hyperledger Indy pool. This Dafny project models four of
its parts and proves what they promise, for all inputs and all runs.

- **Compatibility set** (`ProbePath`, `ProbeTable`, `EntrySets`, `CompatSet`): an
  open-addressing hash table with tombstones, perturbed probing, linear runs, resizing and bulk
  merge. It agrees with a mathematical set over every run of operations, and its unbounded probe
  loops end, because `i -> 5i + 1` is a single cycle modulo every power of two.
- **Revocation registries** (`Revocation`, `RevocationRuns`, `RevocationDelta`): the two storage
  strategies are complementary forms of one registry, the two write paths store permutations of
  one another, and a delta query returns the net effect of the transactions between two times.
- **Pool upgrade** (`Upgrader`, `UpgradeRuns`, `UpgradeReplay`, `UpgradeSchedule`,
  `UpgradeAdmission`, `PoolVersion`): the scheduler with its event log, pending callbacks,
  restarts and ledger replay; the admission of requests; and the vote on the pool version.
- **Authorization** (`AuthActions`, `AuthConstraints`, `ConstraintObjects`, `Authorizing`,
  `RequestValidator`): the constraint language, its evaluation through exceptions, its
  dictionary form and the rule lookup.

`Basics` holds what they share. `dafny verify dfyconfig.toml` checks everything.

Mutable objects of the program are classes here (`CompatSets.Inner`, `Revocation.State`,
`Upgrading.Upgrader`, `PoolVersion.TxnVersionController`, `ConstraintObjects.Obj`,
`RequestValidator.WriteRequestValidator`); each method is proved against a function of the old
state or against the property itself, and the theorems over runs are about those functions.

## Reading the model

- `x & mask` is written `x % (mask + 1)` and `x >> 5` is `x / 32`; the two agree for a mask one
  below a power of two, also for negative `x`.
- Python's `hash` is a parameter of the set with non-negative values; for indices it is the
  value modulo `2^61 - 1`.
- Dictionary and set iteration takes the elements in an arbitrary order where Python's order is
  not fixed by the code.
- Clocks, date and version parsing, package queries and authorization outcomes of other rules
  are parameters. The queue of pending callbacks belongs to a base class that is not part of this
  repository; it is modelled as a list from which any callback may become due, and unscheduling
  empties it.
- `EqualOrPrev` stands for the timestamp store, which is not part of this repository: the last
  snapshot that is not later than the timestamp.

## Where the code does less than one would expect

The model follows the code. Each of these has a counterexample or an exact condition in the table below.

- A lookup ends in every table with an empty slot exactly for hashes that are not negative
  (`ProbeTable.ProbingEndsIffNonNegative`). The message schema admits negative indices
  (`indy_common/types.py:152-153`), and the legacy write path hashes them; adding an index of hash
  -8 to the set of 0 never ends (`ProbeTable.AddingMinusEightToZeroNeverEnds`).
- `==` on two compatibility sets looks only at the first slots of one table, the right
  operand's, since the wrapper turns the comparison around (`EntrySets.EqIsEqualityIffPacked`).
- An in-place symmetric difference with a list counts repetitions
  (`EntrySets.TogglingIsSymmetricDifferenceIff`).
- A replay compares version strings where live handling compares parsed versions, and it stops at
  the last START even if that one is not for this node (`UpgradeReplay.ReplayEqualsLiveIff`).
- An upgrade that times out is scheduled again by the failure callback, without end
  (`UpgradeRuns.TimedOutUpgradeIsRetried`).
- A failed request of one upgrade drops the next one without a log event, and so does a timeout
  if the ledger does not replay to that next one, for example because it was forced and is not
  committed yet (`UpgradeRuns.LostSilentlyIff`).
- The acknowledgement after a restart names a newly scheduled upgrade in place of the concluded
  one (`UpgradeReplay.AcknowledgesConcludedIff`).
- An action id is misread if a field holds `--` or, except for the last, ends in `-`
  (`AuthActions.SplitUndoesCompileIff`).
- `validate` looks only at the first action of its list
  (`RequestValidator.AcceptanceCoversAllIff`); all handlers pass one.

## Model

| member | source | states |
|---|---|---|
| `ProbePath.IterPow2` | indy_common/compat_set.py:391-392 | `2^k` rounds of `5i + 1` from zero add up to `2^k` times an odd number |
| `ProbePath.HalfTurn` | indy_common/compat_set.py:391-392 | `2^k` further rounds move every start by exactly half the table of size `2^(k+1)` |
| `ProbePath.SingleCycle` | indy_common/compat_set.py:391-392 | `i -> 5i + 1` is one cycle through all residues modulo every power of two, from every start |
| `ProbePath.PerturbVanishes` | indy_common/compat_set.py:372-391 | for a non-negative hash the perturbation reaches zero and stays there |
| `ProbePath.UnperturbedHeads` | indy_common/compat_set.py:391-392 | from then on the probe heads follow the unperturbed cycle |
| `ProbePath.HeadReaches` | indy_common/compat_set.py:363-392 | for every capacity `2^k`, every non-negative hash and every slot, some probe step starts at that slot, however many steps are skipped |
| `ProbePath.PerturbIsShift` | indy_common/compat_set.py:372-391 | the perturbation of step n is the hash shifted right by 5n bits, for every hash |
| `ProbePath.VisitOrder` | indy_common/compat_set.py:371-392 | the exact order of visits: a head, the nine slots behind it if they fit, then the head that the shifted hash gives |
| `ProbePath.MeetsEverySlotIffNonNegative` | indy_common/compat_set.py:363-392 | in every table of at least eight slots every slot is visited by some probe step, if and only if the hash is not negative |
| `ProbePath.SlotZeroIsNeverHead` | indy_common/compat_set.py:363-392 | a negative hash never starts a probe step at slot 0 of a large enough table |
| `ProbePath.NegativeHashStaysAtSlotZero` | indy_common/compat_set.py:363-392 | hash -8 in a table of eight: every visit of every probe step is to slot 0 |
| `ProbeTable.SomeHeadIsEmpty` | indy_common/compat_set.py:365-366 | with one empty slot some probe step meets it: the termination argument of both probe loops |
| `ProbeTable.ProbingEndsIffNonNegative` | indy_common/compat_set.py:363-392 | in every table with an empty slot the probe meets one, whatever the table, if and only if the hash is not negative |
| `ProbeTable.AddingMinusEightToZeroNeverEnds` | indy_common/compat_set.py:363-392 | in every consistent table of eight that holds just 0, each visit of hash -8 meets the entry of 0: no empty slot and no entry of its own, so the lookup never ends |
| `ProbeTable.LooksIsUnique` | indy_common/compat_set.py:363-392 | a lookup has one possible result |
| `ProbeTable.PresentIsLookedUp` | indy_common/compat_set.py:363-392 | a stored entry is what its own lookup ends at: nothing before it on its path stops the probe |
| `ProbeTable.LookupIsMembership` | indy_common/compat_set.py:363-392 | in every consistent table a lookup ends at the one slot holding the entry if and only if it is a member, and at an empty slot if and only if it is not; never at a tombstone |
| `ProbeTable.CleanSearchIsLookup` | indy_common/compat_set.py:306-337 | for an absent entry the clean search and the full lookup agree on the slot, in both directions |
| `ProbeTable.InsertKeeps` | indy_common/compat_set.py:291-304 | filling the slot a lookup ended at keeps every entry reachable and adds exactly one member |
| `ProbeTable.RemoveKeeps` | indy_common/compat_set.py:275-282 | a tombstone keeps every other entry reachable and removes exactly one member |
| `ProbeTable.LiveIsMembers` | indy_common/compat_set.py:424-431 | the live slots in order list each member once and nothing else |
| `ProbeTable.LiveCardinality` | indy_common/compat_set.py:144-146 | the number of live slots is the cardinality of the set |
| `ProbeTable.NoTombstonesCounts` | indy_common/compat_set.py:404-406 | fill equals used if and only if the table has no tombstone |
| `EntrySets.TogglingIsSymmetricDifferenceIff` | indy_common/compat_set.py:470-477 | toggling a list is the symmetric difference with its elements if and only if no element occurs an even number of times |
| `EntrySets.EqualSetsCompareEqual` | indy_common/compat_set.py:487-500 | equal contents always compare equal |
| `EntrySets.PackedComparesExactly` | indy_common/compat_set.py:487-500 | a table whose live entries all sit in the scanned slots compares equal only to the same set |
| `EntrySets.UnscannedEntryIsIgnored` | indy_common/compat_set.py:491-498 | a live entry beyond the first `_used` slots can be exchanged for any other entry and the sets still compare equal |
| `EntrySets.EqIsEqualityIffPacked` | indy_common/compat_set.py:487-500 | the scan decides set equality against every other set if and only if the scanned table is packed |
| `EntrySets.DifferentSetsCompareEqual` | indy_common/compat_set.py:487-500 | {5} and {3} compare equal |
| `CompatSets.Inner.constructor` | indy_common/compat_set.py:209-214 | a new table is valid and represents the empty set |
| `CompatSets.Inner.LookRun` | indy_common/compat_set.py:382-389 | the first stop within the nine slots behind a head, or that there is none |
| `CompatSets.Inner.LookEntry` | indy_common/compat_set.py:363-392 | terminates, and finds the entry if and only if it is a member, else an empty slot |
| `CompatSets.Inner.EmptyInRun` | indy_common/compat_set.py:323-327 | the first empty slot of the linear run, or that there is none |
| `CompatSets.Inner.CleanSlot` | indy_common/compat_set.py:312-333 | terminates at the slot that a lookup of the entry would end at |
| `CompatSets.Inner.ContainsEntry` | indy_common/compat_set.py:231-234 | true if and only if the entry is a member |
| `CompatSets.Inner.Contains` | indy_common/compat_set.py:223-224 | true if and only if the element is in the represented set |
| `CompatSets.Inner.InsertEntry` | indy_common/compat_set.py:291-304 | adds exactly the entry, reports whether it was absent, keeps counters exact; the tombstone branch is proved dead |
| `CompatSets.Inner.InsertEntryClean` | indy_common/compat_set.py:306-337 | adds an absent entry where lookups find it |
| `CompatSets.Inner.DiscardEntry` | indy_common/compat_set.py:275-282 | removes exactly the entry and reports whether it was present |
| `CompatSets.Inner.SizeAbove` | indy_common/compat_set.py:457-459 | the new size is a power of two, at least eight, above the bound and not more than needed |
| `CompatSets.Inner.Resize` | indy_common/compat_set.py:452-468 | same members under the new mask and no tombstones, whenever the new table leaves an empty slot; less than two thirds full if the bound is twice the members |
| `CompatSets.Inner.Grow` | indy_common/compat_set.py:284-289 | same members, fill equal to used, valid load; the new size is the first doubling above four times the members, or twice beyond 50000 |
| `CompatSets.Inner.AddEntry` | indy_common/compat_set.py:219-221 | adds the entry and restores the load bound |
| `CompatSets.Inner.Add` | indy_common/compat_set.py:216-217 | the represented set gains exactly the element |
| `CompatSets.Inner.Discard` | indy_common/compat_set.py:272-273 | the represented set loses exactly the element; the result says whether it was there |
| `CompatSets.Inner.Merge` | indy_common/compat_set.py:394-422 | on every path the result is the union of the two sets, valid and reachable |
| `CompatSets.Inner.MergeCopy` | indy_common/compat_set.py:404-410 | copying the table gives the other set in a table of its own |
| `CompatSets.Inner.MergeClean` | indy_common/compat_set.py:412-417 | clean inserts into an empty table give exactly the other set |
| `CompatSets.Inner.MergeInsert` | indy_common/compat_set.py:419-422 | ordinary inserts give the union within the load bound |
| `CompatSets.Inner.Copy` | indy_common/compat_set.py:226-229 | a fresh table with the same members |
| `CompatSets.Inner.Next` | indy_common/compat_set.py:424-431 | the next live entry in slot order, skipping none; none at the end |
| `CompatSets.Inner.ToList` | indy_common/compat_set.py:503-515 | iteration yields each member exactly once, in slot order |
| `CompatSets.Inner.NextLive` | indy_common/compat_set.py:438-445 | terminates at the first live slot from the finger on, going round at the end |
| `CompatSets.Inner.Pop` | indy_common/compat_set.py:433-450 | none if and only if the set is empty, else the member in the first live slot from the finger on, which is then gone |
| `CompatSets.Inner.Update` | indy_common/compat_set.py:479-485 | the union with any operand |
| `CompatSets.Inner.DifferenceUpdate` | indy_common/compat_set.py:262-270 | the difference, in place, or a new empty set for the set itself |
| `CompatSets.Inner.Difference` | indy_common/compat_set.py:236-260 | both strategies give the set difference in a fresh table |
| `CompatSets.Inner.Filter` | indy_common/compat_set.py:237-255 | the filter strategy keeps exactly what the other set lacks |
| `CompatSets.Inner.SymmetricDifferenceUpdate` | indy_common/compat_set.py:470-477 | toggles the operand: the symmetric difference with the elements of odd multiplicity |
| `CompatSets.Inner.Intersection` | indy_common/compat_set.py:356-361 | the intersection with an operand that is not a compatibility set |
| `CompatSets.Inner.Eq` | indy_common/compat_set.py:487-500 | true if and only if sizes agree and the scanned slots hold common members; true on equal sets |
| `CompatSets.CompatSet.constructor` | indy_common/compat_set.py:28-32 | the set of the given elements |
| `CompatSets.CompatSet.Update` | indy_common/compat_set.py:102-105 | the union with the operand, in place |
| `CompatSets.CompatSet.Difference` | indy_common/compat_set.py:71-81 | the members that are in none of the operands |
| `CompatSets.CompatSet.SymmetricDifference` | indy_common/compat_set.py:83-88 | the exact symmetric difference for every operand, also a list with repetitions |
| `CompatSets.CompatSet.ToList` | indy_common/compat_set.py:128-130 | a list of each member exactly once |
| `CompatSets.TableOfZero` | indy_common/compat_set.py:209-221 | a new set to which 0 is added has the table that the lookup of hash -8 does not end in |
| `CompatSets.Apply` | indy_common/compat_set.py:208-485 | one operation, with any valid operand or the set itself, has its set-theoretic effect and keeps the table valid |
| `CompatSets.Run` | indy_common/compat_set.py:208-485 | every run of add, discard, pop, merge, difference and toggle, with operands of every kind, follows the same run on mathematical sets, with exact counters and less than two thirds full at every point |
| `Revocation.LegacyIndices` | indy_node/server/revocation_strategy.py:142-145 | the compatibility-set path yields each index of old minus taken plus put once |
| `Revocation.SortedIndices` | indy_node/server/revocation_strategy.py:146-150 | the sorted path yields the same set in ascending order |
| `Revocation.OrderingOnlyPermutes` | indy_node/server/revocation_strategy.py:142-153 | the two write paths store permutations of one another, for both strategies |
| `Revocation.State.Write` | indy_node/server/revocation_strategy.py:128-155 | stores the successor of the current entry for this registry only; accumulator record and entry keep agreeing |
| `Revocation.State.SetToState` | indy_node/server/revocation_strategy.py:78-86 | both records are written and agree |
| `Revocation.FirstAcceptedIff` | indy_node/server/revocation_strategy.py:36-51 | the first entry of a registry is accepted if and only if it names no accumulator and has no index in both lists, empty lists included |
| `Revocation.RejectionNamesAFault` | indy_node/server/revocation_strategy.py:36-126 | every rejection names a fault that the entry has |
| `Revocation.State.Submit` | indy_node/server/request_handlers/domain_req_handlers/revoc_reg_entry_handler.py:53-100 | a rejected entry changes nothing; an accepted one is written and no other registry is touched; a first entry is accepted under exactly the condition above |
| `RevocationRuns.AcceptedIffFollows` | indy_node/server/revocation_strategy.py:27-76 | an entry is accepted if and only if it names the current accumulator, changes it, moves at least one index, none both ways, and only what is there to move |
| `RevocationRuns.WrittenIsAfter` | indy_node/server/revocation_strategy.py:134-153 | the write depends on the stored list only as a set, for either path |
| `RevocationRuns.WrittenLists` | indy_node/server/revocation_strategy.py:134-153 | a registry issued by default stores its revoked indices, one issued on demand its issued ones, each once, and the other list empty |
| `RevocationRuns.HistoryStartsIff` | indy_node/server/revocation_strategy.py:48-51 | a history starts with exactly the entries that name no accumulator and have no index in both lists, stored as they are |
| `RevocationRuns.HistoryGrowsIff` | indy_node/server/revocation_strategy.py:42-76 | it goes on with exactly the entries that may follow the last stored one |
| `RevocationRuns.AccumulatorChain` | indy_node/server/revocation_strategy.py:42-73 | over every history each entry names its predecessor's accumulator and changes it; the first names none and is stored as it is |
| `RevocationRuns.IndicesAreConserved` | indy_node/server/revocation_strategy.py:104-155 | over every history the kept set loses exactly the taken and gains exactly the put indices, by count, and changes at every step |
| `RevocationRuns.ReplicasAgreeUpToOrder` | indy_node/server/revocation_strategy.py:128-153 | nodes that replay the same transactions with any choice of write path hold permutations of the same lists |
| `RevocationRuns.DualStep` | indy_node/server/revocation_strategy.py:104-228 | from complementary registries both strategies accept the same entries and stay complementary |
| `RevocationRuns.StrategiesAreDual` | indy_node/server/revocation_strategy.py:104-228 | over every list of transactions both strategies accept or both reject, and end as complements |
| `RevocationRuns.DualDeltasAgree` | indy_node/server/revocation_strategy.py:157-228 | complementary registries answer delta queries alike |
| `RevocationRuns.DeltaLeadsFromOneToTheOther` | indy_node/server/revocation_strategy.py:157-163 | applying a delta to the older entry gives the newer one |
| `RevocationRuns.DeltasCompose` | indy_node/server/revocation_strategy.py:157-163 | deltas over consecutive spans compose to the delta over the whole span |
| `RevocationRuns.AdjacentDelta` | indy_node/server/revocation_strategy.py:157-163 | between neighbouring entries the delta is the transaction's issued and revoked sets |
| `RevocationRuns.DeltaIsNetEffect` | indy_node/server/revocation_strategy.py:157-228 | between any two entries of a history the delta is the net effect of the transactions in between |
| `RevocationDelta.EntryInForce` | indy_node/server/request_handlers/read_req_handlers/get_revoc_reg_delta_handler.py:128-161 | whatever other batches left snapshots, at any timestamp the store answers with the entry of the last transaction not later than it, and with none before the first |
| `RevocationDelta.QueryComparesEntries` | indy_node/server/request_handlers/read_req_handlers/get_revoc_reg_delta_handler.py:65-103 | with both timestamps at or after the first entry the reply compares the two entries in force and carries their accumulator records |
| `RevocationDelta.DeltaQueryIsNetEffect` | indy_node/server/request_handlers/read_req_handlers/get_revoc_reg_delta_handler.py:65-103 | the reply is the net effect of exactly the transactions committed after FROM and up to TO |
| `RevocationDelta.QueryWithoutFrom` | indy_node/server/request_handlers/read_req_handlers/get_revoc_reg_delta_handler.py:86-99 | with no FROM, FROM zero or FROM before the first entry the stored lists are returned; after the first entry only the kept one is not empty |
| `RevocationDelta.QueryBeforeFirstEntry` | indy_node/server/request_handlers/read_req_handlers/get_revoc_reg_delta_handler.py:105-116 | before the first entry, with or without snapshots of other batches, there is no answer, or one with no entry and the accumulator at FROM if FROM was given |
| `Upgrading.Upgrader.constructor` | indy_node/server/node_maintainer.py:38-64 | a new process keeps the log and concludes a started upgrade in it |
| `Upgrading.Upgrader.GetUpgradeTxn` | indy_node/server/upgrader.py:127-149 | the first match from the start in the given direction, skipping none; none only if there is none |
| `Upgrading.Upgrader.ProcessLedger` | indy_node/server/upgrader.py:152-181 | handles the last START unless a later CANCEL names its version |
| `Upgrading.Upgrader.HandleUpgradeTxn` | indy_node/server/upgrader.py:250-331 | the new scheduler state for START and CANCEL, with all cases that are ignored |
| `UpgradeRuns.StartIsScheduledAsAsked` | indy_node/server/upgrader.py:281-320 | a START not yet performed is scheduled at the time, version, id and package that it gives for this node, with its own timeout or the default; it is not logged twice, and another scheduled upgrade is cancelled first |
| `UpgradeRuns.CancelTakesSameVersion` | indy_node/server/upgrader.py:322-327 | a CANCEL takes away the scheduled upgrade if and only if its version parses to the same one |
| `UpgradeRuns.OthersChangeNothing` | indy_node/server/upgrader.py:260-295 | a START that asks nothing of this node or was just concluded, and any other transaction, change nothing |
| `Upgrading.Upgrader.ScheduleUpgrade` | indy_node/server/upgrader.py:333-358 | logs, records and arms exactly one agent call |
| `Upgrading.Upgrader.CancelScheduledUpgrade` | indy_node/server/upgrader.py:360-396 | drops pending callbacks and logs the cancellation, if something was scheduled |
| `Upgrading.Upgrader.UnscheduleAction` | indy_node/server/node_maintainer.py:75-86 | drops the scheduled action and all pending callbacks, and nothing else |
| `Upgrading.Upgrader.LedgerCaughtUp` | indy_node/server/node.py:125-164 | replays the ledger and then acknowledges the upgrade that the last event names, once |
| `Upgrading.Upgrader.FireTimer` | indy_node/server/upgrader.py:398-454 | the agent call starts the upgrade; the timeout unschedules and, through the failure callback, replays the ledger |
| `Upgrading.Upgrader.FinishSending` | indy_node/server/upgrader.py:415-438 | a delivered request arms the timeout; a failed one unschedules |
| `UpgradeRuns.RequestIsSettled` | indy_node/server/upgrader.py:430-438 | a settled request is no longer under way; delivered it leaves one timeout for its upgrade, given up it leaves nothing scheduled |
| `UpgradeRuns.NextKeeps` | indy_node/server/upgrader.py:250-454 | every step keeps the scheduler invariant |
| `UpgradeRuns.RunKeeps` | indy_node/server/upgrader.py:89-454 | every interleaving of transactions, callbacks, requests, replays and restarts keeps it |
| `UpgradeRuns.LogIsWellFormed` | indy_node/server/upgrader.py:89-106 | in every reachable log cancelled and started directly follow the scheduling of the same upgrade, succeeded and failed directly follow its start |
| `UpgradeRuns.EveryEventWasAskedFor` | indy_node/server/upgrader.py:250-454 | over every run the time, version, id and package of every logged event are those that some START handed to the node gives for it |
| `UpgradeRuns.ScheduledIsLoggedAndPending` | indy_node/server/upgrader.py:333-358 | a scheduled upgrade is the last event and has exactly one pending agent call; otherwise there is none |
| `UpgradeRuns.DueAgentCallIsScheduled` | indy_node/server/node.py:166-180 | when an agent call is due its upgrade is the scheduled one, so the start callback always finds its version |
| `UpgradeRuns.TimeoutReplays` | indy_node/server/upgrader.py:440-454 | on every reachable state the timeout's test for an already failed upgrade is false, and after the timeout exactly what the ledger replays to is scheduled, logged and pending |
| `UpgradeRuns.LostSilentlyIff` | indy_node/server/upgrader.py:430-454 | over every run a scheduled upgrade goes away with no event that it started or was cancelled if and only if a request is given up, the node restarts, or an upgrade times out while the ledger does not replay to the scheduled one |
| `UpgradeRuns.TimeoutKeepsTheNextUpgradeIff` | indy_node/server/upgrader.py:440-454 | for any two upgrades and any ledger: when the first times out after the second was scheduled, what the ledger replays to is scheduled, the second if it is committed and the first again if it is not |
| `UpgradeRuns.TimedOutUpgradeIsRetried` | indy_node/server/node_bootstrap.py:268-275 | for every n there is a run in which an upgrade that never comes about is started n times and is scheduled once more |
| `UpgradeReplay.LiveInClosedForm` | indy_node/server/upgrader.py:250-331 | handling a whole ledger leaves the last START for this node scheduled unless a later CANCEL has the same parsed version |
| `UpgradeReplay.ReplayInClosedForm` | indy_node/server/upgrader.py:152-181 | what a replay schedules, for every ledger |
| `UpgradeReplay.ReplayEqualsLiveIff` | indy_node/server/upgrader.py:152-181 | for every ledger replay and live handling agree if and only if the last START is for this node and is cancelled by string just when it is cancelled by parsed version, or it is not for this node and the last one that is has been cancelled |
| `UpgradeReplay.ReplayEqualsLive` | indy_node/server/upgrader.py:152-181 | they agree when every START names this node with a parseable version and version strings are equal just when parsed versions are |
| `UpgradeReplay.OtherSpellingIsOverlooked` | indy_node/server/upgrader.py:171-175 | a reachable ledger on which they differ: the CANCEL of an earlier upgrade with another spelling of the version is obeyed live and overlooked by a replay |
| `UpgradeReplay.CrashRecovery` | indy_node/server/node_maintainer.py:48-64 | a crash before the upgrade is due loses nothing that a replay would schedule |
| `UpgradeReplay.NoUpgradeLoop` | indy_node/server/upgrader.py:288-295 | a started upgrade is not scheduled again by the restart and replay that follow; a timeout without restart does schedule it again, see `UpgradeRuns.TimedOutUpgradeIsRetried` |
| `UpgradeReplay.AcknowledgesConcludedIff` | indy_node/server/node.py:125-164 | after a restart the acknowledgement names the concluded upgrade if and only if the replay before it schedules no other one, and else names that other one |
| `UpgradeReplay.AcknowledgedOnce` | indy_node/server/node.py:143-164 | an acknowledgement is sent only if one is due, and then once |
| `UpgradeSchedule.SortKeepsSpread` | indy_node/server/upgrader.py:505-505 | sorting does not change whether all times are far apart |
| `UpgradeSchedule.NeighboursDecide` | indy_node/server/upgrader.py:506-511 | in a sorted list neighbours are far enough apart if and only if all pairs are |
| `UpgradeSchedule.IsScheduleValid` | indy_node/server/upgrader.py:479-512 | valid if and only if all dates parse and, unless forced, the schedule names exactly the active nodes, all in the future, any two at least the separation apart |
| `UpgradeAdmission.RulesAllowOnlyStartAndCancel` | indy_common/authorize/auth_map.py:189-196 | for all strings as values the search over the keys finds a rule for an upgrade action if and only if it starts a new upgrade or cancels a started one |
| `UpgradeAdmission.AdmittedIff` | indy_node/server/request_handlers/config_req_handlers/pool_upgrade_handler.py:53-102 | a request passes if and only if it starts an upgrade nothing is recorded of or cancels one last started, and it is authorized and possible; it counts as already scheduled if and only if it starts one last started |
| `UpgradeAdmission.StatusIsLastAction` | indy_node/server/request_handlers/config_req_handlers/pool_upgrade_handler.py:56-68 | a transaction of any type decides the status of the upgrade it names by its action |
| `UpgradeAdmission.ReachableExtends` | indy_node/server/request_handlers/config_req_handlers/pool_upgrade_handler.py:53-86 | a reachable ledger stays reachable with every such request |
| `UpgradeAdmission.LastAction` | indy_node/server/request_handlers/config_req_handlers/pool_upgrade_handler.py:60-68 | the looked-up transaction carries the last recorded action of that upgrade |
| `UpgradeAdmission.OneStartThenAtMostOneCancel` | indy_node/server/request_handlers/config_req_handlers/pool_upgrade_handler.py:53-86 | on every reachable ledger the history of each name and version is empty, START, or START then CANCEL |
| `UpgradeAdmission.CancelFollowsStart` | indy_node/server/request_handlers/config_req_handlers/pool_upgrade_handler.py:53-86 | every CANCEL on a reachable ledger has an earlier START of the same upgrade |
| `PoolVersion.TxnVersionController.UpdateVersion` | indy_node/server/txn_version_controller.py:29-41 | the new threshold, votes and recorded versions |
| `PoolVersion.TxnVersionController.GetPoolVersion` | indy_node/server/txn_version_controller.py:19-27 | the version recorded at the greatest time not after the timestamp, or the latest |
| `PoolVersion.VotesWereCast` | indy_node/server/txn_version_controller.py:29-41 | over every run counted votes were cast for that version, and the threshold is that of the last upgrade |
| `PoolVersion.RecordedVersionsAreBacked` | indy_node/server/txn_version_controller.py:33-41 | over every run each recorded version had more than f distinct reports |
| `PoolVersion.SomeCorrectNodeCompleted` | indy_node/server/txn_version_controller.py:32-38 | with at most f faulty nodes a correct one completed each recorded version |
| `PoolVersion.GreaterIsAbove` | indy_node/server/txn_version_controller.py:39-41 | version strings compare by their first difference, a proper prefix below |
| `PoolVersion.RecordedExactly` | indy_node/server/txn_version_controller.py:29-41 | over every run, from the transactions alone: votes are the reports since the last recording of a version not below, and what is recorded at each time is the version of the last report that made them more than f |
| `PoolVersion.EnoughReportsAreRecorded` | indy_node/server/txn_version_controller.py:33-38 | a report that makes more than f distinct ones is recorded at its time |
| `PoolVersion.InForceIsUnique` | indy_node/server/txn_version_controller.py:19-27 | the version in force at a time is determined by what is recorded |
| `PoolVersion.PastIsImmutable` | indy_node/server/txn_version_controller.py:19-41 | transactions after a time never change the version in force at that time |
| `AuthActions.SplitUndoesJoinIff` | indy_common/authorize/auth_actions.py:13-26 | splitting undoes joining if and only if no part holds the delimiter and none but the last ends in a dash |
| `AuthActions.JoinUndoesSplit` | indy_common/authorize/auth_actions.py:13-26 | for every string joining undoes splitting, and the parts are separable |
| `AuthActions.SplitUndoesCompileIff` | indy_common/authorize/auth_actions.py:13-26 | an action id is read back as its five fields if and only if they are separable |
| `AuthActions.ActionIds` | indy_common/authorize/auth_actions.py:13-22 | the text of every add and edit action id |
| `AuthActions.StringMatchIsFieldMatch` | indy_common/authorize/auth_cons_strategies.py:25-42 | for separable ids matching on strings is field-by-field wildcard matching |
| `AuthActions.MatchIsSubstitution` | indy_common/authorize/auth_cons_strategies.py:25-42 | a key matches exactly the actions got by putting strings for its wildcards, which only the last three fields can be |
| `AuthActions.WildcardIgnoresField` | indy_common/authorize/auth_cons_strategies.py:33-41 | under a wildcard the value of that field does not matter |
| `AuthActions.ExactKeyMatchesItself` | indy_common/authorize/auth_cons_strategies.py:25-42 | a key without wildcards matches only itself |
| `AuthActions.FindAuthConstraintKey` | indy_common/authorize/auth_cons_strategies.py:88-91 | for every id: the search ends at the first key that matches field by field what the id is read as, at none, or with an error for an id without five parts |
| `AuthConstraints.RoundTrip` | indy_common/authorize/auth_constraints.py:97-242 | rebuilding a constraint from its dictionary gives it back if and only if all its roles are valid, else a role error |
| `AuthConstraints.CreatedIsWellFormed` | indy_common/authorize/auth_constraints.py:156-242 | whatever any dictionary is rebuilt to has valid roles throughout; a list constraint comes only from its two keys |
| `AuthConstraints.NullIdIsAnError` | indy_common/authorize/auth_constraints.py:156-242 | a null id is a missing key at the top and below OR, an unknown constraint below AND |
| `AuthConstraints.ValidRoleIff` | indy_common/authorize/auth_constraints.py:97-154 | the five role codes and none; off-ledger signatures only for any role |
| `AuthConstraints.DefaultsMayBeOmitted` | indy_common/authorize/auth_constraints.py:97-154 | leaving out an optional key is the same as giving its default, for every dictionary |
| `AuthConstraints.NormalizedAt` | indy_node/server/request_handlers/config_req_handlers/auth_rule/auth_rule_handler_1_9_1.py:23-28 | along every path of every tree normalization changes nothing but that each role has an off-ledger flag, true exactly where it was |
| `AuthConstraints.NormalizedTwice` | indy_node/server/request_handlers/config_req_handlers/auth_rule/auth_rule_handler_1_9_1.py:23-28 | normalizing twice is normalizing once, and keeps well-formedness |
| `ConstraintObjects.BuildDict` | indy_common/authorize/auth_constraints.py:97-108 | a fresh tree of dictionaries that represents the constraint |
| `ConstraintObjects.CreateConstraint` | indy_common/authorize/auth_constraints.py:233-242 | the result for every dictionary, malformed ones included, while no dictionary given is changed |
| `ConstraintObjects.FromDict` | indy_common/authorize/auth_constraints.py:156-226 | the class's result; only the working copy is written |
| `ConstraintObjects.SetOffLedger` | indy_node/server/request_handlers/config_req_handlers/auth_rule/auth_rule_handler_1_9_1.py:23-28 | the in-place recursion updates this dictionary and all below it, once, also when dictionaries are shared |
| `ConstraintObjects.DoneIsNormalized` | indy_node/server/request_handlers/config_req_handlers/auth_rule/auth_rule_handler_1_9_1.py:23-28 | the updated dictionaries represent the normalized constraint |
| `ConstraintObjects.DoneIsStored` | indy_node/server/request_handlers/config_req_handlers/auth_rule/auth_rule_handler_1_9_1.py:23-28 | after the in-place recursion every dictionary, at every path, has exactly the fields of its constraint, and each role dictionary an off-ledger flag, true exactly where it was |
| `ConstraintObjects.UpdateAuthConstraint` | indy_node/server/request_handlers/config_req_handlers/auth_rule/auth_rule_handler_1_9_1.py:17-21 | what is stored: the same at every path, and the dictionary of the normalized constraint as a whole |
| `Authorizing.GetSigCount` | indy_common/authorize/authorizer.py:56-71 | the number of signatures that count for the role |
| `Authorizing.SignaturesOfRole` | indy_common/authorize/authorizer.py:63-71 | for a rule about one role the count is that of the signers whom the ledger gives just that role |
| `Authorizing.AllSignaturesCount` | indy_common/authorize/authorizer.py:61-71 | for any role or off-ledger signatures every signature counts |
| `Authorizing.SingleSignature` | indy_common/authorize/authorizer.py:57-60 | a single signature counts once if and only if the author has the role or need not be on the ledger |
| `Authorizing.OtherRoleNeverCounts` | indy_common/authorize/authorizer.py:56-71 | a further signature of another role never changes the decision of a rule about one role |
| `Authorizing.RolesAuthorize` | indy_common/authorize/authorizer.py:98-129 | true if and only if ownership, presence, author signature and signature count all hold; never raises |
| `Authorizing.RoleOkIff` | indy_common/authorize/authorizer.py:98-129 | the condition of a role rule in terms of the ledger and the signatures |
| `Authorizing.EndorserAuthorize` | indy_common/authorize/authorizer.py:222-287 | true if and only if a named endorser has the role and signed, or none is named and nobody privileged co-signed for an unprivileged author |
| `Authorizing.EndorserOkIff` | indy_common/authorize/authorizer.py:222-287 | the endorser condition in terms of the ledger's role codes |
| `Authorizing.FactorsIff` | indy_common/authorize/authorizer.py:147-208 | authorization is the roles of the tree and one endorser check if and only if that check holds or the tree does not rest on an empty AND |
| `Authorizing.NoEmptyAndIsNotVacuous` | indy_common/authorize/authorizer.py:160-172 | a tree without empty AND never holds vacuously |
| `Authorizing.SubmittedRuleFactors` | indy_common/types.py:376-389 | the message schema admits no empty list of constraints, and for every such tree authorization is the roles of the tree and one endorser check |
| `Authorizing.OwnerMayMore` | indy_common/authorize/authorizer.py:98-129 | what is allowed without ownership is allowed with it, for every tree |
| `Authorizing.NormalizedDecidesAlike` | indy_node/server/request_handlers/config_req_handlers/auth_rule/auth_rule_handler_1_9_1.py:23-28 | normalization never changes a decision |
| `Authorizing.LegacyRuleDecidesAlike` | indy_node/server/request_handlers/config_req_handlers/auth_rule/auth_rule_handler_1_9_1.py:17-28 | a rule stored by the 1.9.1 handler reads back in normalized form and decides alike |
| `RequestValidator.WriteRequestValidator.constructor` | indy_common/authorize/auth_request_validator.py:45-52 | registration builds the table of authorizers, two for roles and one for each other kind |
| `RequestValidator.WriteRequestValidator.RegisterAuthorizer` | indy_common/authorize/authorizer.py:143-145 | appends to the list of that kind |
| `RequestValidator.WriteRequestValidator.Authorize` | indy_common/authorize/authorizer.py:147-157 | for every tree: returns true if and only if the Boolean semantics holds, else raises; never returns false |
| `RequestValidator.WriteRequestValidator.AndAuthorize` | indy_common/authorize/authorizer.py:162-172 | conjunction, by the first exception |
| `RequestValidator.WriteRequestValidator.OrAuthorize` | indy_common/authorize/authorizer.py:177-199 | disjunction, through caught exceptions |
| `RequestValidator.WriteRequestValidator.GetAuthConstraint` | indy_common/authorize/auth_cons_strategies.py:76-91 | for every id the rule of the key it is matched to, from the state before the default |
| `RequestValidator.WriteRequestValidator.Validate` | indy_common/authorize/auth_request_validator.py:54-73 | accepted if and only if there is no action or the first one is allowed; no rule and malformed id told apart, for every action |
| `RequestValidator.AcceptanceCoversAllIff` | indy_common/authorize/auth_request_validator.py:54-73 | acceptance of a list means that all its actions are allowed, for all rules, roles and requests, if and only if the id of the first is malformed or every other action is read as the first and is owned if that is |
| `RequestValidator.FirstActionDecides` | indy_common/authorize/auth_request_validator.py:54-73 | two rules of the default map under which a list is accepted though its second action is not allowed |
| `RequestValidator.WriteRequestValidator.SetRule` | indy_common/authorize/auth_cons_strategies.py:76-86 | a new rule is in force for exactly the action ids that are matched to its key |

## Left out

- Exact CPython 3.5 iteration order: only that iteration follows slot order and lists each member once.
- Equality of a compatibility set with a Python set, `isdisjoint`, `issubset`, `issuperset`, `union`, `remove`, `clear`, `__repr__` and the operator aliases: thin wrappers over the operations modelled.
- The branches of `intersection` for compatibility sets: they rebind `self` to an object of another class.
- CompatSets.Inner.Resize: requires that the new table leaves an empty slot, without which clean inserts do not end; the source only asserts that the bound is not negative.
- Mutating a compatibility set while it is being iterated.
- Revocation.LegacyIndices: indices that are not negative only, because probing need not end for a negative one, as `ProbeTable.ProbingEndsIffNonNegative` states exactly.
- Revocation.State.Write: indices that are not negative only, for the same reason; the sorted path alone would not need this.
- Revocation.State.Submit: indices that are not negative only, for the same reason.
- State proofs, root hashes, sequence numbers and update times of delta replies.
- The restart scheduler `indy_node/server/restarter.py`, which repeats the machine of the upgrader.
- Upgrading.Upgrader.UnscheduleAction: does not model the immediate queue for callbacks without delay, which belongs to a base class outside this repository and is not emptied; here every pending callback is dropped.
- UpgradeRuns.DueAgentCallIsScheduled: covers delayed callbacks; one without delay that is overtaken by an unscheduling is not modelled, for the same reason.
- Time: any pending callback may become due at any moment, so runs do not show that a retried upgrade, whose time is past, starts at once.
- The status that the acknowledgement sends, which depends on the installed package version: only which upgrade it names is modelled.
- The construction of upgrade ids from request id and sequence number: an id is a string of the transaction.
- Package checks of POOL_UPGRADE, its static validation except the schedule, and notifications.
- UpgradeAdmission.OneStartThenAtMostOneCancel: assumes that each request is validated against the committed ledger before it and that no other transaction type carries both a name and a version.
- Values of a wrong type inside a constraint dictionary: they are errors here, where Python keeps some of them.
- Reason texts: failures carry a kind, not the message.
- Serialization to bytes, RLP, JSON, base58, signatures and the identity cache's batches.
- The legacy authorization table `indy_common/auth.py`, read handlers other than the delta query, schema validators, rich schema handlers, migration and control tools, deployment scripts.
