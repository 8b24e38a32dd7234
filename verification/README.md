# A verified model of a Solana indexing runtime

The project models four parts of the runtime and proves what each one is for.

- **Block coordinator** (`Records`, `SlotBuffer`, `Coordinator`, `CoordinatorState`, `Drains`, `Runs`, `OrderLimits`, `TwoGate`,
  `Gates`, `AccountBlocks`, `Bookkeeping`, `Pruning`, `Ledger`, `DiscardSafety`). Parsed records are buffered per slot and leave through an instruction gate and
  an account gate. `Coordinator` holds one step of the state machine as a function; the classes `SlotRecordBuffer` and
  `CoordinatorState` update their fields in place and are proved to do exactly those steps. Runs are arbitrary lists of
  source events, handler messages and drains, so the lemmas speak of every interleaving of the two input channels.
  The coordinator object owns one `SlotRecordBuffer` object per slot and is proved never to share one between slots.
  `Gates`, `AccountBlocks` and `Bookkeeping` tell when a slot goes out, with which account records, and what is counted
  and forgotten on the way, from the events of a run alone.
- **From transactions to Kafka** (`Tree`, `Visit`, `Logs`, `LogFilters`, `Handler`, `Statistics`, `SlotWriter`, `WireFormat`, `Delivery`). Inner
  instructions become a call tree, log lines are attributed to it, a handler sends its records to the coordinator, and
  the slot writer commits each slot in one transaction. `Delivery` (module `EndToEnd`) joins the ends: from the listed
  instructions of each transaction to the block that goes out, and from the blocks that go out to the commits.
- **IDL compiler** (`CLayout`, `CStructs`, `CAligned`, `Padding`, `PadNames`, `Layout`, `Mentions`, `PadPass`, `Generics`, `Hygiene`, `ReadBack`, `Costs`,
  `Expander`, `Nodes`, `Inlining`, `Passes`, `PassOutcomes`, `ProgramNode`, `Sizes`, `Renderable`). `CLayout`, `CStructs` and `CAligned`
  are an independent reading of "The C Representation" (The Rust Reference, Type layout) and `Nodes` an independent reader of the wire
  format; the passes are proved against them. `Mentions` says which definitions a type mentions, `Costs` what an expansion costs.
- **Preconf framer** (`Framer`, `FramerCounts`, `FramerState`). A bounded, pruned map numbers the transactions of each slot.

Where a method updates state, its `ensures` equates the new state with a function of the old one, and the lemmas prove
what that function guarantees over whole runs.

## Assumptions and results that differ from the comments in the code

- *In-order runs.* Whole-run order is not unconditional: lifecycle events are dropped only when both frontiers have
  passed their slot. Two events escape that guard, one for each output. A `BlockFrozen` can make ready a buffer behind
  the instruction frontier, which takes an announced count of zero (a *stale block*), and a commitment can freeze an empty
  account gate behind the account frontier (a *stale gate*). `Runs.IxInOrder` excludes only the first and
  `Runs.AcctInOrder` only the second; instruction results assume the one, account results the other. Both conditions are
  exact: `OrderLimits.OrderBreaksIffStaleBlock` and `OrderLimits.AccountOrderBreaksIffStaleGate` show that each event
  endangers its order if and only if it occurs, and `StaleBlockIsReachable` (from the set-up of the finalized-mode test)
  and `StaleGateIsReachable` that it can occur.
- *Pruning* is unobservable once both frontiers are set. While one is unset, forgetting a discard lets some in-order
  continuation make the outputs differ, and only then (`Pruning.ForgottenTooEarly`).
- *Padding* assumes unique type names and that only a struct carries a `repr`, because the walker reads any body without
  `fields` as empty.
- *Paths* are places in the nested tree exactly when the heights line up (`CallTree.TreeAgreesIffLinedUp`): no height goes
  missing inside a call, and a return goes to a height that is the caller's depth. Heights as the runtime reports them do,
  and so does a list without any. Paths increase strictly exactly when no stack height after a present one is zero (`CallTree.PathsAscendIffNoDropToZero`).
- *Generic const arguments* must be literals or names bound in scope; `GenericsHygiene.UnboundConstIsCaptured` shows
  the capture otherwise, for any names and number. Well-scoped definitions also use no name for both a type and a const
  parameter. Reading substitution back into scopes also needs array lengths to name const parameters.
- *Exactly-once* writing holds exactly when no attempt is lost, that is, commits while returning an error
  (`SlotWriter.ExactlyOnceIff`, and the `ensures` of `Run`).
- *Retries.* Once errors stop while attempts are left, a slot is written if and only if no transaction was left open
  (`WithRetry`): a commit that is answered by a final error asking for no abort leaves one open, and every later begin fails.
- *Fixed sizes.* A type that nests deeper than the limit is cached as having no size, even where a shallower visit would find one.
  While no type that was asked for nests that deep, no size is given exactly where there is none.
- *Framer indexes* repeat behind the retention window (`FramerModel.IndexRepeatsBehindTheWindow`); the exact condition for
  counting 0, 1, 2, … is `FramerModel.IndexIsCountIffNothingLost`.

## Model

| member | source | states |
|---|---|---|
| Records.InsertIsMapUpdate | crates/block-coordinator/src/buffer.rs:71-79 | inserting into the sorted record list is a map update: keys stay strictly sorted, the key holds the new record, every other entry is untouched |
| Records.SortedUnique | crates/block-coordinator/src/buffer.rs:235-252 | two strictly sorted lists with the same entries are equal, so what a drain returns does not depend on the order of arrival |
| Records.InstructionKeyOrder | crates/block-coordinator/src/types.rs:123-141 | keys compare by transaction index first and then by path |
| CoordinatorObject.CoordinatorState.Entry | crates/block-coordinator/src/state.rs:165-215 | gives the slot's own buffer, a fresh one if there is none, and leaves every other slot's buffer where it was |
| CoordinatorObject.CoordinatorState.StoreAccount | crates/block-coordinator/src/state.rs:174-181 | storing through the slot's buffer object is a map update of that slot's records and a count of one; no other slot's buffer notices |
| SlotBuffer.SlotRecordBuffer.SetExpectedAccountCount | crates/block-coordinator/src/buffer.rs:160-179 | the first expected count wins |
| SlotBuffer.SlotRecordBuffer.DrainInstructionRecords | crates/block-coordinator/src/buffer.rs:233-252 | hands out all records in key order with the block's metadata and empties that half, or does nothing without metadata |
| SlotBuffer.SlotRecordBuffer.DrainAccountRecords | crates/block-coordinator/src/buffer.rs:254-268 | hands out all account records in key order and empties that half |
| CoordinatorObject.CoordinatorState.ApplyEvent | crates/block-coordinator/src/state.rs:108-216 | every event, accepted, refused or late, takes the object to the state that one step of the model gives |
| CoordinatorObject.CoordinatorState.DrainInstructionFlushable | crates/block-coordinator/src/state.rs:217-259 | the drain loop emits what the model's drain emits and leaves its state; a ready slot always has its metadata |
| CoordinatorObject.CoordinatorState.DrainAccountFlushable | crates/block-coordinator/src/state.rs:261-285 | likewise for the account drain |
| CoordinatorObject.CoordinatorState.CleanupFullyDrained | crates/block-coordinator/src/state.rs:287-303 | removes the fully drained entries, prunes markers and counts |
| CoordinatorObject.CoordinatorState.PruneDiscardedSlots | crates/block-coordinator/src/state.rs:432-448 | forgets exactly the discard markers 512 or more behind the lower frontier |
| Drains.DrainIxSweeps | crates/block-coordinator/src/state.rs:217-259 | a drain emits ready slots in ascending order above the frontier, each chained to its predecessor or to a discard, and changes nothing else |
| Drains.DrainAcctSweeps | crates/block-coordinator/src/state.rs:261-285 | an account drain emits ready slots in ascending order and changes nothing else |
| Runs.ApplyIsLocal | crates/block-coordinator/src/state.rs:108-216 | an event touches only its own slot's entry, and never a frontier |
| Runs.InstructionsAreOrdered | crates/block-coordinator/src/state.rs:217-303 | over any run without a stale block, instruction outputs are strictly ascending by slot, and each after the first has a parent at or below its predecessor or a discarded one |
| Runs.AccountsAreOrdered | crates/block-coordinator/src/state.rs:261-303 | over any run without a stale gate, account outputs are strictly ascending by slot |
| Runs.DrainedAccountsAreEmpty | crates/block-coordinator/src/buffer.rs:254-268 | in every run an account half that has gone out holds no records |
| Runs.InstructionDrainLosesNothing | crates/block-coordinator/src/state.rs:217-303 | a drain followed by the cleanup removes no entry that still holds a record: records stay or go out whole |
| Runs.AccountDrainLosesNothing | crates/block-coordinator/src/state.rs:261-303 | the same for the account drain |
| OrderLimits.StaleBlockBreaksOrder | crates/block-coordinator/src/state.rs:110-116 | after a stale block there is an in-order continuation that emits a slot behind the frontier |
| OrderLimits.OrderBreaksIffStaleBlock | crates/block-coordinator/src/state.rs:305-325 | some continuation without stale blocks emits an instruction slot at or behind the frontier after an event if and only if that event is a stale block |
| OrderLimits.StaleBlockIsReachable | crates/block-coordinator/src/state.rs:941-994 | the set-up of the finalized-mode test reaches a state in which the next block can be stale |
| OrderLimits.StaleGateBreaksOrder | crates/block-coordinator/src/state.rs:398-412 | after a stale gate there is an in-order continuation that emits an account slot at or behind the frontier |
| OrderLimits.AccountOrderBreaksIffStaleGate | crates/block-coordinator/src/state.rs:305-325 | some continuation without stale gates emits an account slot at or behind the frontier after an event if and only if that event is a stale gate |
| OrderLimits.StaleGateIsReachable | crates/block-coordinator/src/state.rs:117-136 | a run from the start reaches a state in which the next commitment is a stale gate |
| TwoGate.BufferHoldsEverything | crates/block-coordinator/src/state.rs:165-202 | until a slot goes out, its buffer holds exactly the records its handlers have sent and counts exactly their signals, whatever account handlers send for the slot |
| TwoGate.EveryTaskDone | crates/kafka-sink/src/handler.rs:61-157 | when the signals counted reach the number of tasks, every task has sent everything: the pigeonhole step |
| TwoGate.FlushedBlockIsComplete | crates/block-coordinator/src/buffer.rs:183-199 | in every run without a stale block and every interleaving, with any traffic of account handlers for the slot, what goes out for a slot that announces its number of transactions and is not discarded is every record of every transaction, in order |
| Gates.OutputsWereReady | crates/block-coordinator/src/buffer.rs:183-205 | in every run, in order or not, an instruction slot that goes out was confirmed, frozen as it goes out and has as many parsed transactions as that block announced, and an account slot got the commitment its gate is set to, all since its last discard |
| Gates.HeadGoesOutIffReady | crates/block-coordinator/src/state.rs:217-259 | the next drain emits a slot that is next in line if and only if it was confirmed, frozen, its announced transactions are parsed, and its parent is out or discarded; told from the events |
| Gates.AccountHeadGoesOutIffReady | crates/block-coordinator/src/state.rs:261-285 | the same of the account drain: committed, and as many outcomes as sightings before the commitment |
| AccountBlocks.FlushedAccountsAreComplete | crates/block-coordinator/src/state.rs:174-190 | what goes out for the accounts of a slot is the last record of every account, in key order, and their number; none is lost |
| Bookkeeping.MarkersAreRemembered | crates/block-coordinator/src/state.rs:432-448 | in every run the discard markers are exactly the discards of slots that no frontier has left 512 behind since |
| Bookkeeping.DrainedBuffersGo | crates/block-coordinator/src/state.rs:287-303 | no buffer outlives both of its drains |
| Bookkeeping.LateArrivalsAreCounted | crates/block-coordinator/src/state.rs:353-379 | the two late counters are the numbers of account outcomes after the accounts went out and of sightings after the commitment, of slots not known to be discarded |
| Bookkeeping.FinalizedIsTold | crates/block-coordinator/src/state.rs:129-143 | a slot is marked as finalized exactly if its gate waits for that and the event came |
| Pruning.PruningIsUnobservable | crates/block-coordinator/src/state.rs:432-448 | once both frontiers are set, a coordinator that prunes and one that never prunes emit the same slots on every in-order continuation |
| Pruning.ForgottenTooEarly | crates/block-coordinator/src/state.rs:89-98 | once a discard is forgotten, some in-order continuation makes the outputs differ from those of a coordinator that remembers it, if and only if a frontier is still unset |
| AccountLedger.AccountsAreConserved | crates/block-coordinator/src/state.rs:117-202 | in every reachable state processed counts are records taken plus filtered plus failed, a frozen count equals the sightings accepted, no slot has both a frozen gate and a pending count, and a drained half is empty |
| AccountLedger.FlushedAccountsAreCovered | crates/block-coordinator/src/buffer.rs:191-205 | every account slot that goes out has processed at least the sightings of its slot |
| AccountLedger.ExpectedCountIsFixed | crates/block-coordinator/src/state.rs:398-412 | a frozen expected count never changes while its entry exists |
| DiscardSafety.RememberedDiscardsStayEmpty | crates/block-coordinator/src/state.rs:414-430 | while a discard is remembered, an entry re-created for its slot has no records, zero counts and no pending account events |
| DiscardSafety.EmittedRecordsPostdateDiscards | crates/block-coordinator/src/state.rs:328-379 | in every run each emitted record was sent for that very slot after the slot's last discard |
| CallTree.DerivePathsFromStackHeights | crates/core/src/instruction.rs:596-661 | the forward loop computes the path function for any heights; what that function gives is told by the next rows |
| CallTree.PathsAscendIffNoDropToZero | crates/core/src/instruction.rs:596-661 | derived paths are strictly lexicographically increasing, hence distinct, if and only if no height drops to zero |
| CallTree.NestInner | crates/core/src/instruction.rs:424-452 | the backward loop that removes and pushes in place builds the nested forest |
| CallTree.NestKeepsOrder | crates/core/src/instruction.rs:424-452 | for any heights the forest's preorder is the original list |
| CallTree.TreeAgreesIffLinedUp | crates/core/src/instruction.rs:389-456 | every derived path is its parent's path in the nested tree plus the child index if and only if the heights line up, missing ones included |
| CallTree.FlatTreeAgrees | crates/core/src/instruction.rs:596-661 | with no height present, instruction `i` has path `[outer, i]` and the tree is flat |
| CallTree.TreeAlgorithmsAgree | crates/core/src/instruction.rs:389-456 | so paths and tree agree for heights as the runtime reports them |
| Visit.AttachInnerInstructions | crates/core/src/instruction.rs:389-456 | attaches every group to its outer instruction, and fails exactly when a group names none |
| Visit.AttachKeepsOrder | crates/core/src/instruction.rs:389-456 | the preorder below each outer instruction is the list Solana gave for it |
| Visit.AttachedPathsAgree | crates/core/src/instruction.rs:389-456 | with one group per outer instruction the attached paths agree with the tree if and only if each group's heights line up |
| Visit.VisitAll.Next | crates/core/src/instruction.rs:541-575 | the iterator yields exactly the preorder |
| Visit.VisitAllWithFlatIndices | crates/core/src/instruction.rs:512-535 | each instruction comes with its position in the preorder |
| Visit.FlatIndexIsListPosition | crates/core/src/instruction.rs:512-535 | flat index `[outer, k]` is the k-th entry of Solana's inner list |
| Handler.HandleTransaction | crates/kafka-sink/src/handler.rs:61-157 | the messages of a transaction, whatever its parsers answer and whether or not its instructions could be built |
| Handler.TransactionIsTask | crates/kafka-sink/src/handler.rs:61-157 | a task sends all its records, under keys of its own transaction, before its one completion signal |
| Handler.ProducedSorted | crates/kafka-sink/src/handler.rs:34-39 | sort keys increase strictly in execution order, so nothing is overwritten |
| Handler.ExecutionIncreases | crates/core/src/instruction.rs:512-535 | visited indexes are strictly increasing over a whole transaction |
| Handler.DeliveredBlockIsExecutionOrder | crates/kafka-sink/src/handler.rs:108-121 | end to end: what goes out for a slot is every record the handlers produced, once, in (transaction, execution) order, for every interleaving and with any account messages for the slot |
| Statistics.FlushedStatisticsCount | crates/kafka-sink/src/handler.rs:61-157 | the statistics that go out with a slot are the numbers of its instructions without a decoded record, by cause, and of its transactions, by status, for every interleaving |
| Statistics.FlushedAccountStatistics | crates/block-coordinator/src/buffer.rs:207-231 | the account statistics that go out with a slot are the numbers of its filtered and failed accounts |
| EndToEnd.DeliveredBlockFollowsLists | crates/core/src/instruction.rs:389-456 | from the listed instructions of each transaction, attached into trees, to the slot that goes out: its records are what the parsers give on the lists in their order, and the call trees visit exactly those lists |
| Logs.ScanIsMatchingClose | crates/core/src/log_messages.rs:112-148 | the scan stops right after the first line that balances the opening one, or at the end of the log |
| Logs.AssignLogsRecursive | crates/core/src/log_messages.rs:112-148 | returns the index after the matching close whatever the instruction tree is, and assigns the frames to the inner instructions in order |
| Logs.FramesInside | crates/core/src/log_messages.rs:112-148 | frames are disjoint, ordered and inside their parent |
| Logs.AssignedIsLaminar | crates/core/src/log_messages.rs:112-148 | assigned ranges are a laminar family at every depth |
| Logs.AssignLogMessages | crates/core/src/log_messages.rs:72-93 | the outer loop computes the outer assignment |
| Logs.OuterTakesNextGroup | crates/core/src/log_messages.rs:72-93 | assigned outer ranges are exactly the first groups, in order; everything else keeps its range |
| Logs.AllGroupsAssignedIffSubsequence | crates/core/src/log_messages.rs:72-93 | all groups are assigned if and only if their programs are a subsequence of the outer programs |
| Logs.GroupsAreOrdered | crates/core/src/log_messages.rs:72-93 | outer groups are non-empty, disjoint and in log order |
| Logs.GroupsHoldOuterInvokes | crates/core/src/log_messages.rs:72-93 | groups start at outer invokes and every outer invoke lies in one |
| Logs.OuterRangesAreOrdered | crates/core/src/log_messages.rs:72-93 | so the ranges of any two outer instructions that take a group are disjoint and in log order |
| LogFilters.SplitLogsByOuterIx | crates/core/src/log_messages.rs:159-189 | the flat splitter gives the lines of the same groups |
| LogFilters.EntriesAreWholeGroups | crates/core/src/log_messages.rs:159-189 | every entry of the splitter is an outer invoke and all lines up to its matching close; only the last may be cut short by the end of the log |
| LogFilters.DirectLogMessages | crates/core/src/instruction.rs:265-287 | the depth filter keeps exactly the lines at its own depth |
| LogFilters.DirectLinesPartition | crates/core/src/instruction.rs:265-287 | kept lines and children's ranges partition the instruction's range if and only if it has an inner instruction for every frame directly inside, truncated logs included |
| SlotWriter.SlotWriteExecutor.RunTransactionalOp | crates/kafka-sink/src/kafka_sink.rs:50-86 | succeeds exactly if some answer within the attempts is a success and those before it may be retried; a begin that fails leaves nothing open |
| SlotWriter.SlotWriteExecutor.CommitTransactionalOp | crates/kafka-sink/src/kafka_sink.rs:88-135 | committed exactly if some answer within the attempts is a success and those before it may be retried without an abort; however they are answered, the transaction is committed whole once or still open |
| SlotWriter.SlotWriteExecutor.PublishPlan | crates/kafka-sink/src/kafka_sink.rs:448-458 | success exactly if every send succeeds, and then every record and after them the checkpoint are in; the checkpoint is sent only if every record was |
| SlotWriter.SlotWriteExecutor.ExecuteTransactional | crates/kafka-sink/src/kafka_sink.rs:460-516 | against any broker an attempt commits one slot's whole block or nothing; with nothing open and no error it succeeds, and it leaves a transaction open only if its commit ended in an error that asks for no abort, or the abort itself did not succeed |
| SlotWriter.SlotWriteExecutor.WithRetry | crates/kafka-sink/src/kafka_sink.rs:137-169 | retries write whole blocks of the same slot, within the allowed attempts; once errors stop while attempts are left, the slot is written if and only if no transaction was left open |
| SlotWriter.SlotWriteExecutor.Run | crates/kafka-sink/src/kafka_sink.rs:592-627 | for every sequence of answers, attempts go slot by slot in coordinator order, stop at the first slot that fails for good, and what they commit is appended in that order; the commits are exactly the finished slots' blocks if and only if no attempt was lost; without transactions every checkpoint still follows its slot's records |
| SlotWriter.CommitsAreOrderedBlocks | crates/kafka-sink/src/kafka_sink.rs:460-516 | every committed transaction of a run is one slot's full records followed by its checkpoint, in coordinator order |
| SlotWriter.RunLands | crates/kafka-sink/src/kafka_sink.rs:460-516 | a run commits one block for every finished slot and one more for every lost attempt |
| SlotWriter.ExactlyOnceIff | crates/kafka-sink/src/kafka_sink.rs:460-516 | what a run commits is the block of every finished slot, once each and in order, if and only if no attempt committed while returning an error |
| SlotWriter.AttemptsAreOneAtATime | crates/kafka-sink/src/kafka_sink.rs:592-627 | no other slot is attempted before the slot at hand returned Ok |
| EndToEnd.CommitsFollowTheCoordinator | crates/kafka-sink/src/kafka_sink.rs:592-627 | every commit of a run fed by the coordinator's outputs writes one emitted slot; slots never go back, and with no attempt lost the commits are the first outputs, one each |
| SlotWriter.CoveredExtends | crates/kafka-sink/src/kafka_sink.rs:187-224 | without transactions, partial and repeated writes never leave a checkpoint that does not directly follow its records |
| WireFormat.ZigzagIsBijective | crates/kafka-sink/src/schema_registry.rs:62-71 | zigzag maps the 64-bit signed values one to one onto the unsigned ones |
| WireFormat.SixtyFourBitsTakeTenBytes | crates/kafka-sink/src/schema_registry.rs:28-37 | each varint takes 1 to 10 bytes |
| WireFormat.VarintLength | crates/kafka-sink/src/schema_registry.rs:73-99 | a varint has exactly as many bytes as the value has base-128 digits |
| WireFormat.VarintIsBase128 | crates/kafka-sink/src/schema_registry.rs:73-99 | the bytes are the value in groups of seven bits, least significant first, and all but the last have the top bit set |
| WireFormat.ZigzagIter.Next | crates/kafka-sink/src/schema_registry.rs:79-99 | the iterator yields the bytes of the varint, one at a time |
| WireFormat.WrapPayloadWithConfluentWireFormat | crates/kafka-sink/src/schema_registry.rs:32-60 | the buffer is magic byte, schema id, indices and payload, and never outgrows its capacity |
| WireFormat.WrappedStarts | crates/kafka-sink/src/schema_registry.rs:39-56 | a zero byte, the schema id with its most significant byte first, the number of indices; the payload comes last |
| WireFormat.UnwrapWrapped | crates/kafka-sink/src/schema_registry.rs:39-71 | a decoder recovers schema id, message indices and payload from every wrapped payload |
| CLayout.ShapeIsSound | crates/codama-from-anchor/src/layout.rs:319-352 | every C size is a multiple of its alignment |
| CLayout.ArrayItemsAligned | crates/codama-from-anchor/src/layout.rs:382-390 | so items one size apart stay aligned |
| CStructs.StructIsC | crates/codama-from-anchor/src/layout.rs:319-352 | the layout puts every field at the least aligned address behind the one before, takes the widest alignment and ends at its least multiple; there is one exactly if the explicit alignment is a power of two up to 2^29 and the size fits |
| CStructs.LayoutIsUnique | crates/codama-from-anchor/src/layout.rs:319-352 | no other layout does |
| CStructs.TransparentIsItsCarrier | crates/codama-from-anchor/src/layout.rs:292-317 | a transparent struct has a layout exactly if one field has a size and all others are empty and unaligned, and then it is that field's |
| CAligned.PrimitivesAreAligned | crates/codama-from-anchor/src/layout.rs:354-411 | without packed structs every primitive of an aligned value lies at a multiple of its own alignment, through nested structs, aliases and arrays |
| LayoutPass.OffsetLoop | crates/codama-from-anchor/src/layout.rs:319-352 | the checked offset loop finds the C layout, and fails exactly when it does not fit in 64 bits or the alignment is not allowed |
| LayoutPass.Layouts.StructLayout | crates/codama-from-anchor/src/layout.rs:269-352 | with whatever is memoised, an answer is the layout the memo implies, and no answer means that there is no C layout, unless more than 128 different definitions nest |
| LayoutPass.Layouts.FieldLayout | crates/codama-from-anchor/src/layout.rs:354-411 | likewise for a field, both ways, cyclic types included |
| LayoutPass.CycleHasNoShape | crates/codama-from-anchor/src/layout.rs:394-401 | a definition nested inside itself has no layout, so the provisional `None` it meets is final |
| LayoutPass.EvalDefIsC | crates/codama-from-anchor/src/layout.rs:354-411 | what the memo implies is the C representation |
| LayoutPass.Layouts.PaddedFields | crates/codama-from-anchor/src/layout.rs:220-267 | inserts the padding of the C layout where there is any |
| PaddingNames.PlainNamesTellNumbersApart | crates/codama-from-anchor/src/layout.rs:236-248 | `base_2`, `base_3`, … are different names, so the condition on camel-casing can be met |
| PaddingNames.FreeName | crates/codama-from-anchor/src/layout.rs:236-248 | ends, and gives the first of `base`, `base_2`, `base_3`, … whose identifier is not taken |
| PaddingNames.NamePadding | crates/codama-from-anchor/src/layout.rs:229-267 | the named fields are the padded ones; each gap has the first candidate name that no field and no earlier gap has taken, so that no two become the same identifier |
| PaddingMeaning.ReadsAtCPlaces | crates/codama-from-anchor/src/layout.rs:19-105 | a back-to-back read of a rewritten type, nested types and arrays included, visits every primitive at its C address and ends after the C size |
| PadPass.Reachable | crates/codama-from-anchor/src/layout.rs:128-146 | the worklist finds exactly the names that a chain of links leads to |
| PadPass.LaidOutIsClosed | crates/codama-from-anchor/src/layout.rs:67-80 | everything a root's layout goes through has a layout and is rewritten with it |
| PadPass.RootsReadAsC | crates/codama-from-anchor/src/layout.rs:19-105 | every zero-copy root has a C layout and its rewritten definition reads as that layout |
| PadPass.PadsChangeWithin | crates/codama-from-anchor/src/layout.rs:67-80 | only definitions with a gap that a root contains are changed |
| PadPass.Plan | crates/codama-from-anchor/src/layout.rs:19-95 | on success every root reads as its C layout and nothing changes that an argument, an event or a Borsh account mentions, directly or through definitions; on failure the named type is to blame: an enum in safe zero-copy data, a root without a C layout (or nested too deep), or a type with a gap that a root contains and Borsh also reads |
| PadPass.Idl.PadZeroCopy | crates/codama-from-anchor/src/layout.rs:19-105 | the same of the IDL rewritten in place; on failure it is untouched |
| GenericsHygiene.ResolveTyIsSubst | crates/codama-from-anchor/src/types.rs:91-139 | a resolved argument is the substituted one and refers to no parameter any more |
| GenericsHygiene.ExpandIsMacro | crates/codama-from-anchor/src/types.rs:146-239 | what expansion through scopes gives, expansion by substitution gives, even when callee and caller reuse parameter names |
| GenericsHygiene.MacroIsExpand | crates/codama-from-anchor/src/types.rs:146-239 | what expansion by substitution gives, expansion through scopes gives, unless it meets the nesting limit |
| GenericsHygiene.UseIsSubstitutedBody | crates/codama-from-anchor/src/types.rs:374-436 | a generic use expands to its body with the caller-resolved arguments put in |
| GenericsHygiene.UnboundConstIsCaptured | crates/codama-from-anchor/src/types.rs:118-126 | with any names and any number, a const name that is not in scope is captured by a callee that reuses it, where substitution gives an error |
| GenericsReadBack.NodeIsItsExpansion | crates/codama-from-anchor/src/types.rs:146-239 | the type a node spells out expands to that node, exactly if its array lengths are within the limit, its links name plain definitions and it is not too deep |
| GenericsReadBack.ConcreteReadsBack | crates/codama-from-anchor/src/types.rs:146-239 | a type without parameters is read back from its node, aliases looked through |
| GenericsReadBack.BindLooksUp | crates/codama-from-anchor/src/types.rs:398-432 | every parameter is bound to the resolved argument at its place, a repeated one to its last, a surplus one to none |
| GenericsReadBack.ParameterIsLength | crates/codama-from-anchor/src/types.rs:301-353 | an array as long as a const parameter is an array of that fixed length, and an error without a number |
| GenericsCosts.CopyCostsItsSize | crates/codama-from-anchor/src/types.rs:73-87 | visiting a copy costs exactly its size, unless it nests too deep |
| GenericsCosts.PlainCostsItsSize | crates/codama-from-anchor/src/types.rs:146-239 | a type without parameters costs its number of nodes |
| GenericsExpander.Expander.SpendOn | crates/codama-from-anchor/src/types.rs:73-87 | a copy costs its size; it fails for the budget exactly if that is less than the cost, and otherwise exactly past the nesting limit |
| GenericsExpander.Expander.Resolve | crates/codama-from-anchor/src/types.rs:89-139 | the resolved argument, array lengths included, exactly if the budget covers its cost, and the budget is less by that |
| GenericsExpander.Expander.TypeNodeAt | crates/codama-from-anchor/src/types.rs:146-239 | terminates by depth and gives the expansion exactly if the budget covers its cost, which the budget is less by; a node never costs less than its size |
| GenericsExpander.Expander.DefinedType | crates/codama-from-anchor/src/types.rs:374-436 | the use of a defined type, its errors included, exactly if the budget covers its cost |
| TypeNodes.MoreUnfolding | crates/codama-from-anchor/src/passes.rs:331-339 | a read that succeeds does not depend on how far links may be unfolded |
| NodeRewrites.InlinedReadsSame | crates/codama-from-anchor/src/passes.rs:331-339 | a type with inlined links reads the same wire leaves from the same bytes, both ways |
| NodeRewrites.FlattenReadsSame | crates/codama-from-anchor/src/passes.rs:341-362 | flattening struct arguments keeps the wire leaves of the list |
| NodeRewrites.BytesReadSame | crates/codama-from-anchor/src/passes.rs:412-434 | rewriting `u8` arrays keeps the wire leaves |
| ProgramPasses.InlinedIsLinkedOnce | crates/codama-from-anchor/src/passes.rs:293-302 | a name that is inlined is linked from no account, event, constant or type |
| ProgramPasses.InliningIsOneStep | crates/codama-from-anchor/src/passes.rs:293-318 | no inlined body links to an inlined name |
| PassOutcomes.WhichTypesGo | crates/codama-from-anchor/src/passes.rs:229-319 | a definition leaves the program exactly if it is no enum and its one counted link is a whole instruction argument; the others stay in their order |
| ProgramPasses.UnwrappedLinks | crates/codama-from-anchor/src/passes.rs:229-319 | the links of the program afterwards are those before, less the inlined names |
| ProgramPasses.LinksResolveAsBefore | crates/codama-from-anchor/src/passes.rs:229-319 | a remaining link resolves exactly when it did, and all links resolve exactly when all did |
| ProgramPasses.ArgumentsReadSame | crates/codama-from-anchor/src/passes.rs:18-25 | after all passes every instruction's argument list reads the same wire leaves from the same bytes |
| PassOutcomes.ArgumentsAfterPasses | crates/codama-from-anchor/src/passes.rs:18-25 | after all passes every argument, its link replaced if the definition leaves, is spliced in at its place if it is a struct, with its `u8` arrays as bytes, and nothing else is in the list |
| PassOutcomes.StructsLeft | crates/codama-from-anchor/src/passes.rs:341-362 | a struct is left at the top level exactly where a struct argument has one as a field |
| PassOutcomes.NoByteArraysLeft | crates/codama-from-anchor/src/passes.rs:388-434 | no fixed `u8` array is left anywhere in the program |
| PassOutcomes.DataReadsSame | crates/codama-from-anchor/src/passes.rs:18-25 | accounts, events and constants keep their names and read the same leaves from the same bytes after all passes |
| PassOutcomes.KeptTypeReadsSame | crates/codama-from-anchor/src/passes.rs:18-25 | a definition that stays reads the same under its name |
| PassOutcomes.InstructionsKeepTheRest | crates/codama-from-anchor/src/passes.rs:18-25 | instructions keep their names and PDAs, and each seed its name and what it reads |
| ProgramObject.CountLinks | crates/codama-from-anchor/src/passes.rs:321-329 | the use map counts every link of a type |
| ProgramObject.InlineLinks | crates/codama-from-anchor/src/passes.rs:331-339 | the recursion into what replaced a link terminates and is a single step of substitution |
| ProgramObject.U8ArraysToBytes | crates/codama-from-anchor/src/passes.rs:412-434 | rewrites every fixed `u8` array in a type |
| ProgramObject.FindDuplicates | crates/codama-from-anchor/src/passes.rs:365-381 | finds exactly the names given to more than one argument |
| ProgramObject.ProgramNode.UnwrapInstructionArgsDefinedTypes | crates/codama-from-anchor/src/passes.rs:229-319 | counts, partitions and inlines as specified, in place |
| ProgramObject.ProgramNode.FlattenInstructionDataArguments | crates/codama-from-anchor/src/passes.rs:341-386 | fails exactly when some instruction's flattened names clash, at the first such instruction, naming all that clash; the instructions before it are flattened, its own arguments are gone and the later ones are untouched |
| ProgramObject.ProgramNode.Run | crates/codama-from-anchor/src/passes.rs:18-25 | the program after all passes, or a clash |
| FixedSizes.SizeTable.FixedSizeOfType | crates/codama-from-anchor/src/v01.rs:277-368 | despite memo and visiting set, a size given is the exact size capped one byte above 10 MiB, and none is given exactly where there is none, cyclic types included, unless some type asked for nests past the limit |
| FixedSizes.CapsCommute | crates/codama-from-anchor/src/v01.rs:248-260 | capping operands first loses nothing, overflow included |
| TypeNodes.WidthsDouble | crates/codama-from-anchor/src/v01.rs:370-379 | number widths double from 1 to 16 bytes, signed and floating ones are as wide as unsigned ones, and only the compact format has none |
| FixedSizes.ReadsTakeTheSize | crates/codama-from-anchor/src/v01.rs:277-368 | every successful read of a type with a size consumes exactly that many bytes |
| FixedSizes.BytesKeepSize | crates/codama-from-anchor/src/passes.rs:412-434 | the `u8` array rewrite leaves sizes unchanged |
| Renderable.AliasTable.AliasDepth | crates/codama-from-anchor/src/v01.rs:381-427 | despite the memo, the length of the longest alias chain, and an error exactly when some chain, a cyclic one included, runs past the nesting limit |
| Renderable.AliasesReadThrough | crates/codama-from-anchor/src/v01.rs:399-411 | an alias reads as what it stands for; what stands for nothing is undefined, a struct, an enum or a longer tuple |
| Renderable.CollectLinks | crates/codama-from-anchor/src/v01.rs:429-435 | collects every link of a type |
| Renderable.CheckItems | crates/codama-from-anchor/src/v01.rs:437-483 | accepts exactly the items whose names stay distinct as identifiers and whose discriminators no data can confuse: items matching the same data agree, and are one where equal ones are refused; a refusal names two that collide |
| FramerModel.MapStaysBounded | crates/preconf-source/src/framer.rs:124-136 | after every update of any run the map holds at most 256 entries |
| FramerModel.IndexIsCountIffNothingLost | crates/preconf-source/src/framer.rs:246-266 | in every run a delivery's index is the number of earlier deliveries of its slot if and only if no entry of the slot that had counted was dropped |
| FramerModel.WindowedIndexesCount | crates/preconf-source/src/framer.rs:246-266 | inside the retention window indexes count 0, 1, 2, … per slot through restarts and reconnects |
| FramerModel.WindowedPairsAreDistinct | crates/preconf-source/src/framer.rs:84-136 | inside the retention window no two deliveries share slot and index |
| FramerModel.IndexRepeatsBehindTheWindow | crates/preconf-source/src/framer.rs:245-253 | behind the window an index repeats: slots 10, 500, 10 |
| FramerCounts.DeliveriesTell | crates/preconf-source/src/framer.rs:268-362 | a transaction is delivered exactly if its result is known, it decodes, is signed and some filter wants it; the delivery tells slot, first signature, vote flag, failure and the filters that want it, in order |
| FramerCounts.CountersCount | crates/preconf-source/src/framer.rs:84-350 | every counter is the number of inputs it stands for; the clip count saturates |
| FramerCounts.EntriesAreKept | crates/preconf-source/src/framer.rs:246-253 | the frontier is the highest slot ended or opened by a BAM transaction; an entry goes only when the frontier moves more than 64 ahead of it, or as one of the lowest past 256 |
| FramerCounts.FramesTell | crates/preconf-source/src/framer.rs:138-226 | a slot is open, or has ended, exactly as its starts, ends and reconnects since its entry was made say |
| FramerObject.Framer.Apply | crates/preconf-source/src/framer.rs:124-136 | an update does exactly its step, and the cap loop drops the lowest slots |
| FramerObject.Framer.Reconnected | crates/preconf-source/src/framer.rs:215-226 | a reconnect closes every frame and keeps every count |

## Left out

- Machine integers of counters: the coordinator's, handler's and framer's `u64` counters and indexes are unbounded, except the saturating clip count.
- The external block machine: its outputs are arbitrary event sequences; channels deliver each handler task's messages in order.
- Logging, metrics, cancellation and debug assertions; the warning past 100 discard markers has no effect on the state.
- Account handlers: how they build records; their messages, for any slot, reach the coordinator as arbitrary handler events.
- Log line text: a line is an invoke (outer or not, with its program), a close or anything else.
- Instruction contents: accounts and data travel as an opaque payload; signature and key lookups are not part of this model.
- Broker: answers are arbitrary, but a begin succeeds only when nothing is open and a begin that fails opens nothing; partitions, keys, headers and timeouts are not modelled, nor is the construction of a slot's plan.
- Account slot sink: it runs the same executor and retry loop as the instruction sink; the passthrough account sink publishes single records and watermarks outside this protocol.
- LayoutPass.Layouts.PaddedFields: its padding fields are lengths; their names are chosen by `PaddingNames.NamePadding`, for any camel-casing that tells numbered names apart. Camel-casing itself is not part of this model.
- JSON of an IDL: types are a typed tree, so malformed values, documentation and identifier checks are absent; `RecursionLimit` and the budget count type forms, not JSON values.
- FixedSizes.SizeTable.FixedSizeOfType: once a type that was asked for nests past the limit nothing is promised where no size is given, because a depth-limit `None` is cached and so depends on the order of visits.
- ProgramObject.ProgramNode.Run: the pass that runs first and gives common accounts their default addresses is not modelled; it touches no type.
- Node wrappers and hidden suffixes that the converter never produces; seeds of a PDA are kept as variable and constant lists, their interleaving is not.
- Program parsers, protobuf and JSON conversion, server-side filters and the legacy IDL upgrade.
- gRPC, Kafka, HTTP and TLS clients, configuration, timers and subscriptions.
