/** The chain end to end, from listed instructions to committed transactions. */
module EndToEnd {
  // First from the flat instruction lists of a block's transactions to the records that leave the
  // coordinator, then from the slots that leave it to the transactions that are committed.

  import opened Basics
  import opened Records
  import opened SlotBuffer
  import opened Coordinator
  import opened Drains
  import opened Runs
  import opened TwoGate
  import opened CallTree
  import opened Visit
  import opened Handler
  import SlotWriter

  // ---- From instruction lists to the coordinator ----

  /** A transaction as it arrives: outer instructions and lists of the inner ones. */
  datatype Listing = Listing(outer: seq<Instruction>, groups: seq<Group>)
  {
    predicate Fresh() { forall j :: 0 <= j < |outer| ==> outer[j].path == [j] && outer[j].inner == [] }
  }

  /** `ix` is visited as outer instruction `j` and then its listed inner ones, in list order. */
  predicate FollowsList(ix: Instruction, flats: seq<Flat>, j: nat) {
    var visited := FlatVisit(ix);
    && |visited| == 1 + |flats| && visited[0].index == [j]
    && forall k :: 0 <= k < |flats| ==>
         visited[k + 1].index == [j, k] && FlatOf(visited[k + 1].ix) == (flats[k].program, flats[k].payload)
  }

  function FlatOf(ix: Instruction): (nat, nat) { (ix.program, ix.payload) }

  predicate FollowsListing(instructions: seq<Instruction>, l: Listing) {
    |instructions| == |l.outer| && forall j :: 0 <= j < |instructions| ==> FollowsList(instructions[j], Listed(l.groups, j), j)
  }

  lemma AttachedFollowsListing(l: Listing)
    requires l.Fresh() && Attach(l.groups, l.outer).Some?
    ensures OuterPaths(Attach(l.groups, l.outer).value) && FollowsListing(Attach(l.groups, l.outer).value, l)
  {
    var instructions := Attach(l.groups, l.outer).value;
    forall j | 0 <= j < |instructions|
      ensures instructions[j].path == [j] && FollowsList(instructions[j], Listed(l.groups, j), j)
    {
      AttachKeepsOuter(l.groups, l.outer, j);
      AttachedFollowsList(l, j);
    }
  }

  lemma AttachedFollowsList(l: Listing, j: nat)
    requires l.Fresh() && Attach(l.groups, l.outer).Some? && j < |l.outer|
    ensures FollowsList(Attach(l.groups, l.outer).value[j], Listed(l.groups, j), j)
  {
    var flats, visited := Listed(l.groups, j), FlatVisit(Attach(l.groups, l.outer).value[j]);
    FlatVisitLength(l, j);
    forall k | 0 <= k < |flats|
      ensures visited[k + 1].index == [j, k] && FlatOf(visited[k + 1].ix) == (flats[k].program, flats[k].payload)
    {
      FlatIndexIsListPosition(l.groups, l.outer, j, k);
    }
  }

  lemma FlatVisitLength(l: Listing, j: nat)
    requires l.Fresh() && Attach(l.groups, l.outer).Some? && j < |l.outer|
    ensures var visited := FlatVisit(Attach(l.groups, l.outer).value[j]);
            |visited| == 1 + |Listed(l.groups, j)| && visited[0].index == [j]
  {
    VisitOrder(l.groups, l.outer, j);
  }

  /** A built transaction is its listing with the groups attached. */
  ghost predicate IsListed(tx: Transaction, l: Listing) {
    l.Fresh() && (tx.Built? ==> Attach(l.groups, l.outer) == Some(tx.instructions))
  }

  /**
   * From lists to output: whatever the interleaving, what goes out for a slot is every record the
   * handlers produced, once, in the order of transactions and, inside each, of its flat lists.
   */
  lemma DeliveredBlockFollowsLists(commitAt: CommitAt, steps: seq<Step>, slot: Slot, txs: seq<Transaction>,
                                   listings: seq<Listing>, parsers: seq<Parser>, indexes: seq<nat>)
    requires |txs| == |parsers| == |indexes| == |listings| && StrictlyAscending(indexes)
    requires forall t :: 0 <= t < |txs| ==> IsListed(txs[t], listings[t]) && (txs[t].NoInfo? || txs[t].index == indexes[t])
    requires IxInOrder(Start(commitAt, Some(RETENTION)), steps) && slot !in Discards(steps)
    requires Delivers(steps, slot, TasksOf(slot, txs, parsers))
    ensures forall t :: 0 <= t < |txs| && txs[t].Built? ==> FollowsListing(txs[t].instructions, listings[t])
    ensures forall o :: o in Exec(Start(commitAt, Some(RETENTION)), steps).ixOut && o.slot == slot ==>
              o.records == Values(ProducedByBlock(txs, parsers)) && o.executedTxCount == |txs|
  {
    forall t | 0 <= t < |txs| && txs[t].Built?
      ensures OuterPaths(txs[t].instructions) && FollowsListing(txs[t].instructions, listings[t])
    {
      assert IsListed(txs[t], listings[t]);
      AttachedFollowsListing(listings[t]);
    }
    DeliveredBlockIsExecutionOrder(commitAt, steps, slot, txs, parsers, indexes);
  }

  // ---- From the coordinator to the broker ----

  /** The write plan of an instruction slot; `id` names a record. */
  function PlanOf(o: InstructionSlot, id: Record -> nat): SlotWriter.Plan {
    SlotWriter.Plan(o.slot, seq(|o.records|, i requires 0 <= i < |o.records| => id(o.records[i])))
  }

  function PlansOf(out: seq<InstructionSlot>, id: Record -> nat): (plans: seq<SlotWriter.Plan>)
    ensures |plans| == |out| && forall i :: 0 <= i < |out| ==> plans[i] == PlanOf(out[i], id)
  {
    seq(|out|, i requires 0 <= i < |out| => PlanOf(out[i], id))
  }

  /** The transaction writes the records of `o` and then its checkpoint, and nothing else. */
  ghost predicate Writes(c: seq<SlotWriter.Msg>, o: InstructionSlot, id: Record -> nat) {
    && |c| == |o.records| + 1 && c[|o.records|] == SlotWriter.Checkpoint(o.slot)
    && forall i :: 0 <= i < |o.records| ==> c[i] == SlotWriter.Record(id(o.records[i]))
  }

  /**
   * From outputs to commits: whatever the broker answers, each transaction that a run of the slot
   * writer commits writes one slot the coordinator emitted, and the slots of later commits are never
   * lower; if no attempt was lost they are strictly higher, and the commits are exactly the first
   * `done` outputs.
   */
  lemma CommitsFollowTheCoordinator(commitAt: CommitAt, retention: Option<nat>, steps: seq<Step>, id: Record -> nat,
                                    tries: seq<seq<SlotWriter.Attempt>>, done: nat, max: nat) returns (from: seq<nat>)
    requires IxInOrder(Start(commitAt, retention), steps)
    requires SlotWriter.IsRun(PlansOf(Exec(Start(commitAt, retention), steps).ixOut, id), tries, done, max)
    ensures var out, landed := Exec(Start(commitAt, retention), steps).ixOut, SlotWriter.Landed(SlotWriter.Flat(tries));
            && |from| == |landed|
            && (forall k :: 0 <= k < |from| ==> from[k] < |out| && Writes(landed[k], out[from[k]], id))
            && (forall k, m :: 0 <= k < m < |from| && from[k] != from[m] ==> out[from[k]].slot < out[from[m]].slot)
            && (forall k, m :: 0 <= k < m < |from| ==> from[k] <= from[m])
            && (SlotWriter.NoneLost(SlotWriter.Flat(tries)) ==>
                  |landed| == done && forall k :: 0 <= k < done ==> k < |out| && Writes(landed[k], out[k], id))
  {
    var out := Exec(Start(commitAt, retention), steps).ixOut;
    var plans := PlansOf(out, id);
    InstructionsAreOrdered(commitAt, retention, steps);
    from := SlotWriter.CommitsAreOrderedBlocks(plans, tries, done, max);
    var landed := SlotWriter.Landed(SlotWriter.Flat(tries));
    forall k | 0 <= k < |from| ensures from[k] < |out| && Writes(landed[k], out[from[k]], id) {
      assert SlotWriter.IsBlockOf(landed[k], plans, from[k]);
    }
    SlotWriter.ExactlyOnceIff(plans, tries, done, max);
    SlotWriter.BlocksLength(plans, done);
    if SlotWriter.NoneLost(SlotWriter.Flat(tries)) {
      forall k | 0 <= k < done ensures k < |out| && Writes(landed[k], out[k], id) { SlotWriter.BlocksAt(plans, done, k); }
    }
  }
}
