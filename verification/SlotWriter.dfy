/** The slot writer against a broker that answers as it likes. */
module SlotWriter {
  import opened Basics

  datatype Msg = Record(id: nat) | Checkpoint(slot: nat)

  /** A slot's records in the coordinator's order. */
  datatype Plan = Plan(slot: nat, records: seq<nat>)

  function RecordMsgs(records: seq<nat>, n: nat): (r: seq<Msg>)
    requires n <= |records|
    ensures |r| == n && forall i :: 0 <= i < n ==> r[i] == Record(records[i])
  {
    seq(n, i requires 0 <= i < n => Record(records[i]))
  }

  /** What one committed transaction must hold: every record of one slot, then its checkpoint. */
  function Block(p: Plan): seq<Msg> { RecordMsgs(p.records, |p.records|) + [Checkpoint(p.slot)] }

  datatype Answer = Okay | Failure(retriable: bool, abortRequired: bool)

  datatype Op = Init | Begin | Abort

  datatype CommitResult = Committed | AbortRequired | Failed

  /** The larger of 1 and `n`. */
  function AtLeastOne(n: nat): (max: nat)
    ensures max >= 1 && max >= n && (max == 1 || max == n)
  {
    if n == 0 then 1 else n
  }

  /** What the broker does with a call: whether it takes effect, and what it answers. */
  datatype Reply = Reply(effect: bool, told: bool, retriable: bool, abortRequired: bool)
  {
    predicate Fine() { effect && told }
  }

  type Script = nat -> Reply

  ghost predicate FineFrom(script: Script, from: nat) { forall n :: n >= from ==> script(n).Fine() }

  /** A begin, abort or initialisation is answered `Okay`; `free` says that nothing is open. */
  predicate Answered(op: Op, r: Reply, free: bool) { r.effect && if op.Begin? then free else r.told }

  /** No error comes after the first `attempts - 1` answers. */
  ghost predicate FineSoon(script: Script, from: nat, attempts: nat) {
    exists n :: from <= n < from + attempts && FineFrom(script, n)
  }

  /** Some answer within the attempts is `Okay`, and all before it may be retried. */
  ghost predicate OpSucceeds(op: Op, script: Script, from: nat, attempts: nat, free: bool) {
    exists j :: 0 <= j < attempts && OpSucceedsAt(op, script, from, j, free)
  }

  ghost predicate OpSucceedsAt(op: Op, script: Script, from: nat, j: nat, free: bool) {
    Answered(op, script(from + j), free) && forall i :: from <= i < from + j ==> script(i).retriable
  }

  /** Some answer within the attempts is `Okay` after the commit took effect, and all before it may be retried. */
  ghost predicate CommitSucceeds(script: Script, from: nat, attempts: nat) {
    exists j :: 0 <= j < attempts && CommitSucceedsAt(script, from, j)
  }

  ghost predicate CommitSucceedsAt(script: Script, from: nat, j: nat) {
    && script(from + j).told && (exists i :: from <= i <= from + j && script(i).effect)
    && forall i :: from <= i < from + j ==> script(i).retriable && !script(i).abortRequired
  }

  /** A broker is any script of replies, except that a begin succeeds only when nothing is open. */
  class Broker {
    const transactional: bool
    const script: Script
    /** How many calls it has answered. */
    var calls: nat
    var open: Option<seq<Msg>>
    var committed: seq<seq<Msg>>
    /** Messages sent outside transactions. */
    var direct: seq<Msg>
    /** Commits that took effect although the answer was an error. */
    ghost var silent: nat

    constructor (transactional: bool, script: Script)
      ensures this.transactional == transactional && this.script == script
      ensures open == None && committed == [] && direct == [] && silent == 0 && calls == 0
    {
      this.transactional, this.script := transactional, script;
      open, committed, direct, silent, calls := None, [], [], 0, 0;
    }

    method Control(op: Op) returns (a: Answer)
      modifies this`open, this`calls
      ensures calls == old(calls) + 1
      ensures var r := script(old(calls));
              a == if Answered(op, r, old(open).None?) then Okay else Failure(r.retriable, r.abortRequired)
      ensures op.Begin? ==> if a.Okay? then old(open).None? && open == Some([]) else open == old(open)
      ensures !op.Begin? ==> (open.None? || open == old(open)) && (a.Okay? ==> open.None?)
    {
      var r := script(calls);
      calls := calls + 1;
      a := Failure(r.retriable, r.abortRequired);
      if op.Begin? {
        if r.effect && open.None? { open := Some([]); a := Okay; }
      } else if r.effect {
        open := None;
        if r.told { a := Okay; }
      }
    }

    /** A failed send may still have reached the broker. */
    method Send(m: Msg) returns (ok: bool)
      requires transactional ==> open.Some?
      modifies this`open, this`direct, this`calls
      ensures calls == old(calls) + 1 && ok == script(old(calls)).Fine()
      ensures transactional ==> direct == old(direct) && (open == Some(old(open).value + [m]) || (!ok && open == old(open)))
      ensures !transactional ==> open == old(open) && (direct == old(direct) + [m] || (!ok && direct == old(direct)))
    {
      var r := script(calls);
      calls := calls + 1;
      ok := r.effect && r.told;
      if r.effect {
        if transactional { open := Some(open.value + [m]); } else { direct := direct + [m]; }
      }
    }

    method Commit() returns (a: Answer)
      modifies this`open, this`committed, this`silent, this`calls
      ensures calls == old(calls) + 1
      ensures var r := script(old(calls));
              a == if r.told && (r.effect || old(open).None?) then Okay else Failure(r.retriable, r.abortRequired)
      ensures open.None? <==> old(open).None? || script(old(calls)).effect
      ensures old(open).None? ==> open == None && committed == old(committed) && silent == old(silent)
      ensures old(open).Some? ==>
                if a.Okay? then open == None && committed == old(committed) + [old(open).value] && silent == old(silent)
                else (open == old(open) && committed == old(committed) && silent == old(silent))
                     || (open == None && committed == old(committed) + [old(open).value] && silent == old(silent) + 1)
    {
      var r := script(calls);
      calls := calls + 1;
      a := Failure(r.retriable, r.abortRequired);
      if open.None? {
        if r.told { a := Okay; }
      } else if r.effect {
        committed := committed + [open.value];
        open := None;
        if r.told { a := Okay; } else { silent := silent + 1; }
      }
    }
  }

  // ---- Attempts ----

  /** One attempt at a plan: whether it returned Ok, and whether it committed but returned an error. */
  datatype Attempt = Attempt(plan: Plan, ok: bool, lost: bool)

  /** The transactions that a list of attempts made visible. */
  function Landed(attempts: seq<Attempt>): seq<seq<Msg>> {
    if attempts == [] then [] else
      var a := attempts[|attempts| - 1];
      Landed(attempts[..|attempts| - 1]) + if a.ok || a.lost then [Block(a.plan)] else []
  }

  function LostIn(attempts: seq<Attempt>): nat {
    if attempts == [] then 0 else
      LostIn(attempts[..|attempts| - 1]) + if attempts[|attempts| - 1].lost then 1 else 0
  }

  ghost predicate NoneLost(attempts: seq<Attempt>) { forall a :: a in attempts ==> !a.lost }

  /** The attempts at one plan: all of them failed but for the last one, if `ok`. */
  predicate IsTries(p: Plan, tries: seq<Attempt>, ok: bool, max: nat) {
    && 0 < |tries| <= max && (!ok ==> |tries| == max)
    && (forall i :: 0 <= i < |tries| ==> tries[i].plan == p && (tries[i].ok ==> !tries[i].lost))
    && (forall i :: 0 <= i < |tries| ==> (tries[i].ok <==> ok && i == |tries| - 1))
  }

  /** The attempts of a run, plan after plan; the one after the `done` finished plans failed for good. */
  ghost predicate IsRun(plans: seq<Plan>, tries: seq<seq<Attempt>>, done: nat, max: nat) {
    && done <= |tries| <= done + 1 && |tries| <= |plans|
    && forall i :: 0 <= i < |tries| ==> IsTries(plans[i], tries[i], i < done, max)
  }

  function Flat(tries: seq<seq<Attempt>>): seq<Attempt> {
    if tries == [] then [] else Flat(tries[..|tries| - 1]) + tries[|tries| - 1]
  }

  lemma LandedOne(attempts: seq<Attempt>, a: Attempt)
    ensures Landed(attempts + [a]) == Landed(attempts) + if a.ok || a.lost then [Block(a.plan)] else []
    ensures LostIn(attempts + [a]) == LostIn(attempts) + if a.lost then 1 else 0
  {
    assert (attempts + [a])[..|attempts|] == attempts;
  }

  lemma {:induction false} LandedAppend(a: seq<Attempt>, b: seq<Attempt>)
    ensures Landed(a + b) == Landed(a) + Landed(b)
    ensures LostIn(a + b) == LostIn(a) + LostIn(b)
    decreases |b|
  {
    if b == [] {
      assert a + b == a;
    } else {
      var n := |b| - 1;
      LandedAppend(a, b[..n]);
      LandedOne(a + b[..n], b[n]);
      LandedOne(b[..n], b[n]);
      assert a + b == a + b[..n] + [b[n]] && b == b[..n] + [b[n]];
      Associate(Landed(a), Landed(b[..n]), if b[n].ok || b[n].lost then [Block(b[n].plan)] else []);
    }
  }

  lemma FlatOne(tries: seq<seq<Attempt>>, t: seq<Attempt>)
    ensures Flat(tries + [t]) == Flat(tries) + t
  {
    assert (tries + [t])[..|tries|] == tries;
  }

  /** Without transactions, every checkpoint still directly follows all records of its slot. */
  ghost predicate CoveredAt(direct: seq<Msg>, plans: set<Plan>, i: nat)
    requires i < |direct|
  {
    direct[i].Checkpoint? ==>
      exists p :: p in plans && p.slot == direct[i].slot && |p.records| <= i
                  && direct[i - |p.records|..i] == RecordMsgs(p.records, |p.records|)
  }

  ghost predicate Covered(direct: seq<Msg>, plans: set<Plan>) {
    forall i :: 0 <= i < |direct| ==> CoveredAt(direct, plans, i)
  }

  ghost predicate OnlyRecords(msgs: seq<Msg>) { forall i :: 0 <= i < |msgs| ==> msgs[i].Record? }

  lemma CoveredExtends(direct: seq<Msg>, plans: set<Plan>, p: Plan, more: seq<Msg>)
    requires Covered(direct, plans) && (OnlyRecords(more) || more == Block(p))
    ensures Covered(direct + more, plans + {p})
  {
    var all := direct + more;
    forall i | 0 <= i < |all| ensures CoveredAt(all, plans + {p}, i) {
      if i < |direct| {
        assert CoveredAt(direct, plans, i) && all[i] == direct[i];
        if direct[i].Checkpoint? {
          var q :| q in plans && q.slot == direct[i].slot && |q.records| <= i
                   && direct[i - |q.records|..i] == RecordMsgs(q.records, |q.records|);
          assert all[i - |q.records|..i] == direct[i - |q.records|..i];
        }
      } else if all[i].Checkpoint? {
        assert more[i - |direct|] == all[i];
        assert i == |direct| + |p.records|;
        assert all[i - |p.records|..i] == RecordMsgs(p.records, |p.records|);
      }
    }
  }

  class SlotWriteExecutor {
    const broker: Broker
    const maxAttempts: nat
    const maxOpAttempts: nat
    /** Whether the producer's transactions were initialised before. */
    const initialized: bool
    /** Every attempt made so far. */
    ghost var log: seq<Attempt>

    constructor (broker: Broker, maxAttempts: nat, maxOpAttempts: nat, initialized: bool)
      ensures this.broker == broker && this.initialized == initialized && log == []
    {
      this.broker, this.maxAttempts, this.maxOpAttempts := broker, maxAttempts, maxOpAttempts;
      this.initialized, log := initialized, [];
    }

    method Initialize() returns (ok: bool)
      modifies broker`open, broker`calls
      ensures broker.calls >= old(broker.calls)
      ensures !broker.transactional || initialized ==> ok && broker.open == old(broker.open) && broker.calls == old(broker.calls)
      ensures broker.transactional && !initialized ==>
                (ok <==> OpSucceeds(Init, broker.script, old(broker.calls), AtLeastOne(maxOpAttempts), old(broker.open).None?))
      ensures old(broker.open).None? ==> broker.open.None?
    {
      if !broker.transactional || initialized { return true; }
      ok := RunTransactionalOp(Init);
    }

    /** Succeeds exactly if some answer within the attempts is `Okay` and those before it may be retried. */
    method RunTransactionalOp(op: Op) returns (ok: bool)
      modifies broker`open, broker`calls
      ensures ok <==> OpSucceeds(op, broker.script, old(broker.calls), AtLeastOne(maxOpAttempts), old(broker.open).None?)
      ensures broker.calls > old(broker.calls)
      ensures !ok && (op.Begin? ==> old(broker.open).None?) ==> !broker.script(broker.calls - 1).Fine()
      ensures op.Begin? ==> if ok then old(broker.open).None? && broker.open == Some([]) else broker.open == old(broker.open)
      ensures !op.Begin? ==> (broker.open.None? || broker.open == old(broker.open)) && (ok ==> broker.open.None?)
    {
      ghost var from, free := broker.calls, broker.open.None?;
      var last := AtLeastOne(maxOpAttempts);
      for attempt := 1 to last + 1
        invariant broker.calls == from + attempt - 1
        invariant op.Begin? ==> broker.open == old(broker.open)
        invariant broker.open.None? || broker.open == old(broker.open)
        invariant forall i :: from <= i < broker.calls ==> broker.script(i).retriable && !Answered(op, broker.script(i), free)
        invariant attempt <= last
      {
        var a := broker.Control(op);
        if a.Okay? {
          assert OpSucceedsAt(op, broker.script, from, attempt - 1, free);
          return true;
        }
        if !(a.retriable && attempt < last) {
          NoLaterAnswer(op, broker.script, from, attempt - 1, last, free);
          return false;
        }
      }
      assert false;
    }

    /** The last answer decides: an `Okay` after the effect, an error that asks for an abort, or any other error. */
    method CommitTransactionalOp(ghost block: seq<Msg>) returns (r: CommitResult)
      requires broker.open == Some(block)
      modifies broker`open, broker`committed, broker`silent, broker`calls
      ensures r == Committed <==> CommitSucceeds(broker.script, old(broker.calls), AtLeastOne(maxOpAttempts))
      ensures broker.calls > old(broker.calls)
      ensures r == AbortRequired <==> r != Committed && broker.script(broker.calls - 1).abortRequired
      ensures r != Committed && broker.open.Some? ==> !broker.script(broker.calls - 1).Fine()
      ensures (broker.open == Some(block) && broker.committed == old(broker.committed))
              || (broker.open == None && broker.committed == old(broker.committed) + [block])
      ensures r == Committed ==> broker.open == None
      ensures r != Committed && broker.open == None ==> broker.silent > old(broker.silent)
      ensures broker.silent >= old(broker.silent)
    {
      ghost var from := broker.calls;
      var last := AtLeastOne(maxOpAttempts);
      for attempt := 1 to last + 1
        invariant broker.calls == from + attempt - 1
        invariant broker.silent >= old(broker.silent)
        invariant (broker.open == Some(block) && broker.committed == old(broker.committed))
                  || (broker.open == None && broker.committed == old(broker.committed) + [block] && broker.silent > old(broker.silent))
        invariant broker.open.None? <==> exists i :: from <= i < broker.calls && broker.script(i).effect
        invariant forall i :: from <= i < broker.calls ==> Passes(broker.script, from, i)
        invariant attempt <= last
      {
        var a := broker.Commit();
        if a.Okay? {
          forall i | from <= i < from + attempt - 1 ensures broker.script(i).retriable && !broker.script(i).abortRequired {
            assert Passes(broker.script, from, i);
          }
          assert CommitSucceedsAt(broker.script, from, attempt - 1);
          return Committed;
        }
        if a.abortRequired || !(a.retriable && attempt < last) {
          NoLaterCommit(broker.script, from, attempt - 1, last);
          return if a.abortRequired then AbortRequired else Failed;
        }
      }
      assert false;
    }

    /** All records are sent even if some fail; the checkpoint only if none did. */
    method PublishPlan(p: Plan) returns (ok: bool, ghost more: seq<Msg>)
      requires broker.transactional ==> broker.open.Some?
      modifies broker`open, broker`direct, broker`calls
      ensures broker.calls > old(broker.calls)
      ensures ok <==> forall i :: old(broker.calls) <= i < old(broker.calls) + |p.records| + 1 ==> broker.script(i).Fine()
      ensures !ok ==> exists i :: old(broker.calls) <= i < broker.calls && !broker.script(i).Fine()
      ensures broker.transactional ==>
                broker.direct == old(broker.direct) && broker.open.Some?
                && (ok ==> broker.open.value == old(broker.open).value + Block(p))
      ensures !broker.transactional ==>
                broker.open == old(broker.open) && broker.direct == old(broker.direct) + more
                && (OnlyRecords(more) || more == Block(p)) && (ok ==> more == Block(p))
    {
      ok, more := true, [];
      ghost var from := broker.calls;
      for i := 0 to |p.records|
        invariant broker.calls == from + i && (ok <==> forall n :: from <= n < from + i ==> broker.script(n).Fine())
        invariant broker.transactional ==>
            broker.direct == old(broker.direct) && broker.open.Some?
            && (ok ==> broker.open.value == old(broker.open).value + RecordMsgs(p.records, i))
        invariant !broker.transactional ==>
            broker.open == old(broker.open) && broker.direct == old(broker.direct) + more
        invariant OnlyRecords(more) && (ok && !broker.transactional ==> more == RecordMsgs(p.records, i))
      {
        var sent := broker.Send(Record(p.records[i]));
        assert RecordMsgs(p.records, i + 1) == RecordMsgs(p.records, i) + [Record(p.records[i])];
        if !broker.transactional { more := more + if broker.direct == old(broker.direct) + more then [] else [Record(p.records[i])]; }
        ok := ok && sent;
      }
      if ok {
        ok := broker.Send(Checkpoint(p.slot));
        if !broker.transactional && broker.direct != old(broker.direct) + more { more := Block(p); }
      }
    }

    /**
     * Commits the whole block or nothing. `lost` says that it did commit but returned an error,
     * which takes a commit that succeeded while answering an error.
     */
    method ExecuteTransactional(p: Plan) returns (ok: bool, ghost lost: bool)
      requires broker.transactional
      modifies broker
      ensures broker.committed == old(broker.committed) + if ok || lost then [Block(p)] else []
      ensures lost ==> !ok && broker.silent > old(broker.silent)
      ensures broker.silent >= old(broker.silent) && broker.direct == old(broker.direct)
      ensures Recovers(broker.script, old(broker.calls), old(broker.open), ok, broker.calls, broker.open, AtLeastOne(maxOpAttempts))
    {
      ghost var from := broker.calls;
      FineSucceeds(Begin, broker.script, from, from, AtLeastOne(maxOpAttempts));
      lost := false;
      ok := RunTransactionalOp(Begin);
      if !ok { return; }
      ghost var sent;
      ok, sent := PublishPlan(p);
      ghost var at := broker.calls;
      if !ok {
        var aborted := RunTransactionalOp(Abort);
        assert broker.open.Some? ==> AbortFails(broker.script, from, at, AtLeastOne(maxOpAttempts));
        return;
      }
      assert broker.open.value == Block(p);
      FineSucceeds(Begin, broker.script, from, broker.calls, AtLeastOne(maxOpAttempts));
      var c := CommitTransactionalOp(Block(p));
      lost := c != Committed && broker.open == None;
      at := broker.calls;
      if c == AbortRequired {
        var aborted := RunTransactionalOp(Abort);
        assert broker.open.Some? ==> AbortFails(broker.script, from, at, AtLeastOne(maxOpAttempts));
      }
      ok := c == Committed;
    }

    method Execute(p: Plan) returns (ok: bool, ghost lost: bool, ghost more: seq<Msg>)
      modifies broker, this`log
      ensures log == old(log) + [Attempt(p, ok, lost)] && (lost ==> !ok) && broker.silent >= old(broker.silent)
      ensures broker.transactional ==>
                Recovers(broker.script, old(broker.calls), old(broker.open), ok, broker.calls, broker.open, AtLeastOne(maxOpAttempts))
      ensures !broker.transactional ==>
                broker.calls > old(broker.calls) && broker.open == old(broker.open)
                && (FineFrom(broker.script, old(broker.calls)) ==> ok)
      ensures broker.transactional ==>
                broker.direct == old(broker.direct) && (lost ==> broker.silent > old(broker.silent))
                && broker.committed == old(broker.committed) + if ok || lost then [Block(p)] else []
      ensures !broker.transactional ==>
                broker.committed == old(broker.committed) && broker.direct == old(broker.direct) + more
                && (OnlyRecords(more) || more == Block(p)) && (ok ==> more == Block(p))
    {
      more := [];
      if broker.transactional {
        ok, lost := ExecuteTransactional(p);
      } else {
        lost := false;
        ok, more := PublishPlan(p);
      }
      log := log + [Attempt(p, ok, lost)];
    }

    /**
     * Replays the whole write until it succeeds or the attempts run out. Once the errors stop while
     * attempts are left, it succeeds unless a transaction was left open.
     */
    method WithRetry(p: Plan, ghost plans: set<Plan>) returns (ok: bool, ghost tries: seq<Attempt>)
      requires p in plans && (!broker.transactional ==> Covered(broker.direct, plans))
      modifies broker, this`log
      ensures log == old(log) + tries && IsTries(p, tries, ok, AtLeastOne(maxAttempts))
      ensures broker.transactional ==>
                broker.committed == old(broker.committed) + Landed(tries) && broker.silent >= old(broker.silent) + LostIn(tries)
      ensures !broker.transactional ==> broker.committed == old(broker.committed) && Covered(broker.direct, plans)
      ensures broker.calls > old(broker.calls)
      ensures old(broker.open).None? ==> (ok ==> broker.open.None?)
      ensures old(broker.open).None? && FineFrom(broker.script, old(broker.calls)) ==> ok
      ensures old(broker.open).None? && FineSoon(broker.script, old(broker.calls), AtLeastOne(maxAttempts)) ==>
                (ok <==> broker.open.None?)
    {
      var last := AtLeastOne(maxAttempts);
      tries, ok := [], false;
      ghost var from := broker.calls;
      for attempt := 1 to last + 1
        invariant |tries| == attempt - 1 && log == old(log) + tries
        invariant forall i :: 0 <= i < |tries| ==> tries[i].plan == p && !tries[i].ok
        invariant broker.transactional ==>
            broker.committed == old(broker.committed) + Landed(tries) && broker.silent >= old(broker.silent) + LostIn(tries)
        invariant !broker.transactional ==> broker.committed == old(broker.committed) && Covered(broker.direct, plans)
        invariant !ok && broker.calls >= from + attempt - 1
        invariant attempt > 1 ==> broker.calls > from && !(old(broker.open).None? && FineFrom(broker.script, from))
        invariant attempt == 1 ==> broker.open == old(broker.open) && broker.calls == from
        invariant !broker.transactional ==> broker.open == old(broker.open)
        invariant forall n :: from <= n < from + attempt - 1 && old(broker.open).None? && FineFrom(broker.script, n) ==> broker.open.Some?
      {
        ghost var before := broker.direct;
        ghost var lost, more;
        ghost var at, free := broker.calls, broker.open.None?;
        ok, lost, more := Execute(p);
        forall n | from <= n < from + attempt && FineFrom(broker.script, n) && free ensures ok {
          assert FineFrom(broker.script, at);
        }
        if !broker.transactional {
          CoveredExtends(before, plans, p, more);
          assert plans + {p} == plans;
        }
        LandedOne(tries, Attempt(p, ok, lost));
        tries := tries + [Attempt(p, ok, lost)];
        if ok { return; }
      }
    }

    /**
     * Writes the slots in the order they come, and stops at the first that fails for good. What it
     * commits is what its attempts made visible; that is every finished slot exactly once, in order,
     * if and only if no attempt committed while returning an error.
     */
    method Run(plans: seq<Plan>) returns (ok: bool, done: nat, ghost tries: seq<seq<Attempt>>)
      requires !broker.transactional ==> Covered(broker.direct, set p | p in plans)
      modifies broker, this`log
      ensures IsRun(plans, tries, done, AtLeastOne(maxAttempts)) && log == old(log) + Flat(tries)
      ensures (ok ==> done == |plans|) && (!ok && tries != [] ==> |tries| == done + 1)
      ensures broker.transactional ==>
                && broker.committed == old(broker.committed) + Landed(Flat(tries))
                && (broker.committed == old(broker.committed) + Blocks(plans, done) <==> NoneLost(Flat(tries)))
                && broker.silent >= old(broker.silent) + LostIn(Flat(tries))
      ensures !broker.transactional ==> broker.committed == old(broker.committed) && Covered(broker.direct, set p | p in plans)
      ensures old(broker.open).None? && FineFrom(broker.script, old(broker.calls)) ==> ok
    {
      ghost var from := broker.calls;
      done, tries := 0, [];
      ok := Initialize();
      if !ok {
        FineSucceeds(Init, broker.script, from, from, AtLeastOne(maxOpAttempts));
        ExactlyOnceIff(plans, tries, done, AtLeastOne(maxAttempts));
        return;
      }
      ghost var all := set p | p in plans;
      while ok && done < |plans|
        invariant done <= |plans| && IsRun(plans, tries, done, AtLeastOne(maxAttempts))
        invariant |tries| == (if ok then done else done + 1) && log == old(log) + Flat(tries)
        invariant broker.transactional ==>
            && broker.committed == old(broker.committed) + Landed(Flat(tries))
            && broker.silent >= old(broker.silent) + LostIn(Flat(tries))
        invariant !broker.transactional ==> broker.committed == old(broker.committed) && Covered(broker.direct, all)
        invariant broker.calls >= from
        invariant old(broker.open).None? && FineFrom(broker.script, from) ==> ok && broker.open.None?
      {
        ghost var more;
        assert FineFrom(broker.script, from) ==> FineFrom(broker.script, broker.calls);
        ok, more := WithRetry(plans[done], all);
        RunOneMore(plans, tries, done, more, ok, AtLeastOne(maxAttempts));
        Extended(old(log), old(broker.committed), tries, more);
        tries := tries + [more];
        if ok { done := done + 1; }
      }
      ExactlyOnceIff(plans, tries, done, AtLeastOne(maxAttempts));
    }
  }

  /** After an error the abort from call `c` on found no success within its attempts. */
  ghost predicate AbortFails(script: Script, from: nat, c: nat, attempts: nat) {
    && (exists e :: from <= e < c && !script(e).Fine())
    && !OpSucceeds(Abort, script, c, attempts, false)
  }

  /** What an attempt makes of the answers and leaves behind. */
  ghost predicate Recovers(script: Script, from: nat, open: Option<seq<Msg>>, ok: bool, calls: nat, open': Option<seq<Msg>>,
                           attempts: nat) {
    && calls > from
    // With nothing open and no error to come it succeeds; a transaction that is still open stays in its way.
    && (open.None? && FineFrom(script, from) ==> ok)
    && (open.Some? ==> !ok && open' == open)
    // It leaves a transaction open only if its last answer was an error: of a commit, asking for no
    // abort, or of an abort that did not succeed.
    && (ok ==> open'.None?)
    && (open.None? && open'.Some? ==>
          !script(calls - 1).Fine()
          && (!script(calls - 1).abortRequired || exists c :: from < c < calls && AbortFails(script, from, c, attempts)))
  }

  lemma FineSucceeds(op: Op, script: Script, from: nat, at: nat, attempts: nat)
    requires from <= at && attempts > 0
    ensures FineFrom(script, from) ==> OpSucceeds(op, script, at, attempts, true) && CommitSucceeds(script, at, attempts)
  {
    if FineFrom(script, from) {
      assert script(at).Fine();
      assert OpSucceedsAt(op, script, at, 0, true) && CommitSucceedsAt(script, at, 0);
    }
  }

  /** None of the answers so far was a success, and the last of them ends the attempts. */
  lemma NoLaterAnswer(op: Op, script: Script, from: nat, j: nat, attempts: nat, free: bool)
    requires j < attempts && (j + 1 == attempts || !script(from + j).retriable)
    requires forall i :: from <= i <= from + j ==> !Answered(op, script(i), free)
    ensures !OpSucceeds(op, script, from, attempts, free)
  {
    forall i | 0 <= i < attempts ensures !OpSucceedsAt(op, script, from, i, free) {
      if i <= j { assert !Answered(op, script(from + i), free); }
    }
  }

  /** The answer before call `i` was no success, and allowed another attempt. */
  ghost predicate Passes(script: Script, from: nat, i: nat) {
    && script(i).retriable && !script(i).abortRequired
    && !(script(i).told && exists e :: from <= e <= i && script(e).effect)
  }

  lemma NoLaterCommit(script: Script, from: nat, k: nat, attempts: nat)
    requires k < attempts && forall i :: from <= i < from + k ==> Passes(script, from, i)
    requires !(script(from + k).told && exists e :: from <= e <= from + k && script(e).effect)
    requires !script(from + k).retriable || script(from + k).abortRequired || k == attempts - 1
    ensures !CommitSucceeds(script, from, attempts)
  {
    forall j | 0 <= j < attempts ensures !CommitSucceedsAt(script, from, j) {
      if j < k { assert Passes(script, from, from + j); }
    }
  }

  lemma RunOneMore(plans: seq<Plan>, tries: seq<seq<Attempt>>, done: nat, more: seq<Attempt>, ok: bool, max: nat)
    requires IsRun(plans, tries, done, max) && |tries| == done < |plans| && IsTries(plans[done], more, ok, max)
    ensures IsRun(plans, tries + [more], if ok then done + 1 else done, max)
  {
  }

  lemma Extended(log: seq<Attempt>, committed: seq<seq<Msg>>, tries: seq<seq<Attempt>>, more: seq<Attempt>)
    ensures log + Flat(tries) + more == log + Flat(tries + [more])
    ensures committed + Landed(Flat(tries)) + Landed(more) == committed + Landed(Flat(tries + [more]))
    ensures LostIn(Flat(tries + [more])) == LostIn(Flat(tries)) + LostIn(more)
  {
    FlatOne(tries, more);
    LandedAppend(Flat(tries), more);
    Associate(log, Flat(tries), more);
    Associate(committed, Landed(Flat(tries)), Landed(more));
  }

  lemma Associate<T>(a: seq<T>, b: seq<T>, c: seq<T>)
    ensures a + (b + c) == a + b + c
  {
  }

  // ---- What a run's commits and attempts look like ----

  ghost function Blocks(plans: seq<Plan>, n: nat): seq<seq<Msg>>
    requires n <= |plans|
  {
    if n == 0 then [] else Blocks(plans, n - 1) + [Block(plans[n - 1])]
  }

  lemma {:induction false} BlocksLength(plans: seq<Plan>, n: nat)
    requires n <= |plans|
    ensures |Blocks(plans, n)| == n
  {
    if n > 0 { BlocksLength(plans, n - 1); }
  }

  lemma {:induction false} BlocksAt(plans: seq<Plan>, n: nat, k: nat)
    requires k < n <= |plans|
    ensures |Blocks(plans, n)| == n && Blocks(plans, n)[k] == Block(plans[k])
  {
    BlocksLength(plans, n - 1);
    if k < n - 1 { BlocksAt(plans, n - 1, k); }
  }

  lemma {:induction false} NoneLostIn(attempts: seq<Attempt>)
    ensures NoneLost(attempts) <==> LostIn(attempts) == 0
  {
    if attempts != [] {
      var n := |attempts| - 1;
      NoneLostIn(attempts[..n]);
      assert attempts == attempts[..n] + [attempts[n]];
    }
  }

  /** Failed attempts make visible what they lost, and nothing else. */
  lemma {:induction false} FailedLand(p: Plan, tries: seq<Attempt>)
    requires forall i :: 0 <= i < |tries| ==> tries[i].plan == p && !tries[i].ok
    ensures |Landed(tries)| == LostIn(tries) && forall c :: c in Landed(tries) ==> c == Block(p)
  {
    if tries != [] { FailedLand(p, tries[..|tries| - 1]); }
  }

  lemma TriesLand(p: Plan, tries: seq<Attempt>, ok: bool, max: nat)
    requires IsTries(p, tries, ok, max)
    ensures |Landed(tries)| == LostIn(tries) + if ok then 1 else 0
    ensures forall c :: c in Landed(tries) ==> c == Block(p)
  {
    FailedLand(p, if ok then tries[..|tries| - 1] else tries);
  }

  /** A run commits each finished plan once, and each lost attempt's plan once more. */
  lemma {:induction false} RunLands(plans: seq<Plan>, tries: seq<seq<Attempt>>, done: nat, max: nat)
    requires IsRun(plans, tries, done, max)
    ensures |Landed(Flat(tries))| == done + LostIn(Flat(tries))
    ensures LostIn(Flat(tries)) == 0 ==> Landed(Flat(tries)) == Blocks(plans, done)
    decreases |tries|
  {
    if tries != [] {
      var n := |tries| - 1;
      RunLands(plans, tries[..n], n, max);
      TriesLand(plans[n], tries[n], n < done, max);
      LandedAppend(Flat(tries[..n]), tries[n]);
      if LostIn(Flat(tries)) == 0 && n < done {
        assert Landed(tries[n])[0] in Landed(tries[n]);
        assert Landed(tries[n]) == [Block(plans[n])];
      }
    }
  }

  /** Each finished slot was written exactly once, in order, if and only if no attempt was lost. */
  lemma ExactlyOnceIff(plans: seq<Plan>, tries: seq<seq<Attempt>>, done: nat, max: nat)
    requires IsRun(plans, tries, done, max)
    ensures Landed(Flat(tries)) == Blocks(plans, done) <==> NoneLost(Flat(tries))
    ensures forall before: seq<seq<Msg>> ::
              before + Landed(Flat(tries)) == before + Blocks(plans, done) <==> NoneLost(Flat(tries))
  {
    RunLands(plans, tries, done, max);
    NoneLostIn(Flat(tries));
    BlocksLength(plans, done);
    forall before: seq<seq<Msg>>
      ensures before + Landed(Flat(tries)) == before + Blocks(plans, done) <==> NoneLost(Flat(tries))
    {
      SameTail(before, Landed(Flat(tries)), Blocks(plans, done));
    }
  }

  lemma SameTail<T>(a: seq<T>, b: seq<T>, c: seq<T>)
    ensures a + b == a + c <==> b == c
  {
    if a + b == a + c {
      assert b == (a + b)[|a|..] && c == (a + c)[|a|..];
    }
  }

  ghost predicate IsBlockOf(c: seq<Msg>, plans: seq<Plan>, i: nat) { i < |plans| && c == Block(plans[i]) }

  /** Every committed transaction is one slot's whole block, and blocks follow the coordinator's order. */
  lemma {:induction false} CommitsAreOrderedBlocks(plans: seq<Plan>, tries: seq<seq<Attempt>>, done: nat, max: nat)
    returns (from: seq<nat>)
    requires IsRun(plans, tries, done, max)
    ensures |from| == |Landed(Flat(tries))| && forall k :: 0 <= k < |from| ==> from[k] < |tries|
    ensures forall k :: 0 <= k < |from| ==> IsBlockOf(Landed(Flat(tries))[k], plans, from[k])
    ensures forall k, m :: 0 <= k < m < |from| ==> from[k] <= from[m]
    decreases |tries|
  {
    if tries == [] { return []; }
    var n := |tries| - 1;
    var before := CommitsAreOrderedBlocks(plans, tries[..n], n, max);
    TriesLand(plans[n], tries[n], n < done, max);
    LandedAppend(Flat(tries[..n]), tries[n]);
    from := before + seq(|Landed(tries[n])|, _ => n);
    BlocksExtend(plans, Landed(Flat(tries[..n])), before, n, Landed(tries[n]), from);
  }

  lemma BlocksExtend(plans: seq<Plan>, landed: seq<seq<Msg>>, before: seq<nat>, n: nat, last: seq<seq<Msg>>, from: seq<nat>)
    requires n < |plans| && |before| == |landed| && from == before + seq(|last|, _ => n)
    requires forall k :: 0 <= k < |before| ==> IsBlockOf(landed[k], plans, before[k])
    requires forall c :: c in last ==> c == Block(plans[n])
    ensures forall k :: 0 <= k < |from| ==> IsBlockOf((landed + last)[k], plans, from[k])
  {
    forall k | 0 <= k < |from| ensures IsBlockOf((landed + last)[k], plans, from[k]) {
      if k >= |before| { assert last[k - |before|] in last; }
    }
  }

  /** No other slot is attempted before the slot at hand returned Ok. */
  ghost predicate OneAtATime(log: seq<Attempt>) {
    forall i, j :: 0 <= i < j < |log| && log[i].plan.slot != log[j].plan.slot ==> SucceededBetween(log, i, j)
  }

  ghost predicate SucceededBetween(log: seq<Attempt>, i: nat, j: nat)
    requires i < j < |log|
  {
    exists k :: i <= k < j && log[k].plan == log[i].plan && log[k].ok
  }

  ghost predicate Succeeds(log: seq<Attempt>, i: nat)
    requires i < |log|
  {
    exists k :: i <= k < |log| && log[k].plan == log[i].plan && log[k].ok
  }

  lemma {:induction false} AttemptsAreOneAtATime(plans: seq<Plan>, tries: seq<seq<Attempt>>, done: nat, max: nat)
    requires IsRun(plans, tries, done, max)
    ensures OneAtATime(Flat(tries))
    ensures done == |tries| ==> forall i :: 0 <= i < |Flat(tries)| ==> Succeeds(Flat(tries), i)
    decreases |tries|
  {
    if tries != [] {
      var n := |tries| - 1;
      AttemptsAreOneAtATime(plans, tries[..n], n, max);
      OneAtATimeExtends(plans[n], Flat(tries[..n]), tries[n]);
      if n < done { TriesSucceed(plans[n], Flat(tries[..n]), tries[n], max); }
    }
  }

  lemma SucceedsExtends(log: seq<Attempt>, tries: seq<Attempt>, i: nat)
    requires i < |log| && Succeeds(log, i)
    ensures Succeeds(log + tries, i) && forall j :: |log| <= j < |log + tries| ==> SucceededBetween(log + tries, i, j)
  {
    var k :| i <= k < |log| && log[k].plan == log[i].plan && log[k].ok;
    assert (log + tries)[k] == log[k];
  }

  lemma BetweenExtends(log: seq<Attempt>, tries: seq<Attempt>, i: nat, j: nat)
    requires i < j < |log| && SucceededBetween(log, i, j)
    ensures SucceededBetween(log + tries, i, j)
  {
    var k :| i <= k < j && log[k].plan == log[i].plan && log[k].ok;
    assert (log + tries)[k] == log[k];
  }

  lemma OneAtATimeExtends(p: Plan, log: seq<Attempt>, tries: seq<Attempt>)
    requires OneAtATime(log) && forall i :: 0 <= i < |log| ==> Succeeds(log, i)
    requires forall i :: 0 <= i < |tries| ==> tries[i].plan == p
    ensures OneAtATime(log + tries)
  {
    var more := log + tries;
    assert forall i :: |log| <= i < |more| ==> more[i] == tries[i - |log|];
    forall i, j | 0 <= i < j < |more| && more[i].plan.slot != more[j].plan.slot ensures SucceededBetween(more, i, j) {
      if j < |log| { BetweenExtends(log, tries, i, j); } else { SucceedsExtends(log, tries, i); }
    }
  }

  lemma TriesSucceed(p: Plan, log: seq<Attempt>, tries: seq<Attempt>, max: nat)
    requires IsTries(p, tries, true, max) && forall i :: 0 <= i < |log| ==> Succeeds(log, i)
    ensures forall i :: 0 <= i < |log + tries| ==> Succeeds(log + tries, i)
  {
    var more := log + tries;
    forall i | 0 <= i < |more| ensures Succeeds(more, i) {
      if i < |log| {
        SucceedsExtends(log, tries, i);
      } else {
        assert more[i] == tries[i - |log|] && more[|more| - 1] == tries[|tries| - 1];
      }
    }
  }
}
