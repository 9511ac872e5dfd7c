/** The promises of the fleet scheduler, stated over whole runs. */
module FleetOperationTheorems {
  import opened Text
  import opened FleetOperations
  import opened FleetOperationSafety
  import opened FleetOperationRuns

  // ---------- How one operation evolves ----------

  /** Every surviving row continues a row of before; rows only disappear with their device. */
  ghost predicate Carries(before: seq<Item>, after: seq<Item>) {
    forall y :: y in after ==> exists x :: x in before && Kept(x, y)
  }

  ghost predicate Evolves(op: Operation, op': Operation) {
    && op' == op.(status := op'.status, canaryPending := op'.canaryPending, items := op'.items)
    && Carries(op.items, op'.items)
    && (op'.canaryPending ==> op.canaryPending)
    && (op.status.Ended? ==> op'.status == op.status)
    && (op.status == Cancelling ==> op'.status == Cancelling || op'.status == Ended(VCancelled))
  }

  lemma KeptAllCarries(before: seq<Item>, after: seq<Item>)
    requires KeptAll(before, after)
    ensures Carries(before, after)
  {
    forall y | y in after ensures exists x :: x in before && Kept(x, y) {
      var i :| 0 <= i < |after| && after[i] == y;
      assert before[i] in before && Kept(before[i], y);
    }
  }

  lemma CarriesComposes(a: seq<Item>, b: seq<Item>, c: seq<Item>)
    requires Carries(a, b) && Carries(b, c)
    ensures Carries(a, c)
  {
    forall z | z in c ensures exists x :: x in a && Kept(x, z) {
      var y :| y in b && Kept(y, z);
      var x :| x in a && Kept(x, y);
      assert Kept(x, z);
    }
  }

  lemma AdvanceEvolves(db: Db, id: string, now: int, targets: string -> Target)
    requires id in db.ops && OperationOk(db.ops[id])
    ensures Evolves(db.ops[id], Apply(db, Advance(id, now, targets)).ops[id])
  {
    var op := db.ops[id];
    if Active(op.status) && RunPass(db, id, now, targets).Some? {
      PassKeeps(db, id, now, targets);
      KeptAllCarries(op.items, Advanced(db, id, now, RunPass(db, id, now, targets).value).items);
    } else {
      SameCarries(op.items);
    }
  }

  lemma SameCarries(items: seq<Item>)
    ensures Carries(items, items)
  {
    assert forall x :: x in items ==> Kept(x, x);
  }

  lemma DeleteEvolves(op: Operation, device: string)
    ensures Evolves(op, op.(items := WithoutDevice(op.items, device)))
  {
    WithoutDeviceHas(op.items, device);
    SameCarries(op.items);
  }

  /** A step touches the rows of operation `id` only by advancing, cancelling or resuming it,
      or by deleting a device. */
  ghost predicate Concerns(step: Step, id: string) {
    match step
    case Advance(other, _, _) => other == id
    case Cancel(_, other) => other == id
    case Resume(_, other, _) => other == id
    case DeleteDevice(_) => true
    case _ => false
  }

  lemma UnconcernedStep(db: Db, step: Step, id: string)
    requires id in db.ops && !Concerns(step, id)
    ensures id in Apply(db, step).ops && Apply(db, step).ops[id] == db.ops[id]
  {
  }

  lemma StepEvolves(db: Db, step: Step, id: string)
    requires id in db.ops && OperationOk(db.ops[id])
    ensures id in Apply(db, step).ops && Evolves(db.ops[id], Apply(db, step).ops[id])
  {
    var op := db.ops[id];
    SameCarries(op.items);
    if !Concerns(step, id) {
      UnconcernedStep(db, step, id);
    } else {
      match step
      case Advance(_, now, targets) => AdvanceEvolves(db, id, now, targets);
      case Cancel(_, _) => KeptAllCarries(op.items, CancelPending(op.items));
      case Resume(_, _, _) =>
      case DeleteDevice(device) => DeleteEvolves(op, device);
    }
  }

  lemma LedgerGrows(db: Db, step: Step)
    requires DbOk(db)
    ensures db.issued <= Apply(db, step).issued
    ensures !step.Advance? ==> Apply(db, step).issued == db.issued
    ensures step.Advance? ==> forall a :: |db.issued| <= a < |Apply(db, step).issued| ==> Apply(db, step).issued[a].operation == step.id
  {
    hide RunPass, LedgerOk, UniqueIssues, DbOk, FleetCommandAllowed, SortUnique;
    if step.Advance? && step.id in db.ops && Active(db.ops[step.id].status) {
      PassExtendsLedger(db, step.id, step.now, step.targets);
    }
  }

  /** Over any stretch of any run an operation evolves: terminal rows are frozen, a command once
      given stays, a verdict is final, and cancelling leads nowhere but to cancelled. */
  lemma {:induction false} OperationsEvolve(states: seq<Db>, steps: seq<Step>, i: nat, j: nat, id: string)
    requires IsRun(states, steps) && i <= j < |states| && id in states[i].ops
    ensures id in states[j].ops && Evolves(states[i].ops[id], states[j].ops[id]) && states[i].issued <= states[j].issued
  {
    hide Apply, DbOk, OperationOk, Carries;
    if i == j {
      SameCarries(states[i].ops[id].items);
    } else {
      OperationsEvolve(states, steps, i, j - 1, id);
      RunStep(states, steps, j - 1);
      StepEvolves(states[j - 1], steps[j - 1], id);
      LedgerGrows(states[j - 1], steps[j - 1]);
      CarriesComposes(states[i].ops[id].items, states[j - 1].ops[id].items, states[j].ops[id].items);
    }
  }

  // ---------- One command per device, within the cap ----------

  /** In every reachable state no operation has more items in flight than its parallelism. */
  lemma ParallelismHolds(states: seq<Db>, steps: seq<Step>, k: nat, id: string)
    requires IsRun(states, steps) && k < |states| && id in states[k].ops
    ensures CountIn(states[k].ops[id].items, IN_FLIGHT) <= states[k].ops[id].payload.parallelism <= 20
  {
    RunKeeps(states, steps, k);
  }

  /** Over a whole run, including deletions, an operation creates at most one command per device. */
  lemma OneCommandPerDevice(states: seq<Db>, steps: seq<Step>, k: nat, a: nat, b: nat)
    requires IsRun(states, steps) && k < |states|
    requires a < |states[k].issued| && b < |states[k].issued|
    requires states[k].issued[a].operation == states[k].issued[b].operation
    requires states[k].issued[a].device == states[k].issued[b].device
    ensures a == b
  {
    RunKeeps(states, steps, k);
    assert UniqueIssues(states[k].issued);
  }

  /** Once terminal, an item never changes again for as long as its device exists. */
  lemma TerminalItemsNeverChange(states: seq<Db>, steps: seq<Step>, i: nat, j: nat, id: string, x: Item, y: Item)
    requires IsRun(states, steps) && i <= j < |states| && id in states[i].ops
    requires x in states[i].ops[id].items && Terminal(x.status)
    requires id in states[j].ops && y in states[j].ops[id].items && y.device == x.device
    ensures y == x
  {
    RunKeeps(states, steps, i);
    OperationsEvolve(states, steps, i, j, id);
    var items := states[i].ops[id].items;
    var w :| w in items && Kept(w, y);
    var a :| 0 <= a < |items| && items[a] == w;
    var b :| 0 <= b < |items| && items[b] == x;
    assert DistinctDevices(items);
    assert a == b;
  }

  /** Nobody ever has more than twenty active operations. */
  lemma ActiveLimitHolds(states: seq<Db>, steps: seq<Step>, k: nat, user: string)
    requires IsRun(states, steps) && k < |states|
    ensures |ActiveOf(states[k], user)| <= 20
  {
    RunKeeps(states, steps, k);
  }

  // ---------- When nothing is issued ----------

  /** No command was created for operation `id` between two ledgers. */
  ghost predicate NothingIssued(id: string, before: seq<Issued>, after: seq<Issued>) {
    before <= after && forall a :: |before| <= a < |after| ==> after[a].operation != id
  }

  lemma NothingIssuedTwice(id: string, a: seq<Issued>, b: seq<Issued>, c: seq<Issued>)
    requires NothingIssued(id, a, b) && NothingIssued(id, b, c)
    ensures NothingIssued(id, a, c)
  {
  }

  lemma NothingIssuedYet(id: string, a: seq<Issued>)
    ensures NothingIssued(id, a, a)
  {
  }

  /** Nothing can be dispatched without a resume: not running, or no pending item left. */
  ghost predicate Quiet(op: Operation) {
    op.status != Running || NoItem(op.items, Pending)
  }

  lemma NothingPendingNothingIssued(db: Db, id: string, now: int, targets: string -> Target)
    requires DbOk(db) && id in db.ops && Active(db.ops[id].status) && NoItem(db.ops[id].items, Pending)
    ensures var r := RunPass(db, id, now, targets);
      r.Some? && r.value.issued == db.issued && NoItem(r.value.items, Pending)
  {
    var op := db.ops[id];
    var commands := ExpireOwned(db.commands, op.items, now);
    var seen := Observed(op, commands, now);
    ObservedKeeps(op, commands, now);
    forall i | 0 <= i < |seen.items| ensures seen.items[i].status != Pending {
      RefreshSettles(op, commands, now, i);
    }
    NothingToDispatch(id, seen, targets, Limit(seen), 0, Pass(seen.items, seen.status, commands, db.issued));
  }

  lemma QuietAdvance(db: Db, id: string, now: int, targets: string -> Target)
    requires DbOk(db) && id in db.ops && Quiet(db.ops[id])
    ensures var db' := Apply(db, Advance(id, now, targets)); id in db'.ops && db'.issued == db.issued && Quiet(db'.ops[id])
  {
    var op := db.ops[id];
    if Active(op.status) {
      PassKeeps(db, id, now, targets);
      if op.status == Running { NothingPendingNothingIssued(db, id, now, targets); }
      else { OnlyRunningIssues(db, id, now, targets); }
    }
  }

  lemma QuietDelete(op: Operation, device: string)
    requires Quiet(op)
    ensures Quiet(op.(items := WithoutDevice(op.items, device)))
  {
    WithoutDeviceHas(op.items, device);
    var kept := WithoutDevice(op.items, device);
    forall i | 0 <= i < |kept| ensures exists k :: 0 <= k < |op.items| && op.items[k] == kept[i] {
      assert kept[i] in kept;
    }
  }

  lemma QuietStep(db: Db, step: Step, id: string)
    requires DbOk(db) && id in db.ops && Quiet(db.ops[id])
    ensures NothingIssued(id, db.issued, Apply(db, step).issued)
    ensures !(step.Resume? && step.id == id) ==> id in Apply(db, step).ops && Quiet(Apply(db, step).ops[id])
  {
    hide AdvanceTx, CreateTx, DbOk, NoItem;
    LedgerGrows(db, step);
    if !Concerns(step, id) {
      UnconcernedStep(db, step, id);
    } else {
      match step
      case Advance(_, now, targets) => QuietAdvance(db, id, now, targets);
      case Cancel(_, _) =>
      case Resume(_, _, _) =>
      case DeleteDevice(device) => QuietDelete(db.ops[id], device);
    }
  }

  ghost predicate NoResume(steps: seq<Step>, i: nat, j: nat, id: string)
    requires j <= |steps|
  {
    forall k :: i <= k < j ==> !(steps[k].Resume? && steps[k].id == id)
  }

  /** A quiet operation stays quiet and issues nothing until a step resumes it. */
  lemma {:induction false} QuietUntilResume(states: seq<Db>, steps: seq<Step>, i: nat, j: nat, id: string)
    requires IsRun(states, steps) && i <= j < |states| && id in states[i].ops && Quiet(states[i].ops[id])
    requires NoResume(steps, i, j, id)
    ensures id in states[j].ops && Quiet(states[j].ops[id]) && NothingIssued(id, states[i].issued, states[j].issued)
  {
    hide Apply, DbOk, OperationsOk, Quiet, NothingIssued;
    if i == j {
      NothingIssuedYet(id, states[i].issued);
    } else {
      QuietUntilResume(states, steps, i, j - 1, id);
      RunStep(states, steps, j - 1);
      QuietStep(states[j - 1], steps[j - 1], id);
      NothingIssuedTwice(id, states[i].issued, states[j - 1].issued, states[j].issued);
    }
  }

  /** Once cancelling, an operation creates no further command, whatever is tried, and ends only as cancelled. */
  lemma {:induction false} CancellingIsFinal(states: seq<Db>, steps: seq<Step>, i: nat, j: nat, id: string)
    requires IsRun(states, steps) && i <= j < |states|
    requires id in states[i].ops && states[i].ops[id].status == Cancelling
    ensures id in states[j].ops
    ensures states[j].ops[id].status == Cancelling || states[j].ops[id].status == Ended(VCancelled)
    ensures NothingIssued(id, states[i].issued, states[j].issued)
  {
    hide Apply, NothingIssued;
    if i == j {
      NothingIssuedYet(id, states[i].issued);
    } else {
      CancellingIsFinal(states, steps, i, j - 1, id);
      CancellingStep(states, steps, j - 1, id);
      NothingIssuedTwice(id, states[i].issued, states[j - 1].issued, states[j].issued);
    }
  }

  lemma CancellingStep(states: seq<Db>, steps: seq<Step>, k: nat, id: string)
    requires IsRun(states, steps) && k < |steps| && id in states[k].ops
    requires states[k].ops[id].status == Cancelling || states[k].ops[id].status == Ended(VCancelled)
    ensures id in states[k + 1].ops
    ensures states[k + 1].ops[id].status == Cancelling || states[k + 1].ops[id].status == Ended(VCancelled)
    ensures NothingIssued(id, states[k].issued, states[k + 1].issued)
  {
    RunStep(states, steps, k);
    hide Apply, DbOk, OperationOk, NothingIssued;
    StepEvolves(states[k], steps[k], id);
    QuietStep(states[k], steps[k], id);
  }

  // ---------- Stop on failure ----------

  /** A step turns row `f` of operation `id` into a failed one. */
  ghost predicate FailsAt(db: Db, db': Db, id: string, f: nat) {
    && id in db.ops && id in db'.ops && f < |db.ops[id].items| && db.ops[id].items[f].status != Failed
    && exists y :: y in db'.ops[id].items && y.device == db.ops[id].items[f].device && y.status == Failed
  }

  lemma SameDeviceSameRow(items: seq<Item>, x: Item, y: Item)
    requires DistinctDevices(items) && x in items && y in items && x.device == y.device
    ensures x == y
  {
    var a :| 0 <= a < |items| && items[a] == x;
    var b :| 0 <= b < |items| && items[b] == y;
    assert a == b;
  }

  lemma FailingAdvanceIsQuiet(db: Db, id: string, now: int, targets: string -> Target, x: Item, y: Item)
    requires id in db.ops && OperationOk(db.ops[id]) && Active(db.ops[id].status) && db.ops[id].payload.stop
    requires RunPass(db, id, now, targets).Some?
    requires x in db.ops[id].items && y in RunPass(db, id, now, targets).value.items && x.device == y.device
    requires x.status != Failed && y.status == Failed
    ensures Quiet(Advanced(db, id, now, RunPass(db, id, now, targets).value))
  {
    var p := RunPass(db, id, now, targets).value;
    PassKeeps(db, id, now, targets);
    FailureStops(db, id, now, targets);
    var b :| 0 <= b < |p.items| && p.items[b] == y;
    assert Kept(db.ops[id].items[b], p.items[b]);
    SameDeviceSameRow(db.ops[id].items, x, db.ops[id].items[b]);
    assert RecordsFailure(db.ops[id].items, p.items);
  }

  /** Only an advance can record a failure. */
  lemma OnlyAdvanceFails(db: Db, step: Step, id: string, x: Item, y: Item)
    requires id in db.ops && OperationOk(db.ops[id]) && id in Apply(db, step).ops
    requires x in db.ops[id].items && y in Apply(db, step).ops[id].items && x.device == y.device
    requires x.status != Failed && y.status == Failed
    ensures step.Advance? && step.id == id && Active(db.ops[id].status) && RunPass(db, id, step.now, step.targets).Some?
  {
    var op := db.ops[id];
    if y in op.items { SameDeviceSameRow(op.items, x, y); }
    if !Concerns(step, id) {
      UnconcernedStep(db, step, id);
    } else if step.DeleteDevice? {
      WithoutDeviceHas(op.items, step.device);
    }
  }

  lemma FailingAdvanceIssues(db: Db, id: string, now: int, targets: string -> Target, f: nat, y: Item)
    requires id in db.ops && OperationOk(db.ops[id]) && Active(db.ops[id].status) && db.ops[id].payload.stop
    requires RunPass(db, id, now, targets).Some?
    requires f < |db.ops[id].items| && db.ops[id].items[f].status != Failed
    requires y in RunPass(db, id, now, targets).value.items && y.device == db.ops[id].items[f].device && y.status == Failed
    ensures IssuedBefore(db.ops[id].items, f, db.issued, RunPass(db, id, now, targets).value.issued)
    ensures FailsOnSight(db, id, now) ==> RunPass(db, id, now, targets).value.issued == db.issued
  {
    var items, p := db.ops[id].items, RunPass(db, id, now, targets).value;
    PassKeeps(db, id, now, targets);
    FailureIssuesNothingAfter(db, id, now, targets, f);
    if FailsOnSight(db, id, now) { FailureOnSightIssuesNothing(db, id, now, targets); }
    assert DistinctDevices(items) && KeptAll(items, p.items);
    hide RunPass, OperationOk, FailsOnSight, IssuedBefore;
    var b :| 0 <= b < |p.items| && p.items[b] == y;
    assert Kept(items[b], p.items[b]);
    assert b == f;
  }

  lemma FailingStepStops(db: Db, step: Step, id: string, f: nat)
    requires DbOk(db) && id in db.ops && db.ops[id].payload.stop && FailsAt(db, Apply(db, step), id, f)
    ensures id in Apply(db, step).ops && Quiet(Apply(db, step).ops[id]) && step.Advance? && step.id == id
    ensures IssuedBefore(db.ops[id].items, f, db.issued, Apply(db, step).issued)
    ensures FailsOnSight(db, id, step.now) ==> Apply(db, step).issued == db.issued
  {
    assert OperationOk(db.ops[id]);
    hide DbOk, OperationOk, RunPass, Advanced, IssuedBefore, FailsOnSight, Quiet;
    var x := db.ops[id].items[f];
    var y :| y in Apply(db, step).ops[id].items && y.device == x.device && y.status == Failed;
    OnlyAdvanceFails(db, step, id, x, y);
    AdvancedItems(db, id, step.now, RunPass(db, id, step.now, step.targets).value);
    FailingAdvanceIsQuiet(db, id, step.now, step.targets, x, y);
    FailingAdvanceIssues(db, id, step.now, step.targets, f, y);
  }

  lemma AdvancedItems(db: Db, id: string, now: int, p: Pass)
    requires id in db.ops
    ensures Advanced(db, id, now, p).items == p.items
  {
  }

  /** With stop-on-failure, whichever branch recorded the failure of an item, no command of the operation is
      created from that moment until a later resume: nothing for that item or any later one in the pass
      that records it, nothing at all in a pass that sees the failure while refreshing, and nothing after. */
  lemma FailureStopsUntilResume(states: seq<Db>, steps: seq<Step>, i: nat, j: nat, id: string, f: nat)
    requires IsRun(states, steps) && i < j < |states|
    requires id in states[i].ops && states[i].ops[id].payload.stop && FailsAt(states[i], states[i + 1], id, f)
    requires NoResume(steps, i + 1, j, id)
    ensures NothingIssued(id, states[i + 1].issued, states[j].issued)
    ensures forall a :: |states[i].issued| <= a < |states[j].issued| && states[j].issued[a].operation == id ==>
      DeviceBefore(states[i].ops[id].items, f, states[j].issued[a].device)
    ensures steps[i].Advance? && FailsOnSight(states[i], id, steps[i].now) ==> NothingIssued(id, states[i].issued, states[j].issued)
  {
    hide Apply, DbOk, OperationsOk, FailsAt, FailsOnSight, Quiet, DeviceBefore;
    RunStep(states, steps, i);
    FailingStepStops(states[i], steps[i], id, f);
    NoLaterIssue(states, steps, i, j, id);
    forall a | |states[i].issued| <= a < |states[j].issued| && states[j].issued[a].operation == id
      ensures DeviceBefore(states[i].ops[id].items, f, states[j].issued[a].device)
    {
      assert a < |states[i + 1].issued| && states[j].issued[a] == states[i + 1].issued[a];
    }
  }

  lemma NoLaterIssue(states: seq<Db>, steps: seq<Step>, i: nat, j: nat, id: string)
    requires IsRun(states, steps) && i < j < |states| && NoResume(steps, i + 1, j, id)
    requires id in states[i + 1].ops && Quiet(states[i + 1].ops[id])
    ensures NothingIssued(id, states[i + 1].issued, states[j].issued)
  {
    QuietUntilResume(states, steps, i + 1, j, id);
  }

  // ---------- Verdicts and the deadline ----------

  /** Verdicts are exact: completed means every item completed; failed means none cancelled, and
      in the step that gives it some item failed; cancelled comes only from cancelling. */
  lemma VerdictsAreExact(states: seq<Db>, steps: seq<Step>, k: nat, id: string)
    requires IsRun(states, steps) && k < |steps| && id in states[k + 1].ops && states[k + 1].ops[id].status.Ended?
    ensures var op := states[k + 1].ops[id];
      && (forall x :: x in op.items ==> Terminal(x.status))
      && (op.status == Ended(VCompleted) ==> forall x :: x in op.items ==> x.status == Completed)
      && (op.status == Ended(VFailed) ==> forall x :: x in op.items ==> x.status != Cancelled)
      && id in states[k].ops
      && (op.status != states[k].ops[id].status ==>
            && (op.status == Ended(VFailed) ==> exists x :: x in op.items && x.status == Failed)
            && (op.status == Ended(VCancelled) <==> states[k].ops[id].status == Cancelling))
  {
    RunKeeps(states, steps, k);
    RunKeeps(states, steps, k + 1);
    EndedRows(states[k + 1].ops[id]);
    if id in states[k].ops {
      if states[k + 1].ops[id].status != states[k].ops[id].status { VerdictStep(states[k], steps[k], id); }
    } else {
      NewOperationsRun(states[k], steps[k], id);
    }
  }

  /** A step takes a terminal row away only by deleting its device. */
  lemma TerminalRowStays(db: Db, step: Step, id: string, x: Item)
    requires id in db.ops && OperationOk(db.ops[id]) && x in db.ops[id].items && Terminal(x.status)
    ensures id in Apply(db, step).ops
    ensures x in Apply(db, step).ops[id].items <==> step != DeleteDevice(x.device)
  {
    var op := db.ops[id];
    if !Concerns(step, id) {
      UnconcernedStep(db, step, id);
    } else {
      var i :| 0 <= i < |op.items| && op.items[i] == x;
      match step
      case Advance(_, now, targets) =>
        if Active(op.status) && RunPass(db, id, now, targets).Some? {
          PassKeeps(db, id, now, targets);
          var after := Advanced(db, id, now, RunPass(db, id, now, targets).value).items;
          hide OperationOk, RunPass, Advanced;
          assert Kept(op.items[i], after[i]) && after[i] in after;
        }
      case Cancel(_, _) =>
        assert CancelPending(op.items)[i] == x;
      case Resume(_, _, _) =>
      case DeleteDevice(device) => WithoutDeviceKeeps(op.items, device, x);
    }
  }

  /** Between states `i` and `j` some step deletes the device. */
  ghost predicate Deleted(steps: seq<Step>, i: nat, j: nat, device: string)
    requires j <= |steps|
  {
    exists m :: i <= m < j && steps[m] == DeleteDevice(device)
  }

  lemma DeletedByStep(steps: seq<Step>, i: nat, j: nat, device: string)
    requires i < j <= |steps|
    ensures Deleted(steps, i, j, device) <==> Deleted(steps, i, j - 1, device) || steps[j - 1] == DeleteDevice(device)
  {
  }

  lemma NothingDeletedYet(steps: seq<Step>, i: nat, device: string)
    requires i <= |steps|
    ensures !Deleted(steps, i, i, device)
  {
  }

  ghost predicate HasDevice(items: seq<Item>, device: string) {
    exists y :: y in items && y.device == device
  }

  /** Rows are never added, so a deleted device does not come back. */
  lemma DeviceStaysGone(db: Db, step: Step, id: string, device: string)
    requires id in db.ops && OperationOk(db.ops[id])
    requires step == DeleteDevice(device) || !HasDevice(db.ops[id].items, device)
    ensures id in Apply(db, step).ops && !HasDevice(Apply(db, step).ops[id].items, device)
  {
    StepEvolves(db, step, id);
    var items, after := db.ops[id].items, Apply(db, step).ops[id].items;
    if step == DeleteDevice(device) {
      forall y | y in after ensures y.device != device { WithoutDeviceKeeps(items, device, y); }
    } else {
      hide Apply, OperationOk;
      forall y | y in after ensures y.device != device {
        var x :| x in items && Kept(x, y);
      }
    }
  }

  /** Over any stretch of any run a terminal row is still there if and only if its device was not deleted. */
  lemma {:induction false} TerminalRowStaysExactly(states: seq<Db>, steps: seq<Step>, i: nat, j: nat, id: string, x: Item)
    requires IsRun(states, steps) && i <= j < |states| && id in states[i].ops
    requires x in states[i].ops[id].items && Terminal(x.status)
    ensures id in states[j].ops
    ensures x in states[j].ops[id].items <==> !Deleted(steps, i, j, x.device)
    ensures Deleted(steps, i, j, x.device) ==> !HasDevice(states[j].ops[id].items, x.device)
  {
    hide Apply, DbOk, OperationOk, Deleted;
    if i == j {
      NothingDeletedYet(steps, i, x.device);
    } else {
      TerminalRowStaysExactly(states, steps, i, j - 1, id, x);
      RunStep(states, steps, j - 1);
      DeletedByStep(steps, i, j, x.device);
      if Deleted(steps, i, j, x.device) {
        DeviceStaysGone(states[j - 1], steps[j - 1], id, x.device);
      } else {
        TerminalRowStays(states[j - 1], steps[j - 1], id, x);
      }
    }
  }

  ghost predicate HasFailure(items: seq<Item>) {
    exists x :: x in items && x.status == Failed
  }

  /** Once ended as failed, an operation still shows a failed item if and only if not every device
      that held one has been deleted since. */
  lemma FailedVerdictShowsFailure(states: seq<Db>, steps: seq<Step>, i: nat, j: nat, id: string)
    requires IsRun(states, steps) && i <= j < |states| && id in states[i].ops && states[i].ops[id].status == Ended(VFailed)
    ensures id in states[j].ops && states[j].ops[id].status == Ended(VFailed)
    ensures HasFailure(states[j].ops[id].items)
      <==> exists x :: x in states[i].ops[id].items && x.status == Failed && !Deleted(steps, i, j, x.device)
  {
    RunKeeps(states, steps, i);
    EndedRows(states[i].ops[id]);
    OperationsEvolve(states, steps, i, j, id);
    hide DbOk, Apply, OperationOk, Deleted, IsRun;
    var before, after := states[i].ops[id].items, states[j].ops[id].items;
    if y :| y in after && y.status == Failed {
      var x :| x in before && Kept(x, y);
      assert x == y;
      TerminalRowStaysExactly(states, steps, i, j, id, x);
    }
    if x :| x in before && x.status == Failed && !Deleted(steps, i, j, x.device) {
      TerminalRowStaysExactly(states, steps, i, j, id, x);
    }
  }

  /** In particular a run without deletions keeps the failed item of every failed operation, from the
      step that gave the verdict on. */
  lemma FailedVerdictLasts(states: seq<Db>, steps: seq<Step>, k: nat, j: nat, id: string)
    requires IsRun(states, steps) && k < j < |states| && id in states[k].ops && id in states[k + 1].ops
    requires states[k].ops[id].status != Ended(VFailed) && states[k + 1].ops[id].status == Ended(VFailed)
    requires forall m :: k < m < j ==> !steps[m].DeleteDevice?
    ensures id in states[j].ops && HasFailure(states[j].ops[id].items)
  {
    VerdictsAreExact(states, steps, k, id);
    FailedVerdictShowsFailure(states, steps, k + 1, j, id);
    hide IsRun;
    var x :| x in states[k + 1].ops[id].items && x.status == Failed;
    assert !Deleted(steps, k + 1, j, x.device);
  }

  /** The exception is real: deleting the only device that failed leaves a failed operation without a failed item. */
  lemma DeletionHidesFailure(states: seq<Db>, steps: seq<Step>, k: nat, id: string, device: string)
    requires IsRun(states, steps) && k < |steps| && steps[k] == DeleteDevice(device)
    requires id in states[k].ops && states[k].ops[id].status == Ended(VFailed)
    requires forall x :: x in states[k].ops[id].items && x.status == Failed ==> x.device == device
    ensures id in states[k + 1].ops && states[k + 1].ops[id].status == Ended(VFailed) && !HasFailure(states[k + 1].ops[id].items)
  {
    FailedVerdictShowsFailure(states, steps, k, k + 1, id);
    assert Deleted(steps, k, k + 1, device);
  }

  lemma EndedRows(op: Operation)
    requires OperationOk(op) && op.status.Ended?
    ensures forall x :: x in op.items ==> Terminal(x.status)
    ensures op.status == Ended(VCompleted) ==> forall x :: x in op.items ==> x.status == Completed
    ensures op.status == Ended(VFailed) ==> forall x :: x in op.items ==> x.status != Cancelled
  {
  }

  lemma NewOperationsRun(db: Db, step: Step, id: string)
    requires id !in db.ops && id in Apply(db, step).ops
    ensures Apply(db, step).ops[id].status == Running
  {
  }

  lemma VerdictStep(db: Db, step: Step, id: string)
    requires id in db.ops && OperationOk(db.ops[id]) && id in Apply(db, step).ops
    requires Apply(db, step).ops[id].status.Ended? && Apply(db, step).ops[id].status != db.ops[id].status
    ensures var op := Apply(db, step).ops[id];
      && (op.status == Ended(VFailed) ==> exists x :: x in op.items && x.status == Failed)
      && (op.status == Ended(VCancelled) <==> db.ops[id].status == Cancelling)
  {
    if !Concerns(step, id) { UnconcernedStep(db, step, id); }
    PassKeeps(db, id, step.now, step.targets);
    var items := Apply(db, step).ops[id].items;
    if !NoItem(items, Failed) {
      var i :| 0 <= i < |items| && items[i].status == Failed;
      assert items[i] in items;
    }
  }

  /** At or after its deadline one advance ends any reachable active operation, with every item
      terminal, whatever permissions, inventories, backups and signing answer, if and only if no
      item still waits for a live command that expires later. */
  lemma DeadlineEndsEveryOperation(states: seq<Db>, steps: seq<Step>, k: nat, id: string, now: int, targets: string -> Target)
    requires IsRun(states, steps) && k < |states|
    requires id in states[k].ops && Active(states[k].ops[id].status) && states[k].ops[id].deadline <= now
    ensures var op := Apply(states[k], Advance(id, now, targets)).ops[id];
      && (op.status.Ended? <==> AwaitsNothing(states[k].ops[id], states[k].commands, now))
      && (op.status.Ended? ==>
            && (op.status == Ended(VCancelled) <==> states[k].ops[id].status == Cancelling)
            && forall i :: 0 <= i < |op.items| ==> Terminal(op.items[i].status))
  {
    hide IsRun, DbOk, OperationOk, LedgerOk, AwaitsNothing, RunPass, Observed;
    RunFacts(states, steps, k, id);
    DeadlineEndsExactly(states[k], id, now, targets);
    PassKeeps(states[k], id, now, targets);
  }

  /** Every command of the operation was signed to expire by `now`. */
  ghost predicate SignedUntil(db: Db, id: string, now: int)
    requires id in db.ops
  {
    forall a :: 0 <= a < |db.issued| && db.issued[a].operation == id ==> ExpiryIn(db.issued[a], db.ops[id].deadline) <= now
  }

  /** In a reachable state nothing is awaited once the signed expiries have passed. */
  lemma SignedExpiriesPass(states: seq<Db>, steps: seq<Step>, k: nat, id: string, now: int)
    requires IsRun(states, steps) && k < |states| && id in states[k].ops && SignedUntil(states[k], id, now)
    ensures AwaitsNothing(states[k].ops[id], states[k].commands, now)
  {
    hide IsRun, DbOk, OperationOk, ExpiryIn;
    var db := states[k];
    var op := db.ops[id];
    RunFacts(states, steps, k, id);
    forall i | 0 <= i < |op.items| && op.items[i].command.Some? ensures !Awaits(op.items[i], db.commands, now) {
      var c := op.items[i].command.value;
      assert Records(db.issued, id, op.items[i].device, c);
      var a :| 0 <= a < |db.issued| && db.issued[a].operation == id && db.issued[a].device == op.items[i].device && db.issued[a].command == c;
    }
  }

  /** The deadline and the longest signing delay together always end the operation; with signing that
      keeps every expiry within the deadline, the deadline alone does. */
  lemma DeadlineAndDelayEnd(states: seq<Db>, steps: seq<Step>, k: nat, id: string, now: int, targets: string -> Target, delay: nat)
    requires IsRun(states, steps) && k < |states| && id in states[k].ops && Active(states[k].ops[id].status)
    requires forall a :: 0 <= a < |states[k].issued| && states[k].issued[a].operation == id ==>
      states[k].issued[a].signedAt - states[k].issued[a].askedAt <= delay
    requires states[k].ops[id].deadline + delay <= now
    ensures Apply(states[k], Advance(id, now, targets)).ops[id].status.Ended?
  {
    var db := states[k];
    forall a | 0 <= a < |db.issued| && db.issued[a].operation == id ensures ExpiryIn(db.issued[a], db.ops[id].deadline) <= now {
      ExpiryIsBounded(db.issued[a].askedAt, db.issued[a].signedAt, db.ops[id].deadline);
    }
    hide Apply, ExpiryIn;
    SignedExpiriesPass(states, steps, k, id, now);
    DeadlineEndsEveryOperation(states, steps, k, id, now, targets);
  }

  lemma DeadlineAloneEnds(states: seq<Db>, steps: seq<Step>, k: nat, id: string, now: int, targets: string -> Target)
    requires IsRun(states, steps) && k < |states| && id in states[k].ops && Active(states[k].ops[id].status)
    requires SignedUntil(states[k], id, states[k].ops[id].deadline) && states[k].ops[id].deadline <= now
    ensures Apply(states[k], Advance(id, now, targets)).ops[id].status.Ended?
  {
    hide Apply, ExpiryIn;
    SignedExpiriesPass(states, steps, k, id, now);
    DeadlineEndsEveryOperation(states, steps, k, id, now, targets);
  }

  // ---------- The canary ----------

  ghost predicate AtMostOneIssued(id: string, issued: seq<Issued>) {
    forall a, b :: 0 <= a < b < |issued| ==> issued[a].operation != id || issued[b].operation != id
  }

  /** Every command issued for the operation still belongs to one of its rows. */
  ghost predicate RowsHoldIssues(id: string, items: seq<Item>, issued: seq<Issued>) {
    forall a :: 0 <= a < |issued| && issued[a].operation == id ==> exists i :: 0 <= i < |items| && items[i].device == issued[a].device
  }

  /** The canary phase: either it is undecided with at most one command out, or it is
      decided and the operation is quiet. */
  ghost predicate CanaryPhase(db: Db, id: string) {
    && id in db.ops
    && AtMostOneIssued(id, db.issued)
    && (if db.ops[id].canaryPending then RowsHoldIssues(id, db.ops[id].items, db.issued) else Quiet(db.ops[id]))
  }

  /** The step deletes the device that holds the undecided canary command. */
  ghost predicate DeletesCanary(db: Db, step: Step, id: string) {
    && step.DeleteDevice? && id in db.ops && db.ops[id].canaryPending
    && exists i :: 0 <= i < |db.ops[id].items| && db.ops[id].items[i].device == step.device && db.ops[id].items[i].command.Some?
  }

  /** The step resumes the operation after the canary's outcome was seen. */
  ghost predicate ResumesDecided(db: Db, step: Step, id: string) {
    step.Resume? && step.id == id && id in db.ops && !db.ops[id].canaryPending
  }

  lemma OneCanaryOneIssue(id: string, deadline: int, items: seq<Item>, issued: seq<Issued>, commands: map<string, Command>)
    requires OneCanary(items) && UniqueIssues(issued) && RowsHoldIssues(id, items, issued)
    requires LedgerOk(id, deadline, items, issued, commands)
    ensures AtMostOneIssued(id, issued)
  {
  }

  lemma CanaryAdvance(db: Db, id: string, now: int, targets: string -> Target)
    requires DbOk(db) && id in db.ops && db.ops[id].canaryPending && RowsHoldIssues(id, db.ops[id].items, db.issued)
    requires AtMostOneIssued(id, db.issued)
    ensures CanaryPhase(Apply(db, Advance(id, now, targets)), id)
  {
    hide LedgerOk, UniqueIssues, UsersOk, RowsHoldIssues, AtMostOneIssued, RunPass, GrowsFor, KeptAll, NoItem, CountIn, DistinctDevices, CommandsMatch;
    var r := RunPass(db, id, now, targets);
    if Active(db.ops[id].status) && r.Some? {
      var after := Advanced(db, id, now, r.value);
      CanaryOutcomePauses(db, id, now, targets);
      PassKeeps(db, id, now, targets);
      PassExtendsLedger(db, id, now, targets);
      if after.canaryPending {
        PassHoldsIssues(db, id, now, targets);
        OneCanaryOneIssue(id, after.deadline, after.items, r.value.issued, r.value.commands);
      }
    }
  }

  lemma PassHoldsIssues(db: Db, id: string, now: int, targets: string -> Target)
    requires DbOk(db) && id in db.ops && Active(db.ops[id].status) && RowsHoldIssues(id, db.ops[id].items, db.issued)
    ensures var r := RunPass(db, id, now, targets);
      r.Some? ==> RowsHoldIssues(id, r.value.items, r.value.issued)
  {
    var op := db.ops[id];
    var commands := ExpireOwned(db.commands, op.items, now);
    var seen := Observed(op, commands, now);
    ObservedKeeps(op, commands, now);
    KeptHolds(id, op.items, seen.items, db.issued);
    if seen.status == Running {
      DispatchHolds(id, seen, targets, Limit(seen), 0, Pass(seen.items, seen.status, commands, db.issued));
    }
  }

  lemma KeptHolds(id: string, before: seq<Item>, after: seq<Item>, issued: seq<Issued>)
    requires RowsHoldIssues(id, before, issued) && KeptAll(before, after)
    ensures RowsHoldIssues(id, after, issued)
  {
    forall a | 0 <= a < |issued| && issued[a].operation == id
      ensures exists i :: 0 <= i < |after| && after[i].device == issued[a].device
    {
      var i :| 0 <= i < |before| && before[i].device == issued[a].device;
      assert Kept(before[i], after[i]);
    }
  }

  lemma {:induction false} DispatchHolds(id: string, op: Operation, targets: string -> Target, limit: int, i: nat, p: Pass)
    requires i <= |p.items| && RowsHoldIssues(id, p.items, p.issued)
    ensures var r := Dispatch(id, op, targets, limit, i, p);
      r.Some? ==> RowsHoldIssues(id, r.value.items, r.value.issued)
    decreases |p.items| - i
  {
    if i < |p.items| {
      if p.items[i].status != Pending || CountIn(p.items, IN_FLIGHT) >= limit {
        DispatchHolds(id, op, targets, limit, i + 1, p);
      } else {
        var d := DispatchOne(id, op, targets, i, p);
        if !d.Fault? {
          var q := d.pass;
          forall a | 0 <= a < |q.issued| && q.issued[a].operation == id
            ensures exists j :: 0 <= j < |q.items| && q.items[j].device == q.issued[a].device
          {
            if a < |p.issued| {
              var j :| 0 <= j < |p.items| && p.items[j].device == p.issued[a].device;
              assert q.items[j].device == p.items[j].device;
            } else {
              assert q.items[i].device == q.issued[a].device;
            }
          }
          if d.Continue? { DispatchHolds(id, op, targets, limit, i + 1, q); }
        }
      }
    }
  }

  lemma DeleteHoldsIssues(id: string, op: Operation, issued: seq<Issued>, commands: map<string, Command>, device: string)
    requires LedgerOk(id, op.deadline, op.items, issued, commands) && RowsHoldIssues(id, op.items, issued)
    requires forall i :: 0 <= i < |op.items| && op.items[i].device == device ==> op.items[i].command.None?
    ensures RowsHoldIssues(id, WithoutDevice(op.items, device), issued)
  {
    var kept := WithoutDevice(op.items, device);
    forall a | 0 <= a < |issued| && issued[a].operation == id
      ensures exists j :: 0 <= j < |kept| && kept[j].device == issued[a].device
    {
      var i :| 0 <= i < |op.items| && op.items[i].device == issued[a].device;
      assert op.items[i].command.Some?;
      WithoutDeviceKeeps(op.items, device, op.items[i]);
      var j :| 0 <= j < |kept| && kept[j] == op.items[i];
    }
  }

  lemma CanaryDelete(db: Db, id: string, device: string)
    requires LedgersOk(db) && CanaryPhase(db, id) && !DeletesCanary(db, DeleteDevice(device), id)
    ensures CanaryPhase(DeleteTx(db, device), id)
  {
    hide LedgerOk, RowsHoldIssues, AtMostOneIssued, Quiet, WithoutDevice;
    if db.ops[id].canaryPending {
      DeleteHoldsIssues(id, db.ops[id], db.issued, db.commands, device);
    } else {
      QuietDelete(db.ops[id], device);
    }
  }

  lemma DecidedStep(db: Db, step: Step, id: string)
    requires DbOk(db) && CanaryPhase(db, id) && !db.ops[id].canaryPending && !ResumesDecided(db, step, id)
    ensures CanaryPhase(Apply(db, step), id)
  {
    assert OperationOk(db.ops[id]);
    hide Apply, DbOk, Quiet, OperationOk, Carries;
    QuietStep(db, step, id);
    StepEvolves(db, step, id);
  }

  lemma CanaryStep(db: Db, step: Step, id: string)
    requires DbOk(db) && CanaryPhase(db, id)
    requires !DeletesCanary(db, step, id) && !ResumesDecided(db, step, id)
    ensures CanaryPhase(Apply(db, step), id)
  {
    LedgerGrows(db, step);
    if step.DeleteDevice? {
      CanaryDelete(db, id, step.device);
    } else if !db.ops[id].canaryPending {
      DecidedStep(db, step, id);
    } else if step.Advance? && step.id == id {
      CanaryAdvance(db, id, step.now, step.targets);
    } else {
      OtherStepsKeepRows(db, step, id);
    }
  }

  lemma NothingIssuedKeepsOne(id: string, items: seq<Item>, before: seq<Issued>, after: seq<Issued>)
    requires AtMostOneIssued(id, before) && RowsHoldIssues(id, items, before) && NothingIssued(id, before, after)
    ensures AtMostOneIssued(id, after) && RowsHoldIssues(id, items, after)
  {
    assert forall a :: 0 <= a < |before| ==> after[a] == before[a];
  }

  lemma OtherStepsKeepRows(db: Db, step: Step, id: string)
    requires CanaryPhase(db, id) && db.ops[id].canaryPending
    requires !step.DeleteDevice? && !(step.Advance? && step.id == id)
    requires NothingIssued(id, db.issued, Apply(db, step).issued)
    ensures CanaryPhase(Apply(db, step), id)
  {
    var op, db' := db.ops[id], Apply(db, step);
    if !Concerns(step, id) {
      UnconcernedStep(db, step, id);
    } else if step.Cancel? {
      KeptHolds(id, op.items, CancelPending(op.items), db.issued);
    }
    NothingIssuedKeepsOne(id, db'.ops[id].items, db.issued, db'.issued);
  }

  /** A canary operation gets a second command only after a resume that comes after the canary's
      outcome was seen, unless the device holding the undecided canary was deleted meanwhile. */
  lemma {:induction false} CanaryGate(states: seq<Db>, steps: seq<Step>, k: nat, j: nat, id: string)
    requires IsRun(states, steps) && k < j < |states|
    requires id !in states[k].ops && id in states[k + 1].ops && states[k + 1].ops[id].canaryPending
    requires forall m :: k < m < j ==> !DeletesCanary(states[m], steps[m], id) && !ResumesDecided(states[m], steps[m], id)
    ensures CanaryPhase(states[j], id) && AtMostOneIssued(id, states[j].issued)
  {
    hide Apply, DbOk, OperationsOk, CanaryPhase, DeletesCanary, ResumesDecided;
    if j == k + 1 {
      RunStep(states, steps, k);
      CanaryStarts(states[k], steps[k], id);
    } else {
      CanaryGate(states, steps, k, j - 1, id);
      RunStep(states, steps, j - 1);
      CanaryStep(states[j - 1], steps[j - 1], id);
    }
    CanaryPhaseLimits(states[j], id);
  }

  lemma CanaryPhaseLimits(db: Db, id: string)
    requires CanaryPhase(db, id)
    ensures AtMostOneIssued(id, db.issued)
  {
  }

  lemma CanaryStarts(db: Db, step: Step, id: string)
    requires DbOk(db) && id !in db.ops && id in Apply(db, step).ops && Apply(db, step).ops[id].canaryPending
    ensures CanaryPhase(Apply(db, step), id)
  {
    hide OperationsOk, LedgersOk, UniqueIssues, UsersOk, FleetCommandAllowed, SortUnique;
    assert step.Create?;
    assert Apply(db, step).issued == db.issued;
  }

  /** A device that may be served now: access granted, nothing in the way, and a fresh command signed. */
  ghost predicate Servable(db: Db, kind: string, t: Target) {
    && t.access == Access.Allowed && (kind == "agent_update" ==> t.update == UpdateNeeded)
    && !(kind == "system_backup_create" && t.backupBusy)
    && t.signed.Some? && t.signed.value !in db.commands && !Issues(db.issued, t.signed.value)
  }

  lemma {:induction false} DispatchSkips(id: string, op: Operation, targets: string -> Target, limit: int, i: nat, j: nat, p: Pass)
    requires i <= j <= |p.items| && forall k :: i <= k < j ==> p.items[k].status != Pending
    ensures Dispatch(id, op, targets, limit, i, p) == Dispatch(id, op, targets, limit, j, p)
    decreases j - i
  {
    if i < j { DispatchSkips(id, op, targets, limit, i + 1, j, p); }
  }

  lemma {:induction false} DispatchIsFull(id: string, op: Operation, targets: string -> Target, limit: int, i: nat, p: Pass)
    requires i <= |p.items| && CountIn(p.items, IN_FLIGHT) >= limit
    ensures Dispatch(id, op, targets, limit, i, p) == Some(p)
    decreases |p.items| - i
  {
    if i < |p.items| { DispatchIsFull(id, op, targets, limit, i + 1, p); }
  }

  /** Nothing was sent. */
  ghost predicate Untouched(items: seq<Item>) {
    forall i :: 0 <= i < |items| ==> items[i].command.None? && !InFlight(items[i].status)
  }

  /** When nothing was sent yet, the pass sees the operation as it is. */
  lemma IdleIsObservedAsIs(op: Operation, commands: map<string, Command>, now: int)
    requires now < op.deadline && Untouched(op.items)
    ensures Observed(op, commands, now) == op
  {
    var open := CloseWindow(op.items, op.deadline, now);
    assert open == op.items;
    assert Refresh(op, now, commands, open) == op.items;
  }

  lemma FirstPendingIsDispatched(id: string, op: Operation, targets: string -> Target, j: nat, p: Pass)
    requires Untouched(p.items) && p.status == Running && j < |p.items| && p.items[j].status == Pending
    requires forall i :: 0 <= i < j ==> p.items[i].status != Pending
    requires Servable(Db(map[], map[], p.commands, p.issued), op.payload.kind, targets(p.items[j].device))
    ensures var y, t := p.items[j], targets(p.items[j].device);
      var c := t.signed.value;
      var items := p.items[j := Item(y.device, Some(c), Queued)];
      var row := Command(y.device, CmdQueued, None, false, None, Some(ExpiryOf(t.askedAt, t.signedAt, op.deadline)));
      && Dispatch(id, op, targets, 1, 0, p)
           == Some(Pass(items, Running, p.commands[c := row], p.issued + [Issued(id, y.device, c, t.askedAt, t.signedAt)]))
      && CountIn(items, IN_FLIGHT) == 1
  {
    CountIsZero(p.items, IN_FLIGHT);
    var d := DispatchOne(id, op, targets, j, p);
    assert d.Continue?;
    CountUpdate(p.items, j, d.pass.items[j], IN_FLIGHT);
    hide CountIn;
    DispatchSkips(id, op, targets, 1, 0, j, p);
    DispatchIsFull(id, op, targets, 1, j + 1, d.pass);
  }

  /** With nothing sent and the canary undecided, the first pending item is served and nothing else. */
  lemma FirstPendingIsServed(db: Db, id: string, now: int, targets: string -> Target, j: nat)
    requires id in db.ops && db.ops[id].status == Running && db.ops[id].canaryPending && now < db.ops[id].deadline
    requires Untouched(db.ops[id].items)
    requires j < |db.ops[id].items| && db.ops[id].items[j].status == Pending
    requires forall i :: 0 <= i < j ==> db.ops[id].items[i].status != Pending
    requires Servable(db, db.ops[id].payload.kind, targets(db.ops[id].items[j].device))
    ensures var db' := Apply(db, Advance(id, now, targets));
      var op, y := db.ops[id], db.ops[id].items[j];
      var t := targets(y.device);
      var c := t.signed.value;
      && id in db'.ops && db'.ops[id] == op.(items := op.items[j := Item(y.device, Some(c), Queued)])
      && db'.issued == db.issued + [Issued(id, y.device, c, t.askedAt, t.signedAt)]
      && db'.commands.Keys == db.commands.Keys + {c} && db'.commands[c].status == CmdQueued && db'.commands[c].expiresAt == Some(ExpiryOf(t.askedAt, t.signedAt, op.deadline))
  {
    var op := db.ops[id];
    var commands := ExpireOwned(db.commands, op.items, now);
    IdleIsObservedAsIs(op, commands, now);
    FirstPendingIsDispatched(id, op, targets, j, Pass(op.items, Running, commands, db.issued));
    hide Dispatch, Observed, CountIn, Servable, Untouched;
  }

  /** Once the device that holds the undecided canary is gone, no item has a command. */
  lemma NoCommandWithoutCanary(op: Operation, device: string)
    requires OperationOk(op) && op.canaryPending
    requires exists i :: 0 <= i < |op.items| && op.items[i].device == device && op.items[i].command.Some?
    ensures Untouched(WithoutDevice(op.items, device))
  {
    var kept := WithoutDevice(op.items, device);
    var c :| 0 <= c < |op.items| && op.items[c].device == device && op.items[c].command.Some?;
    forall i | 0 <= i < |kept| ensures kept[i].command.None? && !InFlight(kept[i].status) {
      WithoutDeviceKeeps(op.items, device, kept[i]);
      var k :| 0 <= k < |op.items| && op.items[k] == kept[i];
    }
  }

  /** Index `j` is the first pending row left after the deletion, and it may be served. */
  ghost predicate ServesNext(db: Db, id: string, device: string, targets: string -> Target, j: nat)
    requires id in db.ops
  {
    var kept := WithoutDevice(db.ops[id].items, device);
    && j < |kept| && kept[j].status == Pending && (forall i :: 0 <= i < j ==> kept[i].status != Pending)
    && Servable(DeleteTx(db, device), db.ops[id].payload.kind, targets(kept[j].device))
  }

  lemma DeletingServesNext(db: Db, id: string, device: string, now: int, targets: string -> Target, j: nat)
    requires DeletesCanary(db, DeleteDevice(device), id) && OperationOk(db.ops[id])
    requires db.ops[id].status == Running && now < db.ops[id].deadline && ServesNext(db, id, device, targets, j)
    ensures var db' := Apply(DeleteTx(db, device), Advance(id, now, targets));
      && id in db'.ops && db'.ops[id].canaryPending && |db'.issued| == |db.issued| + 1 && db.issued <= db'.issued
      && db'.issued[|db.issued|].operation == id
  {
    hide OperationOk, Advanced, RunPass, AdvanceTx, Servable, WithoutDevice, Untouched;
    NoCommandWithoutCanary(db.ops[id], device);
    FirstPendingIsServed(DeleteTx(db, device), id, now, targets, j);
  }

  /** The exception is real, in any run: deleting the device of the undecided canary lets the next
      advance issue a second command to the first pending item that is left, with no resume and the
      outcome never seen. */
  lemma DeletingCanaryReopensGate(states: seq<Db>, steps: seq<Step>, k: nat, id: string, device: string, now: int, targets: string -> Target, j: nat)
    requires IsRun(states, steps) && k < |states| && DeletesCanary(states[k], DeleteDevice(device), id)
    requires states[k].ops[id].status == Running && now < states[k].ops[id].deadline && ServesNext(states[k], id, device, targets, j)
    ensures var db' := Apply(Apply(states[k], DeleteDevice(device)), Advance(id, now, targets));
      id in db'.ops && db'.ops[id].canaryPending && !AtMostOneIssued(id, db'.issued)
  {
    hide IsRun, DbOk, OperationOk, LedgerOk, ServesNext, DeleteTx, DeletesCanary, Apply, AtMostOneIssued;
    var db := states[k];
    CanaryIsKnown(db, id, device);
    RunFacts(states, steps, k, id);
    DeleteStep(db, device);
    CanaryWasIssued(db, id, device);
    DeletingServesNext(db, id, device, now, targets, j);
    SecondIssue(id, db.issued, Apply(DeleteTx(db, device), Advance(id, now, targets)).issued);
  }

  lemma CanaryIsKnown(db: Db, id: string, device: string)
    requires DeletesCanary(db, DeleteDevice(device), id)
    ensures id in db.ops
  {
  }

  lemma RunFacts(states: seq<Db>, steps: seq<Step>, k: nat, id: string)
    requires IsRun(states, steps) && k < |states| && id in states[k].ops
    ensures OperationOk(states[k].ops[id])
    ensures LedgerOk(id, states[k].ops[id].deadline, states[k].ops[id].items, states[k].issued, states[k].commands)
  {
    RunKeeps(states, steps, k);
    hide OperationOk, LedgerOk, UniqueIssues, UsersOk;
  }

  lemma DeleteStep(db: Db, device: string)
    ensures Apply(db, DeleteDevice(device)) == DeleteTx(db, device)
  {
  }

  lemma CanaryWasIssued(db: Db, id: string, device: string)
    requires DeletesCanary(db, DeleteDevice(device), id)
    requires LedgerOk(id, db.ops[id].deadline, db.ops[id].items, db.issued, db.commands)
    ensures exists a :: 0 <= a < |db.issued| && db.issued[a].operation == id
  {
    var items := db.ops[id].items;
    var c :| 0 <= c < |items| && items[c].device == device && items[c].command.Some?;
    assert Records(db.issued, id, device, items[c].command.value);
  }

  lemma SecondIssue(id: string, before: seq<Issued>, after: seq<Issued>)
    requires exists a :: 0 <= a < |before| && before[a].operation == id
    requires |after| == |before| + 1 && before <= after && after[|before|].operation == id
    ensures !AtMostOneIssued(id, after)
  {
    var a :| 0 <= a < |before| && before[a].operation == id;
    assert after[a].operation == id;
  }

  // ---------- Replaying a request ----------

  lemma {:induction false} OtherDeviceStays(items: seq<Item>, device: string)
    requires forall i :: 0 <= i < |items| ==> items[i].device != device
    ensures WithoutDevice(items, device) == items
  {
    if items != [] {
      var front, x := items[..|items| - 1], items[|items| - 1];
      OtherDeviceStays(front, device);
      assert WithoutDevice(items, device) == WithoutDevice(front, device) + [x];
      hide WithoutDevice;
      assert items == front + [x];
    }
  }

  ghost predicate Keeps(op: Operation, step: Step) {
    step.DeleteDevice? ==> step.device !in Devices(op.items)
  }

  lemma DevicesStay(db: Db, step: Step, id: string)
    requires id in db.ops && OperationOk(db.ops[id]) && Keeps(db.ops[id], step)
    ensures id in Apply(db, step).ops && Devices(Apply(db, step).ops[id].items) == Devices(db.ops[id].items)
  {
    var op := db.ops[id];
    if !Concerns(step, id) {
      UnconcernedStep(db, step, id);
    } else {
      match step
      case Advance(_, now, targets) =>
        if Active(op.status) && RunPass(db, id, now, targets).Some? {
          PassKeeps(db, id, now, targets);
          var items := RunPass(db, id, now, targets).value.items;
          forall i | 0 <= i < |items| ensures Devices(items)[i] == Devices(op.items)[i] {
            assert Kept(op.items[i], items[i]);
          }
        }
      case Cancel(_, _) =>
      case Resume(_, _, _) =>
      case DeleteDevice(device) =>
        forall i | 0 <= i < |op.items| ensures op.items[i].device != device {
          assert Devices(op.items)[i] in Devices(op.items);
        }
        OtherDeviceStays(op.items, device);
    }
  }

  lemma {:induction false} DevicesStayOverRun(states: seq<Db>, steps: seq<Step>, k: nat, j: nat, id: string)
    requires IsRun(states, steps) && k <= j < |states| && id in states[k].ops
    requires forall m :: k <= m < j ==> id in states[m].ops && Keeps(states[m].ops[id], steps[m])
    ensures id in states[j].ops && Devices(states[j].ops[id].items) == Devices(states[k].ops[id].items)
  {
    hide Apply, DbOk, OperationOk, Devices, Keeps;
    if k < j {
      DevicesStayOverRun(states, steps, k, j - 1, id);
      RunStep(states, steps, j - 1);
      DevicesStay(states[j - 1], steps[j - 1], id);
    }
  }

  /** The caller still passes every check that precedes the request-key lookup. */
  ghost predicate Admitted(input: Input, env: CreateEnv) {
    && FleetCommandAllowed(input.kind) && WithinLimits(input) && env.argumentsValid
    && Admissible(input, env) == Admit
  }

  /** Payloads with the same arguments by device name the same devices. */
  lemma SamePayloadSameDevices(a: Input, b: Input)
    requires PayloadOf(a) == PayloadOf(b)
    ensures SortUnique(a.devices) == SortUnique(b.devices)
  {
    forall d ensures d in a.devices <==> d in b.devices {
      assert d in PayloadOf(a).args <==> d in a.devices;
      assert d in PayloadOf(b).args <==> d in b.devices;
    }
    SortUniqueIsCanonical(a.devices, b.devices);
  }

  /** Any later replay of a request whose devices still exist returns the same operation exactly when it has
      the same payload and default arguments and its deadline, where given, is written in canonical form,
      and conflicts otherwise. No replay creates a second operation. */
  lemma ReplayIsExact(states: seq<Db>, steps: seq<Step>, k: nat, j: nat, id: string, input: Input, env: CreateEnv)
    requires IsRun(states, steps) && k < j < |states| && steps[k].Create?
    requires CreateTx(states[k], steps[k].user, steps[k].input, steps[k].runValid, steps[k].env) == Created(states[k + 1], id)
    requires forall m :: k < m < j ==> id in states[m].ops && Keeps(states[m].ops[id], steps[m])
    requires input.key == steps[k].input.key && Admitted(input, env)
    ensures CreateTx(states[j], steps[k].user, input, true, env) ==
      if PayloadOf(input) == PayloadOf(steps[k].input) && input.args == steps[k].input.args && Canonical(input.deadline)
      then Existing(id) else Rejected(Conflict)
  {
    CreatedIsKept(states, steps, k, j, id);
    hide IsRun;
    var op := states[j].ops[id];
    if PayloadOf(input) == PayloadOf(steps[k].input) {
      SamePayloadSameDevices(input, steps[k].input);
    }
    hide FleetCommandAllowed, WithinLimits, SortUnique, PayloadOf, Devices, ActiveOf;
  }

  lemma CreatedIsKept(states: seq<Db>, steps: seq<Step>, k: nat, j: nat, id: string)
    requires IsRun(states, steps) && k < j < |states| && steps[k].Create?
    requires CreateTx(states[k], steps[k].user, steps[k].input, steps[k].runValid, steps[k].env) == Created(states[k + 1], id)
    requires forall m :: k < m < j ==> id in states[m].ops && Keeps(states[m].ops[id], steps[m])
    ensures id in states[j].ops && (steps[k].user, steps[k].input.key) in states[j].requests
    ensures states[j].requests[(steps[k].user, steps[k].input.key)] == id
    ensures var op, input := states[j].ops[id], steps[k].input;
      && op.payload == PayloadOf(input) && op.args == input.args && Devices(op.items) == SortUnique(input.devices)
      && (Canonical(input.deadline) && input.deadline.Some? ==> op.deadline == input.deadline.value.at)
  {
    NewOperationIs(states[k], steps[k].user, steps[k].input, steps[k].runValid, steps[k].env);
    hide CreateTx, Apply, DbOk, Devices, SortUnique, PayloadOf, Keeps;
    DevicesStayOverRun(states, steps, k + 1, j, id);
    OperationsEvolve(states, steps, k + 1, j, id);
    RequestIsIndexed(states, steps, j, id);
  }

  lemma NewOperationIs(db: Db, user: string, input: Input, runValid: bool, env: CreateEnv)
    ensures var r := CreateTx(db, user, input, runValid, env);
      r.Created? ==>
        && r.id in r.db.ops
        && var op := r.db.ops[r.id];
          && op.user == user && op.key == input.key && op.payload == PayloadOf(input) && op.args == input.args
          && Devices(op.items) == SortUnique(input.devices)
          && (Canonical(input.deadline) && input.deadline.Some? ==> op.deadline == input.deadline.value.at)
  {
    var op := NewOperation(user, input, env.now);
    assert Devices(op.items) == SortUnique(input.devices);
    hide FleetCommandAllowed, WithinLimits, SortUnique, PayloadOf;
  }

  lemma RequestIsIndexed(states: seq<Db>, steps: seq<Step>, j: nat, id: string)
    requires IsRun(states, steps) && j < |states| && id in states[j].ops
    ensures var k := (states[j].ops[id].user, states[j].ops[id].key); k in states[j].requests && states[j].requests[k] == id
  {
    RunKeeps(states, steps, j);
    assert IndexOk(states[j]);
  }
}
