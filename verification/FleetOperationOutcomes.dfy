/**
 What one committed advance makes of each item, of the operation's status and of the command table,
 told from the rows before it and from what the rest of the system answered.
 */
module FleetOperationOutcomes {
  import opened Text
  import opened Units
  import opened FleetOperations
  import opened FleetOperationSafety
  import opened FleetOperationRuns
  import opened FleetOperationTheorems

  // ---------- Items in flight ----------

  /** The row is of the given status and has not expired. */
  predicate Still(row: Option<Command>, status: CommandStatus, now: int) {
    row.Some? && row.value.status == status && (row.value.expiresAt.Some? ==> now < row.value.expiresAt.value)
  }

  predicate Succeeded(row: Option<Command>) {
    row.Some? && row.value.status == CmdCompleted && row.value.exit == Some(0)
  }

  /** An update that completed and may still report itself healthy. */
  predicate Settling(op: Operation, row: Option<Command>, now: int) {
    && op.payload.kind == "agent_update" && Succeeded(row) && !row.value.healthy && now < op.deadline
    && (row.value.completedAt.Some? ==> now - row.value.completedAt.value <= 5 * MINUTE)
  }

  /** What an item in flight with command row `row` becomes. */
  ghost predicate FlightOutcome(op: Operation, row: Option<Command>, now: int, x: Item, y: Item) {
    && y.device == x.device && y.command == x.command && y.status != Pending
    && (y.status == Completed <==> Succeeded(row) && (op.payload.kind == "agent_update" ==> row.value.healthy))
    && (y.status == Queued <==> Still(row, CmdQueued, now))
    && (y.status == Claimed <==> Still(row, CmdClaimed, now) || Settling(op, row, now))
    && (y.status == Cancelled <==> row.Some? && row.value.status == CmdCancelled && op.status == Cancelling)
  }

  function RowOf(db: Db, x: Item): Option<Command> {
    if x.command.Some? && x.command.value in db.commands then Some(db.commands[x.command.value]) else None
  }

  function Timed(row: Option<Command>, now: int): Option<Command> {
    if row.Some? && Live(row.value.status) && row.value.expiresAt.Some? && row.value.expiresAt.value <= now
    then Some(row.value.(status := CmdExpired)) else row
  }

  lemma ObserveIsExact(op: Operation, row: Option<Command>, now: int, x: Item)
    requires InFlight(x.status)
    ensures FlightOutcome(op, row, now, x, x.(status := Observe(op.payload.kind, op.status, op.deadline, now, Timed(row, now))))
  {
  }

  lemma ExpiredRow(db: Db, items: seq<Item>, now: int, i: nat)
    requires i < |items|
    ensures Lookup(ExpireOwned(db.commands, items, now), items[i].command) == Timed(RowOf(db, items[i]), now)
  {
    if items[i].command.Some? { assert Owns(items, items[i].command.value); }
    hide Owns;
  }

  lemma ObservedFlight(db: Db, id: string, now: int, i: nat)
    requires id in db.ops && i < |db.ops[id].items| && InFlight(db.ops[id].items[i].status)
    ensures var op := db.ops[id];
      FlightOutcome(op, RowOf(db, op.items[i]), now, op.items[i], Observed(op, ExpireOwned(db.commands, op.items, now), now).items[i])
  {
    hide FlightOutcome, Observe, Timed, ExpireOwned, Lookup, RowOf;
    var op := db.ops[id];
    ExpiredRow(db, op.items, now, i);
    ObserveIsExact(op, RowOf(db, op.items[i]), now, op.items[i]);
  }

  lemma {:induction false} DispatchKeepsOthers(id: string, op: Operation, targets: string -> Target, limit: int, i: nat, p: Pass, f: nat)
    requires i <= |p.items| && f < |p.items| && p.items[f].status != Pending
    ensures var r := Dispatch(id, op, targets, limit, i, p);
      r.Some? ==> |r.value.items| == |p.items| && r.value.items[f] == p.items[f]
    decreases |p.items| - i
  {
    if i < |p.items| {
      if p.items[i].status != Pending || CountIn(p.items, IN_FLIGHT) >= limit {
        DispatchKeepsOthers(id, op, targets, limit, i + 1, p, f);
      } else {
        var d := DispatchOne(id, op, targets, i, p);
        if d.Continue? { DispatchKeepsOthers(id, op, targets, limit, i + 1, d.pass, f); }
      }
    }
  }

  /** The step is an advance of an active operation that commits. */
  ghost predicate Advances(db: Db, step: Step, id: string) {
    step.Advance? && step.id == id && id in db.ops && Active(db.ops[id].status) && AdvanceTx(db, id, step.now, step.targets).Some?
  }

  lemma PassFlight(db: Db, id: string, now: int, targets: string -> Target, i: nat)
    requires id in db.ops && OperationOk(db.ops[id]) && Active(db.ops[id].status) && RunPass(db, id, now, targets).Some?
    requires i < |db.ops[id].items| && db.ops[id].items[i].status != Pending
    ensures var op, items := db.ops[id], RunPass(db, id, now, targets).value.items;
      && |items| == |op.items|
      && (InFlight(op.items[i].status) ==> FlightOutcome(op, RowOf(db, op.items[i]), now, op.items[i], items[i]))
      && (Terminal(op.items[i].status) ==> items[i] == op.items[i])
  {
    var op := db.ops[id];
    var commands := ExpireOwned(db.commands, op.items, now);
    var seen := Observed(op, commands, now);
    ObservedKeeps(op, commands, now);
    RefreshSettles(op, commands, now, i);
    if InFlight(op.items[i].status) { ObservedFlight(db, id, now, i); }
    if seen.status == Running {
      DispatchKeepsOthers(id, seen, targets, Limit(seen), 0, Pass(seen.items, seen.status, commands, db.issued), i);
    }
    hide Observed, ExpireOwned, FlightOutcome, OperationOk, Dispatch;
  }

  lemma AdvanceIs(db: Db, step: Step, id: string)
    requires Advances(db, step, id)
    ensures var r := RunPass(db, id, step.now, step.targets);
      && r.Some? && id in Apply(db, step).ops && Apply(db, step).ops[id] == Advanced(db, id, step.now, r.value)
      && Apply(db, step).ops[id].items == r.value.items
      && Apply(db, step).commands == r.value.commands && Apply(db, step).issued == r.value.issued
  {
    hide RunPass;
  }

  /** In any run, what an item that is in flight before a committed advance is afterwards, told from its
      command row alone; a terminal item stays as it is. */
  lemma FlightOutcomesAreExact(states: seq<Db>, steps: seq<Step>, k: nat, id: string, i: nat)
    requires IsRun(states, steps) && k < |steps| && Advances(states[k], steps[k], id)
    requires i < |states[k].ops[id].items| && states[k].ops[id].items[i].status != Pending
    ensures id in states[k + 1].ops && |states[k + 1].ops[id].items| == |states[k].ops[id].items|
    ensures var op, y := states[k].ops[id], states[k + 1].ops[id].items[i];
      && (InFlight(op.items[i].status) ==> FlightOutcome(op, RowOf(states[k], op.items[i]), steps[k].now, op.items[i], y))
      && (Terminal(op.items[i].status) ==> y == op.items[i])
  {
    RunStep(states, steps, k);
    assert OperationOk(states[k].ops[id]);
    AdvanceIs(states[k], steps[k], id);
    hide IsRun, DbOk, OperationOk, OperationsOk, Apply, RunPass, Advanced, FlightOutcome, AdvanceTx;
    PassFlight(states[k], id, steps[k].now, steps[k].targets, i);
  }

  // ---------- Pending items ----------

  /** What a pending item becomes in a pass that ends with `status` and `inFlight` items in flight. */
  ghost predicate PendingOutcome(kind: string, t: Target, limit: int, status: OperationStatus, inFlight: int, x: Item, y: Item) {
    && y.device == x.device
    && match y.status
       case Failed => y.command == x.command && (t.access == Denied || (t.access == Access.Allowed && kind == "agent_update" && t.update == PlatformChanged))
       case Completed => y.command == x.command && t.access == Access.Allowed && kind == "agent_update" && t.update == AlreadyCurrent
       case Queued =>
         && t.access == Access.Allowed && t.signed.Some? && y.command == t.signed
         && (kind == "agent_update" ==> t.update == UpdateNeeded) && !(kind == "system_backup_create" && t.backupBusy)
       case Pending =>
         && y == x
         && (status != Running || inFlight >= limit || (t.access == Access.Allowed && kind == "system_backup_create" && t.backupBusy))
       case _ => false
  }

  lemma ServedOutcome(id: string, op: Operation, targets: string -> Target, i: nat, p: Pass, limit: int, status: OperationStatus, inFlight: int)
    requires i < |p.items| && p.items[i].status == Pending
    ensures var d := DispatchOne(id, op, targets, i, p);
      !d.Fault? ==>
        && |d.pass.items| == |p.items| && d.pass.items == p.items[i := d.pass.items[i]]
        && PendingOutcome(op.payload.kind, targets(p.items[i].device), limit, status, inFlight, p.items[i], d.pass.items[i])
  {
  }

  lemma {:induction false} DispatchCounts(id: string, op: Operation, targets: string -> Target, limit: int, i: nat, p: Pass)
    requires i <= |p.items|
    ensures var r := Dispatch(id, op, targets, limit, i, p);
      r.Some? ==> |r.value.items| == |p.items| && CountIn(p.items, IN_FLIGHT) <= CountIn(r.value.items, IN_FLIGHT)
    decreases |p.items| - i
  {
    if i < |p.items| {
      if p.items[i].status != Pending || CountIn(p.items, IN_FLIGHT) >= limit {
        DispatchCounts(id, op, targets, limit, i + 1, p);
      } else {
        ServedOutcome(id, op, targets, i, p, limit, Running, 0);
        var d := DispatchOne(id, op, targets, i, p);
        hide DispatchOne, CountIn, PendingOutcome;
        if !d.Fault? {
          CountUpdate(p.items, i, d.pass.items[i], IN_FLIGHT);
          if d.Continue? { DispatchCounts(id, op, targets, limit, i + 1, d.pass); }
        }
      }
    }
  }

  /** No pending item is left over without a reason. */
  lemma {:induction false} DispatchOutcomes(id: string, op: Operation, targets: string -> Target, limit: int, i: nat, p: Pass, f: nat)
    requires i <= f < |p.items| && p.items[f].status == Pending && p.status == Running
    ensures var r := Dispatch(id, op, targets, limit, i, p);
      r.Some? ==>
        && |r.value.items| == |p.items|
        && PendingOutcome(op.payload.kind, targets(p.items[f].device), limit, r.value.status, CountIn(r.value.items, IN_FLIGHT), p.items[f], r.value.items[f])
    decreases |p.items| - i
  {
    hide DispatchOne, CountIn, PendingOutcome;
    var r := Dispatch(id, op, targets, limit, i, p);
    DispatchCounts(id, op, targets, limit, i, p);
    if p.items[i].status != Pending || CountIn(p.items, IN_FLIGHT) >= limit {
      if i == f {
        if r.Some? {
          DispatchLeaves(id, op, targets, limit, i + 1, p, f);
          LeftPending(op.payload.kind, targets(p.items[f].device), limit, r.value.status, CountIn(r.value.items, IN_FLIGHT), p.items[f]);
        }
      } else {
        DispatchOutcomes(id, op, targets, limit, i + 1, p, f);
      }
    } else {
      var d := DispatchOne(id, op, targets, i, p);
      StopPauses(id, op, targets, i, p);
      if r.Some? {
        ServedOutcome(id, op, targets, i, p, limit, r.value.status, CountIn(r.value.items, IN_FLIGHT));
        if d.Stop? {
          if i != f { LeftPending(op.payload.kind, targets(p.items[f].device), limit, r.value.status, CountIn(r.value.items, IN_FLIGHT), p.items[f]); }
        } else if i == f {
          DispatchLeaves(id, op, targets, limit, i + 1, d.pass, f);
        } else {
          DispatchOutcomes(id, op, targets, limit, i + 1, d.pass, f);
        }
      }
    }
  }

  lemma StopPauses(id: string, op: Operation, targets: string -> Target, i: nat, p: Pass)
    requires i < |p.items| && p.items[i].status == Pending
    ensures var d := DispatchOne(id, op, targets, i, p);
      && (d.Stop? ==> d.pass.status == Paused && op.payload.stop && |d.pass.items| == |p.items| && d.pass.items[i].status == Failed)
      && (d.Continue? ==> d.pass.status == p.status && |d.pass.items| == |p.items| && (op.payload.stop ==> d.pass.items[i].status != Failed))
  {
  }

  lemma LeftPending(kind: string, t: Target, limit: int, status: OperationStatus, inFlight: int, x: Item)
    requires x.status == Pending && (status != Running || inFlight >= limit)
    ensures PendingOutcome(kind, t, limit, status, inFlight, x, x)
  {
  }

  lemma PassPending(db: Db, id: string, now: int, targets: string -> Target, i: nat)
    requires id in db.ops && OperationOk(db.ops[id]) && Active(db.ops[id].status) && RunPass(db, id, now, targets).Some?
    requires i < |db.ops[id].items| && db.ops[id].items[i].status == Pending
    ensures var op, p := db.ops[id], RunPass(db, id, now, targets).value;
      && |p.items| == |op.items|
      && (if op.deadline <= now then p.items[i] == op.items[i].(status := Failed)
          else PendingOutcome(op.payload.kind, targets(op.items[i].device), Limit(Observed(op, ExpireOwned(db.commands, op.items, now), now)),
                 p.status, CountIn(p.items, IN_FLIGHT), op.items[i], p.items[i]))
  {
    var op := db.ops[id];
    var commands := ExpireOwned(db.commands, op.items, now);
    var seen := Observed(op, commands, now);
    ObservedKeeps(op, commands, now);
    assert seen.items[i] == if op.deadline <= now then op.items[i].(status := Failed) else op.items[i];
    var p, limit := RunPass(db, id, now, targets).value, Limit(seen);
    hide Observed, ExpireOwned, OperationOk, CountIn, PendingOutcome;
    var start := Pass(seen.items, seen.status, commands, db.issued);
    if seen.status == Running {
      if op.deadline <= now {
        DispatchKeepsOthers(id, seen, targets, limit, 0, start, i);
      } else {
        DispatchOutcomes(id, seen, targets, limit, 0, start, i);
      }
    } else if now < op.deadline {
      LeftPending(op.payload.kind, targets(op.items[i].device), limit, p.status, CountIn(p.items, IN_FLIGHT), op.items[i]);
    }
  }

  /** The operation's own fields after a pass: its status is the pass's unless every item is terminal. */
  lemma ConcludesExactly(db: Db, id: string, now: int, targets: string -> Target)
    requires id in db.ops && OperationOk(db.ops[id]) && Active(db.ops[id].status) && RunPass(db, id, now, targets).Some?
    ensures var p := RunPass(db, id, now, targets).value;
      var after := Advanced(db, id, now, p);
      && Active(p.status)
      && (after.status.Ended? <==> forall i :: 0 <= i < |p.items| ==> Terminal(p.items[i].status))
      && (!after.status.Ended? ==> after.status == p.status)
      && after.payload == db.ops[id].payload && after.deadline == db.ops[id].deadline
      && after.canaryPending == Observed(db.ops[id], ExpireOwned(db.commands, db.ops[id].items, now), now).canaryPending
  {
    var op := db.ops[id];
    var commands := ExpireOwned(db.commands, op.items, now);
    var seen := Observed(op, commands, now);
    ObservedKeeps(op, commands, now);
    if seen.status == Running {
      DispatchKeeps(id, seen, targets, Limit(seen), 0, Pass(seen.items, seen.status, commands, db.issued));
    }
    var p := RunPass(db, id, now, targets).value;
    hide ExpireOwned, OperationOk, Dispatch, DispatchOk;
    EndsExactly(p.items, p.status);
  }

  lemma EndsExactly(items: seq<Item>, status: OperationStatus)
    requires Active(status)
    ensures Conclude(items, status).Ended? <==> forall i :: 0 <= i < |items| ==> Terminal(items[i].status)
    ensures !Conclude(items, status).Ended? ==> Conclude(items, status) == status
  {
    CountIsZero(items, {Pending});
    CountIsZero(items, IN_FLIGHT);
    hide CountIn;
    if forall i :: 0 <= i < |items| ==> items[i].status !in {Pending} && items[i].status !in IN_FLIGHT {
      forall i | 0 <= i < |items| ensures Terminal(items[i].status) { }
    }
  }

  /** In any run, what an item that is pending before a committed advance is afterwards: failed when the window
      has closed; otherwise failed, completed or queued only as the answers for its device say, and
      left pending only when the operation does not run, the cap is reached, or a backup is in progress. */
  lemma PendingOutcomesAreExact(states: seq<Db>, steps: seq<Step>, k: nat, id: string, i: nat)
    requires IsRun(states, steps) && k < |steps| && Advances(states[k], steps[k], id)
    requires i < |states[k].ops[id].items| && states[k].ops[id].items[i].status == Pending
    ensures id in states[k + 1].ops && |states[k + 1].ops[id].items| == |states[k].ops[id].items|
    ensures var op, op', x := states[k].ops[id], states[k + 1].ops[id], states[k].ops[id].items[i];
      if op.deadline <= steps[k].now then op'.items[i] == x.(status := Failed)
      else PendingOutcome(op.payload.kind, steps[k].targets(x.device), if op'.canaryPending then 1 else op.payload.parallelism,
             op'.status, CountIn(op'.items, IN_FLIGHT), x, op'.items[i])
  {
    RunStep(states, steps, k);
    assert OperationOk(states[k].ops[id]);
    AdvanceIs(states[k], steps[k], id);
    hide IsRun, DbOk, OperationOk, OperationsOk, Apply, RunPass, AdvanceTx, CountIn;
    var db, now, targets := states[k], steps[k].now, steps[k].targets;
    var op := db.ops[id];
    var p := RunPass(db, id, now, targets).value;
    PassPending(db, id, now, targets, i);
    ConcludesExactly(db, id, now, targets);
    SeenPayload(op, ExpireOwned(db.commands, op.items, now), now);
    hide Observed, Advanced, ExpireOwned;
    if op.deadline > now && p.items[i].status == Pending {
      assert !Terminal(p.items[i].status);
    }
  }

  lemma SeenPayload(op: Operation, commands: map<string, Command>, now: int)
    ensures Observed(op, commands, now).payload == op.payload
  {
  }

  // ---------- The operation's status ----------

  lemma {:induction false} DispatchPausesExactly(id: string, op: Operation, targets: string -> Target, limit: int, i: nat, p: Pass)
    requires i <= |p.items| && p.status == Running
    ensures var r := Dispatch(id, op, targets, limit, i, p);
      r.Some? ==>
        && |r.value.items| == |p.items| && (r.value.status == Running || r.value.status == Paused)
        && (r.value.status == Paused <==> op.payload.stop && exists f :: i <= f < |p.items| && p.items[f].status == Pending && r.value.items[f].status == Failed)
    decreases |p.items| - i
  {
    hide DispatchOne, CountIn;
    var r := Dispatch(id, op, targets, limit, i, p);
    if i == |p.items| {
    } else if p.items[i].status != Pending || CountIn(p.items, IN_FLIGHT) >= limit {
      DispatchPausesExactly(id, op, targets, limit, i + 1, p);
      if r.Some? { DispatchLeaves(id, op, targets, limit, i + 1, p, i); }
    } else {
      var d := DispatchOne(id, op, targets, i, p);
      StopPauses(id, op, targets, i, p);
      ServedOutcome(id, op, targets, i, p, limit, Running, 0);
      hide PendingOutcome;
      if d.Continue? {
        DispatchPausesExactly(id, op, targets, limit, i + 1, d.pass);
        if r.Some? { DispatchLeaves(id, op, targets, limit, i + 1, d.pass, i); }
      }
    }
  }

  /** Some item turns from one status into failed. */
  ghost predicate Turns(before: seq<Item>, after: seq<Item>, from: set<ItemStatus>) {
    exists i :: 0 <= i < |before| && i < |after| && before[i].status in from && after[i].status == Failed
  }

  /** A command that was out before has an outcome now. */
  ghost predicate Decided(before: seq<Item>, after: seq<Item>) {
    exists i :: 0 <= i < |before| && i < |after| && before[i].command.Some? && !InFlight(after[i].status)
  }

  /** The status that a pass leaves an unfinished operation in. */
  ghost predicate PauseRule(op: Operation, now: int, items: seq<Item>, status: OperationStatus, canaryPending: bool) {
    && (canaryPending <==> op.canaryPending && !Decided(op.items, items))
    && (op.status != Running ==> status == op.status)
    && (op.status == Running ==>
          && (status == Running || status == Paused)
          && (status == Paused <==>
                || (op.payload.stop && Turns(op.items, items, IN_FLIGHT))
                || (op.payload.stop && now < op.deadline && Turns(op.items, items, {Pending}))
                || (op.canaryPending && !canaryPending)))
  }

  lemma ObservedPauses(op: Operation, commands: map<string, Command>, now: int)
    requires OperationOk(op) && Active(op.status)
    ensures var seen := Observed(op, commands, now);
      && |seen.items| == |op.items|
      && (seen.canaryPending <==> op.canaryPending && !Decided(op.items, seen.items))
      && (op.status != Running ==> seen.status == op.status)
      && (op.status == Running ==>
            && (seen.status == Running || seen.status == Paused)
            && (seen.status == Paused <==> (op.payload.stop && Turns(op.items, seen.items, IN_FLIGHT)) || (op.canaryPending && !seen.canaryPending)))
  {
    var open := CloseWindow(op.items, op.deadline, now);
    var items := Refresh(op, now, commands, open);
    assert forall i :: 0 <= i < |op.items| ==> (InFlight(op.items[i].status) <==> InFlight(open[i].status)) && items[i].command == op.items[i].command;
    assert NewFailure(open, items) <==> Turns(op.items, items, IN_FLIGHT) by {
      if NewFailure(open, items) {
        var i :| 0 <= i < |open| && InFlight(open[i].status) && items[i].status == Failed;
        assert op.items[i].status in IN_FLIGHT;
      }
      if Turns(op.items, items, IN_FLIGHT) {
        var i :| 0 <= i < |op.items| && i < |items| && op.items[i].status in IN_FLIGHT && items[i].status == Failed;
        assert InFlight(open[i].status);
      }
    }
    assert CanaryDecided(items) <==> Decided(op.items, items) by {
      if CanaryDecided(items) {
        var i :| 0 <= i < |items| && items[i].command.Some? && !InFlight(items[i].status);
        assert op.items[i].command.Some?;
      }
      if Decided(op.items, items) {
        var i :| 0 <= i < |op.items| && i < |items| && op.items[i].command.Some? && !InFlight(items[i].status);
        assert items[i].command.Some?;
      }
    }
    hide Refresh, CloseWindow, NewFailure, CanaryDecided, Turns, Decided, OperationOk;
  }

  /** Dispatching changes no item in flight and decides no command. */
  lemma SameTurns(op: Operation, seen: seq<Item>, after: seq<Item>)
    requires CommandsMatch(op.items) && |op.items| == |seen| == |after|
    requires forall i :: 0 <= i < |seen| && seen[i].status != Pending ==> after[i] == seen[i]
    requires forall i :: 0 <= i < |seen| ==> (seen[i].status == Pending ==> op.items[i].status == Pending)
    ensures Turns(op.items, seen, IN_FLIGHT) <==> Turns(op.items, after, IN_FLIGHT)
    ensures Decided(op.items, seen) <==> Decided(op.items, after)
  {
    forall i | 0 <= i < |seen| && (op.items[i].status in IN_FLIGHT || op.items[i].command.Some?) ensures after[i] == seen[i] {
    }
  }

  lemma PassPauses(db: Db, id: string, now: int, targets: string -> Target)
    requires id in db.ops && OperationOk(db.ops[id]) && Active(db.ops[id].status) && RunPass(db, id, now, targets).Some?
    ensures var op, p := db.ops[id], RunPass(db, id, now, targets).value;
      PauseRule(op, now, p.items, p.status, Observed(op, ExpireOwned(db.commands, op.items, now), now).canaryPending)
  {
    var op := db.ops[id];
    var commands := ExpireOwned(db.commands, op.items, now);
    var seen := Observed(op, commands, now);
    ObservedKeeps(op, commands, now);
    ObservedPauses(op, commands, now);
    forall i | 0 <= i < |op.items|
      ensures seen.items[i].status == Pending ==> op.items[i].status == Pending && now < op.deadline
      ensures op.items[i].status == Pending ==> seen.items[i] == (if op.deadline <= now then op.items[i].(status := Failed) else op.items[i])
    {
    }
    assert CommandsMatch(op.items);
    var p := RunPass(db, id, now, targets).value;
    hide Observed, ExpireOwned, OperationOk, Dispatch, Turns, Decided;
    if seen.status == Running {
      var start := Pass(seen.items, seen.status, commands, db.issued);
      DispatchPausesExactly(id, seen, targets, Limit(seen), 0, start);
      forall i | 0 <= i < |seen.items| && seen.items[i].status != Pending ensures p.items[i] == seen.items[i] {
        DispatchKeepsOthers(id, seen, targets, Limit(seen), 0, start, i);
      }
      SameTurns(op, seen.items, p.items);
      SeenPayload(op, commands, now);
      PendingTurns(op, seen.items, p.items, now);
    } else {
      NoPendingTurns(op, seen.items, now);
    }
  }

  lemma PendingTurns(op: Operation, seen: seq<Item>, after: seq<Item>, now: int)
    requires |op.items| == |seen| == |after|
    requires forall i :: 0 <= i < |seen| ==> (seen[i].status == Pending ==> op.items[i].status == Pending && now < op.deadline)
    requires forall i :: 0 <= i < |seen| && op.items[i].status == Pending ==>
      seen[i] == (if op.deadline <= now then op.items[i].(status := Failed) else op.items[i])
    ensures (exists f :: 0 <= f < |seen| && seen[f].status == Pending && after[f].status == Failed)
      <==> now < op.deadline && Turns(op.items, after, {Pending})
  {
    if now < op.deadline && Turns(op.items, after, {Pending}) {
      var i :| 0 <= i < |op.items| && i < |after| && op.items[i].status in {Pending} && after[i].status == Failed;
      assert seen[i].status == Pending;
    }
  }

  lemma NoPendingTurns(op: Operation, seen: seq<Item>, now: int)
    requires |op.items| == |seen|
    requires forall i :: 0 <= i < |seen| && op.items[i].status == Pending ==>
      seen[i] == (if op.deadline <= now then op.items[i].(status := Failed) else op.items[i])
    ensures now < op.deadline ==> !Turns(op.items, seen, {Pending})
  {
  }

  /** In any run, a committed advance ends the operation exactly when every item is terminal; otherwise a running
      one pauses exactly when stop-on-failure meets a failure before the window closes or the canary's
      outcome shows, and the canary stays undecided exactly while no command that was out has an outcome. */
  lemma PausesAreExact(states: seq<Db>, steps: seq<Step>, k: nat, id: string)
    requires IsRun(states, steps) && k < |steps| && Advances(states[k], steps[k], id)
    ensures id in states[k + 1].ops
    ensures var op, op' := states[k].ops[id], states[k + 1].ops[id];
      && (op'.status.Ended? <==> forall i :: 0 <= i < |op'.items| ==> Terminal(op'.items[i].status))
      && (!op'.status.Ended? ==> PauseRule(op, steps[k].now, op'.items, op'.status, op'.canaryPending))
  {
    RunStep(states, steps, k);
    assert OperationOk(states[k].ops[id]);
    AdvanceIs(states[k], steps[k], id);
    hide IsRun, DbOk, OperationOk, OperationsOk, Apply, RunPass, AdvanceTx, PauseRule;
    PassPauses(states[k], id, steps[k].now, steps[k].targets);
    ConcludesExactly(states[k], id, steps[k].now, steps[k].targets);
    hide Observed, Advanced, ExpireOwned;
  }

  // ---------- Failing passes ----------

  /** What stops a pass: a query failed for the device, or its command could not be signed under a fresh identifier. */
  predicate TargetFaults(kind: string, t: Target, commands: map<string, Command>, issued: seq<Issued>) {
    || t.access == AccessFault
    || (t.access == Access.Allowed && kind == "agent_update" && t.update == UpdateFault)
    || (t.access == Access.Allowed && (t.signed.None? || t.signed.value in commands || Issues(issued, t.signed.value)))
  }

  lemma {:induction false} DispatchFailsOnlyOnFault(id: string, op: Operation, targets: string -> Target, limit: int, i: nat, p: Pass) returns (q: Pass, f: nat)
    requires i <= |p.items| && Dispatch(id, op, targets, limit, i, p).None?
    ensures i <= f < |p.items| && p.items[f].status == Pending
    ensures p.issued <= q.issued && TargetFaults(op.payload.kind, targets(p.items[f].device), q.commands, q.issued)
    decreases |p.items| - i
  {
    if p.items[i].status != Pending || CountIn(p.items, IN_FLIGHT) >= limit {
      q, f := DispatchFailsOnlyOnFault(id, op, targets, limit, i + 1, p);
    } else {
      var d := DispatchOne(id, op, targets, i, p);
      if d.Fault? {
        q, f := p, i;
      } else {
        ServedOutcome(id, op, targets, i, p, limit, Running, 0);
        q, f := DispatchFailsOnlyOnFault(id, op, targets, limit, i + 1, d.pass);
      }
    }
  }

  /** An advance of an active operation fails only when some pending item meets such a fault; a pass that is not
      running, or has nothing pending, never fails. */
  lemma PassFailsOnlyOnFault(db: Db, id: string, now: int, targets: string -> Target) returns (commands: map<string, Command>, issued: seq<Issued>, f: nat)
    requires id in db.ops && OperationOk(db.ops[id]) && Active(db.ops[id].status) && AdvanceTx(db, id, now, targets).None?
    ensures db.ops[id].status == Running && now < db.ops[id].deadline
    ensures f < |db.ops[id].items| && db.ops[id].items[f].status == Pending
    ensures db.issued <= issued && TargetFaults(db.ops[id].payload.kind, targets(db.ops[id].items[f].device), commands, issued)
  {
    var op := db.ops[id];
    var expired := ExpireOwned(db.commands, op.items, now);
    var seen := Observed(op, expired, now);
    ObservedKeeps(op, expired, now);
    SeenPayload(op, expired, now);
    var q;
    q, f := DispatchFailsOnlyOnFault(id, seen, targets, Limit(seen), 0, Pass(seen.items, seen.status, expired, db.issued));
    commands, issued := q.commands, q.issued;
    RefreshSettles(op, expired, now, f);
    hide Observed, ExpireOwned, Dispatch, OperationOk;
  }
}
