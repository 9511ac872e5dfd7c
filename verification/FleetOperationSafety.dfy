/** What one scheduler transaction keeps true of one operation. */
module FleetOperationSafety {
  import opened Text
  import opened FleetOperations

  // ---------- Counting items ----------

  lemma {:induction false} CountUpdate(items: seq<Item>, i: nat, item: Item, kinds: set<ItemStatus>)
    requires i < |items|
    ensures CountIn(items[i := item], kinds) + (if items[i].status in kinds then 1 else 0)
         == CountIn(items, kinds) + (if item.status in kinds then 1 else 0)
  {
    var last := |items| - 1;
    if i < last {
      CountUpdate(items[..last], i, item, kinds);
      assert items[i := item][..last] == items[..last][i := item];
    } else {
      assert items[i := item][..last] == items[..last];
    }
  }

  lemma {:induction false} CountShrinks(before: seq<Item>, after: seq<Item>, kinds: set<ItemStatus>)
    requires |after| == |before|
    requires forall i :: 0 <= i < |before| && after[i].status in kinds ==> before[i].status in kinds
    ensures CountIn(after, kinds) <= CountIn(before, kinds)
  {
    if before != [] {
      var last := |before| - 1;
      CountShrinks(before[..last], after[..last], kinds);
    }
  }

  lemma {:induction false} CountIsZero(items: seq<Item>, kinds: set<ItemStatus>)
    ensures CountIn(items, kinds) == 0 <==> forall i :: 0 <= i < |items| ==> items[i].status !in kinds
  {
    if items != [] {
      var last := |items| - 1;
      CountIsZero(items[..last], kinds);
      if CountIn(items, kinds) == 0 {
        forall i | 0 <= i < |items| ensures items[i].status !in kinds {
          if i < last { assert items[i] == items[..last][i]; }
        }
      }
    }
  }

  // ---------- The invariant of one operation ----------

  ghost predicate DistinctDevices(items: seq<Item>) {
    forall i, j :: 0 <= i < j < |items| ==> items[i].device != items[j].device
  }

  /** Only items with a command are in flight, and a pending item has none. */
  ghost predicate CommandsMatch(items: seq<Item>) {
    forall i :: 0 <= i < |items| ==>
      && (items[i].status == Pending ==> items[i].command.None?)
      && (InFlight(items[i].status) ==> items[i].command.Some?)
  }

  ghost predicate NoItem(items: seq<Item>, status: ItemStatus) {
    forall i :: 0 <= i < |items| ==> items[i].status != status
  }

  /** At most one item was given a command, and that command is still in flight. */
  ghost predicate OneCanary(items: seq<Item>) {
    && (forall i :: 0 <= i < |items| && items[i].command.Some? ==> InFlight(items[i].status))
    && (forall i, j :: 0 <= i < j < |items| ==> items[i].command.None? || items[j].command.None?)
  }

  ghost predicate OperationOk(op: Operation) {
    && 1 <= op.payload.parallelism <= 20
    && DistinctDevices(op.items)
    && CommandsMatch(op.items)
    && CountIn(op.items, IN_FLIGHT) <= op.payload.parallelism
    && (op.canaryPending ==> OneCanary(op.items))
    && (op.status == Cancelling || op.status.Ended? ==> NoItem(op.items, Pending))
    && (op.status.Ended? ==> NoItem(op.items, Queued) && NoItem(op.items, Claimed))
    && (op.status == Cancelling || op.status == Ended(VCancelled) || NoItem(op.items, Cancelled))
    && (op.status == Ended(VCompleted) ==> NoItem(op.items, Failed))
  }

  /** What every transaction keeps of one item: a terminal item is frozen and a command is for ever. */
  ghost predicate Kept(x: Item, y: Item) {
    && x.device == y.device
    && (Terminal(x.status) ==> y == x)
    && (x.command.Some? ==> y.command == x.command)
    && (y.status == Pending ==> x == y)
  }

  ghost predicate KeptAll(before: seq<Item>, after: seq<Item>) {
    |before| == |after| && forall i :: 0 <= i < |before| ==> Kept(before[i], after[i])
  }

  // ---------- Refreshing ----------

  /** What refreshing may do to one item: it keeps its command and only moves towards an end. */
  ghost predicate Settles(status: OperationStatus, expired: bool, x: Item, y: Item) {
    && x.device == y.device && x.command == y.command
    && (Terminal(x.status) ==> y == x)
    && (x.status == Pending ==> if expired then y.status == Failed else y == x)
    && (InFlight(x.status) ==> y.status != Pending)
    && (y.status == Cancelled ==> status == Cancelling || x.status == Cancelled)
  }

  lemma RefreshSettles(op: Operation, commands: map<string, Command>, now: int, i: nat)
    requires i < |op.items|
    ensures Settles(op.status, op.deadline <= now, op.items[i], Observed(op, commands, now).items[i])
  {
  }

  lemma SettledRows(op: Operation, items: seq<Item>, expired: bool)
    requires OperationOk(op) && Active(op.status) && |items| == |op.items|
    requires forall i :: 0 <= i < |items| ==> Settles(op.status, expired, op.items[i], items[i])
    ensures KeptAll(op.items, items)
    ensures DistinctDevices(items)
    ensures CommandsMatch(items)
    ensures CountIn(items, IN_FLIGHT) <= op.payload.parallelism
    ensures op.canaryPending && !CanaryDecided(items) ==> OneCanary(items)
    ensures expired || op.status == Cancelling ==> NoItem(items, Pending)
    ensures op.status == Cancelling || NoItem(items, Cancelled)
  {
    CountShrinks(op.items, items, IN_FLIGHT);
  }

  lemma ObservedKeeps(op: Operation, commands: map<string, Command>, now: int)
    requires OperationOk(op) && Active(op.status)
    ensures var seen := Observed(op, commands, now);
      && KeptAll(op.items, seen.items)
      && OperationOk(seen)
      && Active(seen.status)
      && (seen.status != op.status ==> op.status == Running && seen.status == Paused)
      && (op.deadline <= now ==> NoItem(seen.items, Pending))
  {
    var seen := Observed(op, commands, now);
    forall i | 0 <= i < |op.items|
      ensures Settles(op.status, op.deadline <= now, op.items[i], seen.items[i])
    {
      RefreshSettles(op, commands, now, i);
    }
    SettledRows(op, seen.items, op.deadline <= now);
  }

  // ---------- Dispatching ----------

  /** The rows in the middle of a dispatch loop that started from `seen`. */
  ghost predicate DispatchOk(seen: Operation, limit: int, items: seq<Item>) {
    && 1 <= limit <= seen.payload.parallelism
    && KeptAll(seen.items, items)
    && DistinctDevices(items)
    && CommandsMatch(items)
    && CountIn(items, IN_FLIGHT) <= seen.payload.parallelism
    && NoItem(items, Cancelled)
    && (seen.canaryPending ==> limit == 1 && OneCanary(items))
  }

  /** What one dispatch may write into a pending item. */
  ghost predicate Served(x: Item, y: Item) {
    && x.device == y.device && y.status != Cancelled && y.status != Claimed
    && (y.status == Queued <==> y.command.Some?)
    && (y.status == Pending ==> y == x)
  }

  lemma ServedKeeps(seen: Operation, limit: int, items: seq<Item>, i: nat, y: Item)
    requires DispatchOk(seen, limit, items)
    requires i < |items| && items[i].status == Pending && CountIn(items, IN_FLIGHT) < limit
    requires Served(items[i], y)
    ensures DispatchOk(seen, limit, items[i := y])
  {
    CountUpdate(items, i, y, IN_FLIGHT);
    if seen.canaryPending { CountIsZero(items, IN_FLIGHT); }
    hide CountIn;
    var after := items[i := y];
    forall j | 0 <= j < |items| ensures Kept(seen.items[j], after[j]) {
      assert Kept(seen.items[j], items[j]);
    }
    if seen.canaryPending {
      assert forall j :: 0 <= j < |items| ==> items[j].command.None?;
    }
  }

  lemma DispatchOneServes(id: string, op: Operation, targets: string -> Target, i: nat, p: Pass)
    requires i < |p.items| && p.items[i].status == Pending && p.items[i].command.None?
    ensures var d := DispatchOne(id, op, targets, i, p);
      !d.Fault? ==>
        && |d.pass.items| == |p.items|
        && d.pass.items == p.items[i := d.pass.items[i]]
        && Served(p.items[i], d.pass.items[i])
        && d.pass.status == (if d.Stop? then Paused else p.status)
  {
  }

  lemma {:induction false} DispatchKeeps(id: string, seen: Operation, targets: string -> Target, limit: int, i: nat, p: Pass)
    requires DispatchOk(seen, limit, p.items) && p.status == Running && i <= |p.items|
    ensures var r := Dispatch(id, seen, targets, limit, i, p);
      r.Some? ==> DispatchOk(seen, limit, r.value.items) && (r.value.status == Running || r.value.status == Paused)
    decreases |p.items| - i
  {
    hide DispatchOne, Served, CountIn, KeptAll, DistinctDevices, OneCanary, NoItem;
    if i < |p.items| {
      if p.items[i].status != Pending || CountIn(p.items, IN_FLIGHT) >= limit {
        DispatchKeeps(id, seen, targets, limit, i + 1, p);
      } else {
        DispatchOneServes(id, seen, targets, i, p);
        var d := DispatchOne(id, seen, targets, i, p);
        if !d.Fault? {
          ServedKeeps(seen, limit, p.items, i, d.pass.items[i]);
          if d.Continue? { DispatchKeeps(id, seen, targets, limit, i + 1, d.pass); }
        }
      }
    }
  }

  lemma ConcludeKeeps(op: Operation, items: seq<Item>, status: OperationStatus)
    requires OperationOk(op.(items := items, status := status)) && Active(status)
    ensures OperationOk(op.(items := items, status := Conclude(items, status)))
    ensures Conclude(items, status) == Ended(VFailed) ==> !NoItem(items, Failed)
    ensures NoItem(items, Pending) && NoItem(items, Queued) && NoItem(items, Claimed)
      <==> Conclude(items, status).Ended?
  {
    CountIsZero(items, {Pending});
    CountIsZero(items, IN_FLIGHT);
    CountIsZero(items, {Failed});
  }

  // ---------- One transaction ----------

  /** The invariant survives, and every item is kept. */
  lemma PassKeeps(db: Db, id: string, now: int, targets: string -> Target)
    requires id in db.ops && OperationOk(db.ops[id]) && Active(db.ops[id].status)
    ensures var r := RunPass(db, id, now, targets);
      r.Some? ==>
        var after := Advanced(db, id, now, r.value);
        && OperationOk(after)
        && KeptAll(db.ops[id].items, after.items)
        && (db.ops[id].status == Cancelling ==> after.status == Cancelling || after.status == Ended(VCancelled))
        && (after.status == Ended(VCancelled) ==> db.ops[id].status == Cancelling)
        && (after.status == Ended(VFailed) ==> !NoItem(after.items, Failed))
        && (after.status == Running ==> db.ops[id].status == Running)
  {
    var op := db.ops[id];
    var commands := ExpireOwned(db.commands, op.items, now);
    var seen := Observed(op, commands, now);
    ObservedKeeps(op, commands, now);
    var r := RunPass(db, id, now, targets);
    if seen.status == Running {
      DispatchKeeps(id, seen, targets, Limit(seen), 0, Pass(seen.items, seen.status, commands, db.issued));
    }
    if r.Some? {
      ConcludeKeeps(seen, r.value.items, r.value.status);
      KeptCompose(op.items, seen.items, r.value.items);
    }
  }

  lemma KeptCompose(a: seq<Item>, b: seq<Item>, c: seq<Item>)
    requires KeptAll(a, b) && KeptAll(b, c)
    ensures KeptAll(a, c)
  {
    forall i | 0 <= i < |a| ensures Kept(a[i], c[i]) {
      assert Kept(a[i], b[i]) && Kept(b[i], c[i]);
    }
  }

  /** An operation that is not running is only observed: the step issues nothing. */
  lemma OnlyRunningIssues(db: Db, id: string, now: int, targets: string -> Target)
    requires id in db.ops && OperationOk(db.ops[id]) && Active(db.ops[id].status) && db.ops[id].status != Running
    ensures RunPass(db, id, now, targets).Some? && RunPass(db, id, now, targets).value.issued == db.issued
  {
    ObservedKeeps(db.ops[id], ExpireOwned(db.commands, db.ops[id].items, now), now);
  }

  /** The step that sees the canary's outcome issues nothing and does not end running. */
  lemma CanaryOutcomePauses(db: Db, id: string, now: int, targets: string -> Target)
    requires id in db.ops && OperationOk(db.ops[id]) && Active(db.ops[id].status)
    requires db.ops[id].canaryPending
    ensures var r := RunPass(db, id, now, targets);
      r.Some? && !Advanced(db, id, now, r.value).canaryPending ==>
        r.value.issued == db.issued && Advanced(db, id, now, r.value).status != Running
  {
    ObservedKeeps(db.ops[id], ExpireOwned(db.commands, db.ops[id].items, now), now);
  }

  // ---------- The deadline ----------

  /** The item waits for a command that is still live at `now`. */
  ghost predicate Awaits(item: Item, commands: map<string, Command>, now: int) {
    InFlight(item.status) && item.command.Some? && item.command.value in commands
    && var row := commands[item.command.value];
       Live(row.status) && (row.expiresAt.Some? ==> now < row.expiresAt.value)
  }

  ghost predicate AwaitsNothing(op: Operation, commands: map<string, Command>, now: int) {
    forall i :: 0 <= i < |op.items| ==> !Awaits(op.items[i], commands, now)
  }

  /** One advance at or after the deadline ends the operation, from any state and whatever the rest of
      the system answers, if and only if no item still waits for a live command. */
  lemma DeadlineEndsExactly(db: Db, id: string, now: int, targets: string -> Target)
    requires id in db.ops && OperationOk(db.ops[id]) && Active(db.ops[id].status) && db.ops[id].deadline <= now
    ensures var r := RunPass(db, id, now, targets);
      && r.Some? && r.value.issued == db.issued
      && (Advanced(db, id, now, r.value).status.Ended? <==> AwaitsNothing(db.ops[id], db.commands, now))
      && (AwaitsNothing(db.ops[id], db.commands, now) ==> forall i :: 0 <= i < |r.value.items| ==> Terminal(r.value.items[i].status))
  {
    var op := db.ops[id];
    var commands := ExpireOwned(db.commands, op.items, now);
    var seen := Observed(op, commands, now);
    ObservedKeeps(op, commands, now);
    forall i | 0 <= i < |op.items| ensures Terminal(seen.items[i].status) <==> !Awaits(op.items[i], db.commands, now) {
      TerminalAtDeadline(db, id, now, i);
    }
    var start := Pass(seen.items, seen.status, commands, db.issued);
    if seen.status == Running {
      NothingToDispatch(id, seen, targets, Limit(seen), 0, start);
    }
    ConcludeKeeps(seen, seen.items, seen.status);
    hide Observed, ExpireOwned, Awaits, Conclude, OperationOk;
    if !AwaitsNothing(op, db.commands, now) {
      var i :| 0 <= i < |op.items| && Awaits(op.items[i], db.commands, now);
      assert !Terminal(seen.items[i].status);
    }
  }

  lemma TerminalAtDeadline(db: Db, id: string, now: int, i: nat)
    requires id in db.ops && i < |db.ops[id].items| && CommandsMatch(db.ops[id].items) && db.ops[id].deadline <= now
    ensures Terminal(Observed(db.ops[id], ExpireOwned(db.commands, db.ops[id].items, now), now).items[i].status)
      <==> !Awaits(db.ops[id].items[i], db.commands, now)
  {
    var op := db.ops[id];
    var item := op.items[i];
    if InFlight(item.status) {
      var c := item.command.value;
      assert Owns(op.items, c);
    }
  }

  lemma {:induction false} NothingToDispatch(id: string, op: Operation, targets: string -> Target, limit: int, i: nat, p: Pass)
    requires i <= |p.items| && NoItem(p.items, Pending)
    ensures Dispatch(id, op, targets, limit, i, p) == Some(p)
    decreases |p.items| - i
  {
    if i < |p.items| { NothingToDispatch(id, op, targets, limit, i + 1, p); }
  }

  // ---------- Stop on failure ----------

  ghost predicate RecordsFailure(before: seq<Item>, after: seq<Item>) {
    |before| == |after| && exists i :: 0 <= i < |before| && before[i].status != Failed && after[i].status == Failed
  }

  /** With stop-on-failure, a dispatch that records a failure ends paused. */
  lemma {:induction false} DispatchStops(id: string, op: Operation, targets: string -> Target, limit: int, i: nat, p: Pass)
    requires op.payload.stop && i <= |p.items| && p.status == Running && CommandsMatch(p.items)
    ensures var r := Dispatch(id, op, targets, limit, i, p);
      r.Some? && r.value.status == Running ==> |r.value.items| == |p.items| && !RecordsFailure(p.items, r.value.items)
    decreases |p.items| - i
  {
    if i < |p.items| {
      if p.items[i].status != Pending || CountIn(p.items, IN_FLIGHT) >= limit {
        DispatchStops(id, op, targets, limit, i + 1, p);
      } else {
        DispatchOneServes(id, op, targets, i, p);
        var d := DispatchOne(id, op, targets, i, p);
        if d.Continue? {
          assert d.pass.items[i].status != Failed;
          DispatchStops(id, op, targets, limit, i + 1, d.pass);
        }
      }
    }
  }

  /** Whichever branch records a failure, the step leaves nothing that a later step could
      dispatch before someone resumes: it is not running, or it has no pending item. */
  lemma FailureStops(db: Db, id: string, now: int, targets: string -> Target)
    requires id in db.ops && OperationOk(db.ops[id]) && Active(db.ops[id].status) && db.ops[id].payload.stop
    ensures var r := RunPass(db, id, now, targets);
      r.Some? && RecordsFailure(db.ops[id].items, r.value.items) ==>
        var after := Advanced(db, id, now, r.value);
        after.status != Running || NoItem(after.items, Pending)
  {
    var op := db.ops[id];
    var commands := ExpireOwned(db.commands, op.items, now);
    var seen := Observed(op, commands, now);
    ObservedKeeps(op, commands, now);
    var start := Pass(seen.items, seen.status, commands, db.issued);
    if seen.status == Running {
      if op.deadline <= now {
        NothingToDispatch(id, seen, targets, Limit(seen), 0, start);
      } else {
        assert CloseWindow(op.items, op.deadline, now) == op.items;
        assert !RecordsFailure(op.items, seen.items);
        DispatchStops(id, seen, targets, Limit(seen), 0, start);
      }
    }
  }

  ghost predicate DeviceBefore(items: seq<Item>, f: nat, device: string) {
    exists m :: 0 <= m < f && m < |items| && items[m].device == device
  }

  /** What was issued since `before` went to rows before index `f`. */
  ghost predicate IssuedBefore(items: seq<Item>, f: nat, before: seq<Issued>, after: seq<Issued>) {
    before <= after && forall a :: |before| <= a < |after| ==> DeviceBefore(items, f, after[a].device)
  }

  lemma {:induction false} DispatchLeaves(id: string, op: Operation, targets: string -> Target, limit: int, i: nat, p: Pass, f: nat)
    requires f < i <= |p.items|
    ensures var r := Dispatch(id, op, targets, limit, i, p);
      r.Some? ==> |r.value.items| == |p.items| && r.value.items[f] == p.items[f]
    decreases |p.items| - i
  {
    if i < |p.items| {
      if p.items[i].status != Pending || CountIn(p.items, IN_FLIGHT) >= limit {
        DispatchLeaves(id, op, targets, limit, i + 1, p, f);
      } else {
        var d := DispatchOne(id, op, targets, i, p);
        if d.Continue? { DispatchLeaves(id, op, targets, limit, i + 1, d.pass, f); }
      }
    }
  }

  /** With stop-on-failure, one dispatch either fails the item and stops, or goes on without failing it. */
  lemma DispatchOneStops(id: string, op: Operation, targets: string -> Target, i: nat, p: Pass)
    requires op.payload.stop && i < |p.items| && p.items[i].status == Pending && p.items[i].command.None?
    ensures var d := DispatchOne(id, op, targets, i, p);
      && (d.Stop? ==> d.pass.issued == p.issued)
      && (d.Continue? ==> d.pass.items[i].status != Failed)
      && (!d.Fault? && d.pass.issued != p.issued ==>
            |d.pass.issued| == |p.issued| + 1 && p.issued <= d.pass.issued && d.pass.issued[|p.issued|].device == p.items[i].device)
  {
  }

  lemma IssuedBeforeMore(items: seq<Item>, items': seq<Item>, i: nat, f: nat, a: seq<Issued>, b: seq<Issued>, c: seq<Issued>)
    requires i < f && i < |items| == |items'| && forall m :: 0 <= m < |items| ==> items'[m].device == items[m].device
    requires b == a || (|b| == |a| + 1 && a <= b && b[|a|].device == items[i].device)
    requires IssuedBefore(items', f, b, c)
    ensures IssuedBefore(items, f, a, c)
  {
    forall x | |a| <= x < |c| ensures DeviceBefore(items, f, c[x].device) {
      if x >= |b| {
        assert DeviceBefore(items', f, c[x].device);
        var m :| 0 <= m < f && m < |items'| && items'[m].device == c[x].device;
        assert items[m].device == c[x].device;
      } else {
        assert c[x] == b[x];
      }
    }
  }

  /** With stop-on-failure, a dispatch that fails item `f` issues nothing for it or any later item. */
  lemma {:induction false} DispatchIssuesBefore(id: string, op: Operation, targets: string -> Target, limit: int, i: nat, p: Pass, f: nat)
    requires op.payload.stop && i <= f < |p.items| && CommandsMatch(p.items) && p.items[f].status != Failed
    ensures var r := Dispatch(id, op, targets, limit, i, p);
      r.Some? && f < |r.value.items| && r.value.items[f].status == Failed ==> IssuedBefore(p.items, f, p.issued, r.value.issued)
    decreases |p.items| - i
  {
    hide DispatchOne, CountIn, IssuedBefore;
    var r := Dispatch(id, op, targets, limit, i, p);
    if p.items[i].status != Pending || CountIn(p.items, IN_FLIGHT) >= limit {
      if i == f { DispatchLeaves(id, op, targets, limit, i + 1, p, f); }
      else { DispatchIssuesBefore(id, op, targets, limit, i + 1, p, f); }
    } else {
      DispatchOneServes(id, op, targets, i, p);
      DispatchOneStops(id, op, targets, i, p);
      var d := DispatchOne(id, op, targets, i, p);
      if d.Stop? {
        NothingIssuedBefore(p.items, f, p.issued);
      } else if d.Continue? {
        if i == f {
          DispatchLeaves(id, op, targets, limit, i + 1, d.pass, f);
        } else {
          DispatchIssuesBefore(id, op, targets, limit, i + 1, d.pass, f);
          if r.Some? && f < |r.value.items| && r.value.items[f].status == Failed {
            IssuedBeforeMore(p.items, d.pass.items, i, f, p.issued, d.pass.issued, r.value.issued);
          }
        }
      }
    }
  }

  lemma NothingIssuedBefore(items: seq<Item>, f: nat, issued: seq<Issued>)
    ensures IssuedBefore(items, f, issued, issued)
  {
  }

  /** A failure shows before anything is dispatched: the window closed or a command failed. */
  ghost predicate FailsOnSight(db: Db, id: string, now: int)
    requires id in db.ops
  {
    RecordsFailure(db.ops[id].items, Observed(db.ops[id], ExpireOwned(db.commands, db.ops[id].items, now), now).items)
  }

  /** With stop-on-failure, a pass that sees a failure while refreshing issues nothing at all. */
  lemma FailureOnSightIssuesNothing(db: Db, id: string, now: int, targets: string -> Target)
    requires id in db.ops && OperationOk(db.ops[id]) && Active(db.ops[id].status) && db.ops[id].payload.stop && FailsOnSight(db, id, now)
    ensures RunPass(db, id, now, targets).Some? && RunPass(db, id, now, targets).value.issued == db.issued
  {
    var op := db.ops[id];
    var commands := ExpireOwned(db.commands, op.items, now);
    var seen := Observed(op, commands, now);
    ObservedKeeps(op, commands, now);
    if op.deadline <= now && seen.status == Running {
      NothingToDispatch(id, seen, targets, Limit(seen), 0, Pass(seen.items, seen.status, commands, db.issued));
    }
  }

  /** With stop-on-failure, a pass that records a failure of item `f` issues nothing for it or any later item. */
  lemma FailureIssuesNothingAfter(db: Db, id: string, now: int, targets: string -> Target, f: nat)
    requires id in db.ops && OperationOk(db.ops[id]) && Active(db.ops[id].status) && db.ops[id].payload.stop
    requires f < |db.ops[id].items| && db.ops[id].items[f].status != Failed
    ensures var r := RunPass(db, id, now, targets);
      r.Some? && f < |r.value.items| && r.value.items[f].status == Failed ==> IssuedBefore(db.ops[id].items, f, db.issued, r.value.issued)
  {
    var op := db.ops[id];
    var commands := ExpireOwned(db.commands, op.items, now);
    var seen := Observed(op, commands, now);
    ObservedKeeps(op, commands, now);
    var r := RunPass(db, id, now, targets);
    if r.Some? && f < |r.value.items| && r.value.items[f].status == Failed {
      if seen.items[f].status == Failed {
        FailureOnSightIssuesNothing(db, id, now, targets);
        NothingIssuedBefore(op.items, f, db.issued);
      } else if seen.status == Running {
        DispatchIssuesBefore(id, seen, targets, Limit(seen), 0, Pass(seen.items, seen.status, commands, db.issued), f);
        hide Observed, ExpireOwned, Dispatch;
        SameDevicesBefore(op.items, seen.items, f, db.issued, r.value.issued);
      }
    }
  }

  lemma SameDevicesBefore(items: seq<Item>, items': seq<Item>, f: nat, a: seq<Issued>, b: seq<Issued>)
    requires KeptAll(items, items') && IssuedBefore(items', f, a, b)
    ensures IssuedBefore(items, f, a, b)
  {
    forall x | |a| <= x < |b| ensures DeviceBefore(items, f, b[x].device) {
      assert DeviceBefore(items', f, b[x].device);
      var m :| 0 <= m < f && m < |items'| && items'[m].device == b[x].device;
      assert Kept(items[m], items'[m]);
    }
  }
}
