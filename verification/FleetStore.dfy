/**
 The store that runs the scheduler transactions in place. A transaction keeps the
 operation it loaded in memory and writes each change to the rows by primary key as
 well; it touches the store's fields only when it commits.
 */
module FleetScheduler {
  import opened Text
  import opened Units
  import opened FleetOperations
  import opened FleetOperationSafety

  // ---------- Rows and memory ----------

  /** UPDATE fleet_operation_items SET status, command_id WHERE device_id = `device`. */
  function UpdateRow(rows: seq<Item>, device: string, status: ItemStatus, command: Option<string>): seq<Item> {
    seq(|rows|, i requires 0 <= i < |rows| =>
      if rows[i].device == device
      then rows[i].(status := status, command := if command.Some? then command else rows[i].command)
      else rows[i])
  }

  lemma UpdateRowAt(rows: seq<Item>, i: nat, status: ItemStatus, command: Option<string>)
    requires i < |rows| && DistinctDevices(rows)
    ensures UpdateRow(rows, rows[i].device, status, command)
         == rows[i := rows[i].(status := status, command := if command.Some? then command else rows[i].command)]
  {
    forall j | 0 <= j < |rows| && j != i ensures rows[j].device != rows[i].device { }
  }

  /** Memory and rows hold the same devices with the same statuses. */
  ghost predicate Agree(items: seq<Item>, rows: seq<Item>) {
    |items| == |rows| && forall i :: 0 <= i < |rows| ==> items[i].device == rows[i].device && items[i].status == rows[i].status
  }

  lemma {:induction false} AgreeCounts(items: seq<Item>, rows: seq<Item>, kinds: set<ItemStatus>)
    requires Agree(items, rows)
    ensures CountIn(items, kinds) == CountIn(rows, kinds)
  {
    if items != [] {
      AgreeCounts(items[..|items| - 1], rows[..|rows| - 1], kinds);
    }
  }

  // ---------- The loops of one pass ----------

  lemma CountOneMore(items: seq<Item>, i: nat, kinds: set<ItemStatus>)
    requires i < |items|
    ensures CountIn(items[..i + 1], kinds) == CountIn(items[..i], kinds) + (if items[i].status in kinds then 1 else 0)
  {
    assert items[..i + 1][..i] == items[..i];
  }

  lemma NewFailureOneMore(before: seq<Item>, after: seq<Item>, x: Item, y: Item)
    requires |before| == |after|
    ensures NewFailure(before + [x], after + [y]) <==> NewFailure(before, after) || (InFlight(x.status) && y.status == Failed)
  {
    var before', after' := before + [x], after + [y];
    if NewFailure(before, after) {
      var i :| 0 <= i < |before| && InFlight(before[i].status) && after[i].status == Failed;
      assert before'[i] == before[i] && after'[i] == after[i];
    }
    if InFlight(x.status) && y.status == Failed {
      assert before'[|before|] == x && after'[|after|] == y;
    }
  }

  /** Row `i` of a half-refreshed table: the rows before it are done, those after it untouched. */
  method RefreshRow(op: Operation, now: int, commands: map<string, Command>, open: seq<Item>, rows: seq<Item>, i: nat)
      returns (item: Item, rows': seq<Item>)
    requires i < |open| && DistinctDevices(open)
    requires rows == Refresh(op, now, commands, open)[..i] + open[i..]
    ensures item == Refresh(op, now, commands, open)[i]
    ensures rows' == Refresh(op, now, commands, open)[..i + 1] + open[i + 1..]
  {
    item, rows' := open[i], rows;
    ghost var done := Refresh(op, now, commands, open);
    assert forall j :: 0 <= j < |open| ==> rows[j].device == open[j].device;
    if InFlight(item.status) {
      var status := Observe(op.payload.kind, op.status, op.deadline, now, Lookup(commands, item.command));
      UpdateRowAt(rows, i, status, None);
      rows' := UpdateRow(rows, item.device, status, None);
      item := item.(status := status);
    }
    assert rows' == rows[i := done[i]];
  }

  lemma RowOneMore(rows: seq<Item>, i: nat)
    requires i < |rows|
    ensures rows[..i + 1] == rows[..i] + [rows[i]]
  {
  }

  /** The variables of the refresh loop after `i` rows. */
  ghost predicate Tallied(open: seq<Item>, done: seq<Item>, i: nat, items: seq<Item>, active: int, failed: int, newFailure: bool) {
    && i <= |open| == |done| && items == done[..i]
    && active == CountIn(done[..i], IN_FLIGHT) && failed == CountIn(done[..i], {Failed})
    && newFailure == NewFailure(open[..i], done[..i])
  }

  lemma TallyStarts(open: seq<Item>, done: seq<Item>)
    requires |open| == |done|
    ensures Tallied(open, done, 0, [], 0, 0, false)
  {
  }

  lemma TallyRow(open: seq<Item>, done: seq<Item>, i: nat, items: seq<Item>, active: int, failed: int, newFailure: bool)
    requires Tallied(open, done, i, items, active, failed, newFailure) && i < |open|
    ensures Tallied(open, done, i + 1, items + [done[i]],
      active + (if InFlight(done[i].status) then 1 else 0), failed + (if done[i].status == Failed then 1 else 0),
      newFailure || (InFlight(open[i].status) && done[i].status == Failed))
  {
    CountOneMore(done, i, IN_FLIGHT);
    CountOneMore(done, i, {Failed});
    NewFailureOneMore(open[..i], done[..i], open[i], done[i]);
    RowOneMore(open, i);
    RowOneMore(done, i);
    hide CountIn, NewFailure;
  }

  lemma TallyEnds(open: seq<Item>, done: seq<Item>, items: seq<Item>, active: int, failed: int, newFailure: bool)
    requires Tallied(open, done, |open|, items, active, failed, newFailure)
    ensures items == done && active == CountIn(items, IN_FLIGHT) && failed == CountIn(items, {Failed})
    ensures newFailure == NewFailure(open, items)
  {
    assert open[..|open|] == open && done[..|open|] == done;
  }

  method RefreshItems(op: Operation, now: int, commands: map<string, Command>, open: seq<Item>)
      returns (items: seq<Item>, rows: seq<Item>, active: int, failed: int, newFailure: bool)
    requires DistinctDevices(open)
    ensures items == rows == Refresh(op, now, commands, open)
    ensures active == CountIn(items, IN_FLIGHT) && failed == CountIn(items, {Failed})
    ensures newFailure == NewFailure(open, items)
  {
    hide Tallied, CountIn, NewFailure, RefreshItem, DistinctDevices;
    items, rows, active, failed, newFailure := [], open, 0, 0, false;
    ghost var done := Refresh(op, now, commands, open);
    TallyStarts(open, done);
    for i := 0 to |open|
      invariant rows == done[..i] + open[i..]
      invariant Tallied(open, done, i, items, active, failed, newFailure)
    {
      TallyRow(open, done, i, items, active, failed, newFailure);
      var item;
      item, rows := RefreshRow(op, now, commands, open, rows, i);
      if InFlight(item.status) { active := active + 1; }
      if InFlight(open[i].status) && item.status == Failed { newFailure := true; }
      if item.status == Failed { failed := failed + 1; }
      items := items + [item];
    }
    TallyEnds(open, done, items, active, failed, newFailure);
  }

  method ObserveItems(op: Operation, now: int, commands: map<string, Command>)
      returns (seen: Operation, items: seq<Item>, active: int, failed: int)
    requires DistinctDevices(op.items)
    ensures seen == Observed(op, commands, now) && items == seen.items
    ensures active == CountIn(items, IN_FLIGHT) && failed == CountIn(items, {Failed})
  {
    var open := CloseWindow(op.items, op.deadline, now);
    var rows, newFailure;
    items, rows, active, failed, newFailure := RefreshItems(op, now, commands, open);
    var status, canary := op.status, op.canaryPending;
    if newFailure && op.payload.stop && status == Running { status := Paused; }
    if canary && CanaryDecided(items) {
      canary := false;
      if status == Running { status := Paused; }
    }
    seen := op.(items := rows, status := status, canaryPending := canary);
  }

  method ServeItem(id: string, op: Operation, targets: string -> Target, i: nat, items: seq<Item>, p: Pass)
      returns (d: Dispatched, items': seq<Item>)
    requires i < |p.items| && Agree(items, p.items) && DistinctDevices(p.items) && items[i].status == Pending && p.status == Running
    ensures d == DispatchOne(id, op, targets, i, p)
    ensures !d.Fault? ==> Agree(items', d.pass.items) && items' == items[i := items'[i]]
  {
    items' := items;
    var device := items[i].device;
    var target := targets(device);
    var status, command := Pending, None;
    if target.access == AccessFault { return Fault, items; }
    if target.access == Denied {
      status := Failed;
    } else if op.payload.kind == "agent_update" && target.update == UpdateFault {
      return Fault, items;
    } else if op.payload.kind == "agent_update" && target.update == AlreadyCurrent {
      status := Completed;
    } else if op.payload.kind == "agent_update" && target.update == PlatformChanged {
      status := Failed;
    } else if op.payload.kind == "system_backup_create" && target.backupBusy {
      return Continue(p), items;
    } else {
      if target.signed.None? || target.signed.value in p.commands || Issues(p.issued, target.signed.value) { return Fault, items; }
      status, command := Queued, target.signed;
    }
    UpdateRowAt(p.items, i, status, command);
    var q := p.(items := UpdateRow(p.items, device, status, command));
    if command.Some? {
      var row := Command(device, CmdQueued, None, false, None, Some(ExpiryOf(target.askedAt, target.signedAt, op.deadline)));
      q := q.(commands := q.commands[command.value := row], issued := q.issued + [Issued(id, device, command.value, target.askedAt, target.signedAt)]);
    }
    items' := items[i := items[i].(status := status)];
    if status == Failed && op.payload.stop {
      d := Stop(q.(status := Paused));
    } else {
      d := Continue(q);
    }
  }

  /** Memory agrees with the rows and the counters with both. */
  ghost predicate Counted(items: seq<Item>, rows: seq<Item>, active: int, failed: int) {
    Agree(items, rows) && active == CountIn(rows, IN_FLIGHT) == CountIn(items, IN_FLIGHT) && failed == CountIn(items, {Failed})
  }

  lemma ServingCounts(id: string, seen: Operation, targets: string -> Target, limit: int, i: nat, p: Pass,
      items: seq<Item>, items': seq<Item>, active: int, failed: int)
    requires DispatchOk(seen, limit, p.items) && Counted(items, p.items, active, failed)
    requires i < |items| && p.items[i].status == Pending && active < limit
    requires var d := DispatchOne(id, seen, targets, i, p);
      !d.Fault? && Agree(items', d.pass.items) && items' == items[i := items'[i]]
    ensures var d := DispatchOne(id, seen, targets, i, p);
      && |items'| == |items| && DispatchOk(seen, limit, d.pass.items) && d.pass.status == (if d.Stop? then Paused else p.status)
      && Counted(items', d.pass.items,
           active + (if items'[i].status == Queued then 1 else 0), failed + (if items'[i].status == Failed then 1 else 0))
  {
    var d := DispatchOne(id, seen, targets, i, p);
    hide CountIn, KeptAll, OneCanary, NoItem, DistinctDevices;
    assert p.items[i].command.None?;
    DispatchOneServes(id, seen, targets, i, p);
    hide DispatchOne;
    ServedKeeps(seen, limit, p.items, i, d.pass.items[i]);
    CountUpdate(items, i, items'[i], IN_FLIGHT);
    CountUpdate(items, i, items'[i], {Failed});
    AgreeCounts(items', d.pass.items, IN_FLIGHT);
    hide DispatchOk;
    assert items[i].status == Pending && items'[i].status == d.pass.items[i].status;
  }

  method DispatchItems(id: string, seen: Operation, targets: string -> Target, limit: int, start: Pass, inFlight: int, failures: int)
      returns (done: Option<Pass>, items: seq<Item>, active: int, failed: int)
    requires start.status == Running && DispatchOk(seen, limit, start.items)
    requires inFlight == CountIn(start.items, IN_FLIGHT) && failures == CountIn(start.items, {Failed})
    ensures done == Dispatch(id, seen, targets, limit, 0, start)
    ensures done.Some? ==> Agree(items, done.value.items)
    ensures done.Some? ==> active == CountIn(items, IN_FLIGHT) && failed == CountIn(items, {Failed})
  {
    hide DispatchOne, CountIn, KeptAll, OneCanary, NoItem, CommandsMatch;
    var p := start;
    items, active, failed := start.items, inFlight, failures;
    ghost var goal := Dispatch(id, seen, targets, limit, 0, start);
    for i := 0 to |items|
      invariant |items| == |start.items| && p.status == Running
      invariant DispatchOk(seen, limit, p.items) && Counted(items, p.items, active, failed)
      invariant goal == Dispatch(id, seen, targets, limit, i, p)
    {
      if items[i].status == Pending && active < limit {
        var d, items' := ServeItem(id, seen, targets, i, items, p);
        if d.Fault? { return None, items, active, failed; }
        ServingCounts(id, seen, targets, limit, i, p, items, items', active, failed);
        if items'[i].status == Failed { failed := failed + 1; }
        if items'[i].status == Queued { active := active + 1; }
        items, p := items', d.pass;
        if d.Stop? { return Some(p), items, active, failed; }
      }
    }
    return Some(p), items, active, failed;
  }

  method PassItems(db: Db, id: string, now: int, targets: string -> Target)
      returns (done: Option<Pass>, seen: Operation, items: seq<Item>, active: int, failed: int)
    requires id in db.ops && OperationOk(db.ops[id]) && Active(db.ops[id].status)
    ensures done == RunPass(db, id, now, targets)
    ensures seen == Observed(db.ops[id], ExpireOwned(db.commands, db.ops[id].items, now), now)
    ensures done.Some? ==> Agree(items, done.value.items)
    ensures done.Some? ==> active == CountIn(items, IN_FLIGHT) && failed == CountIn(items, {Failed})
  {
    var commands := ExpireOwned(db.commands, db.ops[id].items, now);
    seen, items, active, failed := ObserveItems(db.ops[id], now, commands);
    ObservedKeeps(db.ops[id], commands, now);
    var start := Pass(seen.items, seen.status, commands, db.issued);
    done := Some(start);
    if seen.status == Running {
      done, items, active, failed := DispatchItems(id, seen, targets, Limit(seen), start, active, failed);
    }
  }

  method ConcludeItems(items: seq<Item>, rows: seq<Item>, status: OperationStatus, active: int, failed: int)
      returns (verdict: OperationStatus)
    requires Agree(items, rows) && active == CountIn(items, IN_FLIGHT) && failed == CountIn(items, {Failed})
    ensures verdict == Conclude(rows, status)
  {
    AgreeCounts(items, rows, IN_FLIGHT);
    AgreeCounts(items, rows, {Pending});
    AgreeCounts(items, rows, {Failed});
    verdict := status;
    var pending := 0;
    for i := 0 to |items|
      invariant pending == CountIn(items[..i], {Pending})
    {
      CountOneMore(items, i, {Pending});
      if items[i].status == Pending { pending := pending + 1; }
    }
    assert items[..|items|] == items;
    if pending == 0 && active == 0 {
      verdict := Ended(if status == Cancelling then VCancelled else if failed > 0 then VFailed else VCompleted);
    }
  }

  /** Every target is authorised before anything is written. */
  method CheckDevices(input: Input, env: CreateEnv) returns (answer: Admission)
    ensures answer == Admissible(input, env)
  {
    if env.principal != Admit { return env.principal; }
    var ids := SortUnique(input.devices);
    for i := 0 to |ids|
      invariant AdmissionOf(ids, env.devices) == AdmissionOf(ids[i..], env.devices)
    {
      if env.devices(ids[i]) != Admit { return env.devices(ids[i]); }
      assert ids[i..][1..] == ids[i + 1..];
    }
    return Admit;
  }

  /** One pending row per distinct device, in device order, unless some device's arguments are too long. */
  method InsertItems(input: Input) returns (ok: bool, items: seq<Item>)
    ensures ok <==> forall d :: d in input.devices ==> |ArgsFor(input, d)| <= 16384
    ensures ok ==> items == NewOperation("", input, 0).items
  {
    var ids := SortUnique(input.devices);
    SortUniqueSorts(input.devices);
    items := [];
    for i := 0 to |ids|
      invariant |items| == i && forall j :: 0 <= j < i ==> items[j] == Item(ids[j], None, Pending)
      invariant forall j :: 0 <= j < i ==> |ArgsFor(input, ids[j])| <= 16384
    {
      if |ArgsFor(input, ids[i])| > 16384 {
        assert ids[i] in ids;
        return false, items;
      }
      items := items + [Item(ids[i], None, Pending)];
    }
    return true, items;
  }

  // ---------- The store ----------

  class FleetStore {
    var ops: map<string, Operation>
    var requests: map<(string, string), string>
    var commands: map<string, Command>
    var issued: seq<Issued>

    ghost function View(): Db
      reads this
    {
      Db(ops, requests, commands, issued)
    }

    constructor ()
      ensures View() == Db(map[], map[], map[], [])
    {
      ops, requests, commands, issued := map[], map[], map[], [];
    }

    /** `memory` is the operation's items as the transaction held them when it committed: the
        verdict was taken from them, and their statuses are those of the stored rows. */
    method AdvanceOperation(id: string, now: int, targets: string -> Target) returns (ok: bool, memory: seq<Item>)
      requires id in ops ==> OperationOk(ops[id])
      modifies this
      ensures ok == AdvanceTx(old(View()), id, now, targets).Some?
      ensures View() == if ok then AdvanceTx(old(View()), id, now, targets).value else old(View())
      ensures ok ==> id in ops && Agree(memory, ops[id].items)
    {
      if id !in ops { return false, []; }
      if !Active(ops[id].status) { return true, ops[id].items; }
      var done, seen, items, active, failed := PassItems(Db(ops, requests, commands, issued), id, now, targets);
      if done.None? { return false, items; }
      var p := done.value;
      var status := ConcludeItems(items, p.items, p.status, active, failed);
      ops, commands, issued := ops[id := seen.(items := p.items, status := status)], p.commands, p.issued;
      return true, items;
    }

    /** The two manual actions; anything else, or a resume of an operation that is not paused, is refused. */
    method SetAction(user: string, id: string, action: string, allowed: bool) returns (ok: bool)
      modifies this
      ensures action == "cancel" ==>
        var r := CancelTx(old(View()), user, id);
        ok == r.Some? && View() == if ok then r.value else old(View())
      ensures action == "resume" ==>
        var r := ResumeTx(old(View()), user, id, allowed);
        ok == r.Some? && View() == if ok then r.value else old(View())
      ensures action != "cancel" && action != "resume" ==> !ok && View() == old(View())
    {
      if id !in ops || ops[id].user != user { return false; }
      if action == "resume" && !allowed { return false; }
      var op := ops[id];
      if action == "cancel" {
        if !Active(op.status) { return true; }
        ops := ops[id := op.(status := Cancelling, items := CancelPending(op.items))];
        commands := map c | c in commands ::
          if commands[c].status == CmdQueued && Owns(op.items, c)
          then commands[c].(status := CmdCancelled) else commands[c];
        return true;
      } else if action == "resume" && op.status == Paused {
        ops := ops[id := op.(status := Running)];
        return true;
      }
      return false;
    }

    method CreateOperation(user: string, input: Input, runValid: bool, env: CreateEnv) returns (r: CreateResult)
      modifies this
      ensures r == CreateTx(old(View()), user, input, runValid, env)
      ensures View() == if r.Created? then r.db else old(View())
    {
      if !FleetCommandAllowed(input.kind) { return Rejected(NotAvailable); }
      if !WithinLimits(input) { return Rejected(InvalidLimits); }
      if !env.argumentsValid { return Rejected(InvalidArguments); }
      if !runValid { return Rejected(NoAccess); }
      var admission := CheckDevices(input, env);
      if admission == RefuseAccess { return Rejected(NoAccess); }
      if admission == RefuseFeature { return Rejected(NoFeature); }
      if admission == AdmissionFault { return Rejected(StoreFault); }
      if (user, input.key) in requests {
        var known := requests[(user, input.key)];
        if known in ops && Replays(ops[known], input) { return Existing(known); }
        return Rejected(Conflict);
      }
      var active := set id | id in ops && ops[id].user == user && Active(ops[id].status);
      if |active| >= ACTIVE_LIMIT { return Rejected(TooManyActive); }
      if env.freshId.None? { return Rejected(StoreFault); }
      if DeadlineRefused(input.deadline, env.now) { return Rejected(InvalidDeadline); }
      var id := env.freshId.value;
      if id in ops { return Rejected(StoreFault); }
      var ok, items := InsertItems(input);
      if !ok { return Rejected(InvalidArguments); }
      ops := ops[id := Operation(user, input.key, PayloadOf(input), input.args, DeadlineFor(input, env.now), Running, input.canary, items)];
      requests := requests[(user, input.key) := id];
      r := Created(Db(ops, requests, commands, issued), id);
    }
  }
}
