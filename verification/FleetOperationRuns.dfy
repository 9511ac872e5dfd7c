/**
 Whole runs of the fleet scheduler: creations, scheduler passes, cancels, resumes,
 free changes of the command table by agents, and device deletions, in any order.
 */
module FleetOperationRuns {
  import opened Text
  import opened Units
  import opened FleetOperations
  import opened FleetOperationSafety

  datatype Step =
    | Create(user: string, input: Input, runValid: bool, env: CreateEnv)
    | Advance(id: string, now: int, targets: string -> Target)
    | Cancel(user: string, id: string)
    | Resume(user: string, id: string, allowed: bool)
    | Agents(commands: map<string, Command>)
    | DeleteDevice(device: string)

  /** Agents, operators and other features may rewrite, add and delete command rows, but
      nothing rewrites an expiry and nothing recreates an identifier issued here. */
  ghost predicate AgentsMay(db: Db, commands: map<string, Command>) {
    forall c :: c in commands ==>
      if c in db.commands then commands[c].expiresAt == db.commands[c].expiresAt else !Issues(db.issued, c)
  }

  function WithoutDevice(items: seq<Item>, device: string): seq<Item> {
    if items == [] then []
    else
      var last := |items| - 1;
      WithoutDevice(items[..last], device) + (if items[last].device == device then [] else [items[last]])
  }

  /** Deleting a device cascades to its items and its commands. */
  function DeleteTx(db: Db, device: string): Db {
    db.(
      ops := map id | id in db.ops :: db.ops[id].(items := WithoutDevice(db.ops[id].items, device)),
      commands := map c | c in db.commands && db.commands[c].device != device :: db.commands[c])
  }

  function Settle(db: Db, r: Option<Db>): Db { if r.Some? then r.value else db }

  /** The tables after a step; a transaction that fails leaves them as they were. */
  function Apply(db: Db, step: Step): Db {
    match step
    case Create(user, input, runValid, env) =>
      var r := CreateTx(db, user, input, runValid, env);
      if r.Created? then r.db else db
    case Advance(id, now, targets) => Settle(db, AdvanceTx(db, id, now, targets))
    case Cancel(user, id) => Settle(db, CancelTx(db, user, id))
    case Resume(user, id, allowed) => Settle(db, ResumeTx(db, user, id, allowed))
    case Agents(commands) => db.(commands := commands)
    case DeleteDevice(device) => DeleteTx(db, device)
  }

  ghost predicate Possible(db: Db, step: Step) {
    step.Agents? ==> AgentsMay(db, step.commands)
  }

  const EMPTY: Db := Db(map[], map[], map[], [])

  /** A run from the empty tables. */
  ghost predicate IsRun(states: seq<Db>, steps: seq<Step>) {
    && |states| == |steps| + 1
    && states[0] == EMPTY
    && forall k :: 0 <= k < |steps| ==> Possible(states[k], steps[k]) && states[k + 1] == Apply(states[k], steps[k])
  }

  // ---------- The ledger of issued commands ----------

  ghost predicate UniqueIssues(issued: seq<Issued>) {
    forall i, j :: 0 <= i < j < |issued| ==>
      && issued[i].command != issued[j].command
      && (issued[i].operation != issued[j].operation || issued[i].device != issued[j].device)
  }

  /** The ledger records that the command was issued for the device. */
  ghost predicate Records(issued: seq<Issued>, id: string, device: string, command: string) {
    exists a :: 0 <= a < |issued| && issued[a].operation == id && issued[a].device == device && issued[a].command == command
  }

  /** When the command that a ledger entry records expires. */
  function ExpiryIn(entry: Issued, deadline: int): int {
    ExpiryOf(entry.askedAt, entry.signedAt, deadline)
  }

  /** The rows of operation `id` agree with what was issued for it, and its commands expire when they were signed to. */
  ghost predicate LedgerOk(id: string, deadline: int, items: seq<Item>, issued: seq<Issued>, commands: map<string, Command>) {
    && (forall a, i :: 0 <= a < |issued| && issued[a].operation == id && 0 <= i < |items| && items[i].device == issued[a].device ==>
          items[i].command == Some(issued[a].command))
    && (forall i :: 0 <= i < |items| && items[i].command.Some? ==>
          Records(issued, id, items[i].device, items[i].command.value))
    && (forall a :: 0 <= a < |issued| && issued[a].operation == id && issued[a].command in commands ==>
          commands[issued[a].command].expiresAt == Some(ExpiryIn(issued[a], deadline)))
  }

  ghost predicate IndexOk(db: Db) {
    && (forall id :: id in db.ops ==>
          var k := (db.ops[id].user, db.ops[id].key); k in db.requests && db.requests[k] == id)
    && (forall k :: k in db.requests ==>
          db.requests[k] in db.ops && db.ops[db.requests[k]].user == k.0 && db.ops[db.requests[k]].key == k.1)
  }

  ghost predicate OperationsOk(db: Db) {
    forall id :: id in db.ops ==> OperationOk(db.ops[id])
  }

  ghost predicate LedgersOk(db: Db) {
    forall id :: id in db.ops ==> LedgerOk(id, db.ops[id].deadline, db.ops[id].items, db.issued, db.commands)
  }

  /** The request index is exact, and nobody has more than twenty active operations. */
  ghost predicate UsersOk(db: Db) {
    && IndexOk(db)
    && (forall user :: |ActiveOf(db, user)| <= ACTIVE_LIMIT)
  }

  /** The invariant of every reachable state. */
  ghost predicate DbOk(db: Db) {
    && OperationsOk(db)
    && LedgersOk(db)
    && UniqueIssues(db.issued)
    && (forall a :: 0 <= a < |db.issued| ==> db.issued[a].operation in db.ops)
    && UsersOk(db)
  }

  /** The ledger grew only by commands of operation `id`, and no old row changed its expiry. */
  ghost predicate GrowsFor(id: string, issued: seq<Issued>, commands: map<string, Command>, issued': seq<Issued>, commands': map<string, Command>) {
    && issued <= issued'
    && (forall a :: |issued| <= a < |issued'| ==> issued'[a].operation == id)
    && (forall c :: c in commands' && Issues(issued, c) ==> c in commands && commands'[c].expiresAt == commands[c].expiresAt)
  }

  lemma OthersKeepLedger(id: string, other: string, deadline: int, items: seq<Item>,
      issued: seq<Issued>, commands: map<string, Command>, issued': seq<Issued>, commands': map<string, Command>)
    requires LedgerOk(other, deadline, items, issued, commands)
    requires GrowsFor(id, issued, commands, issued', commands') && (id != other || issued' == issued)
    ensures LedgerOk(other, deadline, items, issued', commands')
  {
    forall a | 0 <= a < |issued'| && issued'[a].operation == other
      ensures a < |issued| && issued'[a] == issued[a] && Issues(issued, issued[a].command)
    {
    }
    forall i | 0 <= i < |items| && items[i].command.Some?
      ensures Records(issued', other, items[i].device, items[i].command.value)
    {
      assert Records(issued, other, items[i].device, items[i].command.value);
      assert forall a :: 0 <= a < |issued| ==> issued'[a] == issued[a];
    }
  }

  /** Signing later than asking moves the expiry by no more than the delay. */
  lemma ExpiryIsBounded(askedAt: int, signedAt: int, deadline: int)
    ensures ExpiryOf(askedAt, signedAt, deadline) <= deadline + (signedAt - askedAt)
  {
  }

  /** The expiry is no later than the deadline exactly when signing, cut to a microsecond, is ahead of
      asking by less than what the deadline lacks to its next microsecond. */
  lemma ExpiryWithinDeadlineExactly(askedAt: int, signedAt: int, deadline: int)
    ensures ExpiryOf(askedAt, signedAt, deadline) <= deadline
      <==> signedAt - signedAt % MICROSECOND - askedAt < MICROSECOND - deadline % MICROSECOND
  {
  }

  lemma EntryKeepsUnique(id: string, deadline: int, items: seq<Item>, i: nat, issued: seq<Issued>, commands: map<string, Command>, entry: Issued)
    requires LedgerOk(id, deadline, items, issued, commands) && UniqueIssues(issued)
    requires i < |items| && items[i].command.None? && !Issues(issued, entry.command)
    requires entry.operation == id && entry.device == items[i].device
    ensures UniqueIssues(issued + [entry])
  {
    forall a | 0 <= a < |issued|
      ensures issued[a].command != entry.command && (issued[a].operation != id || issued[a].device != items[i].device)
    {
    }
  }

  lemma RecordsStay(issued: seq<Issued>, entry: Issued, id: string, device: string, command: string)
    ensures Records(issued + [entry], id, device, command)
      <==> Records(issued, id, device, command) || (entry.operation == id && entry.device == device && entry.command == command)
  {
    var all := issued + [entry];
    assert all[|issued|] == entry && forall a :: 0 <= a < |issued| ==> all[a] == issued[a];
  }

  lemma EntryKeepsLedger(id: string, deadline: int, items: seq<Item>, i: nat, y: Item,
      issued: seq<Issued>, commands: map<string, Command>, entry: Issued, row: Command)
    requires LedgerOk(id, deadline, items, issued, commands) && DistinctDevices(items)
    requires i < |items| && items[i].command.None? && y.device == items[i].device && y.command == Some(entry.command)
    requires !Issues(issued, entry.command) && entry.command !in commands
    requires entry.operation == id && entry.device == y.device && row.expiresAt == Some(ExpiryIn(entry, deadline))
    ensures LedgerOk(id, deadline, items[i := y], issued + [entry], commands[entry.command := row])
  {
    hide ExpiryIn;
    var items', issued' := items[i := y], issued + [entry];
    assert forall a :: 0 <= a < |issued| ==> issued'[a] == issued[a];
    forall j | 0 <= j < |items'| && items'[j].command.Some?
      ensures Records(issued', id, items'[j].device, items'[j].command.value)
    {
      RecordsStay(issued, entry, id, items'[j].device, items'[j].command.value);
    }
  }

  lemma FailureKeepsLedger(id: string, deadline: int, items: seq<Item>, i: nat, y: Item, issued: seq<Issued>, commands: map<string, Command>)
    requires LedgerOk(id, deadline, items, issued, commands) && i < |items|
    requires y.device == items[i].device && y.command == items[i].command
    ensures LedgerOk(id, deadline, items[i := y], issued, commands)
  {
  }

  lemma IssueExtendsLedger(id: string, op: Operation, targets: string -> Target, i: nat, p: Pass)
    requires i < |p.items| && p.items[i].status == Pending && p.items[i].command.None? && DistinctDevices(p.items)
    requires LedgerOk(id, op.deadline, p.items, p.issued, p.commands) && UniqueIssues(p.issued)
    ensures var d := DispatchOne(id, op, targets, i, p);
      !d.Fault? ==>
        && LedgerOk(id, op.deadline, d.pass.items, d.pass.issued, d.pass.commands)
        && UniqueIssues(d.pass.issued)
        && GrowsFor(id, p.issued, p.commands, d.pass.issued, d.pass.commands)
  {
    var d := DispatchOne(id, op, targets, i, p);
    if !d.Fault? {
      var y := d.pass.items[i];
      if d.pass.issued == p.issued {
        hide LedgerOk, UniqueIssues;
        FailureKeepsLedger(id, op.deadline, p.items, i, y, p.issued, p.commands);
        assert p.items[i := p.items[i]] == p.items;
      } else {
        var entry := d.pass.issued[|p.issued|];
        hide LedgerOk, UniqueIssues, DistinctDevices, ExpiryOf;
        EntryKeepsUnique(id, op.deadline, p.items, i, p.issued, p.commands, entry);
        EntryKeepsLedger(id, op.deadline, p.items, i, y, p.issued, p.commands, entry, d.pass.commands[entry.command]);
      }
    }
  }

  lemma {:induction false} DispatchExtendsLedger(id: string, seen: Operation, targets: string -> Target, limit: int, i: nat, p: Pass)
    requires DispatchOk(seen, limit, p.items) && i <= |p.items|
    requires LedgerOk(id, seen.deadline, p.items, p.issued, p.commands) && UniqueIssues(p.issued)
    ensures var r := Dispatch(id, seen, targets, limit, i, p);
      r.Some? ==>
        && LedgerOk(id, seen.deadline, r.value.items, r.value.issued, r.value.commands)
        && UniqueIssues(r.value.issued)
        && GrowsFor(id, p.issued, p.commands, r.value.issued, r.value.commands)
    decreases |p.items| - i
  {
    hide DispatchOne, Served, CountIn, KeptAll, OneCanary, NoItem, LedgerOk, UniqueIssues;
    if i < |p.items| {
      if p.items[i].status != Pending || CountIn(p.items, IN_FLIGHT) >= limit {
        DispatchExtendsLedger(id, seen, targets, limit, i + 1, p);
      } else {
        IssueExtendsLedger(id, seen, targets, i, p);
        DispatchOneServes(id, seen, targets, i, p);
        var d := DispatchOne(id, seen, targets, i, p);
        if !d.Fault? {
          ServedKeeps(seen, limit, p.items, i, d.pass.items[i]);
          if d.Continue? {
            DispatchExtendsLedger(id, seen, targets, limit, i + 1, d.pass);
            var r := Dispatch(id, seen, targets, limit, i, p);
            if r.Some? { GrowthComposes(id, p, d.pass, r.value); }
          }
        }
      }
    }
  }

  lemma GrowthComposes(id: string, p: Pass, q: Pass, r: Pass)
    requires GrowsFor(id, p.issued, p.commands, q.issued, q.commands)
    requires GrowsFor(id, q.issued, q.commands, r.issued, r.commands)
    ensures GrowsFor(id, p.issued, p.commands, r.issued, r.commands)
  {
    forall c | c in r.commands && Issues(p.issued, c)
      ensures c in p.commands && r.commands[c].expiresAt == p.commands[c].expiresAt
    {
      var a :| 0 <= a < |p.issued| && p.issued[a].command == c;
      assert q.issued[a].command == c;
      assert Issues(q.issued, c);
    }
  }

  // ---------- What every step keeps ----------

  lemma ObservedKeepsLedger(db: Db, id: string, now: int)
    requires id in db.ops
    requires LedgerOk(id, db.ops[id].deadline, db.ops[id].items, db.issued, db.commands)
    ensures var op := db.ops[id];
      var commands := ExpireOwned(db.commands, op.items, now);
      && LedgerOk(id, op.deadline, Observed(op, commands, now).items, db.issued, commands)
      && GrowsFor(id, db.issued, db.commands, db.issued, commands)
  {
    var op := db.ops[id];
    var commands := ExpireOwned(db.commands, op.items, now);
    var seen := Observed(op, commands, now);
    forall i | 0 <= i < |op.items|
      ensures seen.items[i].device == op.items[i].device && seen.items[i].command == op.items[i].command
    {
      RefreshSettles(op, commands, now, i);
    }
  }

  lemma PassExtendsLedger(db: Db, id: string, now: int, targets: string -> Target)
    requires DbOk(db) && id in db.ops && Active(db.ops[id].status)
    ensures var r := RunPass(db, id, now, targets);
      r.Some? ==>
        && LedgerOk(id, db.ops[id].deadline, r.value.items, r.value.issued, r.value.commands)
        && UniqueIssues(r.value.issued)
        && GrowsFor(id, db.issued, db.commands, r.value.issued, r.value.commands)
  {
    var op := db.ops[id];
    var commands := ExpireOwned(db.commands, op.items, now);
    var seen := Observed(op, commands, now);
    ObservedKeepsLedger(db, id, now);
    ObservedKeeps(op, commands, now);
    if seen.status == Running {
      var start := Pass(seen.items, seen.status, commands, db.issued);
      DispatchExtendsLedger(id, seen, targets, Limit(seen), 0, start);
      var r := RunPass(db, id, now, targets);
      if r.Some? { GrowthComposes(id, start.(commands := db.commands), start, r.value); }
    }
  }

  /** Ending or pausing operations cannot raise anyone's number of active operations. */
  lemma FewerActive(db: Db, db': Db)
    requires db'.ops.Keys == db.ops.Keys
    requires forall id :: id in db.ops ==> db'.ops[id].user == db.ops[id].user
    requires forall id :: id in db.ops && Active(db'.ops[id].status) ==> Active(db.ops[id].status)
    requires forall user :: |ActiveOf(db, user)| <= ACTIVE_LIMIT
    ensures forall user :: |ActiveOf(db', user)| <= ACTIVE_LIMIT
  {
    forall user ensures |ActiveOf(db', user)| <= ACTIVE_LIMIT {
      SubsetIsSmaller(ActiveOf(db', user), ActiveOf(db, user));
    }
  }

  lemma {:induction false} SubsetIsSmaller(a: set<string>, b: set<string>)
    requires a <= b
    ensures |a| <= |b|
  {
    if a != {} {
      var x :| x in a;
      SubsetIsSmaller(a - {x}, b - {x});
    }
  }

  /** Replacing the rows of one operation, with the commands that were issued for it. */
  function Replace(db: Db, id: string, op: Operation, issued: seq<Issued>, commands: map<string, Command>): Db {
    db.(ops := db.ops[id := op], commands := commands, issued := issued)
  }

  lemma ReplaceKeepsLedgers(db: Db, id: string, op: Operation, issued: seq<Issued>, commands: map<string, Command>)
    requires LedgersOk(db) && id in db.ops
    requires LedgerOk(id, op.deadline, op.items, issued, commands)
    requires GrowsFor(id, db.issued, db.commands, issued, commands)
    ensures LedgersOk(Replace(db, id, op, issued, commands))
  {
    forall other | other in db.ops && other != id
      ensures LedgerOk(other, db.ops[other].deadline, db.ops[other].items, issued, commands)
    {
      OthersKeepLedger(id, other, db.ops[other].deadline, db.ops[other].items, db.issued, db.commands, issued, commands);
    }
  }

  lemma ReplaceKeepsOperations(db: Db, db': Db, id: string, op: Operation)
    requires OperationsOk(db) && OperationOk(op) && db'.ops == db.ops[id := op]
    ensures OperationsOk(db')
  {
  }

  lemma ReplaceKeepsUsers(db: Db, db': Db, id: string, op: Operation)
    requires UsersOk(db) && id in db.ops
    requires op.user == db.ops[id].user && op.key == db.ops[id].key
    requires Active(op.status) ==> Active(db.ops[id].status)
    requires db'.ops == db.ops[id := op] && db'.requests == db.requests
    ensures UsersOk(db')
  {
    FewerActive(db, db');
  }

  lemma ReplaceKeeps(db: Db, id: string, op: Operation, issued: seq<Issued>, commands: map<string, Command>)
    requires DbOk(db) && id in db.ops
    requires op.user == db.ops[id].user && op.key == db.ops[id].key
    requires Active(op.status) ==> Active(db.ops[id].status)
    requires OperationOk(op)
    requires LedgerOk(id, op.deadline, op.items, issued, commands)
    requires UniqueIssues(issued) && GrowsFor(id, db.issued, db.commands, issued, commands)
    ensures DbOk(Replace(db, id, op, issued, commands))
  {
    var db' := Replace(db, id, op, issued, commands);
    ReplaceKeepsOperations(db, db', id, op);
    ReplaceKeepsLedgers(db, id, op, issued, commands);
    ReplaceKeepsUsers(db, db', id, op);
    forall a | 0 <= a < |issued| ensures issued[a].operation in db'.ops {
      if a < |db.issued| { assert issued[a] == db.issued[a]; }
    }
  }

  lemma AdvanceKeeps(db: Db, id: string, now: int, targets: string -> Target)
    requires DbOk(db)
    ensures DbOk(Apply(db, Advance(id, now, targets)))
  {
    hide RunPass, LedgersOk, UniqueIssues, UsersOk, OperationOk, LedgerOk, GrowsFor, KeptAll;
    if id in db.ops && Active(db.ops[id].status) && RunPass(db, id, now, targets).Some? {
      var p := RunPass(db, id, now, targets).value;
      PassKeeps(db, id, now, targets);
      PassExtendsLedger(db, id, now, targets);
      ReplaceKeeps(db, id, Advanced(db, id, now, p), p.issued, p.commands);
    }
  }

  lemma CancelKeepsOperation(op: Operation)
    requires OperationOk(op) && Active(op.status)
    ensures OperationOk(op.(status := Cancelling, items := CancelPending(op.items)))
  {
    CountShrinks(op.items, CancelPending(op.items), IN_FLIGHT);
    hide CountIn;
  }

  lemma CancelKeepsLedger(id: string, deadline: int, items: seq<Item>, issued: seq<Issued>, commands: map<string, Command>)
    requires LedgerOk(id, deadline, items, issued, commands)
    ensures LedgerOk(id, deadline, CancelPending(items), issued, commands)
  {
    var after := CancelPending(items);
    assert forall i :: 0 <= i < |items| ==> after[i].device == items[i].device && after[i].command == items[i].command;
  }

  lemma CancelKeeps(db: Db, user: string, id: string)
    requires DbOk(db)
    ensures DbOk(Apply(db, Cancel(user, id)))
  {
    if id in db.ops && db.ops[id].user == user && Active(db.ops[id].status) {
      var op := db.ops[id];
      var db' := Apply(db, Cancel(user, id));
      CancelKeepsOperation(op);
      assert GrowsFor(id, db.issued, db.commands, db.issued, db'.commands);
      OthersKeepLedger(id, id, op.deadline, op.items, db.issued, db.commands, db.issued, db'.commands);
      CancelKeepsLedger(id, op.deadline, op.items, db.issued, db'.commands);
      ReplaceKeeps(db, id, db'.ops[id], db.issued, db'.commands);
      assert db' == Replace(db, id, db'.ops[id], db.issued, db'.commands);
    }
  }

  lemma ResumeKeeps(db: Db, user: string, id: string, allowed: bool)
    requires DbOk(db)
    ensures DbOk(Apply(db, Resume(user, id, allowed)))
  {
    if ResumeTx(db, user, id, allowed).Some? {
      ReplaceKeeps(db, id, db.ops[id].(status := Running), db.issued, db.commands);
      assert Apply(db, Resume(user, id, allowed)) == Replace(db, id, db.ops[id].(status := Running), db.issued, db.commands);
    }
  }

  lemma AgentsKeep(db: Db, commands: map<string, Command>)
    requires DbOk(db) && AgentsMay(db, commands)
    ensures DbOk(db.(commands := commands))
  {
    forall id | id in db.ops
      ensures LedgerOk(id, db.ops[id].deadline, db.ops[id].items, db.issued, commands)
    {
      OthersKeepLedger(id, id, db.ops[id].deadline, db.ops[id].items, db.issued, db.commands, db.issued, commands);
    }
    FewerActive(db, db.(commands := commands));
  }

  lemma NewOperationIsOk(user: string, input: Input, now: int)
    requires WithinLimits(input)
    ensures OperationOk(NewOperation(user, input, now))
    ensures forall i :: 0 <= i < |NewOperation(user, input, now).items| ==> NewOperation(user, input, now).items[i].command.None?
  {
    var ids := SortUnique(input.devices);
    SortUniqueSorts(input.devices);
    var op := NewOperation(user, input, now);
    CountIsZero(op.items, IN_FLIGHT);
    forall i, j | 0 <= i < j < |op.items| ensures op.items[i].device != op.items[j].device {
      BelowIsTrichotomous(ids[i], ids[j]);
    }
  }

  lemma InsertKeepsIndex(db: Db, db': Db, id: string, op: Operation)
    requires IndexOk(db) && id !in db.ops && (op.user, op.key) !in db.requests
    requires db'.ops == db.ops[id := op] && db'.requests == db.requests[(op.user, op.key) := id]
    ensures IndexOk(db')
  {
  }

  lemma InsertKeepsLimit(db: Db, db': Db, id: string, op: Operation, user: string)
    requires id !in db.ops && db'.ops == db.ops[id := op]
    requires |ActiveOf(db, user)| <= ACTIVE_LIMIT && (user == op.user ==> |ActiveOf(db, user)| < ACTIVE_LIMIT)
    ensures |ActiveOf(db', user)| <= ACTIVE_LIMIT
  {
    SubsetIsSmaller(ActiveOf(db', user), if user == op.user then ActiveOf(db, user) + {id} else ActiveOf(db, user));
  }

  lemma InsertKeepsUsers(db: Db, db': Db, id: string, op: Operation)
    requires UsersOk(db) && id !in db.ops && (op.user, op.key) !in db.requests
    requires |ActiveOf(db, op.user)| < ACTIVE_LIMIT
    requires db'.ops == db.ops[id := op] && db'.requests == db.requests[(op.user, op.key) := id]
    ensures UsersOk(db')
  {
    hide IndexOk, ActiveOf;
    InsertKeepsIndex(db, db', id, op);
    forall user ensures |ActiveOf(db', user)| <= ACTIVE_LIMIT {
      InsertKeepsLimit(db, db', id, op, user);
    }
  }

  lemma InsertKeepsLedgers(db: Db, db': Db, id: string, op: Operation)
    requires LedgersOk(db) && id !in db.ops
    requires forall a :: 0 <= a < |db.issued| ==> db.issued[a].operation in db.ops
    requires forall i :: 0 <= i < |op.items| ==> op.items[i].command.None?
    requires db'.ops == db.ops[id := op] && db'.issued == db.issued && db'.commands == db.commands
    ensures LedgersOk(db')
  {
    assert LedgerOk(id, op.deadline, op.items, db.issued, db.commands);
  }

  /** What a creation adds. */
  lemma CreatedState(db: Db, user: string, input: Input, runValid: bool, env: CreateEnv)
    requires UsersOk(db)
    ensures var r := CreateTx(db, user, input, runValid, env);
      r.Created? ==>
        var op := NewOperation(user, input, env.now);
        && r.id !in db.ops && (op.user, op.key) !in db.requests && |ActiveOf(db, op.user)| < ACTIVE_LIMIT
        && r.db == Db(db.ops[r.id := op], db.requests[(op.user, op.key) := r.id], db.commands, db.issued)
        && WithinLimits(input)
  {
    hide FleetCommandAllowed, WithinLimits, SortUnique, ActiveOf;
  }

  lemma CreateKeeps(db: Db, user: string, input: Input, runValid: bool, env: CreateEnv)
    requires DbOk(db)
    ensures DbOk(Apply(db, Create(user, input, runValid, env)))
  {
    CreatedState(db, user, input, runValid, env);
    hide CreateTx, NewOperation, LedgersOk, OperationsOk, UsersOk, WithinLimits, UniqueIssues, OperationOk;
    var r := CreateTx(db, user, input, runValid, env);
    if r.Created? {
      NewOperationIsOk(user, input, env.now);
      var op := NewOperation(user, input, env.now);
      InsertKeepsUsers(db, r.db, r.id, op);
      InsertKeepsLedgers(db, r.db, r.id, op);
      ReplaceKeepsOperations(db, r.db, r.id, op);
    }
  }

  lemma {:induction false} WithoutDeviceKeeps(items: seq<Item>, device: string, y: Item)
    ensures y in WithoutDevice(items, device) <==> y in items && y.device != device
  {
    if items != [] {
      var last := |items| - 1;
      WithoutDeviceKeeps(items[..last], device, y);
      assert items == items[..last] + [items[last]];
    }
  }

  lemma CountAppend(items: seq<Item>, x: Item)
    ensures CountIn(items + [x], IN_FLIGHT) == CountIn(items, IN_FLIGHT) + CountIn([x], IN_FLIGHT)
  {
    assert (items + [x])[..|items|] == items && [x][..0] == [];
  }

  lemma {:induction false} WithoutDeviceCounts(items: seq<Item>, device: string)
    ensures CountIn(WithoutDevice(items, device), IN_FLIGHT) <= CountIn(items, IN_FLIGHT)
  {
    hide CountIn;
    if items == [] {
      assert WithoutDevice(items, device) == items;
    } else {
      var last := |items| - 1;
      var front := items[..last];
      WithoutDeviceCounts(front, device);
      CountAppend(front, items[last]);
      CountAppend(WithoutDevice(front, device), items[last]);
      assert items == front + [items[last]];
      assert WithoutDevice(front, device) + [] == WithoutDevice(front, device);
    }
  }

  lemma WithoutDeviceHas(items: seq<Item>, device: string)
    ensures forall y :: y in WithoutDevice(items, device) <==> y in items && y.device != device
    ensures CountIn(WithoutDevice(items, device), IN_FLIGHT) <= CountIn(items, IN_FLIGHT)
  {
    WithoutDeviceCounts(items, device);
    hide CountIn, WithoutDevice;
    forall y ensures y in WithoutDevice(items, device) <==> y in items && y.device != device {
      WithoutDeviceKeeps(items, device, y);
    }
  }

  ghost predicate Apart(x: Item, y: Item, canary: bool) {
    x.device != y.device && (canary ==> x.command.None? || y.command.None?)
  }

  ghost predicate AllApart(items: seq<Item>, canary: bool) {
    forall i, j :: 0 <= i < j < |items| ==> Apart(items[i], items[j], canary)
  }

  ghost predicate ApartFrom(items: seq<Item>, x: Item, canary: bool) {
    forall y :: y in items ==> Apart(y, x, canary)
  }

  lemma AppendApart(items: seq<Item>, x: Item, canary: bool)
    ensures AllApart(items + [x], canary) <==> AllApart(items, canary) && ApartFrom(items, x, canary)
  {
    hide Apart;
    var all := items + [x];
    if AllApart(all, canary) {
      forall i, j | 0 <= i < j < |items| ensures Apart(items[i], items[j], canary) {
        assert items[i] == all[i] && items[j] == all[j];
      }
      forall y | y in items ensures Apart(y, x, canary) {
        var i :| 0 <= i < |items| && items[i] == y;
        assert all[i] == y && all[|items|] == x;
      }
    }
    if AllApart(items, canary) && ApartFrom(items, x, canary) {
      forall i, j | 0 <= i < j < |all| ensures Apart(all[i], all[j], canary) {
        assert all[i] == items[i] && items[i] in items;
      }
    }
  }

  lemma {:induction false} WithoutDeviceApart(items: seq<Item>, device: string, canary: bool)
    requires AllApart(items, canary)
    ensures AllApart(WithoutDevice(items, device), canary)
  {
    hide AllApart, Apart;
    if items != [] {
      var last := |items| - 1;
      var front := items[..last];
      var rest := WithoutDevice(front, device);
      assert items == front + [items[last]];
      AppendApart(front, items[last], canary);
      WithoutDeviceApart(front, device, canary);
      AppendApart(rest, items[last], canary);
      forall y | y in rest ensures Apart(y, items[last], canary) {
        WithoutDeviceKeeps(front, device, y);
      }
      assert rest + [] == rest;
    } else {
      assert WithoutDevice(items, device) == items;
    }
  }

  /** What the invariant asks of one item alone. */
  ghost predicate ItemOk(op: Operation, item: Item) {
    && (item.status == Pending ==> item.command.None?)
    && (InFlight(item.status) ==> item.command.Some?)
    && (op.canaryPending && item.command.Some? ==> InFlight(item.status))
    && (op.status == Cancelling || op.status.Ended? ==> item.status != Pending)
    && (op.status.Ended? ==> !InFlight(item.status))
    && (op.status == Cancelling || op.status == Ended(VCancelled) || item.status != Cancelled)
    && (op.status == Ended(VCompleted) ==> item.status != Failed)
  }

  ghost predicate RowsOk(op: Operation) {
    && (forall i :: 0 <= i < |op.items| ==> ItemOk(op, op.items[i]))
    && AllApart(op.items, op.canaryPending)
    && 1 <= op.payload.parallelism <= 20
    && CountIn(op.items, IN_FLIGHT) <= op.payload.parallelism
  }

  lemma RowsAreOk(op: Operation)
    ensures OperationOk(op) <==> RowsOk(op)
  {
    if RowsOk(op) {
      forall i, j | 0 <= i < j < |op.items|
        ensures op.items[i].device != op.items[j].device
        ensures op.canaryPending ==> op.items[i].command.None? || op.items[j].command.None?
      {
        assert Apart(op.items[i], op.items[j], op.canaryPending);
      }
      forall i | 0 <= i < |op.items| ensures ItemOk(op, op.items[i]) { }
    }
  }

  lemma DeleteKeepsOperation(op: Operation, device: string)
    requires OperationOk(op)
    ensures OperationOk(op.(items := WithoutDevice(op.items, device)))
  {
    var after := op.(items := WithoutDevice(op.items, device));
    RowsAreOk(op);
    RowsAreOk(after);
    WithoutDeviceHas(op.items, device);
    WithoutDeviceApart(op.items, device, op.canaryPending);
    forall i | 0 <= i < |after.items| ensures ItemOk(after, after.items[i]) {
      assert after.items[i] in after.items;
      var k :| 0 <= k < |op.items| && op.items[k] == after.items[i];
      assert ItemOk(op, op.items[k]);
    }
  }

  lemma DeleteKeepsLedger(id: string, deadline: int, items: seq<Item>, db: Db, device: string)
    requires LedgerOk(id, deadline, items, db.issued, db.commands)
    ensures LedgerOk(id, deadline, WithoutDevice(items, device), db.issued, DeleteTx(db, device).commands)
  {
    var kept := WithoutDevice(items, device);
    WithoutDeviceHas(items, device);
    forall i | 0 <= i < |kept| ensures exists k :: 0 <= k < |items| && items[k] == kept[i] {
      assert kept[i] in kept;
    }
  }

  lemma DeleteKeeps(db: Db, device: string)
    requires DbOk(db)
    ensures DbOk(DeleteTx(db, device))
  {
    hide OperationOk, LedgerOk, WithoutDevice, UniqueIssues, ActiveOf;
    var db' := DeleteTx(db, device);
    forall id | id in db'.ops
      ensures OperationOk(db'.ops[id])
      ensures LedgerOk(id, db'.ops[id].deadline, db'.ops[id].items, db'.issued, db'.commands)
    {
      DeleteKeepsOperation(db.ops[id], device);
      DeleteKeepsLedger(id, db.ops[id].deadline, db.ops[id].items, db, device);
    }
    FewerActive(db, db');
  }

  lemma StepKeeps(db: Db, step: Step)
    requires DbOk(db) && Possible(db, step)
    ensures DbOk(Apply(db, step))
  {
    match step
    case Create(user, input, runValid, env) => CreateKeeps(db, user, input, runValid, env);
    case Advance(id, now, targets) => AdvanceKeeps(db, id, now, targets);
    case Cancel(user, id) => CancelKeeps(db, user, id);
    case Resume(user, id, allowed) => ResumeKeeps(db, user, id, allowed);
    case Agents(commands) => AgentsKeep(db, commands);
    case DeleteDevice(device) => DeleteKeeps(db, device);
  }

  lemma {:induction false} RunKeeps(states: seq<Db>, steps: seq<Step>, k: nat)
    requires IsRun(states, steps) && k < |states|
    ensures DbOk(states[k])
  {
    if k == 0 {
      forall user ensures ActiveOf(EMPTY, user) == {} { }
    } else {
      RunKeeps(states, steps, k - 1);
      StepKeeps(states[k - 1], steps[k - 1]);
    }
  }

  /** Each step of a run starts where the invariant holds. */
  lemma RunStep(states: seq<Db>, steps: seq<Step>, k: nat)
    requires IsRun(states, steps) && k < |steps|
    ensures DbOk(states[k]) && OperationsOk(states[k]) && states[k + 1] == Apply(states[k], steps[k])
  {
    RunKeeps(states, steps, k);
    hide Apply, OperationsOk, LedgersOk, UniqueIssues, UsersOk;
  }
}
