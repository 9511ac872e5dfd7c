/**
 The fleet operation scheduler: one command fanned out to many devices under a
 parallelism cap, a canary gate, a stop-on-failure pause, cancel, resume and a
 deadline. Every function below is one database transaction on the tables `Db`;
 `FleetStore` runs the same transactions step by step on its own fields.
 Instants and durations are integers in nanoseconds.
 */
module FleetOperations {
  import opened Text
  import opened Units

  const ACTIVE_LIMIT: int := 20

  /** A command row's status column holds free text; the scheduler knows six words. */
  datatype CommandStatus =
    | CmdQueued | CmdClaimed | CmdCompleted | CmdFailed | CmdCancelled | CmdExpired
    | CmdOther(text: string)

  datatype Command = Command(
    device: string,
    status: CommandStatus,
    exit: Option<int>,
    healthy: bool,
    completedAt: Option<int>,
    expiresAt: Option<int>)

  datatype ItemStatus = Pending | Queued | Claimed | Completed | Failed | Cancelled

  datatype Item = Item(device: string, command: Option<string>, status: ItemStatus)

  datatype Verdict = VCompleted | VFailed | VCancelled

  datatype OperationStatus = Running | Paused | Cancelling | Ended(verdict: Verdict)

  /** The request as it is hashed: equal payloads stand for equal SHA-256 digests. */
  datatype Payload = Payload(
    title: string,
    kind: string,
    deadline: Option<DeadlineText>,
    parallelism: int,
    stop: bool,
    canary: bool,
    args: map<string, string>)

  /** A deadline the caller wrote; `canonical` when the text is the UTC rendering of `at`. */
  datatype DeadlineText = DeadlineText(at: int, canonical: bool) | Unreadable(text: string)

  /** No deadline, or one written the way it is stored. */
  predicate Canonical(d: Option<DeadlineText>) {
    d.Some? ==> d.value.DeadlineText? && d.value.canonical
  }

  datatype Operation = Operation(
    user: string,
    key: string,
    payload: Payload,
    args: string,
    deadline: int,
    status: OperationStatus,
    canaryPending: bool,
    items: seq<Item>)

  /** The record of a command having been created; each one is also written to the audit log.
      Its time to live was computed at `askedAt`, and it was signed at `signedAt`. */
  datatype Issued = Issued(operation: string, device: string, command: string, askedAt: int, signedAt: int)

  /** `requests` is the unique index on (user, request key); `issued` only ever grows. */
  datatype Db = Db(
    ops: map<string, Operation>,
    requests: map<(string, string), string>,
    commands: map<string, Command>,
    issued: seq<Issued>)

  // ---------- Words of the scheduler ----------

  const IN_FLIGHT: set<ItemStatus> := {Queued, Claimed}

  predicate InFlight(s: ItemStatus) { s in IN_FLIGHT }

  predicate Terminal(s: ItemStatus) { s == Completed || s == Failed || s == Cancelled }

  predicate Active(s: OperationStatus) { !s.Ended? }

  predicate Live(s: CommandStatus) { s == CmdQueued || s == CmdClaimed }

  predicate Owns(items: seq<Item>, command: string) {
    exists i :: 0 <= i < |items| && items[i].command == Some(command)
  }

  function CountIn(items: seq<Item>, kinds: set<ItemStatus>): nat {
    if items == [] then 0
    else CountIn(items[..|items| - 1], kinds) + (if items[|items| - 1].status in kinds then 1 else 0)
  }

  predicate Issues(issued: seq<Issued>, command: string) {
    exists i :: 0 <= i < |issued| && issued[i].command == command
  }

  // ---------- Advancing one operation ----------

  datatype Access = Allowed | Denied | AccessFault

  datatype UpdateCheck = AlreadyCurrent | UpdateNeeded | PlatformChanged | UpdateFault

  /** What the rest of the system answers about one device: permissions, inventory,
      a backup still being created, and the identifier of a freshly signed command. The clock is
      read again when the time to live is computed, and once more while signing. */
  datatype Target = Target(access: Access, update: UpdateCheck, backupBusy: bool, signed: Option<string>, askedAt: int, signedAt: int)

  function ExpireOwned(commands: map<string, Command>, items: seq<Item>, now: int): map<string, Command> {
    map c | c in commands ::
      var row := commands[c];
      if Live(row.status) && row.expiresAt.Some? && row.expiresAt.value <= now && Owns(items, c)
      then row.(status := CmdExpired) else row
  }

  function CloseWindow(items: seq<Item>, deadline: int, now: int): seq<Item> {
    seq(|items|, i requires 0 <= i < |items| =>
      if deadline <= now && items[i].status == Pending then items[i].(status := Failed) else items[i])
  }

  /** The item status that a command row stands for; a missing row counts as failed. */
  function Observe(kind: string, status: OperationStatus, deadline: int, now: int, row: Option<Command>): ItemStatus {
    if row.None? then Failed
    else
      var c := row.value;
      var s := if c.status == CmdCompleted && c.exit != Some(0) then CmdFailed else c.status;
      var s := if s == CmdCancelled && status != Cancelling then CmdFailed else s;
      if kind == "agent_update" && s == CmdCompleted && !c.healthy then
        if deadline <= now || (c.completedAt.Some? && now - c.completedAt.value > 5 * MINUTE) then Failed else Claimed
      else match s {
        case CmdQueued => Queued
        case CmdClaimed => Claimed
        case CmdCompleted => Completed
        case CmdCancelled => Cancelled
        case _ => Failed
      }
  }

  function Lookup(commands: map<string, Command>, command: Option<string>): Option<Command> {
    if command.Some? && command.value in commands then Some(commands[command.value]) else None
  }

  function RefreshItem(op: Operation, now: int, commands: map<string, Command>, item: Item): Item {
    if InFlight(item.status)
    then item.(status := Observe(op.payload.kind, op.status, op.deadline, now, Lookup(commands, item.command)))
    else item
  }

  function Refresh(op: Operation, now: int, commands: map<string, Command>, items: seq<Item>): seq<Item> {
    seq(|items|, i requires 0 <= i < |items| => RefreshItem(op, now, commands, items[i]))
  }

  predicate NewFailure(before: seq<Item>, after: seq<Item>)
    requires |before| == |after|
  {
    exists i :: 0 <= i < |before| && InFlight(before[i].status) && after[i].status == Failed
  }

  predicate CanaryDecided(items: seq<Item>) {
    exists i :: 0 <= i < |items| && items[i].command.Some? && !InFlight(items[i].status)
  }

  /** The tables while pending items are being turned into commands. */
  datatype Pass = Pass(items: seq<Item>, status: OperationStatus, commands: map<string, Command>, issued: seq<Issued>)

  datatype Dispatched = Fault | Stop(pass: Pass) | Continue(pass: Pass)

  /** The expiry that signing at `signedAt` gives a command whose time to live, taken at `askedAt`, ends at the deadline. */
  function ExpiryOf(askedAt: int, signedAt: int, deadline: int): int {
    var t := signedAt - signedAt % MICROSECOND + (deadline - askedAt);
    t - t % MICROSECOND
  }

  function FailItem(op: Operation, p: Pass, i: nat): Dispatched
    requires i < |p.items|
  {
    var failed := p.(items := p.items[i := p.items[i].(status := Failed)]);
    if op.payload.stop then Stop(failed.(status := Paused)) else Continue(failed)
  }

  function DispatchOne(id: string, op: Operation, targets: string -> Target, i: nat, p: Pass): Dispatched
    requires i < |p.items|
  {
    var item := p.items[i];
    var target := targets(item.device);
    if target.access == AccessFault then Fault
    else if target.access == Denied then FailItem(op, p, i)
    else if op.payload.kind == "agent_update" && target.update == UpdateFault then Fault
    else if op.payload.kind == "agent_update" && target.update == AlreadyCurrent then
      Continue(p.(items := p.items[i := item.(status := Completed)]))
    else if op.payload.kind == "agent_update" && target.update == PlatformChanged then FailItem(op, p, i)
    else if op.payload.kind == "system_backup_create" && target.backupBusy then Continue(p)
    else if target.signed.None? || target.signed.value in p.commands || Issues(p.issued, target.signed.value) then Fault
    else
      var c := target.signed.value;
      var row := Command(item.device, CmdQueued, None, false, None, Some(ExpiryOf(target.askedAt, target.signedAt, op.deadline)));
      Continue(p.(
        items := p.items[i := item.(status := Queued, command := Some(c))],
        commands := p.commands[c := row],
        issued := p.issued + [Issued(id, item.device, c, target.askedAt, target.signedAt)]))
  }

  function Dispatch(id: string, op: Operation, targets: string -> Target, limit: int, i: nat, p: Pass): Option<Pass>
    requires i <= |p.items|
    decreases |p.items| - i
  {
    if i == |p.items| then Some(p)
    else if p.items[i].status != Pending || CountIn(p.items, IN_FLIGHT) >= limit then
      Dispatch(id, op, targets, limit, i + 1, p)
    else
      match DispatchOne(id, op, targets, i, p)
      case Fault => None
      case Stop(q) => Some(q)
      case Continue(q) => Dispatch(id, op, targets, limit, i + 1, q)
  }

  function Conclude(items: seq<Item>, status: OperationStatus): OperationStatus {
    if CountIn(items, {Pending}) == 0 && CountIn(items, IN_FLIGHT) == 0 then
      Ended(if status == Cancelling then VCancelled else if CountIn(items, {Failed}) > 0 then VFailed else VCompleted)
    else status
  }

  /** The operation after its rows were refreshed, before anything is dispatched. */
  function Observed(op: Operation, commands: map<string, Command>, now: int): Operation
  {
    var open := CloseWindow(op.items, op.deadline, now);
    var items := Refresh(op, now, commands, open);
    var s := if NewFailure(open, items) && op.payload.stop && op.status == Running then Paused else op.status;
    var decided := op.canaryPending && CanaryDecided(items);
    var s := if decided && s == Running then Paused else s;
    op.(items := items, status := s, canaryPending := op.canaryPending && !decided)
  }

  function Limit(op: Operation): int {
    if op.canaryPending then 1 else op.payload.parallelism
  }

  /** The rows after refreshing and dispatching, before a verdict; `None` when a query fails. */
  function RunPass(db: Db, id: string, now: int, targets: string -> Target): Option<Pass>
    requires id in db.ops
  {
    var op := db.ops[id];
    var commands := ExpireOwned(db.commands, op.items, now);
    var seen := Observed(op, commands, now);
    var start := Pass(seen.items, seen.status, commands, db.issued);
    if seen.status == Running then Dispatch(id, seen, targets, Limit(seen), 0, start) else Some(start)
  }

  function Advanced(db: Db, id: string, now: int, p: Pass): Operation
    requires id in db.ops
  {
    var op := db.ops[id];
    Observed(op, ExpireOwned(db.commands, op.items, now), now).(items := p.items, status := Conclude(p.items, p.status))
  }

  /** One scheduler transaction; `None` when it fails and is rolled back. */
  function AdvanceTx(db: Db, id: string, now: int, targets: string -> Target): Option<Db> {
    if id !in db.ops then None
    else if !Active(db.ops[id].status) then Some(db)
    else
      var pass := RunPass(db, id, now, targets);
      if pass.None? then None
      else
        var p := pass.value;
        Some(db.(ops := db.ops[id := Advanced(db, id, now, p)], commands := p.commands, issued := p.issued))
  }

  // ---------- Manual actions ----------

  function CancelPending(items: seq<Item>): seq<Item> {
    seq(|items|, i requires 0 <= i < |items| =>
      if items[i].status == Pending then items[i].(status := Cancelled) else items[i])
  }

  function CancelTx(db: Db, user: string, id: string): Option<Db> {
    if id !in db.ops || db.ops[id].user != user then None
    else if !Active(db.ops[id].status) then Some(db)
    else
      var op := db.ops[id];
      Some(db.(
        ops := db.ops[id := op.(status := Cancelling, items := CancelPending(op.items))],
        commands := map c | c in db.commands ::
          if db.commands[c].status == CmdQueued && Owns(op.items, c)
          then db.commands[c].(status := CmdCancelled) else db.commands[c]))
  }

  function ResumeTx(db: Db, user: string, id: string, allowed: bool): Option<Db> {
    if id !in db.ops || db.ops[id].user != user || !allowed || db.ops[id].status != Paused then None
    else Some(db.(ops := db.ops[id := db.ops[id].(status := Running)]))
  }

  // ---------- Creating an operation ----------

  datatype Input = Input(
    key: string,
    title: string,
    devices: seq<string>,
    kind: string,
    args: string,
    deviceArgs: map<string, string>,
    parallelism: int,
    canary: bool,
    deadline: Option<DeadlineText>,
    stop: bool)

  /** What the rest of the system answers while an operation is created. */
  datatype CreateEnv = CreateEnv(now: int, argumentsValid: bool, principal: Admission, devices: string -> Admission, freshId: Option<string>)

  datatype Admission = Admit | RefuseAccess | RefuseFeature | AdmissionFault

  /** The devices are asked one by one, each for access and then for the feature; the first refusal stands. */
  function AdmissionOf(ids: seq<string>, devices: string -> Admission): Admission {
    if ids == [] then Admit
    else if devices(ids[0]) != Admit then devices(ids[0])
    else AdmissionOf(ids[1..], devices)
  }

  function Admissible(input: Input, env: CreateEnv): Admission {
    if env.principal != Admit then env.principal else AdmissionOf(SortUnique(input.devices), env.devices)
  }

  predicate DeadlineRefused(d: Option<DeadlineText>, now: int) {
    d.Some? && (d.value.Unreadable? || !(now < d.value.at <= now + DAY))
  }

  datatype CreateError =
    | NotAvailable | InvalidLimits | InvalidArguments | NoAccess | NoFeature
    | Conflict | TooManyActive | InvalidDeadline | StoreFault

  datatype CreateResult = Created(db: Db, id: string) | Existing(id: string) | Rejected(error: CreateError)

  predicate FleetCommandAllowed(kind: string) {
    TrimSpace(kind) in {"ping", "traceroute", "route_show", "interfaces_show", "pkg_list_installed",
      "system_backup_create", "diagnostic_report", "uci_profile_preview", "uci_profile_apply",
      "uci_profile_rollback", "agent_update"}
  }

  function ArgsLimit(kind: string): int {
    if kind == "agent_update" then 262144 else 16384
  }

  predicate WithinLimits(input: Input) {
    && 1 <= input.parallelism <= 20
    && 1 <= |input.devices| <= 100
    && |input.title| <= 160
    && 8 <= |input.key| <= 128
    && |input.args| <= ArgsLimit(input.kind)
  }

  function ArgsFor(input: Input, device: string): string {
    if device in input.deviceArgs then input.deviceArgs[device] else input.args
  }

  function PayloadOf(input: Input): Payload {
    Payload(input.title, input.kind, input.deadline, input.parallelism, input.stop, input.canary,
      map d | d in input.devices :: ArgsFor(input, d))
  }

  function Devices(items: seq<Item>): seq<string> {
    seq(|items|, i requires 0 <= i < |items| => items[i].device)
  }

  /** Replaying a request key: the same payload, spelt the same way, on the same rows. */
  predicate Replays(op: Operation, input: Input) {
    && op.payload == PayloadOf(input)
    && Canonical(input.deadline) && (input.deadline.Some? ==> op.deadline == input.deadline.value.at)
    && op.args == input.args
    && Devices(op.items) == SortUnique(input.devices)
  }

  function ActiveOf(db: Db, user: string): set<string> {
    set id | id in db.ops && db.ops[id].user == user && Active(db.ops[id].status)
  }

  function DeadlineFor(input: Input, now: int): int {
    if input.deadline.Some? && input.deadline.value.DeadlineText? then input.deadline.value.at else now + DAY
  }

  function NewOperation(user: string, input: Input, now: int): Operation {
    var ids := SortUnique(input.devices);
    Operation(user, input.key, PayloadOf(input), input.args, DeadlineFor(input, now), Running, input.canary,
      seq(|ids|, i requires 0 <= i < |ids| => Item(ids[i], None, Pending)))
  }

  /** `runValid` is the extra check made for a scheduled run; it is true for any other request. */
  function CreateTx(db: Db, user: string, input: Input, runValid: bool, env: CreateEnv): CreateResult {
    if !FleetCommandAllowed(input.kind) then Rejected(NotAvailable)
    else if !WithinLimits(input) then Rejected(InvalidLimits)
    else if !env.argumentsValid then Rejected(InvalidArguments)
    else if !runValid || Admissible(input, env) == RefuseAccess then Rejected(NoAccess)
    else if Admissible(input, env) == RefuseFeature then Rejected(NoFeature)
    else if Admissible(input, env) == AdmissionFault then Rejected(StoreFault)
    else if (user, input.key) in db.requests then
      var id := db.requests[(user, input.key)];
      if id in db.ops && Replays(db.ops[id], input) then Existing(id) else Rejected(Conflict)
    else if |ActiveOf(db, user)| >= ACTIVE_LIMIT then Rejected(TooManyActive)
    else if env.freshId.None? then Rejected(StoreFault)
    else if DeadlineRefused(input.deadline, env.now) then Rejected(InvalidDeadline)
    else if env.freshId.value in db.ops then Rejected(StoreFault)
    else if exists d :: d in input.devices && |ArgsFor(input, d)| > 16384 then Rejected(InvalidArguments)
    else
      var id := env.freshId.value;
      Created(db.(
        ops := db.ops[id := NewOperation(user, input, env.now)],
        requests := db.requests[(user, input.key) := id]), id)
  }
}
