/**
 Maintenance schedules: a calendar slot is reserved as a run in one transaction, and
 a worker later turns the run into a fleet operation and acknowledges it in two more.
 Workers may crash, race with each other, and race with edits of the schedule.
 */
module FleetSchedules {
  import opened Text
  import opened Units
  import opened FleetOperations
  import opened FleetCalendar

  datatype Definition = Definition(
    title: string,
    template: Input,
    zone: string,
    weekdays: seq<int>,
    minute: int,
    window: int,
    enabled: bool)

  datatype Schedule = Schedule(user: string, def: Definition, next: int)

  datatype RunStatus = RunPending | RunMissed | RunQueued | RunFailed | RunCancelled

  /** A reserved slot with its frozen request; `operation` is empty until acknowledged. */
  datatype Run = Run(schedule: string, slot: int, deadline: int, input: Input, status: RunStatus, operation: string)

  /** A worker's local state: it read a pending run, then it may hold the outcome of starting it. */
  datatype Claim =
    | Picked(run: string, user: string, input: Input, deadline: int)
    | Finished(run: string, status: RunStatus, operation: string)

  /** `clock` is the time of the latest reservation. */
  datatype World = World(
    fleet: Db,
    schedules: map<string, Schedule>,
    runs: map<string, Run>,
    claims: map<nat, Claim>,
    clock: int)

  /** The time zone database, asked for one zone and one minute of the day. */
  type Zones = (string, int) -> Option<Calendar>

  function RunKey(run: string): string { "schedule:" + run }

  // ---------- Saving a schedule ----------

  predicate ValidDefinition(def: Definition) {
    && 1 <= |def.title| <= 160
    && 1 <= def.window <= 1440
    && FleetCommandAllowed(def.template.kind)
    && 1 <= |def.template.devices| <= 100
    && 1 <= def.template.parallelism <= 20
    && |def.template.args| <= ArgsLimit(def.template.kind)
  }

  function Owned(w: World, user: string): set<string> {
    set id | id in w.schedules && w.schedules[id].user == user
  }

  /** Editing cancels the reservations made from the old definition. */
  function CancelRuns(runs: map<string, Run>, schedule: string): map<string, Run> {
    map r | r in runs ::
      if runs[r].schedule == schedule && runs[r].status == RunPending then runs[r].(status := RunCancelled) else runs[r]
  }

  /** A new schedule under a drawn identifier, one under an identifier derived from the owner's request
      key, or an edit of a known one. */
  datatype SaveMode = NewId | NewRequest | Edit

  /** The definition as it is stored: the template loses its own key, deadline and title. */
  function Stored(def: Definition): Definition {
    def.(template := def.template.(key := "", deadline := None, title := def.title))
  }

  /** What may stand in the way of writing schedule `id`. */
  predicate MayWrite(w: World, user: string, id: string, mode: SaveMode) {
    if mode == Edit then id in w.schedules && w.schedules[id].user == user
    else id !in w.schedules && |Owned(w, user)| < 100
  }

  /** A save at time `now`, which it read before its transaction began. `None` when it is refused; a
      repeated creation request with the same definition leaves everything as it is. */
  function SaveTx(w: World, zones: Zones, user: string, id: string, def: Definition, mode: SaveMode, now: int, access: Access): Option<World> {
    var next := NextSlot(now, zones(def.zone, def.minute), def.weekdays, def.minute);
    if !ValidDefinition(def) || next.None? || access != Access.Allowed then None
    else if mode == NewRequest && id in w.schedules && w.schedules[id].user == user then
      if w.schedules[id].def == Stored(def) then Some(w) else None
    else if !MayWrite(w, user, id, mode) then None
    else
      Some(w.(
        schedules := w.schedules[id := Schedule(user, Stored(def), next.value)],
        runs := CancelRuns(w.runs, id)))
  }

  // ---------- Reserving due slots ----------

  predicate SlotTaken(runs: map<string, Run>, schedule: string, slot: int) {
    exists r :: r in runs && runs[r].schedule == schedule && runs[r].slot == slot
  }

  function Freeze(s: Schedule, run: string, deadline: int): Input {
    s.def.template.(key := RunKey(run), deadline := Some(DeadlineText(deadline, true)))
  }

  /** Insert one run and move the schedule on; `None` when a unique index refuses or no slot is found. */
  function ReserveOne(w: World, zones: Zones, now: int, id: string, run: string): Option<World>
    requires id in w.schedules
  {
    var s := w.schedules[id];
    var next := NextSlot(now, zones(s.def.zone, s.def.minute), s.def.weekdays, s.def.minute);
    if next.None? || run in w.runs || SlotTaken(w.runs, id, s.next) then None
    else
      var deadline := s.next + s.def.window * MINUTE;
      var status := if deadline <= now then RunMissed else RunPending;
      Some(w.(
        runs := w.runs[run := Run(id, s.next, deadline, Freeze(s, run, deadline), status, "")],
        schedules := w.schedules[id := s.(next := next.value)]))
  }

  /** The transaction over all due schedules; any failure rolls all of it back. */
  function ReserveTx(w: World, zones: Zones, now: int, due: seq<string>, ids: seq<string>): Option<World>
    requires |due| == |ids| && forall i :: 0 <= i < |due| ==> due[i] in w.schedules
    decreases |due|
  {
    if due == [] then Some(w)
    else
      var one := ReserveOne(w, zones, now, due[0], ids[0]);
      if one.None? then None else ReserveTx(one.value, zones, now, due[1..], ids[1..])
  }

  // ---------- Starting and acknowledging a run ----------

  predicate RunValid(w: World, run: string, user: string) {
    && run in w.runs && w.runs[run].status == RunPending
    && w.runs[run].schedule in w.schedules
    && w.schedules[w.runs[run].schedule].def.enabled
    && w.schedules[w.runs[run].schedule].user == user
  }

  /** A worker's next state once it knows the result of creating the operation; a transient
      database failure (`retry`) drops the claim without consuming the run. */
  function Receive(w: World, claim: nat, run: string, result: CreateResult, retry: bool): (r: World)
    ensures r.runs == w.runs && r.claims.Keys <= w.claims.Keys + {claim}
    ensures claim in r.claims ==> r.claims[claim].Finished? && r.claims[claim].run == run
  {
    match result
    case Created(db, id) => w.(fleet := db, claims := w.claims[claim := Finished(run, RunQueued, id)])
    case Existing(id) => w.(claims := w.claims[claim := Finished(run, RunQueued, id)])
    case Rejected(error) =>
      if error == StoreFault && retry then w.(claims := w.claims - {claim})
      else w.(claims := w.claims[claim := Finished(run, RunFailed, "")])
  }

  function StartTx(w: World, claim: nat, env: CreateEnv, retry: bool): World
    requires claim in w.claims && w.claims[claim].Picked?
  {
    var c := w.claims[claim];
    if c.deadline <= env.now then w.(claims := w.claims[claim := Finished(c.run, RunMissed, "")])
    else Receive(w, claim, c.run, CreateTx(w.fleet, c.user, c.input, RunValid(w, c.run, c.user), env), retry)
  }

  function AckTx(w: World, claim: nat): World
    requires claim in w.claims && w.claims[claim].Finished? && w.claims[claim].run in w.runs
  {
    var c := w.claims[claim];
    var run := w.runs[c.run];
    var runs := if run.status == RunPending then w.runs[c.run := run.(status := c.status, operation := c.operation)] else w.runs;
    w.(runs := runs, claims := w.claims - {claim})
  }
}
