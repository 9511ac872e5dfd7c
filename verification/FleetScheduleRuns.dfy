/** Whole runs of the schedule protocol, with crashes, racing workers and edits, in any order. */
module FleetScheduleRuns {
  import opened Text
  import opened Units
  import opened FleetOperations
  import opened FleetCalendar
  import opened FleetSchedules
  import opened FleetOperationSafety
  import F = FleetOperationRuns
  import T = FleetOperationTheorems

  datatype Step =
    | Save(user: string, id: string, def: Definition, mode: SaveMode, now: int, access: Access)
    | Reserve(now: int, due: seq<string>, ids: seq<string>)
    | Pick(claim: nat, run: string)
    | Start(claim: nat, env: CreateEnv, retry: bool)
    | Ack(claim: nat)
    | Crash(claim: nat)
    | Fleet(step: F.Step)

  /** What the query for due schedules returns: distinct, enabled, at or past their slot. */
  ghost predicate DueOk(w: World, now: int, due: seq<string>) {
    && (forall i :: 0 <= i < |due| ==> due[i] in w.schedules && w.schedules[due[i]].def.enabled && w.schedules[due[i]].next <= now)
    && (forall i, j :: 0 <= i < j < |due| ==> due[i] != due[j])
  }

  ghost predicate Possible(w: World, step: Step) {
    match step
    case Save(_, _, _, _, _, _) => true
    case Reserve(now, due, ids) => |due| == |ids| && DueOk(w, now, due)
    case Pick(_, run) =>
      run in w.runs && w.runs[run].status == RunPending && w.runs[run].schedule in w.schedules && w.schedules[w.runs[run].schedule].def.enabled
    case Start(claim, _, _) => claim in w.claims && w.claims[claim].Picked?
    case Ack(claim) => claim in w.claims && w.claims[claim].Finished? && w.claims[claim].run in w.runs
    case Crash(_) => true
    case Fleet(f) => F.Possible(w.fleet, f)
  }

  function Settle(w: World, r: Option<World>): World { if r.Some? then r.value else w }

  ghost function Apply(w: World, zones: Zones, step: Step): World
    requires Possible(w, step)
  {
    match step
    case Save(user, id, def, mode, now, access) =>
      Settle(w, SaveTx(w, zones, user, id, def, mode, now, access))
    case Reserve(now, due, ids) => Settle(w, ReserveTx(w, zones, now, due, ids)).(clock := Max(w.clock, now))
    case Pick(claim, run) =>
      var r := w.runs[run];
      w.(claims := w.claims[claim := Picked(run, w.schedules[r.schedule].user, r.input, r.deadline)])
    case Start(claim, env, retry) => StartTx(w, claim, env, retry)
    case Ack(claim) => AckTx(w, claim)
    case Crash(claim) => w.(claims := w.claims - {claim})
    case Fleet(f) => w.(fleet := F.Apply(w.fleet, f))
  }

  const EMPTY: World := World(F.EMPTY, map[], map[], map[], 0)

  ghost predicate IsRun(states: seq<World>, zones: Zones, steps: seq<Step>) {
    && |states| == |steps| + 1
    && states[0] == EMPTY
    && forall k :: 0 <= k < |steps| ==> Possible(states[k], steps[k]) && states[k + 1] == Apply(states[k], zones, steps[k])
  }

  // ---------- The invariant ----------

  /** Operation `op` belongs to the owner of the run's schedule and carries the run's request key. */
  ghost predicate Names(w: World, run: string, op: string) {
    && run in w.runs && w.runs[run].schedule in w.schedules
    && op in w.fleet.ops
    && w.fleet.ops[op].user == w.schedules[w.runs[run].schedule].user
    && w.fleet.ops[op].key == RunKey(run)
  }

  ghost predicate RunOk(w: World, r: string)
    requires r in w.runs
  {
    var run := w.runs[r];
    && run.schedule in w.schedules
    && run.input.key == RunKey(r)
    && run.input.deadline == Some(DeadlineText(run.deadline, true))
    && (run.status == RunQueued ==> Names(w, r, run.operation))
  }

  ghost predicate ClaimOk(w: World, claim: Claim) {
    && claim.run in w.runs
    && match claim
       case Picked(r, user, input, deadline) =>
         && w.runs[r].schedule in w.schedules && user == w.schedules[w.runs[r].schedule].user
         && input == w.runs[r].input && deadline == w.runs[r].deadline
       case Finished(r, status, op) =>
         status != RunPending && (status == RunQueued ==> Names(w, r, op))
  }

  ghost predicate WorldOk(w: World) {
    && F.DbOk(w.fleet)
    && (forall r :: r in w.runs ==> RunOk(w, r))
    && (forall c :: c in w.claims ==> ClaimOk(w, w.claims[c]))
  }

  /** What every step keeps: owners, frozen runs, and any run that is no longer pending. */
  ghost predicate Stable(w: World, w': World) {
    && (forall s :: s in w.schedules ==> s in w'.schedules && w'.schedules[s].user == w.schedules[s].user)
    && (forall r :: r in w.runs ==> r in w'.runs && SameRun(w.runs[r], w'.runs[r]))
    && SameRequests(w.fleet, w'.fleet)
  }

  /** Operations are never deleted and never change owner or request key. */
  ghost predicate SameRequests(db: Db, db': Db) {
    forall id :: id in db.ops ==>
      (id in db'.ops && db'.ops[id].user == db.ops[id].user && db'.ops[id].key == db.ops[id].key)
  }

  ghost predicate SameRun(a: Run, b: Run) {
    && a == b.(status := a.status, operation := a.operation)
    && (a.status != RunPending ==> a == b)
  }

  lemma StableKeepsNames(w: World, w': World, run: string, op: string)
    requires Stable(w, w') && Names(w, run, op)
    ensures Names(w', run, op)
  {
  }

  lemma StableKeepsClaim(w: World, w': World, claim: Claim)
    requires Stable(w, w') && ClaimOk(w, claim)
    ensures ClaimOk(w', claim)
  {
  }

  lemma FleetIsStable(db: Db, f: F.Step)
    requires F.DbOk(db) && F.Possible(db, f)
    ensures F.DbOk(F.Apply(db, f))
    ensures SameRequests(db, F.Apply(db, f))
  {
    F.StepKeeps(db, f);
    forall id | id in db.ops
      ensures id in F.Apply(db, f).ops && F.Apply(db, f).ops[id].user == db.ops[id].user && F.Apply(db, f).ops[id].key == db.ops[id].key
    {
      T.StepEvolves(db, f, id);
    }
  }

  lemma SaveKeeps(w: World, zones: Zones, user: string, id: string, def: Definition, mode: SaveMode, now: int, access: Access)
    requires WorldOk(w)
    ensures var w' := Settle(w, SaveTx(w, zones, user, id, def, mode, now, access)); WorldOk(w') && Stable(w, w')
  {
    hide NextSlot, ValidDefinition, F.DbOk, RunOk, ClaimOk, Owned;
    var w' := Settle(w, SaveTx(w, zones, user, id, def, mode, now, access));
    assert Stable(w, w');
    KeepsIfStable(w, w');
  }

  /** A stable step that adds neither runs nor claims keeps the invariant. */
  lemma KeepsIfStable(w: World, w': World)
    requires WorldOk(w) && Stable(w, w') && F.DbOk(w'.fleet)
    requires w'.runs.Keys == w.runs.Keys
    requires forall r :: r in w.runs && w.runs[r].status == RunPending ==> w'.runs[r].status != RunQueued
    requires forall c :: c in w'.claims ==> c in w.claims && w'.claims[c] == w.claims[c]
    ensures WorldOk(w')
  {
    forall r | r in w'.runs ensures RunOk(w', r) {
      assert RunOk(w, r) && SameRun(w.runs[r], w'.runs[r]);
      if w'.runs[r].status == RunQueued { StableKeepsNames(w, w', r, w.runs[r].operation); }
    }
    forall c | c in w'.claims ensures ClaimOk(w', w'.claims[c]) {
      StableKeepsClaim(w, w', w.claims[c]);
    }
  }

  lemma ReserveOneKeeps(w: World, zones: Zones, now: int, id: string, run: string)
    requires WorldOk(w) && id in w.schedules
    ensures var r := ReserveOne(w, zones, now, id, run);
      r.Some? ==>
        && WorldOk(r.value) && Stable(w, r.value) && r.value.schedules.Keys == w.schedules.Keys
        && (forall s :: s in w.schedules && s != id ==> r.value.schedules[s] == w.schedules[s])
  {
    var r := ReserveOne(w, zones, now, id, run);
    if r.Some? {
      var w' := r.value;
      assert Stable(w, w');
      forall x | x in w'.runs ensures RunOk(w', x) {
        if x != run {
          assert RunOk(w, x);
          if w'.runs[x].status == RunQueued { StableKeepsNames(w, w', x, w.runs[x].operation); }
        }
      }
      forall c | c in w'.claims ensures ClaimOk(w', w'.claims[c]) {
        StableKeepsClaim(w, w', w.claims[c]);
      }
    }
  }

  lemma StableSelf(w: World)
    ensures Stable(w, w)
  {
  }

  lemma StableComposes(a: World, b: World, c: World)
    requires Stable(a, b) && Stable(b, c)
    ensures Stable(a, c)
  {
    forall r | r in a.runs ensures r in c.runs && SameRun(a.runs[r], c.runs[r]) {
      assert SameRun(a.runs[r], b.runs[r]) && SameRun(b.runs[r], c.runs[r]);
    }
  }

  lemma {:induction false} ReserveKeeps(w: World, zones: Zones, now: int, due: seq<string>, ids: seq<string>)
    requires WorldOk(w) && |due| == |ids| && forall i :: 0 <= i < |due| ==> due[i] in w.schedules
    ensures var r := ReserveTx(w, zones, now, due, ids); r.Some? ==> WorldOk(r.value) && Stable(w, r.value)
    decreases |due|
  {
    if due != [] {
      ReserveOneKeeps(w, zones, now, due[0], ids[0]);
      var one := ReserveOne(w, zones, now, due[0], ids[0]);
      if one.Some? {
        ReserveKeeps(one.value, zones, now, due[1..], ids[1..]);
        var r := ReserveTx(one.value, zones, now, due[1..], ids[1..]);
        if r.Some? { StableComposes(w, one.value, r.value); }
      }
    }
  }

  /** A stable step that leaves the runs alone and writes one sound claim keeps the invariant. */
  lemma KeepsWithClaim(w: World, w': World, claim: nat)
    requires WorldOk(w) && Stable(w, w') && F.DbOk(w'.fleet) && w'.runs == w.runs
    requires forall c :: c in w'.claims && c != claim ==> c in w.claims && w'.claims[c] == w.claims[c]
    requires claim in w'.claims ==> ClaimOk(w', w'.claims[claim])
    ensures WorldOk(w')
  {
    forall r | r in w'.runs ensures RunOk(w', r) {
      assert RunOk(w, r);
      if w.runs[r].status == RunQueued { StableKeepsNames(w, w', r, w.runs[r].operation); }
    }
    forall c | c in w'.claims ensures ClaimOk(w', w'.claims[c]) {
      if c != claim { StableKeepsClaim(w, w', w.claims[c]); }
    }
  }

  /** The result of a creation belongs to the given user and key. */
  ghost predicate ResultNames(db: Db, user: string, key: string, result: CreateResult) {
    && (result.Created? ==>
          SameRequests(db, result.db) && result.id in result.db.ops
          && result.db.ops[result.id].user == user && result.db.ops[result.id].key == key)
    && (result.Existing? ==> result.id in db.ops && db.ops[result.id].user == user && db.ops[result.id].key == key)
  }

  lemma NewOperationNames(user: string, input: Input, now: int)
    ensures NewOperation(user, input, now).user == user && NewOperation(user, input, now).key == input.key
  {
  }

  lemma CreateNames(db: Db, user: string, input: Input, runValid: bool, env: CreateEnv)
    requires F.IndexOk(db)
    ensures ResultNames(db, user, input.key, CreateTx(db, user, input, runValid, env))
  {
    NewOperationNames(user, input, env.now);
    hide FleetCommandAllowed, WithinLimits, NewOperation, ActiveOf, Replays;
  }

  lemma FleetIsOk(w: World)
    requires WorldOk(w)
    ensures F.DbOk(w.fleet) && F.IndexOk(w.fleet)
  {
  }

  lemma ReceiveKeeps(w: World, claim: nat, c: Claim, result: CreateResult, retry: bool)
    requires WorldOk(w) && c.Picked? && ClaimOk(w, c) && c.input.key == RunKey(c.run)
    requires ResultNames(w.fleet, c.user, c.input.key, result) && (result.Created? ==> F.DbOk(result.db))
    ensures WorldOk(Receive(w, claim, c.run, result, retry)) && Stable(w, Receive(w, claim, c.run, result, retry))
  {
    hide F.DbOk, WorldOk, SameRun;
    FleetIsOk(w);
    assert forall r :: r in w.runs ==> SameRun(w.runs[r], w.runs[r]) by { StableSelf(w); }
    KeepsWithClaim(w, Receive(w, claim, c.run, result, retry), claim);
  }

  lemma StartKeeps(w: World, claim: nat, env: CreateEnv, retry: bool)
    requires WorldOk(w) && claim in w.claims && w.claims[claim].Picked?
    ensures WorldOk(StartTx(w, claim, env, retry)) && Stable(w, StartTx(w, claim, env, retry))
  {
    hide F.DbOk, CreateTx, RunValid;
    FleetIsOk(w);
    var c := w.claims[claim];
    assert ClaimOk(w, c) && RunOk(w, c.run);
    if c.deadline <= env.now {
      KeepsWithClaim(w, StartTx(w, claim, env, retry), claim);
    } else {
      var valid := RunValid(w, c.run, c.user);
      CreateNames(w.fleet, c.user, c.input, valid, env);
      F.CreateKeeps(w.fleet, c.user, c.input, valid, env);
      hide WorldOk, RunOk, ClaimOk;
      ReceiveKeeps(w, claim, c, CreateTx(w.fleet, c.user, c.input, valid, env), retry);
    }
  }

  lemma AckKeeps(w: World, claim: nat)
    requires WorldOk(w) && Possible(w, Ack(claim))
    ensures WorldOk(AckTx(w, claim)) && Stable(w, AckTx(w, claim))
  {
    var c, w' := w.claims[claim], AckTx(w, claim);
    assert ClaimOk(w, c);
    assert Stable(w, w');
    forall r | r in w'.runs ensures RunOk(w', r) {
      assert RunOk(w, r);
      if w'.runs[r].status == RunQueued { StableKeepsNames(w, w', r, w'.runs[r].operation); }
    }
    forall x | x in w'.claims ensures ClaimOk(w', w'.claims[x]) {
      StableKeepsClaim(w, w', w.claims[x]);
    }
  }

  lemma PickKeeps(w: World, claim: nat, run: string)
    requires WorldOk(w) && Possible(w, Pick(claim, run))
    ensures var r := w.runs[run];
      var w' := w.(claims := w.claims[claim := Picked(run, w.schedules[r.schedule].user, r.input, r.deadline)]);
      WorldOk(w') && Stable(w, w')
  {
    var r := w.runs[run];
    var w' := w.(claims := w.claims[claim := Picked(run, w.schedules[r.schedule].user, r.input, r.deadline)]);
    assert RunOk(w, run);
    KeepsWithClaim(w, w', claim);
  }

  lemma TickKeeps(w: World, w': World, clock: int)
    requires WorldOk(w') && Stable(w, w')
    ensures WorldOk(w'.(clock := clock)) && Stable(w, w'.(clock := clock))
  {
    KeepsIfStable(w', w'.(clock := clock));
  }

  lemma StepKeeps(w: World, zones: Zones, step: Step)
    requires WorldOk(w) && Possible(w, step)
    ensures WorldOk(Apply(w, zones, step)) && Stable(w, Apply(w, zones, step))
  {
    hide F.DbOk, RunOk, ClaimOk, SaveTx, ReserveTx, StartTx, AckTx, F.Apply;
    match step
    case Save(user, id, def, mode, now, access) =>
      SaveKeeps(w, zones, user, id, def, mode, now, access);
    case Reserve(now, due, ids) =>
      ReserveKeeps(w, zones, now, due, ids);
      assert Stable(w, w);
      TickKeeps(w, Settle(w, ReserveTx(w, zones, now, due, ids)), Max(w.clock, now));
    case Pick(claim, run) => PickKeeps(w, claim, run);
    case Start(claim, env, retry) =>
      StartKeeps(w, claim, env, retry);
    case Ack(claim) => AckKeeps(w, claim);
    case Crash(claim) => KeepsIfStable(w, Apply(w, zones, step));
    case Fleet(f) =>
      FleetIsStable(w.fleet, f);
      KeepsIfStable(w, Apply(w, zones, step));
  }

  lemma EmptyIsOk()
    ensures WorldOk(EMPTY)
  {
    F.RunKeeps([F.EMPTY], [], 0);
  }

  lemma {:induction false} RunKeeps(states: seq<World>, zones: Zones, steps: seq<Step>, k: nat)
    requires IsRun(states, zones, steps) && k < |states|
    ensures WorldOk(states[k])
  {
    if k == 0 {
      EmptyIsOk();
    } else {
      RunKeeps(states, zones, steps, k - 1);
      StepKeeps(states[k - 1], zones, steps[k - 1]);
    }
  }

  lemma {:induction false} RunIsStable(states: seq<World>, zones: Zones, steps: seq<Step>, i: nat, j: nat)
    requires IsRun(states, zones, steps) && i <= j < |states|
    ensures Stable(states[i], states[j])
  {
    hide Apply, WorldOk, Stable, Possible;
    if i == j {
      StableSelf(states[i]);
    } else {
      RunIsStable(states, zones, steps, i, j - 1);
      RunKeeps(states, zones, steps, j - 1);
      StepKeeps(states[j - 1], zones, steps[j - 1]);
      StableComposes(states[i], states[j - 1], states[j]);
    }
  }

  // ---------- One operation per run ----------

  /** Step `k` is a worker starting run `r` and creating operation `id`. */
  ghost predicate StartsRun(states: seq<World>, steps: seq<Step>, k: nat, r: string, id: string)
    requires k < |steps| && k < |states|
  {
    && steps[k].Start? && steps[k].claim in states[k].claims && states[k].claims[steps[k].claim].Picked?
    && var c := states[k].claims[steps[k].claim];
       && c.run == r && steps[k].env.now < c.deadline
       && var result := CreateTx(states[k].fleet, c.user, c.input, RunValid(states[k], r, c.user), steps[k].env);
          result.Created? && result.id == id
  }

  /** Over all interleavings and crashes a schedule run creates at most one operation. */
  lemma OneOperationPerRun(states: seq<World>, zones: Zones, steps: seq<Step>, i: nat, j: nat, r: string, a: string, b: string)
    requires IsRun(states, zones, steps) && i < |steps| && j < |steps|
    requires StartsRun(states, steps, i, r, a) && StartsRun(states, steps, j, r, b)
    ensures i == j && a == b
  {
    if i < j {
      NoSecondStart(states, zones, steps, i, j, r, a, b);
    } else if j < i {
      NoSecondStart(states, zones, steps, j, i, r, b, a);
    }
  }

  lemma StartedNames(states: seq<World>, zones: Zones, steps: seq<Step>, k: nat, r: string, id: string)
    requires IsRun(states, zones, steps) && k < |steps| && StartsRun(states, steps, k, r, id)
    ensures Names(states[k + 1], r, id)
  {
    hide F.DbOk;
    RunKeeps(states, zones, steps, k);
    RunKeeps(states, zones, steps, k + 1);
    assert states[k + 1].claims[steps[k].claim] == Finished(r, RunQueued, id);
    assert ClaimOk(states[k + 1], Finished(r, RunQueued, id));
  }

  lemma PickedKeyIsTaken(w: World, claim: nat, id: string)
    requires WorldOk(w) && claim in w.claims && w.claims[claim].Picked? && Names(w, w.claims[claim].run, id)
    ensures (w.claims[claim].user, w.claims[claim].input.key) in w.fleet.requests
  {
    var c := w.claims[claim];
    assert ClaimOk(w, c) && RunOk(w, c.run) && F.IndexOk(w.fleet);
    hide F.OperationsOk, F.LedgersOk, F.UniqueIssues;
  }

  lemma TakenKeyIsNotCreated(db: Db, user: string, input: Input, runValid: bool, env: CreateEnv)
    requires (user, input.key) in db.requests
    ensures !CreateTx(db, user, input, runValid, env).Created?
  {
    hide FleetCommandAllowed, WithinLimits, Replays;
  }

  /** After a start the request key is taken, so a later start finds the operation instead. */
  lemma NoSecondStart(states: seq<World>, zones: Zones, steps: seq<Step>, i: nat, j: nat, r: string, a: string, b: string)
    requires IsRun(states, zones, steps) && i < j < |steps| && StartsRun(states, steps, i, r, a)
    ensures !StartsRun(states, steps, j, r, b)
  {
    StartedNames(states, zones, steps, i, r, a);
    RunIsStable(states, zones, steps, i + 1, j);
    StableKeepsNames(states[i + 1], states[j], r, a);
    RunKeeps(states, zones, steps, j);
    hide WorldOk, Names, CreateTx, Apply, Possible, RunValid;
    var w, step := states[j], steps[j];
    if step.Start? && step.claim in w.claims && w.claims[step.claim].Picked? && w.claims[step.claim].run == r {
      var c := w.claims[step.claim];
      PickedKeyIsTaken(w, step.claim, a);
      TakenKeyIsNotCreated(w.fleet, c.user, c.input, RunValid(w, r, c.user), step.env);
    }
  }

  /** A run marked queued names an operation of the schedule's owner with the run's request key,
      and that is the only operation with this owner and key. */
  lemma QueuedRunNamesItsOperation(states: seq<World>, zones: Zones, steps: seq<Step>, k: nat, r: string, id: string)
    requires IsRun(states, zones, steps) && k < |states|
    requires r in states[k].runs && states[k].runs[r].status == RunQueued
    ensures Names(states[k], r, states[k].runs[r].operation)
    ensures Names(states[k], r, id) ==> id == states[k].runs[r].operation
  {
    RunKeeps(states, zones, steps, k);
    assert RunOk(states[k], r) && F.IndexOk(states[k].fleet);
  }

  // ---------- Edits ----------

  /** Once a schedule was edited or disabled, no operation starts from a run reserved before. */
  lemma EditedRunNeverStarts(states: seq<World>, zones: Zones, steps: seq<Step>, i: nat, j: nat, r: string, id: string)
    requires IsRun(states, zones, steps) && i < j < |steps|
    requires steps[i].Save? && steps[i].mode == Edit
    requires SaveTx(states[i], zones, steps[i].user, steps[i].id, steps[i].def, Edit, steps[i].now, steps[i].access).Some?
    requires r in states[i].runs && states[i].runs[r].schedule == steps[i].id
    ensures !StartsRun(states, steps, j, r, id)
  {
    assert states[i + 1].runs[r].status != RunPending;
    RunIsStable(states, zones, steps, i + 1, j);
    assert SameRun(states[i + 1].runs[r], states[j].runs[r]);
  }

  // ---------- Surviving a crash ----------

  /** The fleet step that a schedule step performs, if any. */
  ghost function FleetPart(w: World, step: Step): Option<F.Step>
    requires Possible(w, step)
  {
    match step
    case Fleet(f) => Some(f)
    case Start(claim, env, _) =>
      var c := w.claims[claim];
      if c.deadline <= env.now then None else Some(F.Create(c.user, c.input, RunValid(w, c.run, c.user), env))
    case _ => None
  }

  lemma FleetPartIsExact(w: World, zones: Zones, step: Step)
    requires Possible(w, step)
    ensures var f := FleetPart(w, step);
      Apply(w, zones, step).fleet == if f.Some? then F.Apply(w.fleet, f.value) else w.fleet
  {
    hide CreateTx, NextSlot, ValidDefinition, Owned, RunValid;
    if step.Reserve? { ReserveKeepsFleet(w, zones, step.now, step.due, step.ids); }
  }

  lemma {:induction false} ReserveKeepsFleet(w: World, zones: Zones, now: int, due: seq<string>, ids: seq<string>)
    requires |due| == |ids| && forall i :: 0 <= i < |due| ==> due[i] in w.schedules
    ensures var r := ReserveTx(w, zones, now, due, ids); r.Some? ==> r.value.fleet == w.fleet
    decreases |due|
  {
    if due != [] {
      var one := ReserveOne(w, zones, now, due[0], ids[0]);
      if one.Some? { ReserveKeepsFleet(one.value, zones, now, due[1..], ids[1..]); }
    }
  }

  /** A step that does not delete a device of the operation keeps it replayable. */
  lemma ReplayableStep(w: World, zones: Zones, step: Step, id: string, input: Input)
    requires WorldOk(w) && Possible(w, step)
    requires id in w.fleet.ops && Replays(w.fleet.ops[id], input)
    requires FleetPart(w, step).Some? ==> T.Keeps(w.fleet.ops[id], FleetPart(w, step).value)
    ensures id in Apply(w, zones, step).fleet.ops && Replays(Apply(w, zones, step).fleet.ops[id], input)
  {
    FleetPartIsExact(w, zones, step);
    var f := FleetPart(w, step);
    if f.Some? {
      assert OperationOk(w.fleet.ops[id]);
      T.StepEvolves(w.fleet, f.value, id);
      T.DevicesStay(w.fleet, f.value, id);
    }
  }

  lemma CreatedIsReplayable(db: Db, user: string, input: Input, runValid: bool, env: CreateEnv)
    requires Canonical(input.deadline)
    ensures var r := CreateTx(db, user, input, runValid, env);
      r.Created? ==> r.id in r.db.ops && Replays(r.db.ops[r.id], input)
  {
    var op := NewOperation(user, input, env.now);
    assert Devices(op.items) == SortUnique(input.devices);
    hide FleetCommandAllowed, WithinLimits, SortUnique, PayloadOf;
  }

  lemma StartIsReplayable(states: seq<World>, zones: Zones, steps: seq<Step>, i: nat, r: string, id: string)
    requires IsRun(states, zones, steps) && i < |steps| && StartsRun(states, steps, i, r, id)
    ensures r in states[i].runs && id in states[i + 1].fleet.ops && Replays(states[i + 1].fleet.ops[id], states[i].runs[r].input)
  {
    RunKeeps(states, zones, steps, i);
    var c := states[i].claims[steps[i].claim];
    assert ClaimOk(states[i], c) && RunOk(states[i], r);
    CreatedIsReplayable(states[i].fleet, c.user, c.input, RunValid(states[i], r, c.user), steps[i].env);
    hide CreateTx, Replays, RunValid, F.DbOk;
  }

  lemma {:induction false} StaysReplayable(states: seq<World>, zones: Zones, steps: seq<Step>, i: nat, j: nat, r: string, id: string)
    requires IsRun(states, zones, steps) && i < j < |states| && StartsRun(states, steps, i, r, id)
    requires forall m :: i < m < j ==> FleetPart(states[m], steps[m]).Some? && id in states[m].fleet.ops ==>
        T.Keeps(states[m].fleet.ops[id], FleetPart(states[m], steps[m]).value)
    ensures r in states[i].runs && id in states[j].fleet.ops && Replays(states[j].fleet.ops[id], states[i].runs[r].input)
  {
    hide Apply, Possible, WorldOk, Replays, StartsRun, T.Keeps;
    if j == i + 1 {
      StartIsReplayable(states, zones, steps, i, r, id);
    } else {
      StaysReplayable(states, zones, steps, i, j - 1, r, id);
      RunKeeps(states, zones, steps, j - 1);
      ReplayableStep(states[j - 1], zones, steps[j - 1], id, states[i].runs[r].input);
    }
  }

  /** A crash between creating the operation and acknowledging the run is safe: whoever starts
      the still pending run again gets the same operation back, not a second one and not a
      conflict, as long as none of its devices was deleted. */
  lemma RestartFindsSameOperation(states: seq<World>, zones: Zones, steps: seq<Step>, i: nat, j: nat, r: string, id: string, user: string, env: CreateEnv)
    requires IsRun(states, zones, steps) && i < j < |states| && StartsRun(states, steps, i, r, id)
    requires forall m :: i < m < j ==> FleetPart(states[m], steps[m]).Some? && id in states[m].fleet.ops ==>
        T.Keeps(states[m].fleet.ops[id], FleetPart(states[m], steps[m]).value)
    requires RunValid(states[j], r, user)
    requires T.Admitted(states[j].runs[r].input, env)
    ensures CreateTx(states[j].fleet, user, states[j].runs[r].input, true, env) == Existing(id)
  {
    StaysReplayable(states, zones, steps, i, j, r, id);
    StartedNames(states, zones, steps, i, r, id);
    RunIsStable(states, zones, steps, i, j);
    RunIsStable(states, zones, steps, i + 1, j);
    StableKeepsNames(states[i + 1], states[j], r, id);
    RunKeeps(states, zones, steps, j);
    assert RunOk(states[j], r) && F.IndexOk(states[j].fleet);
    assert SameRun(states[i].runs[r], states[j].runs[r]);
    ReplayIsFound(states[j].fleet, user, states[j].runs[r].input, env, id);
    hide IsRun, CreateTx, WorldOk, Replays, Stable, StartsRun, FleetPart, T.Keeps;
  }

  lemma ReplayIsFound(db: Db, user: string, input: Input, env: CreateEnv, id: string)
    requires T.Admitted(input, env) && (user, input.key) in db.requests && db.requests[(user, input.key)] == id
    requires id in db.ops && Replays(db.ops[id], input)
    ensures CreateTx(db, user, input, true, env) == Existing(id)
  {
    hide FleetCommandAllowed, WithinLimits, Replays;
  }
}
