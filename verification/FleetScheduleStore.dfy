/** The store that reserves due slots in place: one transaction over all due schedules. */
module FleetScheduleStore {
  import opened Text
  import opened Units
  import opened FleetOperations
  import opened FleetCalendar
  import opened FleetSchedules

  /** One worker that picked a run, starts it and acknowledges it without interruption: the protocol's
      start and acknowledge steps in turn. The flag is false when a transient failure ends the worker. */
  function Work(w: World, c: Claim, env: CreateEnv, retry: bool): (r: (World, bool))
    requires c.Picked? && c.run in w.runs && w.claims == map[]
    ensures r.0.runs.Keys == w.runs.Keys && r.0.claims == map[]
  {
    var started := StartTx(w.(claims := map[0 := c]), 0, env, retry);
    if 0 in started.claims then (AckTx(started, 0), true) else (started, false)
  }

  function WorkAll(w: World, claims: seq<Claim>, envs: seq<CreateEnv>, retries: seq<bool>): (World, bool)
    requires |claims| == |envs| == |retries| && w.claims == map[]
    requires forall i :: 0 <= i < |claims| ==> claims[i].Picked? && claims[i].run in w.runs
    decreases |claims|
  {
    if claims == [] then (w, true)
    else
      var one := Work(w, claims[0], envs[0], retries[0]);
      if one.1 then WorkAll(one.0, claims[1..], envs[1..], retries[1..]) else one
  }

  class ScheduleStore {
    var fleet: Db
    var schedules: map<string, Schedule>
    var runs: map<string, Run>

    ghost function View(): World
      reads this
    {
      World(fleet, schedules, runs, map[], 0)
    }

    constructor ()
      ensures View() == World(Db(map[], map[], map[], []), map[], map[], map[], 0)
    {
      fleet, schedules, runs := Db(map[], map[], map[], []), map[], map[];
    }

    /** `due` is what the query for due schedules returned, `ids` the fresh run identifiers. */
    method Reserve(zones: Zones, now: int, due: seq<string>, ids: seq<string>) returns (ok: bool)
      requires |due| == |ids| && forall i :: 0 <= i < |due| ==> due[i] in schedules
      modifies this
      ensures ok == ReserveTx(old(View()), zones, now, due, ids).Some?
      ensures View() == if ok then ReserveTx(old(View()), zones, now, due, ids).value else old(View())
    {
      hide NextSlot, SlotTaken, Freeze;
      var schedules', runs' := schedules, runs;
      ghost var goal := ReserveTx(View(), zones, now, due, ids);
      for i := 0 to |due|
        invariant View() == old(View())
        invariant forall j :: 0 <= j < |due| ==> due[j] in schedules'
        invariant goal == ReserveTx(World(fleet, schedules', runs', map[], 0), zones, now, due[i..], ids[i..])
      {
        var s := schedules'[due[i]];
        var next := NextFleetSlot(now, zones(s.def.zone, s.def.minute), s.def.weekdays, s.def.minute);
        if next.None? { return false; }
        var deadline := s.next + s.def.window * MINUTE;
        var status := RunPending;
        if deadline <= now { status := RunMissed; }
        if ids[i] in runs' || SlotTaken(runs', due[i], s.next) { return false; }
        assert due[i..][1..] == due[i + 1..] && ids[i..][1..] == ids[i + 1..];
        runs' := runs'[ids[i] := Run(due[i], s.next, deadline, Freeze(s, ids[i], deadline), status, "")];
        schedules' := schedules'[due[i] := s.(next := next.value)];
      }
      schedules, runs := schedules', runs';
      return true;
    }

    /** `pending` is what the query for pending runs of enabled schedules returned; each run is started
        against the tables as they are when its turn comes. */
    method AdvanceRuns(pending: seq<Claim>, envs: seq<CreateEnv>, retries: seq<bool>) returns (ok: bool)
      requires |pending| == |envs| == |retries|
      requires forall i :: 0 <= i < |pending| ==> pending[i].Picked? && pending[i].run in runs
      modifies this
      ensures (View(), ok) == WorkAll(old(View()), pending, envs, retries)
    {
      hide CreateTx, RunValid;
      for i := 0 to |pending|
        invariant forall j :: 0 <= j < |pending| ==> pending[j].run in runs
        invariant WorkAll(old(View()), pending, envs, retries) == WorkAll(View(), pending[i..], envs[i..], retries[i..])
      {
        assert pending[i..][1..] == pending[i + 1..] && envs[i..][1..] == envs[i + 1..] && retries[i..][1..] == retries[i + 1..];
        var done := StartRun(pending[i], envs[i], retries[i]);
        if !done { return false; }
      }
      return true;
    }

    method StartRun(c: Claim, env: CreateEnv, retry: bool) returns (ok: bool)
      requires c.Picked? && c.run in runs
      modifies this
      ensures (View(), ok) == Work(old(View()), c, env, retry)
      ensures runs.Keys == old(runs.Keys)
    {
      hide CreateTx;
      var status, operation := RunQueued, "";
      if c.deadline <= env.now {
        status := RunMissed;
      } else {
        var valid := c.run in runs && runs[c.run].status == RunPending && runs[c.run].schedule in schedules
          && schedules[runs[c.run].schedule].def.enabled && schedules[runs[c.run].schedule].user == c.user;
        var result := CreateTx(fleet, c.user, c.input, valid, env);
        match result {
          case Created(db, id) => fleet, operation := db, id;
          case Existing(id) => operation := id;
          case Rejected(error) =>
            if error == StoreFault && retry { return false; }
            status := RunFailed;
        }
      }
      if runs[c.run].status == RunPending {
        runs := runs[c.run := runs[c.run].(status := status, operation := operation)];
      }
      return true;
    }

    /** Saving a definition writes the schedule and cancels what was reserved from the old one. */
    method Save(zones: Zones, user: string, id: string, def: Definition, mode: SaveMode, now: int, access: Access) returns (ok: bool)
      modifies this
      ensures ok == SaveTx(old(View()), zones, user, id, def, mode, now, access).Some?
      ensures View() == if ok then SaveTx(old(View()), zones, user, id, def, mode, now, access).value else old(View())
    {
      if !ValidDefinition(def) { return false; }
      var next := NextFleetSlot(now, zones(def.zone, def.minute), def.weekdays, def.minute);
      if next.None? || access != Access.Allowed { return false; }
      var stored := def.(template := def.template.(key := "", deadline := None, title := def.title));
      if mode == NewRequest && id in schedules && schedules[id].user == user {
        return schedules[id].def == stored;
      }
      if mode == Edit {
        if id !in schedules || schedules[id].user != user { return false; }
      } else {
        var owned := set s | s in schedules && schedules[s].user == user;
        assert owned == Owned(View(), user);
        if id in schedules || |owned| >= 100 { return false; }
      }
      schedules := schedules[id := Schedule(user, stored, next.value)];
      runs := CancelRuns(runs, id);
      return true;
    }
  }
}
