/** What reserving, saving, starting and acknowledging write, run by run and schedule by schedule. */
module FleetScheduleOutcomes {
  import opened Text
  import opened Units
  import opened FleetOperations
  import opened FleetCalendar
  import opened FleetSchedules
  import opened FleetScheduleRuns
  import opened FleetScheduleSlots
  import opened FleetScheduleStore

  // ---------- Reserving ----------

  /** The run of schedule `s` that is reserved under identifier `x` at time `now`. */
  ghost predicate ReservedAs(s: Schedule, id: string, x: string, now: int, run: Run) {
    && run.schedule == id && run.slot == s.next && run.deadline == s.next + s.def.window * MINUTE && run.operation == ""
    && (run.status == RunMissed <==> s.next + s.def.window * MINUTE <= now)
    && (run.status == RunPending <==> now < s.next + s.def.window * MINUTE)
    && run.input == s.def.template.(key := "schedule:" + x, deadline := Some(DeadlineText(run.deadline, true)))
  }

  /** Every due schedule gets its run and moves on to its next slot, and nothing else changes. */
  ghost predicate ReservesExactly(w: World, w': World, zones: Zones, now: int, due: seq<string>, ids: seq<string>)
    requires |due| == |ids| && forall i :: 0 <= i < |due| ==> due[i] in w.schedules
  {
    LeavesRest(w, w', due, ids) && forall i :: 0 <= i < |due| ==> MovesOn(w, w', zones, now, due[i], ids[i])
  }

  /** Only the due schedules change, and only the given runs are added. */
  ghost predicate LeavesRest(w: World, w': World, due: seq<string>, ids: seq<string>) {
    && w'.fleet == w.fleet && w'.claims == w.claims && w'.clock == w.clock && w'.schedules.Keys == w.schedules.Keys
    && (forall s :: s in w.schedules && s !in due ==> w'.schedules[s] == w.schedules[s])
    && (forall x :: x in w.runs ==> x in w'.runs && w'.runs[x] == w.runs[x])
    && (forall x :: x in w'.runs ==> x in w.runs || x in ids)
  }

  ghost predicate MovesOn(w: World, w': World, zones: Zones, now: int, id: string, x: string)
    requires id in w.schedules
  {
    var s := w.schedules[id];
    && id in w'.schedules && x in w'.runs && x !in w.runs && ReservedAs(s, id, x, now, w'.runs[x])
    && ComputedSlot(zones, s.def, now).Some? && w'.schedules[id] == s.(next := ComputedSlot(zones, s.def, now).value)
  }

  /** The schedule has no next slot, the identifier is taken, or a run of the schedule already holds the slot. */
  ghost predicate CannotReserve(w: World, zones: Zones, now: int, id: string, x: string)
    requires id in w.schedules
  {
    || ComputedSlot(zones, w.schedules[id].def, now).None? || x in w.runs
    || exists y :: y in w.runs && w.runs[y].schedule == id && w.runs[y].slot == w.schedules[id].next
  }

  lemma ReserveOneIsExact(w: World, zones: Zones, now: int, id: string, x: string)
    requires id in w.schedules
    ensures var r := ReserveOne(w, zones, now, id, x);
      && (r.Some? ==> ReservesExactly(w, r.value, zones, now, [id], [x]))
      && (r.None? <==> CannotReserve(w, zones, now, id, x))
  {
    hide NextSlot;
    var r := ReserveOne(w, zones, now, id, x);
    if r.Some? {
      assert ReservedAs(w.schedules[id], id, x, now, r.value.runs[x]);
      assert MovesOn(w, r.value, zones, now, id, x);
    }
  }

  lemma ReservesMore(w: World, v: World, w': World, zones: Zones, now: int, due: seq<string>, ids: seq<string>)
    requires |due| == |ids| && due != [] && DueOk(w, now, due)
    requires ReservesExactly(w, v, zones, now, [due[0]], [ids[0]])
    requires forall i :: 0 <= i < |due[1..]| ==> due[1..][i] in v.schedules
    requires ReservesExactly(v, w', zones, now, due[1..], ids[1..])
    ensures ReservesExactly(w, w', zones, now, due, ids)
  {
    hide MovesOn, LeavesRest;
    assert [due[0]][0] == due[0] && [ids[0]][0] == ids[0];
    assert MovesOn(w, v, zones, now, [due[0]][0], [ids[0]][0]);
    RestMore(w, v, w', due, ids);
    forall i | 0 <= i < |due| ensures MovesOn(w, w', zones, now, due[i], ids[i]) {
      if i == 0 {
        assert due[0] !in due[1..];
        MovesFirst(w, v, w', zones, now, due[0], ids[0], due[1..], ids[1..]);
      } else {
        assert due[1..][i - 1] == due[i] && ids[1..][i - 1] == ids[i] && due[i] != due[0];
        assert MovesOn(v, w', zones, now, due[1..][i - 1], ids[1..][i - 1]);
        MovesLater(w, v, w', zones, now, [due[0]], [ids[0]], due[i], ids[i]);
      }
    }
  }

  lemma RestMore(w: World, v: World, w': World, due: seq<string>, ids: seq<string>)
    requires due != [] && ids != [] && LeavesRest(w, v, [due[0]], [ids[0]]) && LeavesRest(v, w', due[1..], ids[1..])
    ensures LeavesRest(w, w', due, ids)
  {
    assert due == [due[0]] + due[1..] && ids == [ids[0]] + ids[1..];
  }

  lemma MovesFirst(w: World, v: World, w': World, zones: Zones, now: int, id: string, x: string, due: seq<string>, ids: seq<string>)
    requires id in w.schedules && MovesOn(w, v, zones, now, id, x) && LeavesRest(v, w', due, ids) && id !in due
    ensures MovesOn(w, w', zones, now, id, x)
  {
    hide ComputedSlot, ReservedAs;
  }

  lemma MovesLater(w: World, v: World, w': World, zones: Zones, now: int, due: seq<string>, ids: seq<string>, id: string, x: string)
    requires LeavesRest(w, v, due, ids) && id in v.schedules && id !in due && MovesOn(v, w', zones, now, id, x)
    ensures id in w.schedules && MovesOn(w, w', zones, now, id, x)
  {
    hide ComputedSlot, ReservedAs;
  }

  lemma {:induction false} ReserveTxIsExact(w: World, zones: Zones, now: int, due: seq<string>, ids: seq<string>)
    requires |due| == |ids| && DueOk(w, now, due)
    ensures var r := ReserveTx(w, zones, now, due, ids); r.Some? ==> ReservesExactly(w, r.value, zones, now, due, ids)
    decreases |due|
  {
    if due != [] {
      ReserveOneIsExact(w, zones, now, due[0], ids[0]);
      var one := ReserveOne(w, zones, now, due[0], ids[0]);
      if one.Some? {
        hide ReserveOne;
        var v, rest := one.value, due[1..];
        assert forall i :: 0 <= i < |rest| ==> rest[i] == due[i + 1] && rest[i] !in [due[0]] && v.schedules[rest[i]] == w.schedules[rest[i]];
        ReserveTxIsExact(v, zones, now, rest, ids[1..]);
        var r := ReserveTx(v, zones, now, rest, ids[1..]);
        if r.Some? {
          hide ReservesExactly;
          ReservesMore(w, v, r.value, zones, now, due, ids);
        }
      }
    }
  }

  /** In any run a reservation that commits gives each due schedule one run, pending exactly while its window is
      open, with the schedule's template under the run's own key and deadline, and moves the schedule on to
      the next slot of its calendar. */
  lemma ReservationsAreExact(states: seq<World>, zones: Zones, steps: seq<Step>, k: nat)
    requires IsRun(states, zones, steps) && k < |steps| && steps[k].Reserve?
    requires Possible(states[k], steps[k]) && ReserveTx(states[k], zones, steps[k].now, steps[k].due, steps[k].ids).Some?
    ensures ReservesExactly(states[k], states[k + 1].(clock := states[k].clock), zones, steps[k].now, steps[k].due, steps[k].ids)
  {
    ReserveTxIsExact(states[k], zones, steps[k].now, steps[k].due, steps[k].ids);
    assert states[k + 1] == Apply(states[k], zones, steps[k]);
    hide ReserveTx, DueOk;
    var r := ReserveTx(states[k], zones, steps[k].now, steps[k].due, steps[k].ids).value;
    ReservesKeepsClock(states[k], r, zones, steps[k].now, steps[k].due, steps[k].ids);
  }

  lemma ReservesKeepsClock(w: World, w': World, zones: Zones, now: int, due: seq<string>, ids: seq<string>)
    requires |due| == |ids| && forall i :: 0 <= i < |due| ==> due[i] in w.schedules
    requires ReservesExactly(w, w', zones, now, due, ids)
    ensures w'.clock == w.clock
  {
  }

  /** A reservation fails only where a due schedule has no next slot, an identifier is not fresh, or a run
      already holds the slot. */
  lemma {:induction false} ReservationFailsOnly(w: World, zones: Zones, now: int, due: seq<string>, ids: seq<string>) returns (v: World, i: nat)
    requires |due| == |ids| && DueOk(w, now, due) && ReserveTx(w, zones, now, due, ids).None?
    ensures i < |due| && due[i] in v.schedules && v.schedules[due[i]] == w.schedules[due[i]]
    ensures CannotReserve(v, zones, now, due[i], ids[i])
    ensures AddsOnly(w, v, ids)
    decreases |due|
  {
    ReserveOneIsExact(w, zones, now, due[0], ids[0]);
    var one := ReserveOne(w, zones, now, due[0], ids[0]);
    hide ReserveOne, CannotReserve, MovesOn, AddsOnly;
    if one.None? {
      v, i := w, 0;
      AddsNone(w, ids);
    } else {
      var u, rest := one.value, due[1..];
      assert forall j :: 0 <= j < |rest| ==> rest[j] == due[j + 1] && rest[j] !in [due[0]] && u.schedules[rest[j]] == w.schedules[rest[j]];
      AddsMore(w, u, due, ids);
      hide LeavesRest;
      var j;
      v, j := ReservationFailsOnly(u, zones, now, rest, ids[1..]);
      i := j + 1;
      assert rest[j] == due[i] && ids[1..][j] == ids[i];
      AddsBoth(w, u, v, ids);
    }
  }

  /** Runs are kept, and only the given ones are added. */
  ghost predicate AddsOnly(w: World, v: World, ids: seq<string>) {
    forall x :: x in v.runs ==> x in ids || (x in w.runs && v.runs[x] == w.runs[x])
  }

  lemma AddsNone(w: World, ids: seq<string>)
    ensures AddsOnly(w, w, ids)
  {
  }

  lemma AddsMore(w: World, u: World, due: seq<string>, ids: seq<string>)
    requires due != [] && ids != [] && LeavesRest(w, u, [due[0]], [ids[0]])
    ensures AddsOnly(w, u, [ids[0]])
  {
  }

  lemma AddsBoth(w: World, u: World, v: World, ids: seq<string>)
    requires ids != [] && AddsOnly(w, u, [ids[0]]) && AddsOnly(u, v, ids[1..])
    ensures AddsOnly(w, v, ids)
  {
    assert ids == [ids[0]] + ids[1..];
  }

  // ---------- Saving ----------

  /** The limits of a definition. */
  ghost predicate DefinitionFits(def: Definition) {
    && 0 < |def.title| < 161 && 0 < def.window < 1441 && FleetCommandAllowed(def.template.kind)
    && 0 < |def.template.devices| < 101 && 0 < def.template.parallelism < 21
    && |def.template.args| <= (if def.template.kind == "agent_update" then 262144 else 16384)
  }

  ghost predicate IsReplay(w: World, user: string, id: string, mode: SaveMode) {
    mode == NewRequest && id in w.schedules && w.schedules[id].user == user
  }

  /** A save is accepted exactly within the limits, with access and a slot to wait for: an edit of one's own
      schedule, a new one while fewer than a hundred are owned, or a repeated request with the same definition. */
  lemma SaveAcceptsExactly(w: World, zones: Zones, user: string, id: string, def: Definition, mode: SaveMode, now: int, access: Access)
    ensures SaveTx(w, zones, user, id, def, mode, now, access).Some? <==>
      && DefinitionFits(def) && access == Access.Allowed && ComputedSlot(zones, def, now).Some?
      && (if IsReplay(w, user, id, mode) then
            w.schedules[id].def == def.(template := def.template.(key := "", deadline := None, title := def.title))
          else if mode == Edit then id in w.schedules && w.schedules[id].user == user
          else id !in w.schedules && |set s | s in w.schedules && w.schedules[s].user == user| < 100)
  {
    hide NextSlot, FleetCommandAllowed;
    assert Owned(w, user) == set s | s in w.schedules && w.schedules[s].user == user;
  }

  /** A repeated request changes nothing. Any other accepted save stores the definition with its template stripped of
      key, deadline and title, waits for the computed slot, and cancels exactly the schedule's pending runs. */
  lemma SaveIsExact(w: World, zones: Zones, user: string, id: string, def: Definition, mode: SaveMode, now: int, access: Access)
    requires SaveTx(w, zones, user, id, def, mode, now, access).Some?
    ensures var w' := SaveTx(w, zones, user, id, def, mode, now, access).value;
      if IsReplay(w, user, id, mode) then w' == w
      else
        && w'.fleet == w.fleet && w'.claims == w.claims && w'.clock == w.clock
        && w'.schedules.Keys == w.schedules.Keys + {id} && (forall s :: s in w.schedules && s != id ==> w'.schedules[s] == w.schedules[s])
        && w'.schedules[id].user == user && Some(w'.schedules[id].next) == ComputedSlot(zones, def, now)
        && w'.schedules[id].def == def.(template := def.template.(key := "", deadline := None, title := def.title))
        && w'.runs.Keys == w.runs.Keys
        && forall x :: x in w.runs ==>
             w'.runs[x] == if w.runs[x].schedule == id && w.runs[x].status == RunPending then w.runs[x].(status := RunCancelled) else w.runs[x]
  {
    hide NextSlot, FleetCommandAllowed, Owned;
  }

  // ---------- Starting and acknowledging ----------

  /** The run is still pending under an enabled schedule of the user. */
  ghost predicate Startable(w: World, run: string, user: string) {
    && run in w.runs && w.runs[run].status == RunPending && w.runs[run].schedule in w.schedules
    && w.schedules[w.runs[run].schedule].def.enabled && w.schedules[w.runs[run].schedule].user == user
  }

  ghost function StartResult(w: World, c: Claim, env: CreateEnv): CreateResult
    requires c.Picked?
  {
    CreateTx(w.fleet, c.user, c.input, Startable(w, c.run, c.user), env)
  }

  /** A worker that starts a run misses it exactly when its window is over; otherwise it is queued with the operation
      that creation returns, failed when creation is refused, and left for a retry on a transient failure. */
  lemma StartIsExact(w: World, claim: nat, env: CreateEnv, retry: bool)
    requires claim in w.claims && w.claims[claim].Picked?
    ensures var w', c := StartTx(w, claim, env, retry), w.claims[claim];
      var r := StartResult(w, c, env);
      && w'.runs == w.runs && w'.schedules == w.schedules && w'.clock == w.clock
      && (forall o :: o != claim ==> (o in w'.claims <==> o in w.claims) && (o in w.claims ==> w'.claims[o] == w.claims[o]))
      && w'.fleet == (if env.now < c.deadline && r.Created? then r.db else w.fleet)
      && (claim !in w'.claims <==> env.now < c.deadline && r == Rejected(StoreFault) && retry)
      && (claim in w'.claims ==>
            w'.claims[claim] ==
            if c.deadline <= env.now then Finished(c.run, RunMissed, "")
            else if r.Rejected? then Finished(c.run, RunFailed, "")
            else Finished(c.run, RunQueued, r.id))
  {
    hide CreateTx;
  }

  /** Acknowledging writes the outcome into a run that is still pending, and only there. */
  lemma AckIsExact(w: World, claim: nat)
    requires claim in w.claims && w.claims[claim].Finished? && w.claims[claim].run in w.runs
    ensures var w', c := AckTx(w, claim), w.claims[claim];
      && w'.fleet == w.fleet && w'.schedules == w.schedules && w'.clock == w.clock && w'.claims == w.claims - {claim}
      && w'.runs.Keys == w.runs.Keys
      && forall x :: x in w.runs ==>
           w'.runs[x] == if x == c.run && w.runs[x].status == RunPending then w.runs[x].(status := c.status, operation := c.operation) else w.runs[x]
  {
  }

  // ---------- A worker without interruption ----------

  /** What an uninterrupted worker makes of one run it picked. */
  ghost predicate WorkOutcome(w: World, w': World, c: Claim, env: CreateEnv, retry: bool, ok: bool)
    requires c.Picked? && c.run in w.runs
  {
    var r := StartResult(w, c, env);
    && (!ok <==> env.now < c.deadline && r == Rejected(StoreFault) && retry)
    && w'.schedules == w.schedules && w'.claims == w.claims && w'.clock == w.clock && w'.runs.Keys == w.runs.Keys
    && w'.fleet == (if env.now < c.deadline && r.Created? then r.db else w.fleet)
    && (forall x :: x in w.runs && (x != c.run || !ok || w.runs[x].status != RunPending) ==> w'.runs[x] == w.runs[x])
    && (ok && w.runs[c.run].status == RunPending ==>
          w'.runs[c.run] ==
          if c.deadline <= env.now then w.runs[c.run].(status := RunMissed, operation := "")
          else if r.Rejected? then w.runs[c.run].(status := RunFailed, operation := "")
          else w.runs[c.run].(status := RunQueued, operation := r.id))
  }

  lemma WorkIsExact(w: World, c: Claim, env: CreateEnv, retry: bool)
    requires c.Picked? && c.run in w.runs && w.claims == map[]
    ensures var r := Work(w, c, env, retry); WorkOutcome(w, r.0, c, env, retry, r.1)
  {
    hide CreateTx;
    StartIsExact(w.(claims := map[0 := c]), 0, env, retry);
    assert Startable(w.(claims := map[0 := c]), c.run, c.user) == Startable(w, c.run, c.user);
  }

  /** A worker goes through worlds `ws`, one run after the other, up to the first transient failure. */
  ghost predicate WorkChain(ws: seq<World>, claims: seq<Claim>, envs: seq<CreateEnv>, retries: seq<bool>, ok: bool) {
    && |claims| == |envs| == |retries| && 1 <= |ws| <= |claims| + 1 && (ok ==> |ws| == |claims| + 1) && (!ok ==> |ws| > 1)
    && forall i :: 0 <= i < |ws| - 1 ==>
         claims[i].Picked? && claims[i].run in ws[i].runs && WorkOutcome(ws[i], ws[i + 1], claims[i], envs[i], retries[i], ok || i < |ws| - 2)
  }

  lemma WorkChainMore(w: World, ws: seq<World>, claims: seq<Claim>, envs: seq<CreateEnv>, retries: seq<bool>, ok: bool)
    requires |claims| == |envs| == |retries| && claims != [] && ws != [] && claims[0].Picked? && claims[0].run in w.runs
    requires WorkOutcome(w, ws[0], claims[0], envs[0], retries[0], true) && WorkChain(ws, claims[1..], envs[1..], retries[1..], ok)
    ensures WorkChain([w] + ws, claims, envs, retries, ok)
  {
    hide WorkOutcome;
    var all := [w] + ws;
    forall i | 0 <= i < |all| - 1
      ensures claims[i].Picked? && claims[i].run in all[i].runs
      ensures WorkOutcome(all[i], all[i + 1], claims[i], envs[i], retries[i], ok || i < |all| - 2)
    {
      if i > 0 {
        assert all[i] == ws[i - 1] && all[i + 1] == ws[i] && claims[i] == claims[1..][i - 1] && envs[i] == envs[1..][i - 1] && retries[i] == retries[1..][i - 1];
      }
    }
  }

  /** The worker loop processes every picked run in order, each with its outcome, and ends early only at a transient failure. */
  lemma {:induction false} WorkAllIsExact(w: World, claims: seq<Claim>, envs: seq<CreateEnv>, retries: seq<bool>) returns (ws: seq<World>)
    requires |claims| == |envs| == |retries| && w.claims == map[]
    requires forall i :: 0 <= i < |claims| ==> claims[i].Picked? && claims[i].run in w.runs
    ensures var r := WorkAll(w, claims, envs, retries); WorkChain(ws, claims, envs, retries, r.1) && ws[0] == w && ws[|ws| - 1] == r.0
    decreases |claims|
  {
    if claims == [] {
      ws := [w];
    } else {
      WorkIsExact(w, claims[0], envs[0], retries[0]);
      var one := Work(w, claims[0], envs[0], retries[0]);
      hide Work, WorkOutcome;
      if one.1 {
        var rest := WorkAllIsExact(one.0, claims[1..], envs[1..], retries[1..]);
        WorkChainMore(w, rest, claims, envs, retries, WorkAll(w, claims, envs, retries).1);
        ws := [w] + rest;
      } else {
        ws := [w, one.0];
      }
    }
  }
}
