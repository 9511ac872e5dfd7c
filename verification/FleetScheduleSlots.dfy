/** Which slots a schedule reserves: strictly forward between edits, and, when a save commits with a
    time no earlier than the latest reservation, no slot twice, not even across edits. */
module FleetScheduleSlots {
  import opened Text
  import opened Units
  import opened FleetOperations
  import opened FleetCalendar
  import opened FleetSchedules
  import opened FleetScheduleRuns
  import F = FleetOperationRuns

  lemma NextSlotIsLater(after: int, zone: Option<Calendar>, weekdays: seq<int>, minute: int)
    ensures NextSlot(after, zone, weekdays, minute).Some? ==> after < NextSlot(after, zone, weekdays, minute).value
  {
    if NextSlot(after, zone, weekdays, minute).Some? {
      var first := zone.value.dayOf(after);
      var f := ScanIsSound(zone.value, weekdays, after, first, first + 15);
    }
  }

  /** Run `x` was reserved from the slot its schedule was waiting for, and the schedule moved past `now`. */
  ghost predicate ReservedFrom(w: World, w': World, now: int, x: string) {
    && x in w'.runs
    && var run := w'.runs[x];
       && run.schedule in w.schedules && run.schedule in w'.schedules
       && run.slot == w.schedules[run.schedule].next
       && run.deadline == run.slot + w.schedules[run.schedule].def.window * MINUTE
       && now < w'.schedules[run.schedule].next
  }

  /** A reservation only adds runs, each from the slot its schedule was waiting for. */
  ghost predicate Reserves(w: World, w': World, now: int, due: seq<string>) {
    && w'.schedules.Keys == w.schedules.Keys
    && (forall s :: s in w.schedules ==> w'.schedules[s] == w.schedules[s].(next := w'.schedules[s].next))
    && (forall s :: s in w.schedules && s !in due ==> w'.schedules[s] == w.schedules[s])
    && (forall s :: s in w.schedules && w'.schedules[s].next != w.schedules[s].next ==> now < w'.schedules[s].next)
    && (forall x :: x in w.runs ==> x in w'.runs && w'.runs[x] == w.runs[x])
    && (forall x :: x in w'.runs && x !in w.runs ==> w'.runs[x].schedule in due && ReservedFrom(w, w', now, x))
  }

  lemma ReserveOneReserves(w: World, zones: Zones, now: int, id: string, run: string)
    requires id in w.schedules
    ensures var r := ReserveOne(w, zones, now, id, run); r.Some? ==> Reserves(w, r.value, now, [id])
  {
    var s := w.schedules[id];
    NextSlotIsLater(now, zones(s.def.zone, s.def.minute), s.def.weekdays, s.def.minute);
    hide NextSlot;
  }

  lemma ReservesComposes(a: World, b: World, c: World, now: int, due: seq<string>)
    requires due != [] && due[0] !in due[1..]
    requires Reserves(a, b, now, [due[0]]) && Reserves(b, c, now, due[1..])
    ensures Reserves(a, c, now, due)
  {
    forall x | x in c.runs && x !in a.runs
      ensures c.runs[x].schedule in due && ReservedFrom(a, c, now, x)
    {
      if x in b.runs {
        assert ReservedFrom(a, b, now, x);
      } else {
        assert ReservedFrom(b, c, now, x);
      }
    }
  }

  lemma {:induction false} ReserveReserves(w: World, zones: Zones, now: int, due: seq<string>, ids: seq<string>)
    requires |due| == |ids| && DueOk(w, now, due)
    ensures var r := ReserveTx(w, zones, now, due, ids); r.Some? ==> Reserves(w, r.value, now, due)
    decreases |due|
  {
    if due != [] {
      ReserveOneReserves(w, zones, now, due[0], ids[0]);
      var one := ReserveOne(w, zones, now, due[0], ids[0]);
      if one.Some? {
        var rest := due[1..];
        assert forall i :: 0 <= i < |rest| ==> rest[i] == due[i + 1] && one.value.schedules[rest[i]] == w.schedules[rest[i]];
        ReserveReserves(one.value, zones, now, rest, ids[1..]);
        var r := ReserveTx(one.value, zones, now, rest, ids[1..]);
        if r.Some? { ReservesComposes(w, one.value, r.value, now, due); }
      }
    }
  }

  // ---------- Between edits ----------

  ghost predicate Edits(step: Step, s: string) {
    step.Save? && step.id == s
  }

  /** Step `k` reserves run `x` of schedule `s`. */
  ghost predicate Inserts(states: seq<World>, k: nat, x: string, s: string)
    requires k + 1 < |states|
  {
    x !in states[k].runs && x in states[k + 1].runs && states[k + 1].runs[x].schedule == s
  }

  /** No step but an edit moves a schedule back; the step that reserves a run takes the slot the
      schedule was waiting for and moves it strictly past that slot, whatever the clock does. */
  lemma StepMovesForward(states: seq<World>, zones: Zones, steps: seq<Step>, k: nat, s: string)
    requires IsRun(states, zones, steps) && k < |steps| && s in states[k].schedules && !Edits(steps[k], s)
    ensures s in states[k + 1].schedules && states[k].schedules[s].next <= states[k + 1].schedules[s].next
    ensures forall x :: Inserts(states, k, x, s) ==>
      states[k + 1].runs[x].slot == states[k].schedules[s].next < states[k + 1].schedules[s].next
  {
    hide CreateTx, RunValid, F.Apply, NextSlot, ValidDefinition, Owned;
    var step := steps[k];
    if step.Reserve? {
      ReserveReserves(states[k], zones, step.now, step.due, step.ids);
      forall x | Inserts(states, k, x, s)
        ensures states[k + 1].runs[x].slot == states[k].schedules[s].next < states[k + 1].schedules[s].next
      {
        var r := ReserveTx(states[k], zones, step.now, step.due, step.ids);
        assert ReservedFrom(states[k], r.value, step.now, x);
      }
    }
  }

  lemma {:induction false} StretchMovesForward(states: seq<World>, zones: Zones, steps: seq<Step>, i: nat, j: nat, s: string)
    requires IsRun(states, zones, steps) && i <= j < |states| && s in states[i].schedules
    requires forall m :: i <= m < j ==> !Edits(steps[m], s)
    ensures s in states[j].schedules && states[i].schedules[s].next <= states[j].schedules[s].next
  {
    if i < j {
      StretchMovesForward(states, zones, steps, i, j - 1, s);
      StepMovesForward(states, zones, steps, j - 1, s);
    }
  }

  /** Between edits the reserved slots of a schedule strictly increase, so none is reserved twice. */
  lemma SlotsIncrease(states: seq<World>, zones: Zones, steps: seq<Step>, i: nat, j: nat, s: string, x: string, y: string)
    requires IsRun(states, zones, steps) && i < j < |steps|
    requires s in states[i].schedules && forall m :: i <= m <= j ==> !Edits(steps[m], s)
    requires Inserts(states, i, x, s) && Inserts(states, j, y, s)
    ensures states[i + 1].runs[x].slot < states[j + 1].runs[y].slot
  {
    StepMovesForward(states, zones, steps, i, s);
    StretchMovesForward(states, zones, steps, i + 1, j, s);
    StepMovesForward(states, zones, steps, j, s);
  }

  // ---------- With reservations in order ----------

  /** Reservations are made one after the other by one loop, so with a clock that does not go back
      their times do not go back either. Saves may have read theirs at any time before they commit. */
  ghost predicate Forward(w: World, step: Step) {
    step.Reserve? ==> w.clock <= step.now
  }

  ghost predicate Timely(w: World, x: string)
    requires x in w.runs
  {
    w.runs[x].slot <= w.clock && w.runs[x].deadline <= w.runs[x].slot + DAY
  }

  ghost predicate ClockOk(w: World) {
    && (forall s :: s in w.schedules ==> 1 <= w.schedules[s].def.window <= 1440)
    && (forall x :: x in w.runs ==> Timely(w, x))
  }

  lemma SaveIsTimely(w: World, zones: Zones, step: Step)
    requires ClockOk(w) && step.Save?
    ensures ClockOk(Apply(w, zones, step))
  {
    hide NextSlot, Owned, FleetCommandAllowed;
    var w' := Apply(w, zones, step);
    forall x | x in w'.runs ensures Timely(w', x) { assert Timely(w, x); }
  }

  lemma ReservedIsTimely(w: World, w': World, now: int, due: seq<string>)
    requires ClockOk(w) && w.clock <= now && DueOk(w, now, due) && Reserves(w, w', now, due)
    ensures ClockOk(w'.(clock := now))
  {
    forall x | x in w'.runs ensures Timely(w'.(clock := now), x) {
      if x in w.runs {
        assert Timely(w, x) && w'.runs[x] == w.runs[x];
      } else {
        assert ReservedFrom(w, w', now, x);
        var i :| 0 <= i < |due| && due[i] == w'.runs[x].schedule;
      }
    }
  }

  lemma ReserveIsTimely(w: World, zones: Zones, step: Step)
    requires ClockOk(w) && step.Reserve? && Forward(w, step) && Possible(w, step)
    ensures ClockOk(Apply(w, zones, step))
  {
    ReserveReserves(w, zones, step.now, step.due, step.ids);
    var r := ReserveTx(w, zones, step.now, step.due, step.ids);
    if r.Some? {
      hide ReserveTx, ClockOk, Reserves;
      ReservedIsTimely(w, r.value, step.now, step.due);
    } else {
      var w' := w.(clock := step.now);
      forall x | x in w'.runs ensures Timely(w', x) { assert Timely(w, x); }
    }
  }

  /** Neither schedules nor the times of runs change. */
  ghost predicate SameTimes(w: World, w': World) {
    && w'.schedules == w.schedules && w.clock <= w'.clock && SameSlots(w.runs, w'.runs)
  }

  ghost predicate SameSlots(runs: map<string, Run>, runs': map<string, Run>) {
    && runs'.Keys == runs.Keys
    && forall x :: x in runs ==>
         runs'[x].slot == runs[x].slot && runs'[x].deadline == runs[x].deadline && runs'[x].schedule == runs[x].schedule
  }

  lemma OtherStepsKeepTimes(w: World, zones: Zones, step: Step)
    requires Possible(w, step) && !step.Save? && !step.Reserve?
    ensures SameTimes(w, Apply(w, zones, step))
  {
    hide CreateTx, RunValid, F.Apply;
  }

  lemma OtherStepsAreTimely(w: World, zones: Zones, step: Step)
    requires ClockOk(w) && Possible(w, step) && !step.Save? && !step.Reserve?
    ensures ClockOk(Apply(w, zones, step))
  {
    OtherStepsKeepTimes(w, zones, step);
    hide Apply, Possible;
    var w' := Apply(w, zones, step);
    forall x | x in w'.runs ensures Timely(w', x) { assert Timely(w, x); }
  }

  lemma {:induction false} RunIsTimely(states: seq<World>, zones: Zones, steps: seq<Step>, k: nat)
    requires IsRun(states, zones, steps) && k < |states|
    requires forall m :: 0 <= m < k ==> Forward(states[m], steps[m])
    ensures ClockOk(states[k])
  {
    if k > 0 {
      RunIsTimely(states, zones, steps, k - 1);
      var step := steps[k - 1];
      hide Apply, Possible, ClockOk, Forward;
      assert Forward(states[k - 1], step);
      if step.Save? { SaveIsTimely(states[k - 1], zones, step); }
      else if step.Reserve? { ReserveIsTimely(states[k - 1], zones, step); }
      else { OtherStepsAreTimely(states[k - 1], zones, step); }
    }
  }

  // ---------- Which awaited slots are free ----------

  /** No run of the schedule holds the slot it waits for. */
  ghost predicate AwaitedFree(w: World, s: string) {
    s in w.schedules && !SlotTaken(w.runs, s, w.schedules[s].next)
  }

  lemma SameSlotsTaken(runs: map<string, Run>, runs': map<string, Run>, s: string, slot: int)
    requires SameSlots(runs, runs')
    ensures SlotTaken(runs, s, slot) <==> SlotTaken(runs', s, slot)
  {
    if SlotTaken(runs, s, slot) {
      var x :| x in runs && runs[x].schedule == s && runs[x].slot == slot;
      assert runs'[x].schedule == s && runs'[x].slot == slot;
    }
    if SlotTaken(runs', s, slot) {
      var x :| x in runs' && runs'[x].schedule == s && runs'[x].slot == slot;
      assert runs[x].schedule == s && runs[x].slot == slot;
    }
  }

  /** The slot that a save computes. */
  function ComputedSlot(zones: Zones, def: Definition, now: int): Option<int> {
    NextSlot(now, zones(def.zone, def.minute), def.weekdays, def.minute)
  }

  /** The save is accepted and writes the schedule. */
  ghost predicate Writes(w: World, zones: Zones, step: Step) {
    && step.Save? && MayWrite(w, step.user, step.id, step.mode)
    && SaveTx(w, zones, step.user, step.id, step.def, step.mode, step.now, step.access).Some?
  }

  /** The slot that a save leaves the schedule waiting for is free exactly when no run of the schedule
      already holds the slot it computed. */
  lemma SavedSlotIsFreeExactly(w: World, zones: Zones, step: Step)
    requires Writes(w, zones, step)
    ensures ComputedSlot(zones, step.def, step.now).Some?
    ensures AwaitedFree(Apply(w, zones, step), step.id)
      <==> !SlotTaken(w.runs, step.id, ComputedSlot(zones, step.def, step.now).value)
  {
    hide NextSlot, ValidDefinition, Owned, SlotTaken;
    SameSlotsTaken(w.runs, CancelRuns(w.runs, step.id), step.id, ComputedSlot(zones, step.def, step.now).value);
  }

  lemma OtherSaveKeepsAwaited(w: World, zones: Zones, step: Step, s: string)
    requires step.Save? && step.id != s && s in w.schedules
    ensures AwaitedFree(Apply(w, zones, step), s) <==> AwaitedFree(w, s)
  {
    hide NextSlot, ValidDefinition, Owned, SlotTaken;
    SameSlotsTaken(w.runs, CancelRuns(w.runs, step.id), s, w.schedules[s].next);
  }

  /** A reservation at a time no earlier than any before leaves free slots free. */
  lemma ReservesKeepsFree(w: World, w': World, now: int, due: seq<string>, s: string)
    requires Reserves(w, w', now, due) && DueOk(w, now, due) && AwaitedFree(w, s)
    requires forall x :: x in w.runs ==> w.runs[x].slot <= now
    ensures AwaitedFree(w', s)
  {
    forall x | x in w'.runs && w'.runs[x].schedule == s ensures w'.runs[x].slot != w'.schedules[s].next {
      if x in w.runs {
        assert w'.runs[x] == w.runs[x];
      } else {
        assert ReservedFrom(w, w', now, x);
        var i :| 0 <= i < |due| && due[i] == s;
      }
    }
  }

  lemma StepKeepsFree(w: World, zones: Zones, step: Step, s: string)
    requires Possible(w, step) && ClockOk(w) && Forward(w, step) && AwaitedFree(w, s) && !Edits(step, s)
    ensures AwaitedFree(Apply(w, zones, step), s)
  {
    if step.Reserve? {
      var r := ReserveTx(w, zones, step.now, step.due, step.ids);
      if r.Some? {
        ReserveReserves(w, zones, step.now, step.due, step.ids);
        forall x | x in w.runs ensures w.runs[x].slot <= step.now { assert Timely(w, x); }
        hide ReserveTx, ClockOk, Reserves, SlotTaken;
        ReservesKeepsFree(w, r.value, step.now, step.due, s);
      }
    } else if step.Save? {
      OtherSaveKeepsAwaited(w, zones, step, s);
    } else {
      OtherStepsKeepTimes(w, zones, step);
      hide Apply;
      SameSlotsTaken(w.runs, Apply(w, zones, step).runs, s, w.schedules[s].next);
    }
  }

  /** A reservation that includes a schedule whose awaited slot is taken fails as a whole, at any time. */
  lemma {:induction false} TakenSlotBlocksReservation(w: World, zones: Zones, now: int, due: seq<string>, ids: seq<string>, s: string)
    requires |due| == |ids| && DueOk(w, now, due) && s in due && SlotTaken(w.runs, s, w.schedules[s].next)
    ensures ReserveTx(w, zones, now, due, ids).None?
    decreases |due|
  {
    if due[0] != s {
      ReserveOneReserves(w, zones, now, due[0], ids[0]);
      var one := ReserveOne(w, zones, now, due[0], ids[0]);
      if one.Some? {
        var v, rest := one.value, due[1..];
        assert forall i :: 0 <= i < |rest| ==> rest[i] == due[i + 1] && v.schedules[rest[i]] == w.schedules[rest[i]];
        var x :| x in w.runs && w.runs[x].schedule == s && w.runs[x].slot == w.schedules[s].next;
        assert v.runs[x] == w.runs[x];
        TakenSlotBlocksReservation(v, zones, now, rest, ids[1..], s);
      }
    }
  }

  lemma StepKeepsTaken(w: World, zones: Zones, step: Step, s: string)
    requires Possible(w, step) && s in w.schedules && !AwaitedFree(w, s) && !Edits(step, s)
    ensures s in Apply(w, zones, step).schedules && !AwaitedFree(Apply(w, zones, step), s)
  {
    if step.Reserve? {
      var r := ReserveTx(w, zones, step.now, step.due, step.ids);
      if r.Some? {
        if s in step.due { TakenSlotBlocksReservation(w, zones, step.now, step.due, step.ids, s); }
        ReserveReserves(w, zones, step.now, step.due, step.ids);
        hide ReserveTx;
        var x :| x in w.runs && w.runs[x].schedule == s && w.runs[x].slot == w.schedules[s].next;
        assert r.value.runs[x] == w.runs[x] && r.value.schedules[s] == w.schedules[s];
      }
    } else if step.Save? {
      OtherSaveKeepsAwaited(w, zones, step, s);
      hide NextSlot, ValidDefinition, Owned, AwaitedFree;
    } else {
      OtherStepsKeepTimes(w, zones, step);
      hide Apply;
      SameSlotsTaken(w.runs, Apply(w, zones, step).runs, s, w.schedules[s].next);
    }
  }

  /** In any run the slot a schedule waits for is free, and stays so until the next save of the schedule,
      if and only if no run of the schedule held the slot that its latest save computed. */
  lemma {:induction false} AwaitedSlotIsFreeExactly(states: seq<World>, zones: Zones, steps: seq<Step>, i: nat, k: nat, s: string)
    requires IsRun(states, zones, steps) && i < k < |states| && steps[i].Save? && steps[i].id == s && Writes(states[i], zones, steps[i])
    requires forall m :: 0 <= m < k ==> Forward(states[m], steps[m])
    requires forall m :: i < m < k ==> !Edits(steps[m], s)
    ensures ComputedSlot(zones, steps[i].def, steps[i].now).Some? && s in states[k].schedules
    ensures AwaitedFree(states[k], s) <==> !SlotTaken(states[i].runs, s, ComputedSlot(zones, steps[i].def, steps[i].now).value)
  {
    if k == i + 1 {
      hide NextSlot, ValidDefinition, Owned, AwaitedFree, SlotTaken;
      SavedSlotIsFreeExactly(states[i], zones, steps[i]);
    } else {
      AwaitedSlotIsFreeExactly(states, zones, steps, i, k - 1, s);
      RunIsTimely(states, zones, steps, k - 1);
      hide Apply, Possible, ClockOk, AwaitedFree, SlotTaken, Writes, ComputedSlot;
      if AwaitedFree(states[k - 1], s) {
        StepKeepsFree(states[k - 1], zones, steps[k - 1], s);
        AwaitedIsKnown(states[k], s);
      } else {
        StepKeepsTaken(states[k - 1], zones, steps[k - 1], s);
      }
    }
  }

  lemma AwaitedIsKnown(w: World, s: string)
    requires AwaitedFree(w, s)
    ensures s in w.schedules
  {
  }

  /** When the latest save commits with a time no earlier than the latest reservation, the slot its
      schedule waits for was never reserved before: the unique index on (schedule, slot) refuses nothing. */
  lemma NoSlotIsReservedTwice(states: seq<World>, zones: Zones, steps: seq<Step>, i: nat, k: nat, s: string)
    requires IsRun(states, zones, steps) && i < k < |states| && steps[i].Save? && steps[i].id == s && Writes(states[i], zones, steps[i])
    requires forall m :: 0 <= m < k ==> Forward(states[m], steps[m])
    requires forall m :: i < m < k ==> !Edits(steps[m], s)
    requires states[i].clock <= steps[i].now
    ensures AwaitedFree(states[k], s)
  {
    AwaitedSlotIsFreeExactly(states, zones, steps, i, k, s);
    RunIsTimely(states, zones, steps, i);
    var def, now := steps[i].def, steps[i].now;
    NextSlotIsLater(now, zones(def.zone, def.minute), def.weekdays, def.minute);
    hide NextSlot, IsRun, Writes, AwaitedFree, Forward;
    forall x | x in states[i].runs ensures states[i].runs[x].slot != ComputedSlot(zones, def, now).value {
      assert Timely(states[i], x);
    }
  }

  /** A reserved run that is started inside its window is never refused for its deadline. */
  lemma ScheduledDeadlineIsAccepted(states: seq<World>, zones: Zones, steps: seq<Step>, k: nat, x: string, user: string, env: CreateEnv)
    requires IsRun(states, zones, steps) && k < |states| && x in states[k].runs
    requires forall m :: 0 <= m < k ==> Forward(states[m], steps[m])
    requires states[k].clock <= env.now < states[k].runs[x].deadline
    ensures CreateTx(states[k].fleet, user, states[k].runs[x].input, RunValid(states[k], x, user), env) != Rejected(InvalidDeadline)
  {
    RunIsTimely(states, zones, steps, k);
    RunKeeps(states, zones, steps, k);
    assert Timely(states[k], x) && RunOk(states[k], x);
    hide F.DbOk, FleetCommandAllowed, WithinLimits, Replays, ActiveOf, NewOperation, RunValid;
  }
}
