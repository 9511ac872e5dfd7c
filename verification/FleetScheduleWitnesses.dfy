/** A run in which a save read the clock before a reservation and committed after it. */
module FleetScheduleWitnesses {
  import opened Text
  import opened Units
  import opened FleetOperations
  import opened FleetCalendar
  import opened FleetSchedules
  import opened FleetScheduleRuns
  import opened FleetScheduleSlots

  function SlotOn(day: int): Option<int> { Some(10 * day + 5) }

  function DayOf(t: int): int { t / 10 }

  /** Days of ten instants, each with a slot in its middle. */
  const CALENDAR: Calendar := Calendar(DayOf, SlotOn)

  function Zone(name: string, minute: int): Option<Calendar> { Some(CALENDAR) }

  const DAILY: Definition := Definition("ping", Input("", "ping", ["a"], "ping", "", map[], 1, false, None, false), "UTC", [0, 1, 2, 3, 4, 5, 6], 0, 1, true)

  const CREATED: Step := Save("u", "s", DAILY, NewId, 0, Access.Allowed)
  const RESERVED: Step := Reserve(6, ["s"], ["r"])
  /** The edit read its time at 4, before the reservation at 6, and commits after it. */
  const EDITED: Step := Save("u", "s", DAILY, Edit, 4, Access.Allowed)

  lemma EveryDayFits(day: int, after: int)
    ensures Fits(CALENDAR, DAILY.weekdays, after, day) <==> after < 10 * day + 5
  {
    assert 0 <= day % 7 <= 6;
    assert DAILY.weekdays[day % 7] == day % 7;
  }

  lemma Slots()
    ensures ValidCalendar(DAILY.weekdays, DAILY.minute)
    ensures NextSlot(0, Some(CALENDAR), DAILY.weekdays, 0) == Some(5)
    ensures NextSlot(4, Some(CALENDAR), DAILY.weekdays, 0) == Some(5)
    ensures NextSlot(6, Some(CALENDAR), DAILY.weekdays, 0) == Some(15)
  {
    EveryDayFits(0, 0);
    EveryDayFits(0, 4);
    EveryDayFits(0, 6);
    EveryDayFits(1, 6);
    assert Scan(CALENDAR, DAILY.weekdays, 6, 1, 15) == Some(15);
  }

  lemma DailyIsValid()
    ensures ValidDefinition(DAILY) && Stored(DAILY) == DAILY
  {
  }

  lemma AfterCreation() returns (w: World)
    ensures w == Apply(EMPTY, Zone, CREATED)
    ensures w == EMPTY.(schedules := map["s" := Schedule("u", DAILY, 5)])
  {
    Slots();
    DailyIsValid();
    hide NextSlot, ValidDefinition;
    assert Owned(EMPTY, "u") == {};
    assert CancelRuns(EMPTY.runs, "s") == map[];
    w := Apply(EMPTY, Zone, CREATED);
  }

  lemma AfterReservation(w: World) returns (v: World)
    requires w == EMPTY.(schedules := map["s" := Schedule("u", DAILY, 5)])
    ensures Possible(w, RESERVED) && v == Apply(w, Zone, RESERVED)
    ensures v.schedules == map["s" := Schedule("u", DAILY, 15)] && v.clock == 6
    ensures v.runs.Keys == {"r"} && v.runs["r"].schedule == "s" && v.runs["r"].slot == 5
  {
    Slots();
    hide NextSlot;
    assert !SlotTaken(w.runs, "s", 5);
    var one := ReserveOne(w, Zone, 6, "s", "r");
    assert one.Some?;
    assert ["s"][1..] == [] && ["r"][1..] == [];
    assert ReserveTx(one.value, Zone, 6, [], []) == one;
    assert ReserveTx(w, Zone, 6, ["s"], ["r"]) == one;
    v := Apply(w, Zone, RESERVED);
  }

  lemma AfterEdit(v: World) returns (last: World)
    requires v.schedules == map["s" := Schedule("u", DAILY, 15)]
    requires v.runs.Keys == {"r"} && v.runs["r"].schedule == "s" && v.runs["r"].slot == 5
    ensures last == Apply(v, Zone, EDITED) && "s" in last.schedules && !AwaitedFree(last, "s")
  {
    Slots();
    DailyIsValid();
    hide NextSlot, ValidDefinition, AwaitedFree;
    last := Apply(v, Zone, EDITED);
    assert SlotTaken(v.runs, "s", 5);
    SavedSlotIsFreeExactly(v, Zone, EDITED);
  }

  lemma Blocked(w: World, s: string)
    requires s in w.schedules && !AwaitedFree(w, s)
    ensures forall now, due, ids :: |due| == |ids| && DueOk(w, now, due) && s in due ==> ReserveTx(w, Zone, now, due, ids).None?
  {
    forall now, due: seq<string>, ids: seq<string> | |due| == |ids| && DueOk(w, now, due) && s in due
      ensures ReserveTx(w, Zone, now, due, ids).None?
    {
      TakenSlotBlocksReservation(w, Zone, now, due, ids, s);
    }
  }

  lemma StepsFollow(w: World, v: World, last: World)
    requires w == Apply(EMPTY, Zone, CREATED) && w.clock == 0
    requires Possible(w, RESERVED) && v == Apply(w, Zone, RESERVED) && last == Apply(v, Zone, EDITED)
    ensures var states, steps := [EMPTY, w, v, last], [CREATED, RESERVED, EDITED];
      IsRun(states, Zone, steps) && forall m :: 0 <= m < 3 ==> Forward(states[m], steps[m])
  {
    hide Apply;
    var states, steps := [EMPTY, w, v, last], [CREATED, RESERVED, EDITED];
    assert Possible(EMPTY, CREATED) && Possible(v, EDITED);
    hide Possible;
    forall k | 0 <= k < |steps| ensures Possible(states[k], steps[k]) && states[k + 1] == Apply(states[k], Zone, steps[k]) {
      assert k == 0 || k == 1 || k == 2;
    }
  }

  /** The edit makes the schedule wait for a slot that is already reserved. From then on, until it is
      saved again, every reservation that finds the schedule due fails as a whole. */
  lemma StaleSaveBlocksReservations() returns (states: seq<World>, steps: seq<Step>)
    ensures IsRun(states, Zone, steps) && |states| == 4 && forall m :: 0 <= m < 3 ==> Forward(states[m], steps[m])
    ensures "s" in states[3].schedules && !AwaitedFree(states[3], "s")
    ensures forall now, due, ids :: |due| == |ids| && DueOk(states[3], now, due) && "s" in due ==>
      ReserveTx(states[3], Zone, now, due, ids).None?
  {
    hide Apply, Possible, IsRun, AwaitedFree, Forward;
    var w := AfterCreation();
    var v := AfterReservation(w);
    var last := AfterEdit(v);
    StepsFollow(w, v, last);
    Blocked(last, "s");
    hide ReserveTx, DueOk;
    states := [EMPTY, w, v, last];
    steps := [CREATED, RESERVED, EDITED];
  }
}
