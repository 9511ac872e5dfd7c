/** The calendar slot search behind maintenance schedules. Days are numbered so that day 0 is a Sunday. */
module FleetCalendar {
  import opened Text

  /** One time zone and one time of day: the local date of an instant, and the instant of that
      time of day on a date, absent on a date whose clocks skip it. */
  datatype Calendar = Calendar(dayOf: int -> int, slotOn: int -> Option<int>)

  /** What the time zone database promises: later dates give later slots, and an instant lies
      after the slots of earlier dates and before those of later dates. */
  ghost predicate Regular(cal: Calendar) {
    && (forall a, b :: a < b && cal.slotOn(a).Some? && cal.slotOn(b).Some? ==> cal.slotOn(a).value < cal.slotOn(b).value)
    && (forall t, d :: cal.slotOn(d).Some? && d < cal.dayOf(t) ==> cal.slotOn(d).value <= t)
    && (forall t, d :: cal.slotOn(d).Some? && cal.dayOf(t) < d ==> t < cal.slotOn(d).value)
  }

  predicate ValidCalendar(weekdays: seq<int>, minute: int) {
    0 <= minute < 1440 && 1 <= |weekdays| <= 7 && forall i :: 0 <= i < |weekdays| ==> 0 <= weekdays[i] <= 6
  }

  /** Day `d` has an allowed slot strictly after the instant. */
  predicate Fits(cal: Calendar, weekdays: seq<int>, after: int, d: int) {
    cal.slotOn(d).Some? && d % 7 in weekdays && after < cal.slotOn(d).value
  }

  /** The first fitting slot from day `d` up to, but not including, day `stop`. */
  function Scan(cal: Calendar, weekdays: seq<int>, after: int, d: int, stop: int): Option<int>
    requires d <= stop
    decreases stop - d
  {
    if d == stop then None
    else if Fits(cal, weekdays, after, d) then cal.slotOn(d)
    else Scan(cal, weekdays, after, d + 1, stop)
  }

  /** A fifteen-day scan from the local date of `after`; `zone` is absent when it cannot be loaded. */
  function NextSlot(after: int, zone: Option<Calendar>, weekdays: seq<int>, minute: int): Option<int> {
    if zone.None? || !ValidCalendar(weekdays, minute) then None
    else
      var first := zone.value.dayOf(after);
      Scan(zone.value, weekdays, after, first, first + 15)
  }

  method NextFleetSlot(after: int, zone: Option<Calendar>, weekdays: seq<int>, minute: int) returns (slot: Option<int>)
    ensures slot == NextSlot(after, zone, weekdays, minute)
  {
    if zone.None? || minute < 0 || minute >= 1440 || |weekdays| == 0 || |weekdays| > 7 { return None; }
    for i := 0 to |weekdays|
      invariant forall j :: 0 <= j < i ==> 0 <= weekdays[j] <= 6
    {
      if weekdays[i] < 0 || weekdays[i] > 6 { return None; }
    }
    var cal := zone.value;
    var local := cal.dayOf(after);
    for offset := 0 to 15
      invariant Scan(cal, weekdays, after, local, local + 15) == Scan(cal, weekdays, after, local + offset, local + 15)
    {
      var date := local + offset;
      slot := cal.slotOn(date);
      if slot.Some? && date % 7 in weekdays && after < slot.value { return slot; }
    }
    return None;
  }

  /** If some scanned day fits, the scan returns the slot of the first one that does. */
  lemma {:induction false} ScanFindsFirst(cal: Calendar, weekdays: seq<int>, after: int, d: int, stop: int, e: int) returns (f: int)
    requires d <= e < stop && Fits(cal, weekdays, after, e)
    ensures d <= f <= e && Fits(cal, weekdays, after, f) && Scan(cal, weekdays, after, d, stop) == cal.slotOn(f)
    decreases stop - d
  {
    if Fits(cal, weekdays, after, d) {
      f := d;
    } else {
      f := ScanFindsFirst(cal, weekdays, after, d + 1, stop, e);
    }
  }

  lemma {:induction false} ScanIsSound(cal: Calendar, weekdays: seq<int>, after: int, d: int, stop: int) returns (f: int)
    requires d <= stop && Scan(cal, weekdays, after, d, stop).Some?
    ensures d <= f < stop && Fits(cal, weekdays, after, f) && Scan(cal, weekdays, after, d, stop) == cal.slotOn(f)
    ensures forall g :: d <= g < f ==> !Fits(cal, weekdays, after, g)
    decreases stop - d
  {
    if Fits(cal, weekdays, after, d) {
      f := d;
    } else {
      f := ScanIsSound(cal, weekdays, after, d + 1, stop);
    }
  }

  /** The result is the least allowed slot of any day strictly after the given instant. */
  lemma NextSlotIsLeast(after: int, zone: Option<Calendar>, weekdays: seq<int>, minute: int, d: int)
    requires zone.Some? && Regular(zone.value) && NextSlot(after, zone, weekdays, minute).Some?
    ensures var s := NextSlot(after, zone, weekdays, minute).value;
      && after < s
      && (exists e :: Fits(zone.value, weekdays, after, e) && zone.value.slotOn(e) == Some(s))
      && (Fits(zone.value, weekdays, after, d) ==> s <= zone.value.slotOn(d).value)
  {
    var first := zone.value.dayOf(after);
    var f := ScanIsSound(zone.value, weekdays, after, first, first + 15);
  }

  /** Among the scanned days at most one lacks the local time. */
  ghost predicate AtMostOneDayLacks(cal: Calendar, first: int) {
    forall a, b :: first <= a < b < first + 15 ==> cal.slotOn(a).Some? || cal.slotOn(b).Some?
  }

  /** The offset of a weekday from a date. */
  lemma WeekdayOffset(first: int, weekday: int) returns (k: int)
    requires 0 <= weekday <= 6
    ensures 0 <= k <= 6 && k == (weekday - first) % 7
    ensures forall d :: first <= d < first + 15 ==> (d % 7 == weekday <==> d == first + k || d == first + k + 7 || d == first + k + 14)
  {
    k := (weekday - first) % 7;
  }

  /** A valid calendar always yields a slot when at most one scanned day lacks the local time. */
  lemma NextSlotExists(after: int, zone: Option<Calendar>, weekdays: seq<int>, minute: int)
    requires zone.Some? && Regular(zone.value) && ValidCalendar(weekdays, minute)
    requires AtMostOneDayLacks(zone.value, zone.value.dayOf(after))
    ensures NextSlot(after, zone, weekdays, minute).Some?
  {
    var cal, first := zone.value, zone.value.dayOf(after);
    var k := WeekdayOffset(first, weekdays[0]);
    var a := first + if k == 0 then 7 else k;
    assert weekdays[0] in weekdays;
    assert cal.slotOn(a).Some? || cal.slotOn(a + 7).Some?;
    var e := if cal.slotOn(a).Some? then a else a + 7;
    assert Fits(cal, weekdays, after, e);
    var f := ScanFindsFirst(cal, weekdays, after, first, first + 15, e);
  }

  /** The bound is tight: with one weekday, later than today, the search fails exactly when both
      of its scanned dates lack the local time. */
  lemma NextSlotFailsExactly(after: int, zone: Option<Calendar>, weekday: int, minute: int)
    requires zone.Some? && Regular(zone.value) && 0 <= weekday <= 6 && 0 <= minute < 1440
    requires zone.value.dayOf(after) % 7 != weekday
    ensures var day := zone.value.dayOf(after) + (weekday - zone.value.dayOf(after)) % 7;
      NextSlot(after, zone, [weekday], minute).None? <==>
        zone.value.slotOn(day).None? && zone.value.slotOn(day + 7).None?
  {
    var cal, first := zone.value, zone.value.dayOf(after);
    var k := WeekdayOffset(first, weekday);
    var day := first + k;
    assert k != 0;
    if cal.slotOn(day).Some? || cal.slotOn(day + 7).Some? {
      var e := if cal.slotOn(day).Some? then day else day + 7;
      assert Fits(cal, [weekday], after, e);
      var f := ScanFindsFirst(cal, [weekday], after, first, first + 15, e);
    } else if NextSlot(after, zone, [weekday], minute).Some? {
      var f := ScanIsSound(cal, [weekday], after, first, first + 15);
    }
  }
}
