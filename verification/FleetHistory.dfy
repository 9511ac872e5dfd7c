/**
 Device history derived from telemetry samples: rate points, reboot, address and
 telemetry-gap events, and observed availability. Instants are integers in
 nanoseconds; 0 is Go's zero time, which the code also uses for "no sample yet".
 */
module FleetHistory {
  import opened Text
  import opened Units
  import opened Sorting

  const HEARTBEAT: int := 120 * SECOND

  /** A stored sample; `decoded` when both JSON documents parse. `counters` are the received and
      sent bytes of `iface`, the interface of the default route, when it is listed. */
  datatype Sample = Sample(at: int, decoded: bool, uptime: Option<real>, ip: string, iface: string, counters: Option<(real, real)>)

  datatype EventKind = RebootObserved | WanIpChanged | TelemetryGap | HeartbeatRestored

  datatype Event = Event(at: int, kind: EventKind)

  function EventAt(e: Event): int { e.at }

  function SampleAt(s: Sample): int { s.at }

  datatype Point = Point(at: int, rates: Option<(real, real)>)

  /** The variables that the loop over samples carries. */
  datatype Scan = Scan(points: seq<Point>, events: seq<Event>, uptime: Option<real>, ip: string, iface: string, at: int, counters: Option<(real, real)>, covered: int)

  const START: Scan := Scan([], [], None, "", "", 0, None, 0)

  datatype History = History(points: seq<Point>, events: seq<Event>, availability: Option<real>)

  predicate Rebooted(st: Scan, s: Sample) {
    st.uptime.Some? && s.uptime.Some? && s.uptime.value < st.uptime.value
  }

  function Rates(st: Scan, s: Sample): Option<(real, real)> {
    var elapsed := s.at - st.at;
    if !Rebooted(st, s) && s.iface != "" && s.iface == st.iface && s.counters.Some? && st.counters.Some?
       && 0 < elapsed <= HEARTBEAT
       && s.counters.value.0 >= st.counters.value.0 && s.counters.value.1 >= st.counters.value.1
    then
      var seconds := elapsed as real / SECOND as real;
      Some(((s.counters.value.0 - st.counters.value.0) * 8.0 / seconds, (s.counters.value.1 - st.counters.value.1) * 8.0 / seconds))
    else None
  }

  function GapEvents(st: Scan, s: Sample): seq<Event> {
    if st.at != 0 && s.at - st.at > HEARTBEAT then [Event(st.at + HEARTBEAT, TelemetryGap), Event(s.at, HeartbeatRestored)] else []
  }

  function OtherEvents(st: Scan, s: Sample): seq<Event> {
    (if Rebooted(st, s) then [Event(s.at, RebootObserved)] else [])
    + (if st.ip != "" && s.ip != "" && s.ip != st.ip then [Event(s.at, WanIpChanged)] else [])
  }

  /** One accepted sample. */
  function Take(st: Scan, s: Sample): Scan {
    Scan(
      st.points + [Point(s.at, Rates(st, s))],
      st.events + OtherEvents(st, s) + GapEvents(st, s),
      s.uptime, s.ip, s.iface, s.at, s.counters,
      st.covered + if st.at != 0 then Min(s.at - st.at, HEARTBEAT) else 0)
  }

  predicate Accepted(s: Sample, now: int) { s.at <= now && s.decoded }

  function Fold(ordered: seq<Sample>, now: int): Scan {
    if ordered == [] then START
    else
      var st, s := Fold(ordered[..|ordered| - 1], now), ordered[|ordered| - 1];
      if Accepted(s, now) then Take(st, s) else st
  }

  predicate Measured(st: Scan, now: int) { st.points != [] && st.points[0].at < now }

  /** All events in the order they are appended, with the gap that may run until now. */
  function AllEvents(st: Scan, now: int): seq<Event> {
    if Measured(st, now) && now - st.at > HEARTBEAT then st.events + [Event(st.at + HEARTBEAT, TelemetryGap)] else st.events
  }

  function Covered(st: Scan, now: int): int {
    if Measured(st, now) then st.covered + Min(now - st.at, HEARTBEAT) else st.covered
  }

  function Derive(ordered: seq<Sample>, now: int): History {
    var st := Fold(ordered, now);
    History(st.points, SortBy(AllEvents(st, now), EventAt),
      if Measured(st, now) then Some(Covered(st, now) as real / (now - st.points[0].at) as real * 100.0) else None)
  }

  /** The body of the loop for one accepted sample. */
  method TakeSample(st: Scan, s: Sample) returns (next: Scan)
    ensures next == Take(st, s)
  {
    hide Rates;
    var point, events, covered := Point(s.at, None), st.events, st.covered;
    var reboot := st.uptime.Some? && s.uptime.Some? && s.uptime.value < st.uptime.value;
    if reboot { events := events + [Event(s.at, RebootObserved)]; }
    if st.ip != "" && s.ip != "" && s.ip != st.ip { events := events + [Event(s.at, WanIpChanged)]; }
    assert events == st.events + OtherEvents(st, s);
    if st.at != 0 {
      var gap := s.at - st.at;
      covered := covered + Min(gap, HEARTBEAT);
      if gap > HEARTBEAT {
        events := events + [Event(st.at + HEARTBEAT, TelemetryGap), Event(s.at, HeartbeatRestored)];
      }
    }
    assert events == st.events + OtherEvents(st, s) + GapEvents(st, s);
    point := point.(rates := Rates(st, s));
    next := Scan(st.points + [point], events, s.uptime, s.ip, s.iface, s.at, s.counters, covered);
  }

  method DeriveFleetHistory(samples: seq<Sample>, now: int) returns (h: History)
    ensures h == Derive(SortBy(samples, SampleAt), now)
  {
    hide Take, SortBy;
    var ordered := SortBy(samples, SampleAt);
    var st := START;
    for i := 0 to |ordered|
      invariant st == Fold(ordered[..i], now)
    {
      assert ordered[..i + 1][..i] == ordered[..i];
      if ordered[i].at > now || !ordered[i].decoded { continue; }
      st := TakeSample(st, ordered[i]);
    }
    assert ordered[..|ordered|] == ordered;
    var events, availability := st.events, None;
    if st.points != [] && st.points[0].at < now {
      var covered := st.covered + Min(now - st.at, HEARTBEAT);
      if now - st.at > HEARTBEAT { events := events + [Event(st.at + HEARTBEAT, TelemetryGap)]; }
      availability := Some(covered as real / (now - st.points[0].at) as real * 100.0);
    }
    h := History(st.points, SortBy(events, EventAt), availability);
  }

  // ---------- Gaps ----------

  predicate IsGapEvent(e: Event) { e.kind == TelemetryGap || e.kind == HeartbeatRestored }

  /** The total length of reported gaps: ends minus starts, a gap still open ending at `now`. */
  function GapTime(events: seq<Event>, now: int): int {
    if events == [] then 0
    else
      var front, e := events[..|events| - 1], events[|events| - 1];
      GapTime(front, now) + if e.kind == TelemetryGap then now - e.at else if e.kind == HeartbeatRestored then e.at - now else 0
  }

  lemma {:induction false} GapTimeOfMore(a: seq<Event>, b: seq<Event>, now: int)
    ensures GapTime(a + b, now) == GapTime(a, now) + GapTime(b, now)
  {
    if b == [] {
      assert a + b == a;
    } else {
      var front := b[..|b| - 1];
      GapTimeOfMore(a, front, now);
      assert (a + b)[..|a + b| - 1] == a + front;
    }
  }

  /** Gap and restored events in turn, starting with a gap, at strictly increasing instants. */
  ghost predicate Alternate(events: seq<Event>) {
    && (forall i :: 0 <= i < |events| ==> events[i].kind == if i % 2 == 0 then TelemetryGap else HeartbeatRestored)
    && StrictlySorted(events, EventAt)
  }

  ghost predicate SortedSamples(ordered: seq<Sample>) {
    forall i, j :: 0 <= i < j < |ordered| ==> ordered[i].at <= ordered[j].at
  }

  /** A sample lay at the zero time and a later accepted one did not: the code takes the former
      for "no sample yet" and loses the time between them. */
  predicate LosesTime(st: Scan) {
    st.at != 0 && exists i :: 0 <= i < |st.points| && st.points[i].at == 0
  }

  /** What the loop has accounted for between the first and the last accepted sample. */
  ghost predicate Accounts(st: Scan, now: int) {
    && 0 <= st.covered && 0 <= GapTime(st.events, now)
    && (GapTime(st.events, now) == 0 <==> NoGap(st.events))
    && if st.points == [] then st == START
       else
         var spent := st.covered + GapTime(st.events, now);
         && st.points[|st.points| - 1].at == st.at
         && (forall i, j :: 0 <= i < j < |st.points| ==> st.points[i].at <= st.points[j].at)
         && spent <= st.at - st.points[0].at
         && (spent == st.at - st.points[0].at <==> !LosesTime(st))
  }

  ghost predicate NoGap(events: seq<Event>) {
    forall i :: 0 <= i < |events| ==> events[i].kind != TelemetryGap
  }

  lemma {:induction false} OthersTakeNoTime(events: seq<Event>, now: int)
    requires forall i :: 0 <= i < |events| ==> !IsGapEvent(events[i])
    ensures GapTime(events, now) == 0
  {
    if events != [] { OthersTakeNoTime(events[..|events| - 1], now); }
  }

  lemma GapTimeOfOne(e: Event, now: int)
    ensures GapTime([e], now) == if e.kind == TelemetryGap then now - e.at else if e.kind == HeartbeatRestored then e.at - now else 0
  {
    assert [e][..0] == [];
  }

  lemma GapPairTime(g: Event, r: Event, now: int)
    requires g.kind == TelemetryGap && r.kind == HeartbeatRestored
    ensures GapTime([g, r], now) == r.at - g.at && !NoGap([g, r])
  {
    GapTimeOfMore([g], [r], now);
    GapTimeOfOne(g, now);
    GapTimeOfOne(r, now);
    assert [g] + [r] == [g, r] && [g, r][0] == g;
  }

  lemma NoGapOfMore(a: seq<Event>, b: seq<Event>)
    ensures NoGap(a + b) <==> NoGap(a) && NoGap(b)
  {
    if NoGap(a + b) {
      forall i | 0 <= i < |a| ensures a[i].kind != TelemetryGap { assert (a + b)[i] == a[i]; }
      forall i | 0 <= i < |b| ensures b[i].kind != TelemetryGap { assert (a + b)[|a| + i] == b[i]; }
    }
  }

  lemma MoreEvents(events: seq<Event>, others: seq<Event>, gaps: seq<Event>, now: int)
    requires forall i :: 0 <= i < |others| ==> !IsGapEvent(others[i])
    requires gaps == [] || (|gaps| == 2 && gaps[0].kind == TelemetryGap && gaps[1].kind == HeartbeatRestored)
    ensures GapTime(events + others + gaps, now) == GapTime(events, now) + if gaps == [] then 0 else gaps[1].at - gaps[0].at
    ensures NoGap(events + others + gaps) <==> NoGap(events) && gaps == []
  {
    OthersTakeNoTime(others, now);
    GapTimeOfMore(events + others, gaps, now);
    GapTimeOfMore(events, others, now);
    NoGapOfMore(events + others, gaps);
    NoGapOfMore(events, others);
    if gaps != [] {
      GapPairTime(gaps[0], gaps[1], now);
      assert gaps == [gaps[0], gaps[1]];
    }
  }

  lemma NewEventsOf(st: Scan, s: Sample, now: int)
    ensures GapTime(Take(st, s).events, now) == GapTime(st.events, now) + if GapEvents(st, s) == [] then 0 else s.at - st.at - HEARTBEAT
    ensures NoGap(Take(st, s).events) <==> NoGap(st.events) && GapEvents(st, s) == []
  {
    hide GapTime, NoGap, Rates;
    MoreEvents(st.events, OtherEvents(st, s), GapEvents(st, s), now);
  }

  lemma TakeAccounts(st: Scan, s: Sample, now: int)
    requires Accounts(st, now) && (st.points != [] ==> st.at <= s.at)
    ensures Accounts(Take(st, s), now)
  {
    var next, n := Take(st, s), |st.points|;
    NewEventsOf(st, s, now);
    hide Rates, OtherEvents, GapTime;
    assert next.points[n].at == s.at && forall i :: 0 <= i < n ==> next.points[i] == st.points[i];
    if exists i :: 0 <= i < n && st.points[i].at == 0 {
      var i :| 0 <= i < n && st.points[i].at == 0;
      assert next.points[i].at == 0;
    }
  }

  lemma {:induction false} FoldAccounts(ordered: seq<Sample>, now: int)
    requires SortedSamples(ordered)
    ensures var st := Fold(ordered, now);
      && Accounts(st, now)
      && (st.points != [] ==> st.at <= now && ordered != [] && st.at <= ordered[|ordered| - 1].at)
  {
    if ordered != [] {
      var front := ordered[..|ordered| - 1];
      FoldAccounts(front, now);
      var st, s := Fold(front, now), ordered[|ordered| - 1];
      hide Accounts;
      if Accepted(s, now) { TakeAccounts(st, s, now); }
    }
  }

  /** An accepted sample at the zero instant comes before an accepted later one. */
  ghost predicate ZeroBeforeLater(samples: seq<Sample>, now: int) {
    exists a, b :: a in samples && b in samples && Accepted(a, now) && Accepted(b, now) && a.at == 0 && b.at > 0
  }

  /** Some accepted sample is earlier than now. */
  ghost predicate Observable(samples: seq<Sample>, now: int) {
    exists a :: a in samples && Accepted(a, now) && a.at < now
  }

  ghost predicate PointAt(points: seq<Point>, at: int) {
    exists i :: 0 <= i < |points| && points[i].at == at
  }

  ghost predicate AcceptedAt(samples: seq<Sample>, now: int, at: int) {
    exists a :: a in samples && Accepted(a, now) && a.at == at
  }

  lemma MorePoints(points: seq<Point>, p: Point, at: int)
    ensures PointAt(points + [p], at) <==> PointAt(points, at) || p.at == at
  {
    var all := points + [p];
    assert all[|points|] == p && forall i :: 0 <= i < |points| ==> all[i] == points[i];
  }

  lemma MoreAccepted(samples: seq<Sample>, s: Sample, now: int, at: int)
    ensures AcceptedAt(samples + [s], now, at) <==> AcceptedAt(samples, now, at) || (Accepted(s, now) && s.at == at)
  {
    assert forall a :: a in samples + [s] <==> a in samples || a == s;
  }

  /** There is a point for each accepted sample, and no other. */
  lemma {:induction false} PointsAreAccepted(ordered: seq<Sample>, now: int, at: int)
    ensures PointAt(Fold(ordered, now).points, at) <==> AcceptedAt(ordered, now, at)
  {
    if ordered != [] {
      var front, s := ordered[..|ordered| - 1], ordered[|ordered| - 1];
      PointsAreAccepted(front, now, at);
      MorePoints(Fold(front, now).points, Point(s.at, Rates(Fold(front, now), s)), at);
      MoreAccepted(front, s, now, at);
      assert ordered == front + [s];
      hide PointAt, AcceptedAt, Rates, OtherEvents, GapEvents;
    }
  }

  /** The loop loses time, and measures at all, exactly as the samples say. */
  lemma FoldIsTold(ordered: seq<Sample>, now: int)
    requires SortedSamples(ordered)
    ensures LosesTime(Fold(ordered, now)) <==> ZeroBeforeLater(ordered, now)
    ensures Measured(Fold(ordered, now), now) <==> Observable(ordered, now)
  {
    FoldAccounts(ordered, now);
    var st := Fold(ordered, now);
    forall at ensures PointAt(st.points, at) <==> AcceptedAt(ordered, now, at) { PointsAreAccepted(ordered, now, at); }
    hide Fold, GapTime, NoGap;
    if st.points != [] {
      assert PointAt(st.points, st.points[0].at) && PointAt(st.points, st.at);
      assert AcceptedAt(ordered, now, st.points[0].at) && AcceptedAt(ordered, now, st.at);
    }
    forall a | a in ordered && Accepted(a, now)
      ensures st.points != [] && st.points[0].at <= a.at <= st.at && PointAt(st.points, a.at)
    {
      assert AcceptedAt(ordered, now, a.at);
    }
    if LosesTime(st) {
      assert PointAt(st.points, 0) && AcceptedAt(ordered, now, 0);
    }
  }

  lemma SortedIsTold(samples: seq<Sample>, now: int)
    ensures var ordered := SortBy(samples, SampleAt);
      && SortedSamples(ordered)
      && (ZeroBeforeLater(ordered, now) <==> ZeroBeforeLater(samples, now)) && (Observable(ordered, now) <==> Observable(samples, now))
  {
    SortedInput(samples);
    var ordered := SortBy(samples, SampleAt);
    forall a ensures a in ordered <==> a in samples { SortSorts(samples, SampleAt, a); }
    hide SortBy, SortedSamples;
  }

  /** Covered time plus the reported telemetry gaps is never more than the time since the first
      accepted sample, and it is exactly that time unless an accepted sample at the zero instant is
      followed by a later one. */
  lemma CoverageIsExact(samples: seq<Sample>, now: int)
    requires Observable(samples, now)
    ensures var st := Fold(SortBy(samples, SampleAt), now);
      var spent := Covered(st, now) + GapTime(AllEvents(st, now), now);
      && Measured(st, now) && spent <= now - st.points[0].at
      && (spent == now - st.points[0].at <==> !ZeroBeforeLater(samples, now))
  {
    SortedIsTold(samples, now);
    FoldIsTold(SortBy(samples, SampleAt), now);
    CoverageOfFold(SortBy(samples, SampleAt), now);
    hide Fold, SortBy, GapTime, LosesTime, ZeroBeforeLater, Observable, Covered, AllEvents;
  }

  lemma CoverageOfFold(ordered: seq<Sample>, now: int)
    requires SortedSamples(ordered) && Measured(Fold(ordered, now), now)
    ensures var st := Fold(ordered, now);
      var spent := Covered(st, now) + GapTime(AllEvents(st, now), now);
      && spent <= now - st.points[0].at
      && (spent == now - st.points[0].at <==> !LosesTime(st))
  {
    FoldAccounts(ordered, now);
    var st := Fold(ordered, now);
    GapTimeOfMore(st.events, [Event(st.at + HEARTBEAT, TelemetryGap)], now);
    assert [Event(st.at + HEARTBEAT, TelemetryGap)][..0] == [];
  }

  /** Samples with non-zero timestamps never lose time. */
  lemma NonZeroTimesLoseNothing(samples: seq<Sample>, now: int)
    requires Observable(samples, now) && forall i :: 0 <= i < |samples| ==> samples[i].at != 0
    ensures var st := Fold(SortBy(samples, SampleAt), now);
      Measured(st, now) && Covered(st, now) + GapTime(AllEvents(st, now), now) == now - st.points[0].at
  {
    CoverageIsExact(samples, now);
    hide Fold, SortBy, GapTime, Covered, AllEvents, Observable, Measured;
  }

  /** Observed availability lies between 0 and 100 percent, and it is 100 percent exactly when no
      telemetry gap is reported and no zero instant hides time. */
  lemma AvailabilityIsExact(samples: seq<Sample>, now: int)
    requires Observable(samples, now)
    ensures var st := Fold(SortBy(samples, SampleAt), now);
      var a := Derive(SortBy(samples, SampleAt), now).availability;
      && a.Some? && 0.0 <= a.value <= 100.0
      && (a.value == 100.0 <==> NoGap(AllEvents(st, now)) && !ZeroBeforeLater(samples, now))
  {
    SortedIsTold(samples, now);
    FoldIsTold(SortBy(samples, SampleAt), now);
    AvailabilityOfFold(SortBy(samples, SampleAt), now);
    hide Fold, SortBy, LosesTime, ZeroBeforeLater, Observable, AllEvents, NoGap, Derive;
  }

  lemma AvailabilityOfFold(ordered: seq<Sample>, now: int)
    requires SortedSamples(ordered) && Measured(Fold(ordered, now), now)
    ensures var st := Fold(ordered, now);
      var a := Derive(ordered, now).availability;
      && a.Some? && 0.0 <= a.value <= 100.0
      && (a.value == 100.0 <==> NoGap(AllEvents(st, now)) && !LosesTime(st))
  {
    CoverageOfFold(ordered, now);
    FoldAccounts(ordered, now);
    var st := Fold(ordered, now);
    var open := [Event(st.at + HEARTBEAT, TelemetryGap)];
    GapTimeOfMore(st.events, open, now);
    assert open[..0] == [];
    var total := now - st.points[0].at;
    if AllEvents(st, now) != st.events { assert (st.events + open)[|st.events|].kind == TelemetryGap; }
    PercentIsExact(Covered(st, now), total);
  }

  /** The losing input in full: of a sample at the zero instant and any later one, everything up to the
      later one is lost, and no gap is reported for it. */
  lemma ZeroSampleLosesTime(first: Sample, second: Sample, now: int)
    requires first.decoded && second.decoded && first.at == 0 < second.at <= now
    ensures SortBy([first, second], SampleAt) == [first, second]
    ensures var st := Fold([first, second], now);
      && Measured(st, now) && st.points[0].at == 0
      && Covered(st, now) + GapTime(AllEvents(st, now), now) == now - second.at
      && (now - second.at <= HEARTBEAT ==> NoGap(AllEvents(st, now)))
  {
    SortedStays([first, second], SampleAt);
    TwoSamples(first, second, now);
    var st := Fold([first, second], now);
    hide Fold, Take, Rates, SortBy;
    var open := [Event(st.at + HEARTBEAT, TelemetryGap)];
    OthersTakeNoTime(st.events, now);
    GapTimeOfMore(st.events, open, now);
    GapTimeOfOne(open[0], now);
  }

  lemma TwoSamples(first: Sample, second: Sample, now: int)
    requires first.decoded && second.decoded && first.at == 0 < second.at <= now
    ensures var st := Fold([first, second], now);
      && |st.points| == 2 && st.points[0].at == 0 && st.at == second.at && st.covered == 0
      && forall i :: 0 <= i < |st.events| ==> !IsGapEvent(st.events[i])
  {
    var ordered, single := [first, second], [first];
    assert ordered[..|ordered| - 1] == single && single[..|single| - 1] == [];
    hide Rates;
    assert Fold([], now) == START;
    assert single[|single| - 1] == first && ordered[|ordered| - 1] == second;
    var one := Fold(single, now);
    assert one == Take(START, first);
    assert Fold(ordered, now) == Take(one, second);
    assert GapEvents(START, first) == [] && GapEvents(one, second) == [];
    assert OtherEvents(START, first) == [];
    assert one.events == [];
    var st := Fold(ordered, now);
    assert st.events == OtherEvents(one, second);
  }

  lemma PercentIsExact(part: int, total: int)
    requires 0 <= part <= total && 0 < total
    ensures var p := part as real / total as real * 100.0; 0.0 <= p <= 100.0 && (p == 100.0 <==> part == total)
  {
    var t := total as real;
    var q := part as real / t;
    assert q * t == part as real;
    if q > 1.0 { TimesMore(q, 1.0, t); }
    if q < 1.0 { TimesMore(1.0, q, t); }
    QuotientIsPositive(part as real, t);
  }

  lemma TimesMore(a: real, b: real, t: real)
    requires a > b && t > 0.0
    ensures a * t > b * t
  {
  }

  // ---------- The order of gap events ----------

  lemma PairAlternates(events: seq<Event>, gap: Event, restored: Event)
    requires Alternate(events) && |events| % 2 == 0 && forall i :: 0 <= i < |events| ==> events[i].at < gap.at
    requires gap.kind == TelemetryGap && restored.kind == HeartbeatRestored && gap.at < restored.at
    ensures Alternate(events + [gap, restored]) && |events + [gap, restored]| % 2 == 0
  {
    var all := events + [gap, restored];
    forall i | 0 <= i < |all| ensures all[i].kind == if i % 2 == 0 then TelemetryGap else HeartbeatRestored {
      if i < |events| { assert all[i] == events[i]; }
    }
  }

  /** The gap events so far alternate, are closed, and lie no later than `at`. */
  ghost predicate ClosedGaps(events: seq<Event>, at: int) {
    Alternate(events) && |events| % 2 == 0 && forall i :: 0 <= i < |events| ==> events[i].at <= at
  }

  lemma TakeAlternates(st: Scan, s: Sample)
    requires ClosedGaps(Filter(st.events, IsGapEvent), st.at)
    requires st.points != [] ==> st.at <= s.at
    requires st.points == [] ==> st == START
    ensures ClosedGaps(Filter(Take(st, s).events, IsGapEvent), s.at)
  {
    var before, gaps := Filter(st.events, IsGapEvent), GapEvents(st, s);
    FilterNewEvents(st.events, OtherEvents(st, s), gaps);
    hide Rates, OtherEvents, Alternate;
    if gaps != [] {
      hide Filter;
      PairAlternates(before, gaps[0], gaps[1]);
      assert gaps == [gaps[0], gaps[1]];
    } else {
      assert before + gaps == before;
      assert st.points == [] ==> before == [];
    }
  }

  lemma {:induction false} FilterAllOrNone(events: seq<Event>, gaps: bool)
    requires forall i :: 0 <= i < |events| ==> IsGapEvent(events[i]) == gaps
    ensures Filter(events, IsGapEvent) == if gaps then events else []
  {
    if events != [] {
      var front, last := events[..|events| - 1], events[|events| - 1];
      FilterAllOrNone(front, gaps);
      assert events == front + [last];
    }
  }

  lemma FilterNewEvents(events: seq<Event>, others: seq<Event>, gaps: seq<Event>)
    requires forall i :: 0 <= i < |others| ==> !IsGapEvent(others[i])
    requires forall i :: 0 <= i < |gaps| ==> IsGapEvent(gaps[i])
    ensures Filter(events + others + gaps, IsGapEvent) == Filter(events, IsGapEvent) + gaps
  {
    hide Filter;
    FilterOfMore(events + others, gaps, IsGapEvent);
    FilterOfMore(events, others, IsGapEvent);
    FilterAllOrNone(others, false);
    FilterAllOrNone(gaps, true);
    assert Filter(events, IsGapEvent) + [] == Filter(events, IsGapEvent);
  }

  lemma {:induction false} FoldAlternates(ordered: seq<Sample>, now: int)
    requires SortedSamples(ordered)
    ensures var st := Fold(ordered, now);
      ClosedGaps(Filter(st.events, IsGapEvent), st.at)
  {
    if ordered != [] {
      var front := ordered[..|ordered| - 1];
      FoldAlternates(front, now);
      FoldAccounts(front, now);
      hide ClosedGaps, Filter, GapTime, NoGap, LosesTime, Take;
      if Accepted(ordered[|ordered| - 1], now) { TakeAlternates(Fold(front, now), ordered[|ordered| - 1]); }
    }
  }

  /** In the sorted timeline gap and restored events alternate, starting with a gap, however many
      other events share their instants. */
  lemma GapEventsAlternate(ordered: seq<Sample>, now: int)
    requires SortedSamples(ordered)
    ensures Alternate(Filter(Derive(ordered, now).events, IsGapEvent))
  {
    hide Fold, Filter, SortBy, Alternate, Sorted;
    var st := Fold(ordered, now);
    FoldAlternates(ordered, now);
    FilterAppend(st.events, Event(st.at + HEARTBEAT, TelemetryGap), IsGapEvent);
    var gaps := Filter(AllEvents(st, now), IsGapEvent);
    OpenGapAlternates(Filter(st.events, IsGapEvent), st.at);
    assert Alternate(gaps);
    SortFilters(AllEvents(st, now), EventAt, IsGapEvent);
    AlternateIsSorted(gaps);
    SortedStays(gaps, EventAt);
  }

  lemma OpenGapAlternates(gaps: seq<Event>, at: int)
    requires ClosedGaps(gaps, at)
    ensures Alternate(gaps + [Event(at + HEARTBEAT, TelemetryGap)])
  {
    var all := gaps + [Event(at + HEARTBEAT, TelemetryGap)];
    forall i | 0 <= i < |all| ensures all[i].kind == if i % 2 == 0 then TelemetryGap else HeartbeatRestored {
      if i < |gaps| { assert all[i] == gaps[i]; }
    }
  }

  lemma AlternateIsSorted(gaps: seq<Event>)
    requires Alternate(gaps)
    ensures Sorted(gaps, EventAt)
  {
  }

  // ---------- Rates ----------

  /** A rate is only computed between two accepted samples at most 120 seconds apart, and is never negative. */
  ghost predicate RatesOk(points: seq<Point>) {
    forall i :: 0 <= i < |points| && points[i].rates.Some? ==>
      && 0 < i && 0 < points[i].at - points[i - 1].at <= HEARTBEAT
      && points[i].rates.value.0 >= 0.0 && points[i].rates.value.1 >= 0.0
  }

  lemma RateIsSafe(st: Scan, s: Sample)
    ensures Rates(st, s).Some? ==> st.counters.Some? && 0 < s.at - st.at <= HEARTBEAT && Rates(st, s).value.0 >= 0.0 && Rates(st, s).value.1 >= 0.0
  {
    if Rates(st, s).Some? {
      var seconds := (s.at - st.at) as real / SECOND as real;
      assert seconds > 0.0;
      QuotientIsPositive((s.counters.value.0 - st.counters.value.0) * 8.0, seconds);
      QuotientIsPositive((s.counters.value.1 - st.counters.value.1) * 8.0, seconds);
    }
  }

  lemma QuotientIsPositive(a: real, b: real)
    requires a >= 0.0 && b > 0.0
    ensures a / b >= 0.0
  {
  }

  lemma {:induction false} RatesAreSafe(ordered: seq<Sample>, now: int)
    requires SortedSamples(ordered)
    ensures RatesOk(Fold(ordered, now).points)
  {
    if ordered != [] {
      var front := ordered[..|ordered| - 1];
      RatesAreSafe(front, now);
      FoldAccounts(front, now);
      var st, s := Fold(front, now), ordered[|ordered| - 1];
      RateIsSafe(st, s);
      MoreRates(st.points, Point(s.at, Rates(st, s)), st.at);
      hide Rates, RatesOk, GapTime, NoGap, LosesTime, OtherEvents, GapEvents;
    }
  }

  lemma MoreRates(points: seq<Point>, p: Point, at: int)
    requires RatesOk(points) && (points != [] ==> points[|points| - 1].at == at)
    requires p.rates.Some? ==> points != [] && 0 < p.at - at <= HEARTBEAT && p.rates.value.0 >= 0.0 && p.rates.value.1 >= 0.0
    ensures RatesOk(points + [p])
  {
  }

  /** Sorting the samples first gives the order that the other results ask for. */
  lemma SortedInput(samples: seq<Sample>)
    ensures SortedSamples(SortBy(samples, SampleAt))
  {
    if samples != [] { SortSorts(samples, SampleAt, samples[0]); }
    var ordered := SortBy(samples, SampleAt);
    forall i, j | 0 <= i < j < |ordered| ensures ordered[i].at <= ordered[j].at {
      assert SampleAt(ordered[i]) <= SampleAt(ordered[j]);
    }
  }
}
