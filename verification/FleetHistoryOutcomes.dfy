/** Every point and every event of a derived history, told from the accepted samples two by two. */
module FleetHistoryOutcomes {
  import opened Text
  import opened Units
  import opened Sorting
  import opened FleetHistory

  /** The accepted samples in order. */
  function Taken(ordered: seq<Sample>, now: int): seq<Sample> {
    if ordered == [] then []
    else
      var front, s := Taken(ordered[..|ordered| - 1], now), ordered[|ordered| - 1];
      if s.at <= now && s.decoded then front + [s] else front
  }

  lemma {:induction false} TakenAreAccepted(ordered: seq<Sample>, now: int, s: Sample)
    ensures s in Taken(ordered, now) <==> s in ordered && s.at <= now && s.decoded
  {
    if ordered != [] {
      TakenAreAccepted(ordered[..|ordered| - 1], now, s);
      assert ordered == ordered[..|ordered| - 1] + [ordered[|ordered| - 1]];
    }
  }

  // ---------- Rates ----------

  /** Two successive samples allow a rate: the same interface with counters that did not fall, no reboot between
      them, and no more than 120 seconds. */
  predicate Comparable(p: Sample, s: Sample) {
    && !(p.uptime.Some? && s.uptime.Some? && s.uptime.value < p.uptime.value)
    && s.iface != "" && s.iface == p.iface && p.counters.Some? && s.counters.Some?
    && p.at < s.at <= p.at + 120 * SECOND
    && p.counters.value.0 <= s.counters.value.0 && p.counters.value.1 <= s.counters.value.1
  }

  /** Bits per second: the rate times the elapsed time is eight times the difference of the counters. */
  ghost predicate IsRate(rates: (real, real), p: Sample, s: Sample)
    requires Comparable(p, s)
  {
    var elapsed, second := (s.at - p.at) as real, SECOND as real;
    && rates.0 * elapsed == (s.counters.value.0 - p.counters.value.0) * 8.0 * second
    && rates.1 * elapsed == (s.counters.value.1 - p.counters.value.1) * 8.0 * second
  }

  /** The point of the `i`-th accepted sample. */
  ghost predicate IsPoint(taken: seq<Sample>, i: nat, point: Point)
    requires i < |taken|
  {
    && point.at == taken[i].at
    && (point.rates.Some? <==> i > 0 && Comparable(taken[i - 1], taken[i]))
    && (point.rates.Some? ==> IsRate(point.rates.value, taken[i - 1], taken[i]))
  }

  ghost predicate PointsFollow(points: seq<Point>, taken: seq<Sample>) {
    |points| == |taken| && forall i :: 0 <= i < |taken| ==> IsPoint(taken, i, points[i])
  }

  /** The loop remembers the last accepted sample. */
  predicate Remembers(st: Scan, taken: seq<Sample>) {
    if taken == [] then st == START
    else
      var s := taken[|taken| - 1];
      st.uptime == s.uptime && st.ip == s.ip && st.iface == s.iface && st.at == s.at && st.counters == s.counters
  }

  lemma Divides(a: real, elapsed: real, second: real)
    requires elapsed > 0.0 && second > 0.0
    ensures a / (elapsed / second) * elapsed == a * second
  {
    var q := elapsed / second;
    assert q * second == elapsed;
    assert q > 0.0;
    assert a / q * q == a;
    assert a / q * elapsed == a / q * (q * second) == (a / q * q) * second;
  }

  lemma RatesAreExact(st: Scan, p: Sample, s: Sample)
    requires st.uptime == p.uptime && st.ip == p.ip && st.iface == p.iface && st.at == p.at && st.counters == p.counters
    ensures Rates(st, s).Some? <==> Comparable(p, s)
    ensures Rates(st, s).Some? ==> IsRate(Rates(st, s).value, p, s)
  {
    if Comparable(p, s) {
      var elapsed := (s.at - p.at) as real;
      Divides((s.counters.value.0 - p.counters.value.0) * 8.0, elapsed, SECOND as real);
      Divides((s.counters.value.1 - p.counters.value.1) * 8.0, elapsed, SECOND as real);
    }
  }

  lemma NextPoint(st: Scan, taken: seq<Sample>, s: Sample)
    requires Remembers(st, taken)
    ensures IsPoint(taken + [s], |taken|, Point(s.at, Rates(st, s)))
  {
    if taken != [] {
      RatesAreExact(st, taken[|taken| - 1], s);
      hide Rates, IsRate, Comparable;
      assert (taken + [s])[|taken| - 1] == taken[|taken| - 1];
    }
  }

  lemma PointsGrow(points: seq<Point>, taken: seq<Sample>, s: Sample, p: Point)
    requires PointsFollow(points, taken) && IsPoint(taken + [s], |taken|, p)
    ensures PointsFollow(points + [p], taken + [s])
  {
    hide IsRate, Comparable;
    var all := taken + [s];
    forall i | 0 <= i < |all| ensures IsPoint(all, i, (points + [p])[i]) {
      if i < |taken| {
        assert IsPoint(taken, i, points[i]) && all[i] == taken[i];
        if i > 0 { assert all[i - 1] == taken[i - 1]; }
      }
    }
  }

  // ---------- Events ----------

  /** The event that two successive samples report. */
  predicate Reports(p: Sample, s: Sample, e: Event) {
    match e.kind
    case RebootObserved => e.at == s.at && p.uptime.Some? && s.uptime.Some? && s.uptime.value < p.uptime.value
    case WanIpChanged => e.at == s.at && p.ip != "" && s.ip != "" && s.ip != p.ip
    case TelemetryGap => e.at == p.at + 120 * SECOND && p.at != 0 && s.at - p.at > 120 * SECOND
    case HeartbeatRestored => e.at == s.at && p.at != 0 && s.at - p.at > 120 * SECOND
  }

  ghost predicate Reported(taken: seq<Sample>, e: Event) {
    exists i :: 0 < i < |taken| && Reports(taken[i - 1], taken[i], e)
  }

  lemma ReportsMore(taken: seq<Sample>, s: Sample, e: Event)
    ensures Reported(taken + [s], e) <==> Reported(taken, e) || (taken != [] && Reports(taken[|taken| - 1], s, e))
  {
    hide Reports;
    var all := taken + [s];
    if Reported(taken, e) {
      var i :| 0 < i < |taken| && Reports(taken[i - 1], taken[i], e);
      assert all[i - 1] == taken[i - 1] && all[i] == taken[i];
    }
    if taken != [] && Reports(taken[|taken| - 1], s, e) {
      assert all[|taken| - 1] == taken[|taken| - 1] && all[|taken|] == s;
    }
    if Reported(all, e) {
      var i :| 0 < i < |all| && Reports(all[i - 1], all[i], e);
      if i < |taken| { assert all[i - 1] == taken[i - 1] && all[i] == taken[i]; }
      else { assert all[i] == s && all[i - 1] == taken[|taken| - 1]; }
    }
  }

  lemma NewEventsAreReported(st: Scan, taken: seq<Sample>, s: Sample, e: Event)
    requires Remembers(st, taken)
    ensures e in OtherEvents(st, s) || e in GapEvents(st, s) <==> taken != [] && Reports(taken[|taken| - 1], s, e)
  {
  }

  lemma {:induction false} FoldFollows(ordered: seq<Sample>, now: int, e: Event)
    ensures var st, taken := Fold(ordered, now), Taken(ordered, now);
      Remembers(st, taken) && PointsFollow(st.points, taken) && (e in st.events <==> Reported(taken, e))
  {
    if ordered != [] {
      var front, s := ordered[..|ordered| - 1], ordered[|ordered| - 1];
      FoldFollows(front, now, e);
      var st, taken := Fold(front, now), Taken(front, now);
      if Accepted(s, now) {
        NextPoint(st, taken, s);
        PointsGrow(st.points, taken, s, Point(s.at, Rates(st, s)));
        NewEventsAreReported(st, taken, s, e);
        ReportsMore(taken, s, e);
        hide PointsFollow, Reported, Reports, OtherEvents, GapEvents, Rates;
        assert Take(st, s).events == st.events + OtherEvents(st, s) + GapEvents(st, s);
      }
    }
  }

  /** The history has one point per accepted sample, in order, with a rate exactly where two successive samples
      allow one, and it is the difference of the counters in bits per second. */
  lemma PointsAreExact(samples: seq<Sample>, now: int)
    ensures var ordered := SortBy(samples, SampleAt);
      PointsFollow(Derive(ordered, now).points, Taken(ordered, now))
  {
    FoldFollows(SortBy(samples, SampleAt), now, Event(0, TelemetryGap));
    hide Fold, PointsFollow, Taken, SortBy;
  }

  /** The gap that is open at `now`. */
  predicate OpenGap(taken: seq<Sample>, now: int, e: Event) {
    && taken != [] && taken[0].at < now && e.kind == TelemetryGap
    && e.at == taken[|taken| - 1].at + 120 * SECOND && now - taken[|taken| - 1].at > 120 * SECOND
  }

  lemma AllEventsAreExact(ordered: seq<Sample>, now: int, e: Event)
    ensures e in AllEvents(Fold(ordered, now), now) <==> Reported(Taken(ordered, now), e) || OpenGap(Taken(ordered, now), now, e)
  {
    hide Fold, Taken, Reported, SortBy;
    FoldFollows(ordered, now, e);
    var st, taken := Fold(ordered, now), Taken(ordered, now);
    if taken != [] { assert IsPoint(taken, 0, st.points[0]); }
    hide IsPoint, PointsFollow;
    PointsAreAsMany(ordered, now);
  }

  lemma PointsAreAsMany(ordered: seq<Sample>, now: int)
    ensures |Fold(ordered, now).points| == |Taken(ordered, now)|
  {
    FoldFollows(ordered, now, Event(0, TelemetryGap));
  }

  /** The history has an event exactly where two successive accepted samples report it, or a gap is open now. */
  lemma EventsAreExact(samples: seq<Sample>, now: int, e: Event)
    ensures var ordered := SortBy(samples, SampleAt);
      e in Derive(ordered, now).events <==> Reported(Taken(ordered, now), e) || OpenGap(Taken(ordered, now), now, e)
  {
    hide Fold, Taken, Reported, OpenGap, SortBy, AllEvents, Measured, Covered;
    var ordered := SortBy(samples, SampleAt);
    AllEventsAreExact(ordered, now, e);
    SortSorts(AllEvents(Fold(ordered, now), now), EventAt, e);
    hide Sorted;
  }

  /** Availability is the share of the observed time that lies outside the reported gaps, in percent. */
  lemma AvailabilityIsShare(samples: seq<Sample>, now: int)
    requires Observable(samples, now) && !ZeroBeforeLater(samples, now)
    ensures var ordered := SortBy(samples, SampleAt);
      var st, a := Fold(ordered, now), Derive(ordered, now).availability;
      && Measured(st, now) && st.points != [] && a.Some?
      && var total := now - st.points[0].at;
        a.value * total as real == (total - GapTime(AllEvents(st, now), now)) as real * 100.0
  {
    hide Fold, SortBy, GapTime, AllEvents, Covered, Observable, ZeroBeforeLater, Derive, Measured;
    CoverageIsExact(samples, now);
    AvailabilityIs(SortBy(samples, SampleAt), now);
  }

  lemma AvailabilityIs(ordered: seq<Sample>, now: int)
    requires Measured(Fold(ordered, now), now)
    ensures var st, a := Fold(ordered, now), Derive(ordered, now).availability;
      a.Some? && st.points != [] && a.value * (now - st.points[0].at) as real == Covered(st, now) as real * 100.0
  {
    hide Fold, SortBy, AllEvents, Covered;
    var st := Fold(ordered, now);
    ShareTimes(Covered(st, now) as real, (now - st.points[0].at) as real);
  }

  lemma ShareTimes(part: real, total: real)
    requires total > 0.0
    ensures part / total * 100.0 * total == part * 100.0
  {
    var q := part / total;
    assert q * total == part;
    assert q * 100.0 * total == (q * total) * 100.0;
  }
}
