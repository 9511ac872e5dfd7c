/**
 The limiter in front of login and password reset. Requests overlap: each asks `Allow`,
 works for a while, and then records `Fail`, records `Success` or leaves without either.
 Mutual exclusion makes every call one atomic step, so a run is a sequence of calls
 under a clock that does not go back.
 */
module RateLimiter {
  import opened Text

  datatype Attempt = Attempt(count: nat, resetAt: int)

  type Attempts = map<string, Attempt>

  predicate Expired(a: Attempt, now: int) {
    now > a.resetAt
  }

  function Purged(t: Attempts, now: int): Attempts {
    map k | k in t && !Expired(t[k], now) :: t[k]
  }

  const PURGE_ABOVE: nat := 1024

  function Allows(t: Attempts, limit: int, key: string, now: int): bool {
    key !in t || Expired(t[key], now) || t[key].count < limit
  }

  function AfterAllow(t: Attempts, key: string, now: int): Attempts {
    if key in t && Expired(t[key], now) then t - {key} else t
  }

  function Counted(t: Attempts, window: nat, key: string, now: int): Attempts {
    if key !in t || Expired(t[key], now) then t[key := Attempt(1, now + window)]
    else t[key := t[key].(count := t[key].count + 1)]
  }

  function AfterFail(t: Attempts, window: nat, key: string, now: int): Attempts {
    Counted(if |t| > PURGE_ABOVE then Purged(t, now) else t, window, key, now)
  }

  class LoginRateLimiter {
    const limit: int
    const window: nat
    var attempts: Attempts

    constructor (limit: int, window: nat)
      ensures this.limit == limit && this.window == window && attempts == map[]
    {
      this.limit, this.window, attempts := limit, window, map[];
    }

    method Allow(key: string, now: int) returns (ok: bool)
      modifies this
      ensures ok == Allows(old(attempts), limit, key, now)
      ensures attempts == AfterAllow(old(attempts), key, now)
    {
      if key in attempts && Expired(attempts[key], now) {
        attempts := attempts - {key};
        return true;
      }
      ok := key !in attempts || attempts[key].count < limit;
    }

    method Purge(now: int)
      modifies this
      ensures attempts == Purged(old(attempts), now)
    {
      var todo := attempts.Keys;
      while todo != {}
        invariant todo <= attempts.Keys
        invariant forall k :: k in attempts ==> k in old(attempts) && attempts[k] == old(attempts)[k]
        invariant forall k :: k in old(attempts) && !Expired(old(attempts)[k], now) ==> k in attempts
        invariant forall k :: k in attempts && k !in todo ==> !Expired(attempts[k], now)
        decreases |todo|
      {
        var candidate :| candidate in todo;
        if Expired(attempts[candidate], now) {
          attempts := attempts - {candidate};
        }
        todo := todo - {candidate};
      }
    }

    method Fail(key: string, now: int)
      modifies this
      ensures attempts == AfterFail(old(attempts), window, key, now)
    {
      if |attempts| > PURGE_ABOVE {
        Purge(now);
      }
      var attempt := Attempt(0, now + window);
      if key in attempts && !Expired(attempts[key], now) {
        attempt := attempts[key];
      }
      attempts := attempts[key := attempt.(count := attempt.count + 1)];
    }

    method Success(key: string)
      modifies this
      ensures attempts == old(attempts) - {key}
    {
      attempts := attempts - {key};
    }
  }

  // ---------- Purging is invisible ----------

  datatype Call = Allow(key: string, now: int) | Fail(key: string, now: int) | Success(key: string, now: int)

  /** One call; the table may be purged above `purgeAbove` entries, or never. */
  function Called(t: Attempts, window: nat, call: Call, purgeAbove: Option<nat>): Attempts {
    match call
    case Allow(key, now) => AfterAllow(t, key, now)
    case Fail(key, now) =>
      Counted(if purgeAbove.Some? && |t| > purgeAbove.value then Purged(t, now) else t, window, key, now)
    case Success(key, _) => t - {key}
  }

  /** What the `Allow` calls of a run answer, one after the other. */
  function Answers(t: Attempts, limit: int, window: nat, calls: seq<Call>, purgeAbove: Option<nat>): seq<bool>
    decreases |calls|
  {
    if calls == [] then []
    else
      (if calls[0].Allow? then [Allows(t, limit, calls[0].key, calls[0].now)] else [])
      + Answers(Called(t, window, calls[0], purgeAbove), limit, window, calls[1..], purgeAbove)
  }

  ghost predicate InOrder(calls: seq<Call>, clock: int) {
    (calls != [] ==> clock <= calls[0].now) && forall i, j :: 0 <= i < j < |calls| ==> calls[i].now <= calls[j].now
  }

  /** The entry that still matters: an expired one is as good as none. */
  function Live(t: Attempts, key: string, now: int): Option<Attempt> {
    if key in t && !Expired(t[key], now) then Some(t[key]) else None
  }

  ghost predicate Alike(a: Attempts, b: Attempts, now: int) {
    forall k :: Live(a, k, now) == Live(b, k, now)
  }

  lemma AlikeLater(a: Attempts, b: Attempts, now: int, later: int)
    requires Alike(a, b, now) && now <= later
    ensures Alike(a, b, later)
  {
    forall k ensures Live(a, k, later) == Live(b, k, later) {
      assert Live(a, k, now) == Live(b, k, now);
    }
  }

  lemma AlikeAfterCall(a: Attempts, b: Attempts, window: nat, call: Call, p: Option<nat>, q: Option<nat>)
    requires Alike(a, b, call.now)
    ensures Alike(Called(a, window, call, p), Called(b, window, call, q), call.now)
  {
    var a', b' := Called(a, window, call, p), Called(b, window, call, q);
    forall k ensures Live(a', k, call.now) == Live(b', k, call.now) {
      assert Live(a, k, call.now) == Live(b, k, call.now);
      assert Live(a, call.key, call.now) == Live(b, call.key, call.now);
    }
  }

  /** Tables that differ only in expired entries answer every later call alike, whenever either is purged. */
  lemma {:induction false} AlikeTablesAnswerAlike(
    a: Attempts, b: Attempts, limit: int, window: nat, calls: seq<Call>, clock: int, p: Option<nat>, q: Option<nat>)
    requires Alike(a, b, clock) && InOrder(calls, clock)
    ensures Answers(a, limit, window, calls, p) == Answers(b, limit, window, calls, q)
    decreases |calls|
  {
    if calls != [] {
      var call := calls[0];
      AlikeLater(a, b, clock, call.now);
      assert Live(a, call.key, call.now) == Live(b, call.key, call.now);
      AlikeAfterCall(a, b, window, call, p, q);
      AlikeTablesAnswerAlike(Called(a, window, call, p), Called(b, window, call, q), limit, window, calls[1..], call.now, p, q);
    }
  }

  /** Purging above 1024 entries never changes an answer of any run of calls. */
  lemma PurgingIsInvisible(t: Attempts, limit: int, window: nat, calls: seq<Call>, clock: int)
    requires InOrder(calls, clock)
    ensures Answers(t, limit, window, calls, Some(PURGE_ABOVE)) == Answers(t, limit, window, calls, None)
  {
    AlikeTablesAnswerAlike(t, t, limit, window, calls, clock, Some(PURGE_ABOVE), None);
  }

  function Name(n: nat): string {
    if n == 0 then "" else Name(n - 1) + "x"
  }

  /** `n` keys, each refused until time 10. */
  function Crowd(n: nat): Attempts {
    if n == 0 then map[] else Crowd(n - 1)[Name(n) := Attempt(1, 10)]
  }

  lemma {:induction false} NameHasLength(n: nat)
    ensures |Name(n)| == n
  {
    if n > 0 { NameHasLength(n - 1); }
  }

  lemma {:induction false} CrowdIsLarge(n: nat)
    ensures |Crowd(n)| == n
    ensures forall k :: k in Crowd(n) ==> 0 < |k| <= n && Crowd(n)[k] == Attempt(1, 10)
    ensures n > 0 ==> Name(1) in Crowd(n)
  {
    if n > 0 {
      CrowdIsLarge(n - 1);
      NameHasLength(n);
      assert Name(n) !in Crowd(n - 1);
      assert Crowd(n).Keys == Crowd(n - 1).Keys + {Name(n)};
    }
  }

  lemma PurgingFreesKey(t: Attempts, a: string)
    requires |t| > PURGE_ABOVE && a in t && t[a] == Attempt(1, 10) && a != ""
    ensures var calls := [Fail("", 20), Allow(a, 5)];
      Answers(t, 1, 10, calls, None) == [false] && Answers(t, 1, 10, calls, Some(PURGE_ABOVE)) == [true]
  {
    var calls := [Fail("", 20), Allow(a, 5)];
    var kept := Called(t, 10, calls[0], None);
    var purged := Called(t, 10, calls[0], Some(PURGE_ABOVE));
    assert kept[a] == Attempt(1, 10) && a !in purged;
    assert calls[1..] == [Allow(a, 5)] && calls[1..][1..] == [];
    assert Answers(kept, 1, 10, calls[1..], None) == [false];
    assert Answers(purged, 1, 10, calls[1..], Some(PURGE_ABOVE)) == [true];
  }

  /** The clock matters: should it go back, purging above 1024 entries frees a key that would still be refused. */
  lemma PurgingShowsWhenClockGoesBack(n: nat)
    requires n > PURGE_ABOVE
    ensures exists calls: seq<Call> :: Answers(Crowd(n), 1, 10, calls, Some(PURGE_ABOVE)) != Answers(Crowd(n), 1, 10, calls, None)
  {
    hide Crowd, Answers;
    CrowdIsLarge(n);
    NameHasLength(1);
    PurgingFreesKey(Crowd(n), Name(1));
  }

  // ---------- How many attempts pass ----------

  /** At most `overlap` requests for one key are between their `Allow` and their end. */
  datatype Config = Config(limit: int, window: nat, overlap: nat)

  /** The table beside what the outside sees: requests under way, and recorded attempts since the last success. */
  datatype World = World(attempts: Attempts, underWay: map<string, nat>, recorded: map<string, seq<int>>, clock: int)

  datatype Step = Ask(key: string, now: int) | Record(key: string, now: int) | Succeed(key: string, now: int) | Leave(key: string, now: int)

  function UnderWay(w: World, key: string): nat {
    if key in w.underWay then w.underWay[key] else 0
  }

  function Recorded(w: World, key: string): seq<int> {
    if key in w.recorded then w.recorded[key] else []
  }

  ghost predicate Possible(c: Config, w: World, step: Step) {
    w.clock <= step.now
    && (if step.Ask? then Allows(w.attempts, c.limit, step.key, step.now) ==> UnderWay(w, step.key) < c.overlap
        else UnderWay(w, step.key) > 0)
  }

  function Apply(c: Config, w: World, step: Step): World
    requires step.Ask? || UnderWay(w, step.key) > 0
  {
    var k, now := step.key, step.now;
    match step
    case Ask(_, _) =>
      w.(attempts := AfterAllow(w.attempts, k, now), clock := now,
         underWay := if Allows(w.attempts, c.limit, k, now) then w.underWay[k := UnderWay(w, k) + 1] else w.underWay)
    case Record(_, _) =>
      w.(attempts := AfterFail(w.attempts, c.window, k, now), clock := now,
         underWay := w.underWay[k := UnderWay(w, k) - 1], recorded := w.recorded[k := Recorded(w, k) + [now]])
    case Succeed(_, _) =>
      w.(attempts := w.attempts - {k}, clock := now,
         underWay := w.underWay[k := UnderWay(w, k) - 1], recorded := w.recorded[k := []])
    case Leave(_, _) =>
      w.(clock := now, underWay := w.underWay[k := UnderWay(w, k) - 1])
  }

  ghost predicate IsRun(c: Config, run: seq<World>, steps: seq<Step>) {
    |run| == |steps| + 1
    && run[0].attempts == map[] && run[0].underWay == map[] && run[0].recorded == map[]
    && forall i :: 0 <= i < |steps| ==> Possible(c, run[i], steps[i]) && run[i + 1] == Apply(c, run[i], steps[i])
  }

  /** The recorded attempts no earlier than `from` and no later than `from + window`. */
  function Within(times: seq<int>, from: int, window: nat): nat {
    if times == [] then 0
    else Within(times[..|times| - 1], from, window) + (if from <= times[|times| - 1] <= from + window then 1 else 0)
  }

  lemma WithinOneMore(times: seq<int>, t: int, from: int, window: nat)
    ensures Within(times + [t], from, window)
         == Within(times, from, window) + (if from <= t <= from + window then 1 else 0)
  {
    assert (times + [t])[..|times|] == times;
  }

  lemma {:induction false} NothingWithin(times: seq<int>, from: int, window: nat)
    requires forall i :: 0 <= i < |times| ==> times[i] < from
    ensures Within(times, from, window) == 0
  {
    if times != [] { NothingWithin(times[..|times| - 1], from, window); }
  }

  /** One key's share of the world. */
  datatype View = View(entry: Option<Attempt>, underWay: nat, recorded: seq<int>, clock: int)

  function ViewOf(w: World, key: string): View {
    View(if key in w.attempts then Some(w.attempts[key]) else None, UnderWay(w, key), Recorded(w, key), w.clock)
  }

  function Count(v: View): nat {
    if v.entry.Some? then v.entry.value.count else 0
  }

  /** The most one entry can count before it expires. */
  function PerEntry(c: Config): nat {
    (if c.limit > 1 then c.limit - 1 else 0) + c.overlap
  }

  /** Attempts from `from` on all sit in the current entry, or in it and one entry before it. */
  ghost predicate Placed(c: Config, v: View, from: int) {
    var n := Within(v.recorded, from, c.window);
    n <= 2 * PerEntry(c)
    && (v.clock <= from + c.window ==>
          n <= Count(v)
          || (n <= PerEntry(c) + Count(v) && (v.entry.Some? ==> v.entry.value.resetAt >= from + c.window)))
  }

  /** The entry counts the latest attempts, none of them older than the window. */
  ghost predicate Sourced(c: Config, v: View) {
    (forall i :: 0 <= i < |v.recorded| ==> v.recorded[i] <= v.clock)
    && (v.entry.Some? ==>
          v.entry.value.resetAt <= v.clock + c.window
          && Count(v) <= |v.recorded|
          && forall i :: |v.recorded| - Count(v) <= i < |v.recorded| ==> v.recorded[i] >= v.entry.value.resetAt - c.window)
  }

  ghost predicate ViewOk(c: Config, v: View) {
    Count(v) + v.underWay <= PerEntry(c) && Sourced(c, v) && forall from :: Placed(c, v, from)
  }

  /** Time passes, and the entry goes at most when it has expired. */
  ghost predicate Ages(v: View, v': View) {
    v.clock <= v'.clock && v'.recorded == v.recorded && v'.underWay <= v.underWay
    && (v'.entry == v.entry || (v.entry.Some? && Expired(v.entry.value, v'.clock) && v'.entry == None))
  }

  lemma AgeKeeps(c: Config, v: View, v': View)
    requires ViewOk(c, v) && Ages(v, v')
    ensures ViewOk(c, v')
  {
    forall from ensures Placed(c, v', from) {
      assert Placed(c, v, from);
    }
  }

  lemma GrantKeeps(c: Config, v: View, v': View)
    requires ViewOk(c, v) && v' == v.(underWay := v.underWay + 1)
    requires v.underWay < c.overlap && (v.entry.Some? ==> Count(v) < c.limit)
    ensures ViewOk(c, v')
  {
    forall from ensures Placed(c, v', from) {
      assert Placed(c, v, from);
    }
  }

  lemma RecordKeeps(c: Config, v: View, v': View, now: int)
    requires ViewOk(c, v) && v.clock <= now && v.underWay > 0
    requires v'.recorded == v.recorded + [now] && v'.underWay == v.underWay - 1 && v'.clock == now
    requires v'.entry == Some(
      if v.entry.Some? && !Expired(v.entry.value, now) then v.entry.value.(count := v.entry.value.count + 1)
      else Attempt(1, now + c.window))
    ensures ViewOk(c, v')
  {
    forall from ensures Placed(c, v', from) {
      assert Placed(c, v, from);
      WithinOneMore(v.recorded, now, from, c.window);
      if now < from {
        NothingWithin(v.recorded, from, c.window);
      }
    }
  }

  lemma SuccessKeeps(c: Config, v: View, v': View)
    requires ViewOk(c, v) && v.underWay > 0 && v'.entry == None && v'.recorded == [] && v'.underWay == v.underWay - 1
    ensures ViewOk(c, v')
  {
  }

  ghost predicate WorldOk(c: Config, w: World) {
    forall k :: ViewOk(c, ViewOf(w, k))
  }

  lemma StepKeeps(c: Config, w: World, step: Step)
    requires WorldOk(c, w) && Possible(c, w, step)
    ensures WorldOk(c, Apply(c, w, step))
  {
    var w' := Apply(c, w, step);
    forall k ensures ViewOk(c, ViewOf(w', k)) {
      StepKeepsView(c, w, step, k);
    }
  }

  lemma StepKeepsView(c: Config, w: World, step: Step, k: string)
    requires ViewOk(c, ViewOf(w, k)) && Possible(c, w, step)
    ensures ViewOk(c, ViewOf(Apply(c, w, step), k))
  {
    hide ViewOk;
    var v, v' := ViewOf(w, k), ViewOf(Apply(c, w, step), k);
    if k != step.key || step.Leave? || (step.Ask? && !Allows(w.attempts, c.limit, k, step.now)) {
      AgeKeeps(c, v, v');
    } else if step.Ask? {
      AgeKeeps(c, v, v'.(underWay := v.underWay));
      GrantKeeps(c, v'.(underWay := v.underWay), v');
    } else if step.Record? {
      RecordKeeps(c, v, v', step.now);
    } else {
      SuccessKeeps(c, v, v');
    }
  }

  lemma {:induction false} RunKeeps(c: Config, run: seq<World>, steps: seq<Step>)
    requires IsRun(c, run, steps)
    ensures WorldOk(c, run[|steps|])
  {
    if steps != [] {
      var n := |steps| - 1;
      RunKeeps(c, run[..n + 1], steps[..n]);
      StepKeeps(c, run[n], steps[n]);
    }
  }

  /**
   In every run, any interval no longer than the window holds at most twice
   `max(limit, 1) - 1 + overlap` attempts of a key since its last success.
   */
  lemma AttemptsAreBounded(c: Config, run: seq<World>, steps: seq<Step>, key: string, from: int)
    requires IsRun(c, run, steps)
    ensures Within(Recorded(run[|steps|], key), from, c.window) <= 2 * PerEntry(c)
  {
    RunKeeps(c, run, steps);
    assert ViewOk(c, ViewOf(run[|steps|], key));
    assert Placed(c, ViewOf(run[|steps|], key), from);
  }

  /** With one request per key at a time this is twice the limit. */
  lemma OneAtATimeIsTwiceTheLimit(c: Config, run: seq<World>, steps: seq<Step>, key: string, from: int)
    requires IsRun(c, run, steps) && c.overlap == 1 && c.limit >= 1
    ensures Within(Recorded(run[|steps|], key), from, c.window) <= 2 * c.limit
  {
    AttemptsAreBounded(c, run, steps, key, from);
  }

  /** A refusal has a cause: `limit` attempts, none older than the window, without a success since. */
  lemma RefusalHasCause(c: Config, run: seq<World>, steps: seq<Step>, key: string, now: int)
    requires IsRun(c, run, steps) && run[|steps|].clock <= now && c.limit >= 0
    requires !Allows(run[|steps|].attempts, c.limit, key, now)
    ensures var times := Recorded(run[|steps|], key);
      |times| >= c.limit && forall i :: |times| - c.limit <= i < |times| ==> now - c.window <= times[i] <= now
  {
    RunKeeps(c, run, steps);
    assert ViewOk(c, ViewOf(run[|steps|], key));
  }
}
