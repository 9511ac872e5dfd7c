/** What holds of incidents over whole runs of observations and manual actions. */
module IncidentRuns {
  import opened Text
  import opened Incidents

  datatype Step =
    | Sync(device: string, source: string, category: string, title: string, active: bool, newId: Option<string>)
    | Update(user: string, id: string, action: string, body: string, allowed: bool, assignable: bool)

  function Apply(w: World, step: Step): World {
    var r := match step
      case Sync(device, source, category, title, active, newId) => SyncTx(w, device, source, category, title, active, newId)
      case Update(user, id, action, body, allowed, assignable) => UpdateTx(w, user, id, action, body, allowed, assignable);
    if r.Some? then r.value else w
  }

  const EMPTY: World := World(map[], map[], map[], [])

  ghost predicate IsRun(states: seq<World>, steps: seq<Step>) {
    && |states| == |steps| + 1
    && states[0] == EMPTY
    && forall k :: 0 <= k < |steps| ==> states[k + 1] == Apply(states[k], steps[k])
  }

  // ---------- One incident per device and category ----------

  ghost predicate IndexOk(w: World) {
    && (forall id :: id in w.incidents ==>
          var k := (w.incidents[id].device, w.incidents[id].category); k in w.index && w.index[k] == id)
    && (forall k :: k in w.index ==>
          w.index[k] in w.incidents && w.incidents[w.index[k]].device == k.0 && w.incidents[w.index[k]].category == k.1)
  }

  /** Every active source has its incident. */
  ghost predicate ActiveHasIncident(w: World) {
    forall k :: k in w.sources && w.sources[k].active ==> (k.0, w.sources[k].category) in w.index
  }

  /** An incident without an active source is resolved. */
  ghost predicate IdleIsResolved(w: World) {
    forall k :: k in w.index && w.index[k] in w.incidents && !AnyActive(w.sources, k.0, k.1) ==> w.incidents[w.index[k]].status == Resolved
  }

  /** What an observation writes: its source row, and at most the incident of its device and category. */
  ghost predicate SyncWrites(w: World, w': World, device: string, source: string, category: string, active: bool) {
    var k := (device, category);
    && w'.sources == w.sources[(device, source) := Source(category, active)]
    && (forall x :: x != k ==> (x in w'.index <==> x in w.index) && (x in w.index ==> w'.index[x] == w.index[x]))
    && (forall id :: id in w.incidents && (k !in w.index || id != w.index[k]) ==> id in w'.incidents && w'.incidents[id] == w.incidents[id])
    && (AnyActive(w'.sources, device, category) ==> k in w'.index)
    && (k in w.index ==> k in w'.index && w'.index[k] == w.index[k])
    && (k in w'.index ==> w'.index[k] in w'.incidents)
    && (k in w'.index && !AnyActive(w'.sources, device, category) ==> w'.incidents[w'.index[k]].status == Resolved)
  }

  lemma SyncWritesThis(w: World, device: string, source: string, category: string, title: string, active: bool, newId: Option<string>)
    requires IndexOk(w)
    ensures var r := SyncTx(w, device, source, category, title, active, newId);
      r.Some? ==> SyncWrites(w, r.value, device, source, category, active)
  {
    var sources := w.sources[(device, source) := Source(category, active)];
    if active { assert sources[(device, source)].active && AnyActive(sources, device, category); }
  }

  lemma UpdateKeepsIndex(w: World, w': World, id: string, i: Incident)
    requires IndexOk(w) && id in w.incidents && i.device == w.incidents[id].device && i.category == w.incidents[id].category
    requires w'.incidents == w.incidents[id := i] && w'.index == w.index
    ensures IndexOk(w')
  {
  }

  lemma InsertKeepsIndex(w: World, w': World, id: string, i: Incident)
    requires IndexOk(w) && id !in w.incidents && (i.device, i.category) !in w.index
    requires w'.incidents == w.incidents[id := i] && w'.index == w.index[(i.device, i.category) := id]
    ensures IndexOk(w')
  {
  }

  lemma SyncKeepsIndex(w: World, device: string, source: string, category: string, title: string, active: bool, newId: Option<string>)
    requires IndexOk(w)
    ensures var r := SyncTx(w, device, source, category, title, active, newId); r.Some? ==> IndexOk(r.value)
  {
    hide AnyActive;
    var r := SyncTx(w, device, source, category, title, active, newId);
    if r.Some? {
      var k := (device, category);
      if k in w.index {
        var id := w.index[k];
        assert r.value.incidents == w.incidents || r.value.incidents == w.incidents[id := r.value.incidents[id]];
        hide SyncTx;
        if r.value.incidents != w.incidents { UpdateKeepsIndex(w, r.value, id, r.value.incidents[id]); }
      } else if r.value.index != w.index {
        InsertKeepsIndex(w, r.value, newId.value, r.value.incidents[newId.value]);
      }
    }
  }

  lemma WritesKeepActive(w: World, w': World, device: string, source: string, category: string, active: bool)
    requires ActiveHasIncident(w) && SyncWrites(w, w', device, source, category, active)
    ensures ActiveHasIncident(w')
  {
    forall k | k in w'.sources && w'.sources[k].active ensures (k.0, w'.sources[k].category) in w'.index {
      if k == (device, source) {
        assert AnyActive(w'.sources, device, category);
      } else {
        assert (k.0, w.sources[k].category) in w.index;
      }
    }
  }

  lemma StepKeepsIndex(w: World, step: Step)
    requires IndexOk(w) && ActiveHasIncident(w)
    ensures IndexOk(Apply(w, step)) && ActiveHasIncident(Apply(w, step))
  {
    if step.Update? {
      UpdateStepKeepsIndex(w, step);
    } else {
      hide SyncTx, AnyActive, IndexOk, ActiveHasIncident, SyncWrites;
      if SyncTx(w, step.device, step.source, step.category, step.title, step.active, step.newId).Some? {
        SyncWritesThis(w, step.device, step.source, step.category, step.title, step.active, step.newId);
        SyncKeepsIndex(w, step.device, step.source, step.category, step.title, step.active, step.newId);
        WritesKeepActive(w, Apply(w, step), step.device, step.source, step.category, step.active);
      }
    }
  }

  lemma UpdateStepKeepsIndex(w: World, step: Step)
    requires IndexOk(w) && ActiveHasIncident(w) && step.Update?
    ensures IndexOk(Apply(w, step)) && ActiveHasIncident(Apply(w, step))
  {
    hide AnyActive, TrimSpace;
  }

  lemma {:induction false} RunKeepsIndex(states: seq<World>, steps: seq<Step>, n: nat)
    requires IsRun(states, steps) && n < |states|
    ensures IndexOk(states[n]) && ActiveHasIncident(states[n])
  {
    if n > 0 {
      RunKeepsIndex(states, steps, n - 1);
      StepKeepsIndex(states[n - 1], steps[n - 1]);
    }
  }

  /** In every reachable state a device has at most one incident per category. */
  lemma OneIncidentPerCategory(states: seq<World>, steps: seq<Step>, n: nat, a: string, b: string)
    requires IsRun(states, steps) && n < |states| && a in states[n].incidents && b in states[n].incidents
    requires states[n].incidents[a].device == states[n].incidents[b].device
    requires states[n].incidents[a].category == states[n].incidents[b].category
    ensures a == b
  {
    RunKeepsIndex(states, steps, n);
  }

  /** In every reachable state an active source has an incident of its device and category. */
  lemma ActiveSourceHasIncident(states: seq<World>, steps: seq<Step>, n: nat, device: string, source: string)
    requires IsRun(states, steps) && n < |states| && IsActive(states[n], device, source)
    ensures exists id :: (id in states[n].incidents
      && states[n].incidents[id].device == device && states[n].incidents[id].category == states[n].sources[(device, source)].category)
  {
    RunKeepsIndex(states, steps, n);
    var k := (device, states[n].sources[(device, source)].category);
    assert k in states[n].index;
    assert states[n].index[k] in states[n].incidents;
  }

  // ---------- Idle incidents, and sources that change category ----------

  /** The source leaves a category in which it was the only active one while the incident there
      is not resolved: this observation does not look at that incident again. */
  ghost predicate Strands(w: World, step: Step) {
    && step.Sync? && IsActive(w, step.device, step.source)
    && var left := w.sources[(step.device, step.source)].category;
       && left != step.category
       && (step.device, left) in w.index && w.index[(step.device, left)] in w.incidents
       && w.incidents[w.index[(step.device, left)]].status != Resolved
       && !AnyActive(w.sources - {(step.device, step.source)}, step.device, left)
  }

  /** Activity in a category depends only on the sources that are in it. */
  lemma ActiveElsewhere(sources: map<(string, string), Source>, sources': map<(string, string), Source>, k: (string, string), device: string, category: string)
    requires k in sources' && sources' == sources[k := sources'[k]]
    requires k.0 != device || sources'[k].category != category || !sources'[k].active
    ensures AnyActive(sources', device, category) <==> AnyActive(sources - {k}, device, category)
  {
    if AnyActive(sources', device, category) {
      var x :| x in sources' && x.0 == device && sources'[x].category == category && sources'[x].active;
      assert x in sources - {k} && (sources - {k})[x] == sources[x];
    }
    if AnyActive(sources - {k}, device, category) {
      var x :| x in sources - {k} && x.0 == device && (sources - {k})[x].category == category && (sources - {k})[x].active;
      assert x in sources' && sources'[x] == sources[x];
    }
  }

  lemma StillActive(sources: map<(string, string), Source>, k: (string, string), device: string, category: string)
    requires AnyActive(sources, device, category)
    requires k !in sources || k.0 != device || sources[k].category != category || !sources[k].active
    ensures AnyActive(sources - {k}, device, category)
  {
    var x :| x in sources && x.0 == device && sources[x].category == category && sources[x].active;
    assert x in sources - {k} && (sources - {k})[x] == sources[x];
  }

  lemma SyncLeavesOthers(w: World, w': World, step: Step, k: (string, string))
    requires IndexOk(w) && IdleIsResolved(w) && step.Sync? && !Strands(w, step)
    requires SyncWrites(w, w', step.device, step.source, step.category, step.active)
    requires k in w'.index && k != (step.device, step.category) && !AnyActive(w'.sources, k.0, k.1)
    ensures k in w.index && w'.index[k] == w.index[k] && w'.index[k] in w'.incidents && w'.incidents[w'.index[k]].status == Resolved
  {
    var s := (step.device, step.source);
    ActiveElsewhere(w.sources, w'.sources, s, k.0, k.1);
    if AnyActive(w.sources, k.0, k.1) && (s !in w.sources || s.0 != k.0 || w.sources[s].category != k.1 || !w.sources[s].active) {
      StillActive(w.sources, s, k.0, k.1);
    }
    hide AnyActive;
  }

  lemma StrandedIsIdle(w: World, w': World, step: Step)
    requires Strands(w, step) && IndexOk(w)
    requires SyncWrites(w, w', step.device, step.source, step.category, step.active)
    ensures !IdleIsResolved(w')
  {
    var left := w.sources[(step.device, step.source)].category;
    ActiveElsewhere(w.sources, w'.sources, (step.device, step.source), step.device, left);
    hide AnyActive;
    var k := (step.device, left);
    assert w'.index[k] == w.index[k] && w'.incidents[w'.index[k]].status != Resolved;
  }

  /** The exact condition: an observation keeps idle incidents resolved if and only if it does not
      strand one. */
  lemma SyncKeepsIdleExactly(w: World, step: Step)
    requires IndexOk(w) && IdleIsResolved(w) && step.Sync?
    requires SyncTx(w, step.device, step.source, step.category, step.title, step.active, step.newId).Some?
    ensures IdleIsResolved(Apply(w, step)) <==> !Strands(w, step)
  {
    var w' := Apply(w, step);
    SyncWritesThis(w, step.device, step.source, step.category, step.title, step.active, step.newId);
    hide SyncTx, AnyActive;
    if Strands(w, step) {
      StrandedIsIdle(w, w', step);
    } else {
      hide Strands;
      forall k | k in w'.index && w'.index[k] in w'.incidents && !AnyActive(w'.sources, k.0, k.1)
        ensures w'.incidents[w'.index[k]].status == Resolved
      {
        if k != (step.device, step.category) { SyncLeavesOthers(w, w', step, k); }
      }
    }
  }

  /** A manual action never leaves an idle incident unresolved: acknowledging a resolved one is refused. */
  lemma UpdateKeepsIdle(w: World, step: Step)
    requires IndexOk(w) && IdleIsResolved(w) && step.Update?
    ensures IdleIsResolved(Apply(w, step))
  {
    hide AnyActive, TrimSpace;
  }

  /** The category of every source is fixed. */
  ghost predicate FixedCategories(steps: seq<Step>, category: (string, string) -> string) {
    forall k :: 0 <= k < |steps| && steps[k].Sync? ==> steps[k].category == category(steps[k].device, steps[k].source)
  }

  ghost predicate SourcesFixed(w: World, category: (string, string) -> string) {
    forall k :: k in w.sources ==> w.sources[k].category == category(k.0, k.1)
  }

  lemma SyncKeepsFixed(w: World, step: Step, category: (string, string) -> string)
    requires SourcesFixed(w, category) && (step.Sync? ==> step.category == category(step.device, step.source))
    ensures SourcesFixed(Apply(w, step), category)
  {
    hide AnyActive, TrimSpace;
  }

  /** For sources whose category never changes, in every reachable state an incident without an
      active source is resolved. */
  lemma {:induction false} IdleIncidentsAreResolved(states: seq<World>, steps: seq<Step>, n: nat, category: (string, string) -> string)
    requires IsRun(states, steps) && n < |states| && FixedCategories(steps, category)
    ensures SourcesFixed(states[n], category) && IdleIsResolved(states[n])
  {
    if n > 0 {
      IdleIncidentsAreResolved(states, steps, n - 1, category);
      RunKeepsIndex(states, steps, n - 1);
      var w, step := states[n - 1], steps[n - 1];
      SyncKeepsFixed(w, step, category);
      if step.Update? {
        UpdateKeepsIdle(w, step);
      } else if SyncTx(w, step.device, step.source, step.category, step.title, step.active, step.newId).Some? {
        SyncKeepsIdleExactly(w, step);
      }
    }
  }

  /** The restriction is needed: a rule edited from one condition to another, say from memory to
      WAN, strands the incident of its old category after two observations. */
  lemma CategoryChangeStrands(device: string, source: string, a: string, b: string, title: string, i: string, j: string)
    requires a != b && i != j
    ensures var w := Apply(EMPTY, Sync(device, source, a, title, true, Some(i)));
      !IdleIsResolved(Apply(w, Sync(device, source, b, title, true, Some(j))))
  {
    var first := Sync(device, source, a, title, true, Some(i));
    var second := Sync(device, source, b, title, true, Some(j));
    var w := FirstObservation(device, source, a, title, i);
    IdleIncidentsAreResolved([EMPTY, w], [first], 1, (d, c) => a);
    RunKeepsIndex([EMPTY, w], [first], 1);
    hide AnyActive, IndexOk, IdleIsResolved;
    SyncKeepsIdleExactly(w, second);
  }

  /** What resolves an incident by itself or by hand. */
  ghost predicate Resolves(w: World, step: Step, id: string)
    requires id in w.incidents
  {
    match step
    case Sync(device, _, category, _, active, _) =>
      device == w.incidents[id].device && category == w.incidents[id].category && !active
    case Update(_, other, action, body, allowed, _) =>
      other == id && action == "resolve" && allowed && |TrimSpace(body)| <= 2048
  }

  /** A stranded incident is resolved again exactly by the next inactive observation of any source in its
      category, or by hand. */
  lemma IdleIncidentIsResolvedExactly(w: World, step: Step, id: string)
    requires IndexOk(w) && id in w.incidents && w.incidents[id].status != Resolved
    requires !AnyActive(w.sources, w.incidents[id].device, w.incidents[id].category)
    ensures id in Apply(w, step).incidents
    ensures Apply(w, step).incidents[id].status == Resolved <==> Resolves(w, step, id)
  {
    var i := w.incidents[id];
    if step.Sync? {
      var sources := w.sources[(step.device, step.source) := Source(step.category, step.active)];
      ActiveAfter(w.sources, (step.device, step.source), step.category, step.active, i.device, i.category);
      hide AnyActive, TrimSpace;
    } else {
      hide AnyActive, TrimSpace;
    }
  }

  lemma ActiveAfter(sources: map<(string, string), Source>, k: (string, string), category: string, active: bool, device: string, other: string)
    requires !AnyActive(sources, device, other)
    ensures AnyActive(sources[k := Source(category, active)], device, other) <==> k.0 == device && category == other && active
  {
    var after := sources[k := Source(category, active)];
    assert k in after;
    if AnyActive(after, device, other) {
      var x :| x in after && x.0 == device && after[x].category == other && after[x].active;
      assert x == k;
    }
  }

  lemma FirstObservation(device: string, source: string, category: string, title: string, id: string) returns (w: World)
    ensures w == Apply(EMPTY, Sync(device, source, category, title, true, Some(id)))
    ensures w.sources == map[(device, source) := Source(category, true)] && w.index == map[(device, category) := id]
    ensures w.incidents == map[id := Incident(device, category, title, Open, "", 1)]
    ensures forall c :: !AnyActive(w.sources - {(device, source)}, device, c)
  {
    w := Apply(EMPTY, Sync(device, source, category, title, true, Some(id)));
    assert w.sources[(device, source)].active && AnyActive(w.sources, device, category);
  }

  // ---------- Repetition and reopening ----------

  /** Repeating an identical observation changes nothing and adds no event. */
  lemma RepeatedObservationIsSilent(w: World, device: string, source: string, category: string, title: string, active: bool, a: Option<string>, b: Option<string>)
    requires IndexOk(w)
    ensures var r := SyncTx(w, device, source, category, title, active, a);
      r.Some? ==> SyncTx(r.value, device, source, category, title, active, b) == r
  {
    var r := SyncTx(w, device, source, category, title, active, a);
    if r.Some? {
      var w' := r.value;
      SyncWritesThis(w, device, source, category, title, active, a);
      assert w'.sources[(device, source) := Source(category, active)] == w'.sources;
      assert IsActive(w', device, source) == active;
      hide AnyActive;
    }
  }

  /** A resolved incident reopens only when a source of its device and category turns from
      inactive to active; no manual action and no repeated observation reopens it. */
  lemma ReopensOnlyOnActivation(w: World, step: Step, id: string)
    requires IndexOk(w) && id in w.incidents && w.incidents[id].status == Resolved
    requires id in Apply(w, step).incidents && Apply(w, step).incidents[id].status != Resolved
    ensures step.Sync? && step.active && !IsActive(w, step.device, step.source)
    ensures step.device == w.incidents[id].device && step.category == w.incidents[id].category
    ensures Apply(w, step).incidents[id].occurrences == w.incidents[id].occurrences + 1
  {
    hide AnyActive, TrimSpace;
  }

  // ---------- Replaying the event log ----------

  /** The status an event leaves an incident in; neutral events keep it. */
  function After(status: Option<Status>, kind: EventKind): Option<Status> {
    match kind
    case Opened => Some(Open)
    case Reopened => Some(Open)
    case Recovered => Some(Resolved)
    case DidAcknowledge => Some(Acknowledged)
    case DidResolve => Some(Resolved)
    case _ => status
  }

  function Replay(events: seq<Event>, id: string): Option<Status> {
    if events == [] then None
    else
      var front, e := events[..|events| - 1], events[|events| - 1];
      if e.incident == id then After(Replay(front, id), e.kind) else Replay(front, id)
  }

  function CountReopened(events: seq<Event>, id: string): nat {
    if events == [] then 0
    else
      var front, e := events[..|events| - 1], events[|events| - 1];
      CountReopened(front, id) + if e.incident == id && e.kind == Reopened then 1 else 0
  }

  ghost predicate LogOk(w: World) {
    forall id ::
      (if id in w.incidents
       then Replay(w.events, id) == Some(w.incidents[id].status) && w.incidents[id].occurrences == 1 + CountReopened(w.events, id)
       else Replay(w.events, id) == None && CountReopened(w.events, id) == 0)
  }

  lemma OneMoreEvent(events: seq<Event>, e: Event, id: string)
    ensures Replay(events + [e], id) == if e.incident == id then After(Replay(events, id), e.kind) else Replay(events, id)
    ensures CountReopened(events + [e], id) == CountReopened(events, id) + if e.incident == id && e.kind == Reopened then 1 else 0
  {
    assert (events + [e])[..|events|] == events;
  }

  /** One event, together with the status that the event stands for. */
  ghost predicate LogsEvent(w: World, w': World, e: Event) {
    && w'.events == w.events + [e]
    && e.incident in w'.incidents
    && w'.incidents == w.incidents[e.incident := w'.incidents[e.incident]]
    && var i := w'.incidents[e.incident];
       if e.incident in w.incidents
       then
         && Some(i.status) == After(Some(w.incidents[e.incident].status), e.kind)
         && i.occurrences == w.incidents[e.incident].occurrences + if e.kind == Reopened then 1 else 0
       else e.kind == Opened && i.status == Open && i.occurrences == 1
  }

  ghost predicate Logs(w: World, w': World) {
    || (w'.events == w.events && w'.incidents == w.incidents)
    || (|w'.events| == |w.events| + 1 && LogsEvent(w, w', w'.events[|w.events|]))
  }

  lemma SyncLogs(w: World, step: Step)
    requires step.Sync?
    ensures Logs(w, Apply(w, step))
  {
    hide AnyActive;
  }

  lemma UpdateLogs(w: World, step: Step)
    requires step.Update?
    ensures Logs(w, Apply(w, step))
  {
    hide TrimSpace;
  }

  lemma LogsKeep(w: World, w': World)
    requires LogOk(w) && Logs(w, w')
    ensures LogOk(w')
  {
    if w'.events != w.events {
      forall id { OneMoreEvent(w.events, w'.events[|w.events|], id); }
    }
  }

  /** Over every mix of automatic and manual steps, replaying an incident's events gives its status,
      and its occurrence counter is one plus the number of times it was reopened. */
  lemma {:induction false} LogReplaysToStatus(states: seq<World>, steps: seq<Step>, n: nat)
    requires IsRun(states, steps) && n < |states|
    ensures LogOk(states[n])
  {
    if n > 0 {
      LogReplaysToStatus(states, steps, n - 1);
      if steps[n - 1].Sync? { SyncLogs(states[n - 1], steps[n - 1]); } else { UpdateLogs(states[n - 1], steps[n - 1]); }
      LogsKeep(states[n - 1], states[n]);
    }
  }
}
