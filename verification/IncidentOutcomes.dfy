/** What observations, alert syncs and manual actions make of sources, incidents and events. */
module IncidentOutcomes {
  import opened Text
  import opened Incidents
  import opened IncidentRuns

  // ---------- One observation ----------

  /** All but the incident of key `k` is as before. */
  ghost predicate OtherIncidentsSame(w: World, w': World, k: (string, string)) {
    && (forall x :: x != k ==> (x in w'.index <==> x in w.index) && (x in w.index ==> w'.index[x] == w.index[x]))
    && (forall id :: id in w.incidents && (k in w.index ==> id != w.index[k]) ==> id in w'.incidents && w'.incidents[id] == w.incidents[id])
  }

  /** An observation that needs a new incident needs a fresh identifier for it; nothing else fails. */
  lemma SyncFailsExactly(w: World, device: string, source: string, category: string, title: string, active: bool, newId: Option<string>)
    requires IndexOk(w)
    ensures SyncTx(w, device, source, category, title, active, newId).None? <==>
      && (device, category) !in w.index && AnyActive(w.sources[(device, source) := Source(category, active)], device, category)
      && (newId.None? || newId.value in w.incidents)
  {
    hide AnyActive;
  }

  /** After an observation: its source is as observed; the first activity of a category opens its incident; without
      activity the incident is resolved; a source that turns active reopens a resolved incident; and in
      every other case the incident stays as it is. */
  lemma SyncIsExact(w: World, device: string, source: string, category: string, title: string, active: bool, newId: Option<string>)
    requires IndexOk(w) && SyncTx(w, device, source, category, title, active, newId).Some?
    ensures var w' := SyncTx(w, device, source, category, title, active, newId).value;
      var k := (device, category);
      && w'.sources == w.sources[(device, source) := Source(category, active)] && OtherIncidentsSame(w, w', k)
      && (k in w'.index <==> k in w.index || AnyActive(w'.sources, device, category))
      && (k in w.index ==> w'.index[k] == w.index[k] && w'.incidents.Keys == w.incidents.Keys)
      && (k !in w.index && k in w'.index ==>
            && newId == Some(w'.index[k]) && w'.incidents == w.incidents[w'.index[k] := Incident(device, category, title, Open, "", 1)]
            && w'.events == w.events + [Event(w'.index[k], "system", Opened, source)])
      && (k !in w'.index ==> w'.incidents == w.incidents && w'.events == w.events)
      && (k in w.index ==>
            var id := w.index[k];
            var i, turns := w.incidents[id], active && !((device, source) in w.sources && w.sources[(device, source)].active);
            if !AnyActive(w'.sources, device, category) && i.status != Resolved then
              w'.incidents[id] == i.(status := Resolved) && |w'.events| == |w.events| + 1 && w'.events[|w.events|].kind == Recovered
            else if turns && i.status == Resolved then
              && w'.incidents[id] == i.(status := Open, occurrences := i.occurrences + 1)
              && w'.events == w.events + [Event(id, "system", Reopened, source)]
            else if turns then w'.incidents[id] == i && w'.events == w.events + [Event(id, "system", ConditionAdded, source)]
            else w'.incidents[id] == i && w'.events == w.events)
  {
    hide AnyActive;
    if active { NowActive(w.sources, device, source, category); }
  }

  lemma NowActive(sources: map<(string, string), Source>, device: string, source: string, category: string)
    ensures AnyActive(sources[(device, source) := Source(category, true)], device, category)
  {
    var after := sources[(device, source) := Source(category, true)];
    assert (device, source) in after && after[(device, source)].active;
  }

  // ---------- The alerts of a device ----------

  const NETWORK: seq<string> := ["connectivity", "dns", "latency_high", "offline", "packet_loss_high", "wan", "wan_down", "wan_unreachable"]

  /** The category of an alert kind: eight kinds are about the network, two about resources, any other stands alone. */
  function ListedCategory(kind: string): string {
    if kind in NETWORK then "network"
    else if kind in ["load_high", "memory_high"] then "resources"
    else if kind == "service_down" then "service:"
    else kind
  }

  lemma CategoriesAreListed(kind: string)
    ensures IncidentCategory(kind, "") == ListedCategory(kind)
  {
    assert "service:" + "" == "service:";
  }

  function AlertKey(device: string, id: string): (string, string) { (device, "alert:" + id) }

  lemma AlertKeysDiffer(device: string, a: string, b: string)
    requires AlertKey(device, a) == AlertKey(device, b)
    ensures a == b
  {
    assert ("alert:" + a)[6..] == a && ("alert:" + b)[6..] == b;
  }

  ghost predicate DistinctAlerts(alerts: seq<Alert>) {
    forall i, j :: 0 <= i < j < |alerts| ==> alerts[i].id != alerts[j].id
  }

  /** The step that one alert makes. */
  ghost predicate AlertStep(w: World, w': World, device: string, a: Alert, newId: Option<string>) {
    Some(w') == SyncTx(w, device, "alert:" + a.id, ListedCategory(a.kind), a.title, !a.resolved, newId)
  }

  lemma AlertsSplit(w: World, device: string, alerts: seq<Alert>, newIds: seq<Option<string>>)
    requires |newIds| == |alerts| && alerts != [] && SyncAlertsTx(w, device, alerts, newIds).Some?
    ensures exists v :: AlertStep(w, v, device, alerts[0], newIds[0]) && SyncAlertsTx(v, device, alerts[1..], newIds[1..]) == SyncAlertsTx(w, device, alerts, newIds)
  {
    CategoriesAreListed(alerts[0].kind);
    hide SyncTx, IncidentCategory, ListedCategory;
    var a := alerts[0];
    var one := SyncTx(w, device, "alert:" + a.id, IncidentCategory(a.kind, ""), a.title, !a.resolved, newIds[0]);
    assert AlertStep(w, one.value, device, a, newIds[0]);
  }

  lemma AlertStepWrites(w: World, v: World, device: string, a: Alert, newId: Option<string>)
    requires IndexOk(w) && AlertStep(w, v, device, a, newId)
    ensures IndexOk(v) && SyncWrites(w, v, device, "alert:" + a.id, ListedCategory(a.kind), !a.resolved)
  {
    SyncWritesThis(w, device, "alert:" + a.id, ListedCategory(a.kind), a.title, !a.resolved, newId);
    SyncKeepsIndex(w, device, "alert:" + a.id, ListedCategory(a.kind), a.title, !a.resolved, newId);
    hide SyncTx, IndexOk, SyncWrites, ListedCategory;
  }

  /** The alert's source says what the alert says. */
  ghost predicate Follows(sources: map<(string, string), Source>, device: string, a: Alert) {
    AlertKey(device, a.id) in sources && sources[AlertKey(device, a.id)] == Source(ListedCategory(a.kind), !a.resolved)
  }

  ghost predicate SameSource(w: World, w': World, k: (string, string)) {
    (k in w'.sources <==> k in w.sources) && (k in w.sources ==> w'.sources[k] == w.sources[k])
  }

  /** The key is that of one of the alerts. */
  ghost predicate IsKeyOf(device: string, alerts: seq<Alert>, k: (string, string)) {
    exists i :: 0 <= i < |alerts| && k == AlertKey(device, alerts[i].id)
  }

  /** Each alert's source says what the alert says, and no other source changes. */
  ghost predicate SourcesFollow(w: World, w': World, device: string, alerts: seq<Alert>) {
    && (forall i :: 0 <= i < |alerts| ==> Follows(w'.sources, device, alerts[i]))
    && (forall k :: !IsKeyOf(device, alerts, k) ==> SameSource(w, w', k))
  }

  lemma FirstKeyIsItsOwn(device: string, alerts: seq<Alert>)
    requires alerts != [] && DistinctAlerts(alerts)
    ensures !IsKeyOf(device, alerts[1..], AlertKey(device, alerts[0].id))
  {
    var rest := alerts[1..];
    forall i | 0 <= i < |rest| ensures AlertKey(device, alerts[0].id) != AlertKey(device, rest[i].id) {
      assert rest[i] == alerts[i + 1];
      if AlertKey(device, alerts[0].id) == AlertKey(device, rest[i].id) { AlertKeysDiffer(device, alerts[0].id, rest[i].id); }
    }
  }

  lemma KeysOfRest(device: string, alerts: seq<Alert>, k: (string, string))
    requires alerts != []
    ensures IsKeyOf(device, alerts, k) <==> k == AlertKey(device, alerts[0].id) || IsKeyOf(device, alerts[1..], k)
  {
    hide AlertKey;
    var rest := alerts[1..];
    if IsKeyOf(device, rest, k) {
      var i :| 0 <= i < |rest| && k == AlertKey(device, rest[i].id);
      assert rest[i] == alerts[i + 1];
    }
    if IsKeyOf(device, alerts, k) {
      var i :| 0 <= i < |alerts| && k == AlertKey(device, alerts[i].id);
      if i > 0 { assert alerts[i] == rest[i - 1]; }
    }
  }

  lemma FollowMore(w: World, v: World, w': World, device: string, alerts: seq<Alert>)
    requires alerts != [] && DistinctAlerts(alerts) && SourcesFollow(v, w', device, alerts[1..])
    requires v.sources == w.sources[AlertKey(device, alerts[0].id) := Source(ListedCategory(alerts[0].kind), !alerts[0].resolved)]
    ensures SourcesFollow(w, w', device, alerts)
  {
    FirstKeyIsItsOwn(device, alerts);
    hide ListedCategory, AlertKey, IsKeyOf;
    var k0 := AlertKey(device, alerts[0].id);
    assert SameSource(v, w', k0);
    forall i | 0 <= i < |alerts| ensures Follows(w'.sources, device, alerts[i]) {
      if i > 0 {
        assert alerts[i] == alerts[1..][i - 1];
        assert Follows(w'.sources, device, alerts[1..][i - 1]);
      }
    }
    forall k | !IsKeyOf(device, alerts, k) ensures SameSource(w, w', k) {
      KeysOfRest(device, alerts, k);
      assert SameSource(v, w', k);
    }
  }

  /** A successful sync makes the source of each alert active exactly while the alert is not resolved, under
      the category of its kind, and touches no other source. */
  lemma {:induction false} AlertSourcesAreExact(w: World, device: string, alerts: seq<Alert>, newIds: seq<Option<string>>)
    requires IndexOk(w) && |newIds| == |alerts| && DistinctAlerts(alerts) && SyncAlertsTx(w, device, alerts, newIds).Some?
    ensures SourcesFollow(w, SyncAlertsTx(w, device, alerts, newIds).value, device, alerts)
    decreases |alerts|
  {
    if alerts != [] {
      AlertsSplit(w, device, alerts, newIds);
      var v :| AlertStep(w, v, device, alerts[0], newIds[0]) && SyncAlertsTx(v, device, alerts[1..], newIds[1..]) == SyncAlertsTx(w, device, alerts, newIds);
      AlertStepWrites(w, v, device, alerts[0], newIds[0]);
      hide SyncAlertsTx, AlertStep, IndexOk, SourcesFollow, ListedCategory;
      AlertSourcesAreExact(v, device, alerts[1..], newIds[1..]);
      FollowMore(w, v, SyncAlertsTx(w, device, alerts, newIds).value, device, alerts);
    }
  }

  lemma {:induction false} AlertsKeepIndex(w: World, device: string, alerts: seq<Alert>, newIds: seq<Option<string>>)
    requires IndexOk(w) && ActiveHasIncident(w) && |newIds| == |alerts| && SyncAlertsTx(w, device, alerts, newIds).Some?
    ensures var w' := SyncAlertsTx(w, device, alerts, newIds).value; IndexOk(w') && ActiveHasIncident(w')
    decreases |alerts|
  {
    if alerts != [] {
      AlertsSplit(w, device, alerts, newIds);
      var v :| AlertStep(w, v, device, alerts[0], newIds[0]) && SyncAlertsTx(v, device, alerts[1..], newIds[1..]) == SyncAlertsTx(w, device, alerts, newIds);
      AlertStepWrites(w, v, device, alerts[0], newIds[0]);
      hide SyncAlertsTx, AlertStep, IndexOk, ListedCategory, SyncWrites, ActiveHasIncident;
      WritesKeepActive(w, v, device, "alert:" + alerts[0].id, ListedCategory(alerts[0].kind), !alerts[0].resolved);
      AlertsKeepIndex(v, device, alerts[1..], newIds[1..]);
    }
  }

  /** Every unresolved alert has the incident of its category. */
  lemma UnresolvedAlertsHaveIncidents(w: World, device: string, alerts: seq<Alert>, newIds: seq<Option<string>>, i: nat)
    requires IndexOk(w) && ActiveHasIncident(w) && |newIds| == |alerts| && DistinctAlerts(alerts) && SyncAlertsTx(w, device, alerts, newIds).Some?
    requires i < |alerts| && !alerts[i].resolved
    ensures var w' := SyncAlertsTx(w, device, alerts, newIds).value;
      exists id :: id in w'.incidents && w'.incidents[id].device == device && w'.incidents[id].category == ListedCategory(alerts[i].kind)
  {
    AlertSourcesAreExact(w, device, alerts, newIds);
    AlertsKeepIndex(w, device, alerts, newIds);
    hide SyncAlertsTx, ListedCategory;
    var w', k := SyncAlertsTx(w, device, alerts, newIds).value, AlertKey(device, alerts[i].id);
    assert Follows(w'.sources, device, alerts[i]);
    assert w'.sources[k].active && k.0 == device;
    assert (device, ListedCategory(alerts[i].kind)) in w'.index;
  }

  /** No alert was seen under another category before. */
  ghost predicate KeepsCategories(w: World, device: string, alerts: seq<Alert>) {
    forall i :: 0 <= i < |alerts| && AlertKey(device, alerts[i].id) in w.sources ==>
      w.sources[AlertKey(device, alerts[i].id)].category == ListedCategory(alerts[i].kind)
  }

  /** The incident of the category, if any, is resolved unless some source is active. */
  ghost predicate Settled(w: World, device: string, category: string) {
    (device, category) in w.index && w.index[(device, category)] in w.incidents && !AnyActive(w.sources, device, category) ==>
      w.incidents[w.index[(device, category)]].status == Resolved
  }

  lemma AlertStepSettles(w: World, v: World, device: string, a: Alert, newId: Option<string>, category: string)
    requires IndexOk(w) && AlertStep(w, v, device, a, newId)
    requires AlertKey(device, a.id) in w.sources ==> w.sources[AlertKey(device, a.id)].category == ListedCategory(a.kind)
    requires category == ListedCategory(a.kind) || Settled(w, device, category)
    ensures Settled(v, device, category)
  {
    AlertStepWrites(w, v, device, a, newId);
    hide SyncTx, ListedCategory, AlertStep;
    if category != ListedCategory(a.kind) {
      var k := AlertKey(device, a.id);
      ActiveElsewhere(w.sources, v.sources, k, device, category);
      if AnyActive(w.sources, device, category) { StillActive(w.sources, k, device, category); }
      hide AnyActive;
    }
  }

  lemma CategoriesStayKept(w: World, v: World, device: string, alerts: seq<Alert>, newId: Option<string>)
    requires alerts != [] && DistinctAlerts(alerts) && KeepsCategories(w, device, alerts)
    requires v.sources == w.sources[AlertKey(device, alerts[0].id) := Source(ListedCategory(alerts[0].kind), !alerts[0].resolved)]
    ensures KeepsCategories(v, device, alerts[1..])
  {
    hide ListedCategory;
    var rest := alerts[1..];
    forall i | 0 <= i < |rest| && AlertKey(device, rest[i].id) in v.sources
      ensures v.sources[AlertKey(device, rest[i].id)].category == ListedCategory(rest[i].kind)
    {
      assert rest[i] == alerts[i + 1];
      if AlertKey(device, rest[i].id) == AlertKey(device, alerts[0].id) { AlertKeysDiffer(device, rest[i].id, alerts[0].id); }
    }
  }

  /** In a category in which some alert was observed, an incident left without an active source is resolved,
      as long as no alert changes its category. */
  lemma {:induction false} ObservedCategoriesSettle(w: World, device: string, alerts: seq<Alert>, newIds: seq<Option<string>>, category: string)
    requires IndexOk(w) && |newIds| == |alerts| && DistinctAlerts(alerts) && KeepsCategories(w, device, alerts)
    requires Settled(w, device, category) || exists i :: 0 <= i < |alerts| && ListedCategory(alerts[i].kind) == category
    requires SyncAlertsTx(w, device, alerts, newIds).Some?
    ensures Settled(SyncAlertsTx(w, device, alerts, newIds).value, device, category)
    decreases |alerts|
  {
    if alerts != [] {
      AlertsSplit(w, device, alerts, newIds);
      var v :| AlertStep(w, v, device, alerts[0], newIds[0]) && SyncAlertsTx(v, device, alerts[1..], newIds[1..]) == SyncAlertsTx(w, device, alerts, newIds);
      AlertStepWrites(w, v, device, alerts[0], newIds[0]);
      CategoriesStayKept(w, v, device, alerts, newIds[0]);
      if Settled(w, device, category) || category == ListedCategory(alerts[0].kind) {
        AlertStepSettles(w, v, device, alerts[0], newIds[0], category);
      }
      hide SyncAlertsTx, AlertStep, IndexOk, ListedCategory, SyncWrites, Settled, KeepsCategories;
      if !Settled(v, device, category) {
        var i :| 0 <= i < |alerts| && ListedCategory(alerts[i].kind) == category;
        assert alerts[1..][i - 1] == alerts[i];
      }
      ObservedCategoriesSettle(v, device, alerts[1..], newIds[1..], category);
    }
  }

  ghost predicate FreshIds(w: World, newIds: seq<Option<string>>) {
    && (forall i :: 0 <= i < |newIds| ==> newIds[i].Some? && newIds[i].value !in w.incidents)
    && (forall i, j :: 0 <= i < j < |newIds| ==> newIds[i] != newIds[j])
  }

  /** With fresh identifiers at hand the sync does not fail. */
  lemma {:induction false} AlertsSucceed(w: World, device: string, alerts: seq<Alert>, newIds: seq<Option<string>>)
    requires IndexOk(w) && |newIds| == |alerts| && FreshIds(w, newIds)
    ensures SyncAlertsTx(w, device, alerts, newIds).Some?
    decreases |alerts|
  {
    if alerts != [] {
      var a := alerts[0];
      CategoriesAreListed(a.kind);
      var category := ListedCategory(a.kind);
      SyncFailsExactly(w, device, "alert:" + a.id, category, a.title, !a.resolved, newIds[0]);
      var one := SyncTx(w, device, "alert:" + a.id, category, a.title, !a.resolved, newIds[0]);
      assert AlertStep(w, one.value, device, a, newIds[0]);
      AlertStepWrites(w, one.value, device, a, newIds[0]);
      KeepsFresh(w, device, a, newIds);
      hide SyncTx, AnyActive, IndexOk, SyncWrites, ListedCategory, IncidentCategory, AlertStep, FreshIds;
      AlertsSucceed(one.value, device, alerts[1..], newIds[1..]);
    }
  }

  lemma KeepsFresh(w: World, device: string, a: Alert, newIds: seq<Option<string>>)
    requires IndexOk(w) && newIds != [] && FreshIds(w, newIds)
    requires SyncTx(w, device, "alert:" + a.id, ListedCategory(a.kind), a.title, !a.resolved, newIds[0]).Some?
    ensures FreshIds(SyncTx(w, device, "alert:" + a.id, ListedCategory(a.kind), a.title, !a.resolved, newIds[0]).value, newIds[1..])
  {
    SyncIsExact(w, device, "alert:" + a.id, ListedCategory(a.kind), a.title, !a.resolved, newIds[0]);
    hide SyncTx, AnyActive, IndexOk, ListedCategory, OtherIncidentsSame;
    var v := SyncTx(w, device, "alert:" + a.id, ListedCategory(a.kind), a.title, !a.resolved, newIds[0]).value;
    assert v.incidents.Keys <= w.incidents.Keys + {newIds[0].value};
    forall i | 0 <= i < |newIds[1..]| ensures newIds[1..][i].Some? && newIds[1..][i].value !in v.incidents {
      assert newIds[1..][i] == newIds[i + 1] && newIds[i + 1] != newIds[0];
    }
  }

  // ---------- Manual actions ----------

  /** A manual action is accepted exactly with access to a known incident and a text that fits: assigning needs an
      assignee who may, acknowledging an unresolved incident, commenting some text. */
  lemma UpdateAcceptsExactly(w: World, user: string, id: string, action: string, text: string, allowed: bool, assignable: bool)
    ensures UpdateTx(w, user, id, action, text, allowed, assignable).Some? <==>
      && id in w.incidents && allowed && |TrimSpace(text)| <= 2048
      && action in ["acknowledge", "assign", "comment", "resolve"]
      && (action == "acknowledge" ==> w.incidents[id].status != Resolved)
      && (action == "assign" ==> TrimSpace(text) == "" || assignable)
      && (action == "comment" ==> TrimSpace(text) != "")
  {
    hide TrimSpace;
  }

  /** It changes the status or the assignee of that incident alone, and logs itself. */
  lemma UpdateIsExact(w: World, user: string, id: string, action: string, text: string, allowed: bool, assignable: bool)
    requires UpdateTx(w, user, id, action, text, allowed, assignable).Some?
    ensures var w' := UpdateTx(w, user, id, action, text, allowed, assignable).value;
      && w'.sources == w.sources && w'.index == w.index && id in w.incidents && w'.incidents.Keys == w.incidents.Keys
      && (forall o :: o in w.incidents && o != id ==> w'.incidents[o] == w.incidents[o])
      && w'.incidents[id].status == (if action == "acknowledge" then Acknowledged else if action == "resolve" then Resolved else w.incidents[id].status)
      && w'.incidents[id].assignee == (if action == "assign" then TrimSpace(text) else w.incidents[id].assignee)
      && w'.incidents[id] == w.incidents[id].(status := w'.incidents[id].status, assignee := w'.incidents[id].assignee)
      && |w'.events| == |w.events| + 1 && w.events <= w'.events
      && var e := w'.events[|w.events|];
        && e.incident == id && e.actor == user && e.body == TrimSpace(text)
        && (e.kind == DidAcknowledge <==> action == "acknowledge") && (e.kind == DidResolve <==> action == "resolve")
        && (e.kind == DidAssign <==> action == "assign") && (e.kind == DidComment <==> action == "comment")
  {
    hide TrimSpace;
  }
}
