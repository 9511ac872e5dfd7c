/**
 Incident correlation: confirmed conditions of a device (alerts and reaction rules) fold
 into one incident per device and category, next to manual actions, with an event log.
 */
module Incidents {
  import opened Text

  datatype Status = Open | Acknowledged | Resolved

  datatype Incident = Incident(device: string, category: string, title: string, status: Status, assignee: string, occurrences: int)

  datatype EventKind = Opened | ConditionAdded | Reopened | Recovered | DidAcknowledge | DidResolve | DidAssign | DidComment

  datatype Event = Event(incident: string, actor: string, kind: EventKind, body: string)

  datatype Source = Source(category: string, active: bool)

  /** `index` is the unique index of incidents on (device, category). */
  datatype World = World(
    sources: map<(string, string), Source>,
    incidents: map<string, Incident>,
    index: map<(string, string), string>,
    events: seq<Event>)

  function IncidentCategory(kind: string, service: string): string {
    if kind in {"offline", "wan_unreachable", "wan_down", "packet_loss_high", "latency_high", "connectivity", "dns", "wan"} then "network"
    else if kind in {"load_high", "memory_high"} then "resources"
    else if kind == "service_down" then "service:" + service
    else kind
  }

  function IsActive(w: World, device: string, source: string): bool {
    (device, source) in w.sources && w.sources[(device, source)].active
  }

  /** Some source of the device is active in the category. */
  predicate AnyActive(sources: map<(string, string), Source>, device: string, category: string) {
    exists k :: k in sources && k.0 == device && sources[k].category == category && sources[k].active
  }

  /** One confirmed observation of one source; `None` when no identifier can be drawn. */
  function SyncTx(w: World, device: string, source: string, category: string, title: string, active: bool, newId: Option<string>): Option<World> {
    var wasActive := IsActive(w, device, source);
    var sources := w.sources[(device, source) := Source(category, active)];
    var v := w.(sources := sources);
    var any := AnyActive(sources, device, category);
    if (device, category) !in w.index then
      if !any then Some(v)
      else if newId.None? || newId.value in w.incidents then None
      else
        var id := newId.value;
        Some(v.(
          incidents := w.incidents[id := Incident(device, category, title, Open, "", 1)],
          index := w.index[(device, category) := id],
          events := w.events + [Event(id, "system", Opened, source)]))
    else
      var id := w.index[(device, category)];
      if id !in w.incidents then None
      else
        var i := w.incidents[id];
        if !any && i.status != Resolved then
          Some(v.(incidents := w.incidents[id := i.(status := Resolved)], events := w.events + [Event(id, "system", Recovered, "")]))
        else if active && !wasActive then
          if i.status == Resolved then
            Some(v.(
              incidents := w.incidents[id := i.(status := Open, occurrences := i.occurrences + 1)],
              events := w.events + [Event(id, "system", Reopened, source)]))
          else Some(v.(events := w.events + [Event(id, "system", ConditionAdded, source)]))
        else Some(v)
  }

  /** `allowed`: the caller may manage incidents of the device; `assignable`: so may the assignee. */
  function UpdateTx(w: World, user: string, id: string, action: string, text: string, allowed: bool, assignable: bool): Option<World> {
    var body := TrimSpace(text);
    if |body| > 2048 || (action == "comment" && body == "") || id !in w.incidents || !allowed then None
    else
      var i := w.incidents[id];
      if action == "assign" then
        if body != "" && !assignable then None
        else Some(w.(incidents := w.incidents[id := i.(assignee := body)], events := w.events + [Event(id, user, DidAssign, body)]))
      else if action == "acknowledge" then
        if i.status == Resolved then None
        else Some(w.(incidents := w.incidents[id := i.(status := Acknowledged)], events := w.events + [Event(id, user, DidAcknowledge, body)]))
      else if action == "resolve" then
        Some(w.(incidents := w.incidents[id := i.(status := Resolved)], events := w.events + [Event(id, user, DidResolve, body)]))
      else if action == "comment" then
        Some(w.(events := w.events + [Event(id, user, DidComment, body)]))
      else None
  }

  // ---------- Alerts of one device ----------

  datatype Alert = Alert(id: string, kind: string, title: string, resolved: bool)

  /** All alerts of a device in one transaction; any failure rolls all of it back. */
  function SyncAlertsTx(w: World, device: string, alerts: seq<Alert>, newIds: seq<Option<string>>): Option<World>
    requires |newIds| == |alerts|
    decreases |alerts|
  {
    if alerts == [] then Some(w)
    else
      var a := alerts[0];
      var one := SyncTx(w, device, "alert:" + a.id, IncidentCategory(a.kind, ""), a.title, !a.resolved, newIds[0]);
      if one.None? then None else SyncAlertsTx(one.value, device, alerts[1..], newIds[1..])
  }

  class IncidentStore {
    var sources: map<(string, string), Source>
    var incidents: map<string, Incident>
    var index: map<(string, string), string>
    var events: seq<Event>

    ghost function View(): World
      reads this
    {
      World(sources, incidents, index, events)
    }

    constructor ()
      ensures View() == World(map[], map[], map[], [])
    {
      sources, incidents, index, events := map[], map[], map[], [];
    }

    method AddEvent(incident: string, actor: string, kind: EventKind, body: string)
      modifies this`events
      ensures events == old(events) + [Event(incident, actor, kind, body)]
    {
      events := events + [Event(incident, actor, kind, body)];
    }

    /** Runs inside a transaction: what a failed call has written is rolled back by its caller. */
    method SyncIncidentSource(device: string, source: string, category: string, title: string, active: bool, newId: Option<string>)
        returns (ok: bool)
      modifies this
      ensures ok == SyncTx(old(View()), device, source, category, title, active, newId).Some?
      ensures ok ==> View() == SyncTx(old(View()), device, source, category, title, active, newId).value
    {
      hide AnyActive;
      var wasActive := (device, source) in sources && sources[(device, source)].active;
      sources := sources[(device, source) := Source(category, active)];
      var any := AnyActive(sources, device, category);
      if (device, category) !in index {
        if !any { return true; }
        if newId.None? || newId.value in incidents { return false; }
        incidents := incidents[newId.value := Incident(device, category, title, Open, "", 1)];
        index := index[(device, category) := newId.value];
        AddEvent(newId.value, "system", Opened, source);
        return true;
      }
      var id := index[(device, category)];
      if id !in incidents { return false; }
      if !any && incidents[id].status != Resolved {
        incidents := incidents[id := incidents[id].(status := Resolved)];
        AddEvent(id, "system", Recovered, "");
        return true;
      }
      if active && !wasActive {
        var kind := ConditionAdded;
        if incidents[id].status == Resolved {
          kind := Reopened;
          incidents := incidents[id := incidents[id].(status := Open, occurrences := incidents[id].occurrences + 1)];
        }
        AddEvent(id, "system", kind, source);
      }
      return true;
    }

    method SyncAlertIncidents(device: string, alerts: seq<Alert>, newIds: seq<Option<string>>) returns (ok: bool)
      requires |newIds| == |alerts|
      modifies this
      ensures ok == SyncAlertsTx(old(View()), device, alerts, newIds).Some?
      ensures View() == if ok then SyncAlertsTx(old(View()), device, alerts, newIds).value else old(View())
    {
      hide SyncTx;
      var sources0, incidents0, index0, events0 := sources, incidents, index, events;
      for i := 0 to |alerts|
        invariant SyncAlertsTx(old(View()), device, alerts, newIds) == SyncAlertsTx(View(), device, alerts[i..], newIds[i..])
      {
        assert alerts[i..][1..] == alerts[i + 1..] && newIds[i..][1..] == newIds[i + 1..];
        var a := alerts[i];
        var done := SyncIncidentSource(device, "alert:" + a.id, IncidentCategory(a.kind, ""), a.title, !a.resolved, newIds[i]);
        if !done {
          sources, incidents, index, events := sources0, incidents0, index0, events0;
          return false;
        }
      }
      return true;
    }

    method UpdateIncident(user: string, id: string, action: string, text: string, allowed: bool, assignable: bool) returns (ok: bool)
      modifies this
      ensures ok == UpdateTx(old(View()), user, id, action, text, allowed, assignable).Some?
      ensures View() == if ok then UpdateTx(old(View()), user, id, action, text, allowed, assignable).value else old(View())
    {
      hide TrimSpace;
      var body := TrimSpace(text);
      if |body| > 2048 { return false; }
      if action != "acknowledge" && action != "resolve" && action != "assign" && action != "comment" { return false; }
      if action == "comment" && body == "" { return false; }
      if id !in incidents || !allowed { return false; }
      var i := incidents[id];
      var kind := DidComment;
      if action == "assign" {
        if body != "" && !assignable { return false; }
        kind, i := DidAssign, i.(assignee := body);
      } else if action == "acknowledge" {
        if i.status == Resolved { return false; }
        kind, i := DidAcknowledge, i.(status := Acknowledged);
      } else if action == "resolve" {
        kind, i := DidResolve, i.(status := Resolved);
      }
      incidents := incidents[id := i];
      AddEvent(id, user, kind, body);
      return true;
    }
  }
}
