/** The store that runs one pass of a rule in place, device by device, in one transaction. */
module FleetRuleStore {
  import opened Text
  import opened Units
  import opened FleetOperations
  import opened FleetRules

  /** The number of commands of a rule and device that are still queued or claimed. */
  method CountLive(w: World, rule: string, device: string) returns (active: nat)
    ensures active > 0 <==> AnyLive(w, rule, device)
  {
    active := 0;
    for i := 0 to |w.reactions|
      invariant active > 0 <==> exists j :: 0 <= j < i && LiveReaction(w, rule, device, w.reactions[j])
    {
      if LiveReaction(w, rule, device, w.reactions[i]) { active := active + 1; }
    }
    if active > 0 {
      var j :| 0 <= j < |w.reactions| && LiveReaction(w, rule, device, w.reactions[j]);
      assert IssuedFor(w.reactions, rule, device, w.reactions[j].command.value);
    } else if AnyLive(w, rule, device) {
      var c :| c in w.commands && Live(w.commands[c]) && IssuedFor(w.reactions, rule, device, c);
      var j :| 0 <= j < |w.reactions| && w.reactions[j] == Reaction(rule, device, Some(c));
      assert LiveReaction(w, rule, device, w.reactions[j]);
    }
  }

  predicate LiveReaction(w: World, rule: string, device: string, r: Reaction) {
    r.rule == rule && r.device == device && r.command.Some? && r.command.value in w.commands && Live(w.commands[r.command.value])
  }

  method ObserveDevice(w: World, id: string, def: Rule, device: string, now: int, seen: Observation) returns (r: Option<World>)
    ensures r == ObserveTx(w, id, def, device, now, seen)
  {
    hide CancelQueuedFor, AnyLive, KnownCommand, StateOf;
    if seen.Nothing? { return Some(w); }
    if seen.QueryFault? { return None; }
    if !seen.known && seen.id == "" { return Some(w); }
    var s := StateOf(w, id, device);
    if seen.id == s.last { return Some(w.(states := w.states[(id, device) := s])); }
    var day, attempts, count, next := s.day, s.actions, s.violations, s.next;
    if day != Some(now / DAY) {
      day, attempts := Some(now / DAY), 0;
    }
    var v, violating := w, seen.violation && seen.known;
    if violating {
      count := Min(count + 1, def.consecutive);
    } else {
      count := 0;
      v := w.(commands := CancelQueuedFor(w, id, device));
    }
    var acted := false;
    if count >= def.consecutive && (next.None? || next.value <= now) && attempts < def.maxActionsPerDay {
      var active := CountLive(v, id, device);
      if active == 0 && (def.action == Notify || seen.online) {
        var command := None;
        if def.action == ServiceRestart {
          if seen.signed.None? || seen.signed.value in w.commands || KnownCommand(w.reactions, seen.signed.value) { return None; }
          command := seen.signed;
          v := v.(commands := v.commands[command.value := CmdQueued]);
        }
        v := v.(reactions := v.reactions + [Reaction(id, device, command)]);
        acted, attempts, count, next := true, attempts + 1, 0, Some(now + def.cooldownSeconds * SECOND);
      }
    }
    v := v.(states := v.states[(id, device) := RuleState(seen.id, count, next, day, attempts)]);
    return Some(v.(history := v.history + [Observed(id, device, def, now, violating, acted)]));
  }

  class ReactionStore {
    var world: World

    constructor ()
      ensures world == World(map[], map[], [], map[], [])
    {
      world := World(map[], map[], [], map[], []);
    }

    method AdvanceRule(id: string, permitted: bool, now: int, seen: string -> Observation) returns (ok: bool)
      modifies this
      ensures ok == AdvanceRuleTx(old(world), id, permitted, now, seen).Some?
      ensures world == if ok then AdvanceRuleTx(old(world), id, permitted, now, seen).value else old(world)
    {
      if id !in world.rules || !world.rules[id].enabled || !permitted { return true; }
      var def := world.rules[id];
      var devices := Compact(def.devices);
      var tx := world;
      for i := 0 to |devices|
        invariant world == old(world)
        invariant AdvanceRuleTx(world, id, permitted, now, seen) == PassTx(tx, id, def, devices[i..], now, seen)
      {
        assert devices[i..][1..] == devices[i + 1..];
        var r := ObserveDevice(tx, id, def, devices[i], now, seen(devices[i]));
        if r.None? { return false; }
        tx := r.value;
      }
      world := tx;
      return true;
    }

    /** A save replaces the definition, forgets every counter and cancels what is still queued. */
    method SaveRule(id: string, rule: Rule, permitted: bool) returns (ok: bool)
      modifies this
      ensures ok == SaveRuleTx(old(world), id, rule, permitted).Some?
      ensures world == if ok then SaveRuleTx(old(world), id, rule, permitted).value else old(world)
    {
      if !ValidRule(rule) || !permitted { return false; }
      var w := world;
      world := world.(rules := w.rules[id := rule], history := w.history + [Saved(id)]);
      world := world.(states := map k | k in w.states && k.0 != id :: w.states[k]);
      world := world.(commands := map c | c in w.commands ::
        if w.commands[c] == CmdQueued && IssuedBy(w.reactions, id, c) then CmdCancelled else w.commands[c]);
      return true;
    }
  }
}
