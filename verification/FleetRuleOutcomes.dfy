/**
 What processing an observation writes, told from the history and the tables before it: when a rule
 acts and when it does not, over every pass of every run.
 */
module FleetRuleOutcomes {
  import opened Text
  import opened Units
  import opened FleetOperations
  import opened FleetRules
  import opened FleetRuleRuns

  /** The observation carries something that was not processed yet. */
  predicate IsNew(w: World, id: string, device: string, seen: Observation) {
    seen.Sample? && (seen.known || seen.id != "") && seen.id != StateOf(w, id, device).last
  }

  /** A command that the rule issued for the device is queued or claimed. */
  ghost predicate Busy(w: World, id: string, device: string) {
    exists i :: 0 <= i < |w.reactions| && w.reactions[i].rule == id && w.reactions[i].device == device && IsLive(w, w.reactions[i].command)
  }

  /** Everything an action needs. */
  ghost predicate Warranted(w: World, id: string, device: string, now: int, seen: Observation)
    requires id in w.rules && seen.Sample?
  {
    var def, h := w.rules[id], w.history;
    && seen.violation && seen.known
    && Streak(h, id, device) + 1 >= def.consecutive
    && (var t := LastAction(h, id, device); t.Some? ==> t.value + def.cooldownSeconds * SECOND <= now)
    && ActionsOn(h, id, device, now / DAY) < def.maxActionsPerDay
    && !Busy(w, id, device)
    && (def.action == Notify || seen.online)
  }

  /** Nothing but the row of the rule and device may differ among the state rows. */
  ghost predicate OtherRowsSame(w: World, w': World, id: string, device: string) {
    forall r, d :: r != id || d != device ==> StateOf(w', r, d) == StateOf(w, r, d)
  }

  /** The queued commands of the rule and device are cancelled, and no other row changes. */
  ghost predicate CancelsQueued(w: World, id: string, device: string, commands: map<string, CommandStatus>) {
    && commands.Keys == w.commands.Keys
    && forall c :: c in w.commands ==>
         commands[c] ==
         if w.commands[c] == CmdQueued && (exists i :: 0 <= i < |w.reactions| && w.reactions[i] == Reaction(id, device, Some(c)))
         then CmdCancelled else w.commands[c]
  }

  /** What one observation makes of the tables. */
  ghost predicate Outcome(w: World, w': World, id: string, device: string, now: int, seen: Observation)
    requires id in w.rules
  {
    && !seen.QueryFault? && w'.rules == w.rules && OtherRowsSame(w, w', id, device)
    && if !IsNew(w, id, device, seen) then
         w'.history == w.history && w'.reactions == w.reactions && w'.commands == w.commands && StateOf(w', id, device) == StateOf(w, id, device)
       else
         var violating, acts, def := seen.violation && seen.known, Warranted(w, id, device, now, seen), w.rules[id];
         && w'.history == w.history + [Observed(id, device, def, now, violating, acts)]
         && StateOf(w', id, device).last == seen.id
         && (if acts then
               if def.action == ServiceRestart then
                 && seen.signed.Some? && seen.signed.value !in w.commands
                 && w'.reactions == w.reactions + [Reaction(id, device, seen.signed)]
                 && w'.commands == w.commands[seen.signed.value := CmdQueued]
               else w'.reactions == w.reactions + [Reaction(id, device, None)] && w'.commands == w.commands
             else
               && w'.reactions == w.reactions
               && (if violating then w'.commands == w.commands else CancelsQueued(w, id, device, w'.commands)))
  }

  lemma BusyIsLive(w: World, id: string, device: string)
    ensures Busy(w, id, device) <==> AnyLive(w, id, device)
  {
    if Busy(w, id, device) {
      var i :| 0 <= i < |w.reactions| && w.reactions[i].rule == id && w.reactions[i].device == device && IsLive(w, w.reactions[i].command);
      assert w.reactions[i] == Reaction(id, device, w.reactions[i].command);
      assert IssuedFor(w.reactions, id, device, w.reactions[i].command.value);
    }
    if AnyLive(w, id, device) {
      var c :| c in w.commands && Live(w.commands[c]) && IssuedFor(w.reactions, id, device, c);
      var i :| 0 <= i < |w.reactions| && w.reactions[i] == Reaction(id, device, Some(c));
      assert IsLive(w, w.reactions[i].command);
    }
  }

  /** The row says about an action what the history says. */
  lemma DueIsWarranted(w: World, id: string, device: string, now: int, violating: bool)
    requires id in w.rules && ValidRule(w.rules[id]) && StateMatches(w, id, device) && DaysMatch(w, id, device)
    requires StateOf(w, id, device).day.Some? ==> StateOf(w, id, device).day.value <= now / DAY
    ensures var def, h := w.rules[id], w.history;
      Due(def, Counted(def, StateOf(w, id, device), now, violating), now) <==>
        && violating && Streak(h, id, device) + 1 >= def.consecutive
        && (var t := LastAction(h, id, device); t.Some? ==> t.value + def.cooldownSeconds * SECOND <= now)
        && ActionsOn(h, id, device, now / DAY) < def.maxActionsPerDay
  {
    var def, h, s, today := w.rules[id], w.history, StateOf(w, id, device), now / DAY;
    RuleCountsUp(def);
    assert Counted(def, s, now, violating).actions == ActionsOn(h, id, device, today);
    hide ActionsOn, Streak, LastAction, ValidRule, StateOf;
  }

  lemma ObservationIsExact(w: World, id: string, device: string, now: int, seen: Observation)
    requires id in w.rules && ValidRule(w.rules[id]) && StateMatches(w, id, device) && DaysMatch(w, id, device)
    requires StateOf(w, id, device).day.Some? ==> StateOf(w, id, device).day.value <= now / DAY
    ensures var r := ObserveTx(w, id, w.rules[id], device, now, seen); r.Some? ==> Outcome(w, r.value, id, device, now, seen)
  {
    var r := ObserveTx(w, id, w.rules[id], device, now, seen);
    if r.Some? && seen.Sample? {
      DueIsWarranted(w, id, device, now, seen.violation && seen.known);
      BusyIsLive(w, id, device);
      hide StateMatches, DaysMatch, Streak, LastAction, ActionsOn, Busy, AnyLive, Due, ValidRule;
      LastDoesNotMatter(w.rules[id], Counted(w.rules[id], StateOf(w, id, device), now, seen.violation && seen.known), now, seen.id);
    }
  }

  lemma LastDoesNotMatter(def: Rule, s: RuleState, now: int, last: string)
    ensures Due(def, s, now) <==> Due(def, s.(last := last), now)
  {
  }

  /** The query failed, or a warranted restart could not be signed under a fresh identifier. */
  ghost predicate CannotProcess(w: World, id: string, device: string, now: int, seen: Observation)
    requires id in w.rules
  {
    || seen.QueryFault?
    || (IsNew(w, id, device, seen) && Warranted(w, id, device, now, seen) && w.rules[id].action == ServiceRestart
        && (seen.signed.None? || seen.signed.value in w.commands || exists i :: 0 <= i < |w.reactions| && w.reactions[i].command == seen.signed))
  }

  lemma ObservationFailsExactly(w: World, id: string, device: string, now: int, seen: Observation)
    requires id in w.rules && ValidRule(w.rules[id]) && StateMatches(w, id, device) && DaysMatch(w, id, device)
    requires StateOf(w, id, device).day.Some? ==> StateOf(w, id, device).day.value <= now / DAY
    ensures ObserveTx(w, id, w.rules[id], device, now, seen).None? <==> CannotProcess(w, id, device, now, seen)
  {
    if seen.Sample? {
      DueIsWarranted(w, id, device, now, seen.violation && seen.known);
      BusyIsLive(w, id, device);
      hide StateMatches, DaysMatch, Streak, LastAction, ActionsOn, Busy, AnyLive, Due, ValidRule;
      LastDoesNotMatter(w.rules[id], Counted(w.rules[id], StateOf(w, id, device), now, seen.violation && seen.known), now, seen.id);
    }
  }

  // ---------- A whole pass ----------

  /** The pass goes through worlds `ws`, one observation after the other. */
  ghost predicate Chain(ws: seq<World>, id: string, devices: seq<string>, now: int, seen: string -> Observation) {
    && |ws| == |devices| + 1
    && (forall j :: 0 <= j < |ws| ==> id in ws[j].rules)
    && forall j :: 0 <= j < |devices| ==> Outcome(ws[j], ws[j + 1], id, devices[j], now, seen(devices[j]))
  }

  lemma ChainMore(w: World, ws: seq<World>, id: string, devices: seq<string>, now: int, seen: string -> Observation)
    requires devices != [] && id in w.rules && ws != [] && Chain(ws, id, devices[1..], now, seen)
    requires Outcome(w, ws[0], id, devices[0], now, seen(devices[0]))
    ensures Chain([w] + ws, id, devices, now, seen)
  {
    hide Outcome;
    var all := [w] + ws;
    forall j | 0 <= j < |devices| ensures Outcome(all[j], all[j + 1], id, devices[j], now, seen(devices[j])) {
      if j > 0 {
        assert all[j] == ws[j - 1] && all[j + 1] == ws[j] && devices[j] == devices[1..][j - 1];
        assert Outcome(ws[j - 1], ws[j], id, devices[1..][j - 1], now, seen(devices[1..][j - 1]));
      }
    }
  }

  ghost predicate Sound(w: World, now: int) {
    RulesOk(w) && DaysOk(w) && NotBefore(w, now)
  }

  lemma SoundRow(w: World, now: int, id: string, device: string)
    requires Sound(w, now) && id in w.rules
    ensures ValidRule(w.rules[id]) && StateMatches(w, id, device) && DaysMatch(w, id, device)
    ensures StateOf(w, id, device).day.Some? ==> StateOf(w, id, device).day.value <= now / DAY
  {
  }

  lemma ObserveKeepsSound(w: World, now: int, id: string, device: string, seen: Observation)
    requires Sound(w, now) && id in w.rules
    ensures var r := ObserveTx(w, id, w.rules[id], device, now, seen); r.Some? ==> Sound(r.value, now) && r.value.rules == w.rules
  {
    hide ObserveTx, RulesOk, DaysOk, NotBefore;
    ObserveKeepsRules(w, id, device, now, seen);
    ObserveKeepsDaysOk(w, id, device, now, seen);
  }

  lemma {:induction false} PassIsChain(w: World, id: string, devices: seq<string>, now: int, seen: string -> Observation) returns (ws: seq<World>)
    requires Sound(w, now) && id in w.rules && PassTx(w, id, w.rules[id], devices, now, seen).Some?
    ensures Chain(ws, id, devices, now, seen) && ws[0] == w && ws[|devices|] == PassTx(w, id, w.rules[id], devices, now, seen).value
    decreases |devices|
  {
    if devices == [] {
      ws := [w];
    } else {
      SoundRow(w, now, id, devices[0]);
      ObservationIsExact(w, id, devices[0], now, seen(devices[0]));
      ObserveKeepsSound(w, now, id, devices[0], seen(devices[0]));
      hide ObserveTx, Sound, Outcome, Chain, StateMatches, DaysMatch, ValidRule;
      var one := ObserveTx(w, id, w.rules[id], devices[0], now, seen(devices[0]));
      var rest := PassIsChain(one.value, id, devices[1..], now, seen);
      ChainHasWorlds(rest, id, devices[1..], now, seen);
      ChainMore(w, rest, id, devices, now, seen);
      ws := [w] + rest;
    }
  }

  lemma ChainHasWorlds(ws: seq<World>, id: string, devices: seq<string>, now: int, seen: string -> Observation)
    requires Chain(ws, id, devices, now, seen)
    ensures |ws| == |devices| + 1
  {
  }

  lemma {:induction false} CompactHas(devices: seq<string>, d: string)
    ensures d in Compact(devices) <==> d in devices
  {
    if |devices| >= 2 {
      CompactHas(devices[1..], d);
      assert devices == [devices[0]] + devices[1..];
    }
  }

  /** In any run with a date that never goes back, a committed pass of an enabled and permitted rule processes
      exactly its devices, one after the other, each with the outcome that the history calls for. */
  lemma PassIsExact(states: seq<World>, steps: seq<Step>, k: nat) returns (devices: seq<string>, ws: seq<World>)
    requires IsRun(states, steps) && k < |steps| && forall m :: 0 <= m <= k ==> Forward(states[m], steps[m])
    requires steps[k].Advance? && steps[k].id in states[k].rules && states[k].rules[steps[k].id].enabled && steps[k].permitted
    requires AdvanceRuleTx(states[k], steps[k].id, true, steps[k].now, steps[k].seen).Some?
    ensures forall d :: d in devices <==> d in states[k].rules[steps[k].id].devices
    ensures Chain(ws, steps[k].id, devices, steps[k].now, steps[k].seen) && ws[0] == states[k] && ws[|devices|] == states[k + 1]
  {
    var w, id := states[k], steps[k].id;
    devices := Compact(w.rules[id].devices);
    forall d ensures d in devices <==> d in w.rules[id].devices { CompactHas(w.rules[id].devices, d); }
    SoundInRun(states, steps, k);
    assert states[k + 1] == Apply(w, steps[k]);
    hide IsRun, Sound, Chain, PassTx, Compact;
    ws := PassIsChain(w, id, devices, steps[k].now, steps[k].seen);
  }

  lemma SoundInRun(states: seq<World>, steps: seq<Step>, k: nat)
    requires IsRun(states, steps) && k < |steps| && (forall m :: 0 <= m <= k ==> Forward(states[m], steps[m])) && steps[k].Advance?
    ensures Sound(states[k], steps[k].now)
  {
    assert Forward(states[k], steps[k]);
    RunKeeps(states, steps, k);
    RunKeepsDays(states, steps, k);
    hide RulesOk, DaysOk, NotBefore, IsRun, LiveOnce;
  }

  /** A pass of a disabled, unknown or unpermitted rule changes nothing; any other fails only where some
      observation cannot be processed. */
  lemma {:induction false} PassFailsOnlyOnFault(w: World, id: string, devices: seq<string>, now: int, seen: string -> Observation) returns (v: World, d: string)
    requires Sound(w, now) && id in w.rules && PassTx(w, id, w.rules[id], devices, now, seen).None?
    ensures d in devices && id in v.rules && v.rules == w.rules && CannotProcess(v, id, d, now, seen(d))
    decreases |devices|
  {
    d := devices[0];
    SoundRow(w, now, id, d);
    ObservationFailsExactly(w, id, d, now, seen(d));
    ObserveKeepsSound(w, now, id, d, seen(d));
    hide ObserveTx, Sound, StateMatches, DaysMatch, ValidRule, CannotProcess;
    var one := ObserveTx(w, id, w.rules[id], d, now, seen(d));
    if one.None? {
      v := w;
    } else {
      v, d := PassFailsOnlyOnFault(one.value, id, devices[1..], now, seen);
    }
  }

  lemma IdleRuleDoesNothing(w: World, id: string, permitted: bool, now: int, seen: string -> Observation)
    requires id !in w.rules || !w.rules[id].enabled || !permitted
    ensures AdvanceRuleTx(w, id, permitted, now, seen) == Some(w)
  {
  }

  // ---------- Saving ----------

  /** The limits of a rule. */
  ghost predicate Fits(rule: Rule) {
    && 0 < |rule.title| < 161 && 0 < |rule.devices| < 101
    && 0 < rule.consecutive < 21 && 299 < rule.cooldownSeconds < 86401 && 0 < rule.maxActionsPerDay < 6
    && !(rule.threshold < 0.0) && !(rule.threshold > 100.0)
    && rule.kind in ["load_high", "memory_high", "offline", "service_down", "wan_unreachable"]
    && (rule.service in ["dnsmasq", "uhttpd"] || (rule.action == Notify && rule.kind != "service_down"))
    && (rule.kind == "offline" ==> rule.action == Notify)
  }

  /** A save is accepted exactly within the limits and with the permission. It forgets every state row of the
      rule and cancels its queued commands, and touches nothing else. */
  lemma SaveIsExact(w: World, id: string, rule: Rule, permitted: bool)
    ensures SaveRuleTx(w, id, rule, permitted).Some? <==> Fits(rule) && permitted
    ensures SaveRuleTx(w, id, rule, permitted).Some? ==>
      var w' := SaveRuleTx(w, id, rule, permitted).value;
      && w'.rules == w.rules[id := rule] && w'.reactions == w.reactions && w'.history == w.history + [Saved(id)]
      && (forall r, d :: StateOf(w', r, d) == if r == id then FRESH else StateOf(w, r, d))
      && w'.commands.Keys == w.commands.Keys
      && forall c :: c in w.commands ==>
           w'.commands[c] ==
           if w.commands[c] == CmdQueued && (exists i :: 0 <= i < |w.reactions| && w.reactions[i].rule == id && w.reactions[i].command == Some(c))
           then CmdCancelled else w.commands[c]
  {
  }

  // ---------- Telemetry ----------

  /** Memory is violated exactly when the used share, where it makes sense, reaches the threshold in percent. */
  lemma MemoryViolationIsExact(rule: Rule, m: Metrics)
    requires rule.kind == "memory_high"
    ensures ReactionViolation(rule, m).1 <==> m.memoryTotal > 0.0 && 0.0 <= m.memoryUsed <= m.memoryTotal
    ensures ReactionViolation(rule, m).0 <==> ReactionViolation(rule, m).1 && m.memoryUsed * 100.0 >= rule.threshold * m.memoryTotal
  {
    if m.memoryTotal > 0.0 {
      var q := m.memoryUsed / m.memoryTotal;
      assert q * m.memoryTotal == m.memoryUsed;
      assert q * 100.0 * m.memoryTotal == m.memoryUsed * 100.0;
      if q * 100.0 >= rule.threshold { AtLeast(q * 100.0, rule.threshold, m.memoryTotal); } else { LessThan(q * 100.0, rule.threshold, m.memoryTotal); }
    }
  }

  lemma AtLeast(a: real, b: real, t: real)
    requires a >= b && t > 0.0
    ensures a * t >= b * t
  {
  }

  lemma LessThan(a: real, b: real, t: real)
    requires a < b && t > 0.0
    ensures a * t < b * t
  {
  }

  /** Load is violated exactly when a known load reaches the threshold; conditions that no telemetry speaks of are unknown. */
  lemma OtherViolationsAreExact(rule: Rule, m: Metrics)
    ensures rule.kind == "load_high" ==>
      && (ReactionViolation(rule, m).1 <==> m.load.Some? && m.load.value >= 0.0)
      && (ReactionViolation(rule, m).0 <==> m.load.Some? && m.load.value >= 0.0 && m.load.value >= rule.threshold)
    ensures rule.kind !in ["load_high", "memory_high", "wan_unreachable"] ==> ReactionViolation(rule, m) == (false, false)
  {
  }
}
