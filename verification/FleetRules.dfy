/**
 Automatic reactions: a rule counts consecutive violating observations of a device and
 then notifies or restarts a service, under a cooldown, a daily cap and a limit of one
 live command per rule and device. Instants are integers in nanoseconds.
 */
module FleetRules {
  import opened Text
  import opened Units
  import opened FleetOperations

  datatype Action = Notify | ServiceRestart

  datatype Rule = Rule(
    title: string,
    devices: seq<string>,
    kind: string,
    threshold: real,
    consecutive: int,
    cooldownSeconds: int,
    maxActionsPerDay: int,
    action: Action,
    service: string,
    enabled: bool)

  /** One row of rule state; absent `next` and `day` are the empty text of a fresh row. */
  datatype RuleState = RuleState(last: string, violations: int, next: Option<int>, day: Option<int>, actions: int)

  const FRESH: RuleState := RuleState("", 0, None, None, 0)

  /** A recorded reaction; a notification has no command. */
  datatype Reaction = Reaction(rule: string, device: string, command: Option<string>)

  /** What happened, in order: observations that were newly processed, and rule saves. */
  datatype Entry =
    | Observed(rule: string, device: string, def: Rule, at: int, violating: bool, acted: bool)
    | Saved(rule: string)

  datatype World = World(
    rules: map<string, Rule>,
    states: map<(string, string), RuleState>,
    reactions: seq<Reaction>,
    commands: map<string, CommandStatus>,
    history: seq<Entry>)

  /** What one pass learns about one device. `Nothing`: no access, never seen, or no fresh sample. */
  datatype Observation =
    | Nothing
    | Sample(id: string, violation: bool, known: bool, online: bool, signed: Option<string>)
    | QueryFault

  // ---------- Conditions ----------

  datatype Metrics = Metrics(load: Option<real>, memoryTotal: real, memoryUsed: real, reachable: seq<Option<bool>>)

  /** (violation, known); an observation that is not known is never a violation. */
  function ReactionViolation(rule: Rule, m: Metrics): (r: (bool, bool))
    ensures r.0 ==> r.1
  {
    if rule.kind == "memory_high" then
      if m.memoryTotal <= 0.0 || m.memoryUsed < 0.0 || m.memoryUsed > m.memoryTotal then (false, false)
      else (m.memoryUsed / m.memoryTotal * 100.0 >= rule.threshold, true)
    else if rule.kind == "load_high" then
      if m.load.None? || m.load.value < 0.0 then (false, false) else (m.load.value >= rule.threshold, true)
    else if rule.kind == "wan_unreachable" then
      if m.reachable == [] then (false, false) else WanFrom(m.reachable, 0)
    else (false, false)
  }

  function WanFrom(checks: seq<Option<bool>>, i: nat): (r: (bool, bool))
    requires i <= |checks|
    ensures r.0 ==> r.1
    decreases |checks| - i
  {
    if i == |checks| then (true, true)
    else if checks[i].None? then (false, false)
    else if checks[i].value then (false, true)
    else WanFrom(checks, i + 1)
  }

  ghost predicate AllUnreachable(checks: seq<Option<bool>>, i: nat, j: nat)
    requires j <= |checks|
  {
    forall k :: i <= k < j ==> checks[k] == Some(false)
  }

  /** The outcome up to which every check reports unreachable decides. */
  lemma {:induction false} WanFromIsExact(checks: seq<Option<bool>>, i: nat)
    requires i <= |checks|
    ensures WanFrom(checks, i).0 <==> AllUnreachable(checks, i, |checks|)
    ensures !WanFrom(checks, i).1 <==>
      exists j :: i <= j < |checks| && checks[j].None? && AllUnreachable(checks, i, j)
    decreases |checks| - i
  {
    if i < |checks| && checks[i] == Some(false) {
      WanFromIsExact(checks, i + 1);
      if !WanFrom(checks, i).1 {
        var j :| i + 1 <= j < |checks| && checks[j].None? && AllUnreachable(checks, i + 1, j);
        assert AllUnreachable(checks, i, j);
      }
    } else if i < |checks| && checks[i].None? {
      assert AllUnreachable(checks, i, i);
    }
  }

  /** The WAN is known to be unreachable exactly when there are checks and every one reports unreachable;
      it is unknown exactly when there are none, or one without an outcome comes before any reachable one. */
  lemma WanUnreachableExactly(rule: Rule, m: Metrics)
    requires rule.kind == "wan_unreachable"
    ensures ReactionViolation(rule, m).0 <==> m.reachable != [] && AllUnreachable(m.reachable, 0, |m.reachable|)
    ensures !ReactionViolation(rule, m).1 <==>
      m.reachable == [] || exists j :: 0 <= j < |m.reachable| && m.reachable[j].None? && AllUnreachable(m.reachable, 0, j)
  {
    WanFromIsExact(m.reachable, 0);
  }

  predicate ValidRule(rule: Rule) {
    && 1 <= |rule.title| <= 160
    && 1 <= |rule.devices| <= 100
    && 1 <= rule.consecutive <= 20
    && 300 <= rule.cooldownSeconds <= 86400
    && 1 <= rule.maxActionsPerDay <= 5
    && 0.0 <= rule.threshold <= 100.0
    && rule.kind in {"memory_high", "load_high", "wan_unreachable", "offline", "service_down"}
    && (rule.action == ServiceRestart || rule.kind == "service_down" ==> rule.service == "dnsmasq" || rule.service == "uhttpd")
    && !(rule.action == ServiceRestart && rule.kind == "offline")
  }

  // ---------- Transactions ----------

  predicate IssuedFor(reactions: seq<Reaction>, rule: string, device: string, c: string) {
    exists i :: 0 <= i < |reactions| && reactions[i] == Reaction(rule, device, Some(c))
  }

  predicate IssuedBy(reactions: seq<Reaction>, rule: string, c: string) {
    exists i :: 0 <= i < |reactions| && reactions[i].rule == rule && reactions[i].command == Some(c)
  }

  predicate KnownCommand(reactions: seq<Reaction>, c: string) {
    exists i :: 0 <= i < |reactions| && reactions[i].command == Some(c)
  }

  /** Some reaction command of this rule and device is still queued or claimed. */
  predicate AnyLive(w: World, rule: string, device: string) {
    exists c :: c in w.commands && Live(w.commands[c]) && IssuedFor(w.reactions, rule, device, c)
  }

  function CancelQueuedFor(w: World, rule: string, device: string): map<string, CommandStatus> {
    map c | c in w.commands ::
      if w.commands[c] == CmdQueued && IssuedFor(w.reactions, rule, device, c) then CmdCancelled else w.commands[c]
  }

  function StateOf(w: World, rule: string, device: string): RuleState {
    if (rule, device) in w.states then w.states[(rule, device)] else FRESH
  }

  /** The state row after counting one new observation, before any action. */
  function Counted(def: Rule, s: RuleState, now: int, violating: bool): RuleState {
    var today := now / DAY;
    RuleState(s.last,
      if violating then Min(s.violations + 1, def.consecutive) else 0,
      s.next,
      Some(today),
      if s.day == Some(today) then s.actions else 0)
  }

  predicate Due(def: Rule, s: RuleState, now: int) {
    s.violations >= def.consecutive && (s.next.Some? ==> s.next.value <= now) && s.actions < def.maxActionsPerDay
  }

  /** One device of one pass; `None` when a query or signing fails. */
  function ObserveTx(w: World, id: string, def: Rule, device: string, now: int, seen: Observation): Option<World> {
    match seen
    case Nothing => Some(w)
    case QueryFault => None
    case Sample(sample, violation, known, online, signed) =>
      if !known && sample == "" then Some(w)
      else
        var s := StateOf(w, id, device);
        if sample == s.last then Some(w.(states := w.states[(id, device) := s]))
        else
          var violating := violation && known;
          var commands := if violating then w.commands else CancelQueuedFor(w, id, device);
          var s1 := Counted(def, s, now, violating).(last := sample);
          var v := w.(commands := commands);
          if Due(def, s1, now) && !AnyLive(v, id, device) && (def.action == Notify || online) then
            if def.action == ServiceRestart && (signed.None? || signed.value in w.commands || KnownCommand(w.reactions, signed.value)) then None
            else
              var command := if def.action == ServiceRestart then signed else None;
              var s2 := s1.(violations := 0, actions := s1.actions + 1, next := Some(now + def.cooldownSeconds * SECOND));
              Some(v.(
                states := w.states[(id, device) := s2],
                reactions := w.reactions + [Reaction(id, device, command)],
                commands := if command.Some? then commands[command.value := CmdQueued] else commands,
                history := w.history + [Observed(id, device, def, now, violating, true)]))
          else
            Some(v.(
              states := w.states[(id, device) := s1],
              history := w.history + [Observed(id, device, def, now, violating, false)]))
  }

  /** Go's `slices.Compact`: drops a device listed twice in a row. */
  function Compact(devices: seq<string>): seq<string> {
    if |devices| < 2 then devices
    else if devices[0] == devices[1] then Compact(devices[1..])
    else [devices[0]] + Compact(devices[1..])
  }

  function PassTx(w: World, id: string, def: Rule, devices: seq<string>, now: int, seen: string -> Observation): Option<World>
    decreases |devices|
  {
    if devices == [] then Some(w)
    else
      var one := ObserveTx(w, id, def, devices[0], now, seen(devices[0]));
      if one.None? then None else PassTx(one.value, id, def, devices[1..], now, seen)
  }

  /** One pass of one rule; `permitted` is the owner's right to run it. */
  function AdvanceRuleTx(w: World, id: string, permitted: bool, now: int, seen: string -> Observation): Option<World> {
    if id !in w.rules || !w.rules[id].enabled || !permitted then Some(w)
    else PassTx(w, id, w.rules[id], Compact(w.rules[id].devices), now, seen)
  }

  /** Saving resets every state row of the rule and cancels its queued commands. */
  function SaveRuleTx(w: World, id: string, rule: Rule, permitted: bool): Option<World> {
    if !ValidRule(rule) || !permitted then None
    else Some(w.(
      rules := w.rules[id := rule],
      states := map k | k in w.states && k.0 != id :: w.states[k],
      commands := map c | c in w.commands ::
        if w.commands[c] == CmdQueued && IssuedBy(w.reactions, id, c) then CmdCancelled else w.commands[c],
      history := w.history + [Saved(id)]))
  }
}
