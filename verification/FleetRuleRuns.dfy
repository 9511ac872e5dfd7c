/** The promises of automatic reactions over whole runs of passes, saves and agent changes. */
module FleetRuleRuns {
  import opened Text
  import opened Units
  import opened FleetOperations
  import opened FleetRules

  // ---------- Reading the history ----------

  /** How many known violations in a row were processed since the last action, clean or unknown
      observation, or save. */
  function Streak(h: seq<Entry>, rule: string, device: string): nat {
    if h == [] then 0
    else
      var front, e := h[..|h| - 1], h[|h| - 1];
      match e
      case Saved(r) => if r == rule then 0 else Streak(front, rule, device)
      case Observed(r, d, _, _, violating, acted) =>
        if r != rule || d != device then Streak(front, rule, device)
        else if acted || !violating then 0
        else Streak(front, rule, device) + 1
  }

  /** The time of the last action on the device since the rule was last saved. */
  function LastAction(h: seq<Entry>, rule: string, device: string): Option<int> {
    if h == [] then None
    else
      var front, e := h[..|h| - 1], h[|h| - 1];
      match e
      case Saved(r) => if r == rule then None else LastAction(front, rule, device)
      case Observed(r, d, _, at, _, acted) =>
        if r == rule && d == device && acted then Some(at) else LastAction(front, rule, device)
  }

  /** How many actions on the device fell on a day since the rule was last saved. */
  function ActionsOn(h: seq<Entry>, rule: string, device: string, day: int): nat {
    if h == [] then 0
    else
      var front, e := h[..|h| - 1], h[|h| - 1];
      match e
      case Saved(r) => if r == rule then 0 else ActionsOn(front, rule, device, day)
      case Observed(r, d, _, at, _, acted) =>
        ActionsOn(front, rule, device, day) + if r == rule && d == device && acted && at / DAY == day then 1 else 0
  }

  /** The definition under which the rule's latest observations were processed. */
  ghost predicate SameDefinition(h: seq<Entry>, rule: string, def: Rule) {
    h == [] ||
    var front, e := h[..|h| - 1], h[|h| - 1];
    match e
    case Saved(r) => r == rule || SameDefinition(front, rule, def)
    case Observed(r, _, d, _, _, _) => (r == rule ==> d == def) && SameDefinition(front, rule, def)
  }

  // ---------- The invariant ----------

  /** Between saves every observation is judged by the same definition; an action is only ever
      taken on the violation that fills the counter, and not before the cooldown of the previous
      action on the device is over. */
  ghost predicate JustifiedAt(h: seq<Entry>, k: nat)
    requires k < |h|
  {
    h[k].Observed? ==>
      && SameDefinition(h[..k], h[k].rule, h[k].def)
      && 0 < h[k].def.cooldownSeconds
      && (h[k].acted ==>
            && h[k].violating
            && Streak(h[..k], h[k].rule, h[k].device) + 1 >= h[k].def.consecutive
            && (var t := LastAction(h[..k], h[k].rule, h[k].device); t.Some? ==> t.value + h[k].def.cooldownSeconds * SECOND <= h[k].at))
  }

  ghost predicate StateMatches(w: World, rule: string, device: string)
    requires rule in w.rules
  {
    var s, def := StateOf(w, rule, device), w.rules[rule];
    && s.violations == Min(def.consecutive, Streak(w.history, rule, device))
    && s.next == (match LastAction(w.history, rule, device) case None => None case Some(t) => Some(t + def.cooldownSeconds * SECOND))
  }

  ghost predicate RulesOk(w: World) {
    && (forall r :: r in w.rules ==> ValidRule(w.rules[r]) && SameDefinition(w.history, r, w.rules[r]))
    && (forall r, d :: r in w.rules ==> StateMatches(w, r, d))
    && (forall k :: 0 <= k < |w.history| ==> JustifiedAt(w.history, k))
  }

  ghost predicate LiveOnce(w: World) {
    && (forall i, j :: 0 <= i < j < |w.reactions| && w.reactions[i].command.Some? ==> w.reactions[i].command != w.reactions[j].command)
    && (forall i, j :: 0 <= i < j < |w.reactions| && w.reactions[i].rule == w.reactions[j].rule && w.reactions[i].device == w.reactions[j].device ==>
          !(IsLive(w, w.reactions[i].command) && IsLive(w, w.reactions[j].command)))
  }

  ghost predicate IsLive(w: World, c: Option<string>) {
    c.Some? && c.value in w.commands && Live(w.commands[c.value])
  }

  /** With a clock that never goes back: the counter of actions is that of the row's day, later
      days are still empty, and no day exceeds the cap. */
  ghost predicate DaysMatch(w: World, rule: string, device: string)
    requires rule in w.rules
  {
    var s, h := StateOf(w, rule, device), w.history;
    && (forall day :: ActionsOn(h, rule, device, day) <= w.rules[rule].maxActionsPerDay)
    && (s.day.Some? ==> s.actions == ActionsOn(h, rule, device, s.day.value))
    && (forall day :: s.day.None? || s.day.value < day ==> ActionsOn(h, rule, device, day) == 0)
  }

  // ---------- One observation ----------

  lemma HistoryGrows(h: seq<Entry>, e: Entry)
    ensures (h + [e])[..|h|] == h && (h + [e])[|h|] == e
  {
  }

  /** A new entry of rule `id` keeps every earlier justification. */
  lemma JustificationsStay(h: seq<Entry>, e: Entry)
    requires forall k :: 0 <= k < |h| ==> JustifiedAt(h, k)
    requires JustifiedAt(h + [e], |h|)
    ensures forall k :: 0 <= k < |h| + 1 ==> JustifiedAt(h + [e], k)
  {
    forall k | 0 <= k < |h| + 1 ensures JustifiedAt(h + [e], k) {
      if k < |h| {
        assert (h + [e])[..k] == h[..k] && (h + [e])[k] == h[k];
        assert JustifiedAt(h, k);
      }
    }
  }

  /** What processing an observation writes: at most one history entry, of this rule and device. */
  ghost predicate Writes(w: World, w': World, id: string, device: string)
    requires id in w.rules
  {
    && w'.rules == w.rules
    && (w'.history == w.history ||
        exists e :: w'.history == w.history + [e] && e.Observed? && e.rule == id && e.device == device && e.def == w.rules[id])
  }

  /** The row after an observation was counted, with or without an action. */
  function RowAfter(def: Rule, s: RuleState, now: int, violating: bool, acted: bool, sample: string): RuleState {
    var counted := Counted(def, s, now, violating).(last := sample);
    if acted then
      counted.(violations := 0, actions := counted.actions + 1, next := Some(now + def.cooldownSeconds * SECOND))
    else counted
  }

  /** The observation was new: it was counted, and an action was only taken when one was due. */
  ghost predicate Counts(w: World, w': World, id: string, def: Rule, device: string, now: int) {
    && |w'.history| == |w.history| + 1
    && var e, s, s' := w'.history[|w.history|], StateOf(w, id, device), StateOf(w', id, device);
      && w'.history == w.history + [e]
      && e.Observed? && e == Observed(id, device, def, now, e.violating, e.acted)
      && s' == RowAfter(def, s, now, e.violating, e.acted, s'.last)
      && (e.acted ==> Due(def, Counted(def, s, now, e.violating), now))
  }

  lemma ObserveCounts(w: World, id: string, def: Rule, device: string, now: int, seen: Observation)
    ensures var r := ObserveTx(w, id, def, device, now, seen);
      r.Some? ==>
        && r.value.rules == w.rules
        && ((r.value.history == w.history && StateOf(r.value, id, device) == StateOf(w, id, device))
            || Counts(w, r.value, id, def, device, now))
  {
  }

  /** How one more observation of the rule and device moves what the history says. */
  lemma OwnEntry(h: seq<Entry>, e: Entry)
    requires e.Observed?
    ensures Streak(h + [e], e.rule, e.device) == if e.acted || !e.violating then 0 else Streak(h, e.rule, e.device) + 1
    ensures LastAction(h + [e], e.rule, e.device) == if e.acted then Some(e.at) else LastAction(h, e.rule, e.device)
    ensures forall day :: ActionsOn(h + [e], e.rule, e.device, day)
                       == ActionsOn(h, e.rule, e.device, day) + if e.acted && e.at / DAY == day then 1 else 0
  {
    HistoryGrows(h, e);
  }

  /** When the counter and the cooldown say what the history says, they still do after one more entry. */
  lemma EntryMatches(def: Rule, s: RuleState, h: seq<Entry>, e: Entry, now: int, sample: string)
    requires e.Observed? && e.def == def && e.at == now && 0 < def.consecutive
    requires s.violations == Min(def.consecutive, Streak(h, e.rule, e.device))
    requires s.next == match LastAction(h, e.rule, e.device) case None => None case Some(t) => Some(t + def.cooldownSeconds * SECOND)
    ensures var s' := RowAfter(def, s, now, e.violating, e.acted, sample);
      && s'.violations == Min(def.consecutive, Streak(h + [e], e.rule, e.device))
      && s'.next == match LastAction(h + [e], e.rule, e.device) case None => None case Some(t) => Some(t + def.cooldownSeconds * SECOND)
  {
    hide Streak, LastAction, ActionsOn, SameDefinition, ValidRule;
    OwnEntry(h, e);
  }

  lemma EntryIsJustified(def: Rule, s: RuleState, h: seq<Entry>, e: Entry, now: int)
    requires e.Observed? && e.def == def && e.at == now && ValidRule(def) && SameDefinition(h, e.rule, def)
    requires e.acted ==> Due(def, Counted(def, s, now, e.violating), now)
    requires s.violations == Min(def.consecutive, Streak(h, e.rule, e.device))
    requires s.next == match LastAction(h, e.rule, e.device) case None => None case Some(t) => Some(t + def.cooldownSeconds * SECOND)
    ensures JustifiedAt(h + [e], |h|)
  {
    hide Streak, LastAction, SameDefinition;
    HistoryGrows(h, e);
  }

  lemma RuleCountsUp(def: Rule)
    requires ValidRule(def)
    ensures 0 < def.consecutive
  {
  }

  lemma ObserveMatches(w: World, id: string, device: string, now: int, seen: Observation)
    requires id in w.rules && ValidRule(w.rules[id]) && StateMatches(w, id, device) && SameDefinition(w.history, id, w.rules[id])
    ensures var r := ObserveTx(w, id, w.rules[id], device, now, seen);
      r.Some? ==>
        && Writes(w, r.value, id, device)
        && StateMatches(r.value, id, device)
        && (r.value.history != w.history ==> JustifiedAt(r.value.history, |w.history|))
  {
    hide ObserveTx, StateOf, Streak, LastAction, SameDefinition, JustifiedAt, RowAfter, Due, ValidRule;
    ObserveCounts(w, id, w.rules[id], device, now, seen);
    var r := ObserveTx(w, id, w.rules[id], device, now, seen);
    if r.Some? && r.value.history != w.history {
      var e := r.value.history[|w.history|];
      assert 0 < w.rules[id].consecutive by { RuleCountsUp(w.rules[id]); }
      EntryMatches(w.rules[id], StateOf(w, id, device), w.history, e, now, StateOf(r.value, id, device).last);
      EntryIsJustified(w.rules[id], StateOf(w, id, device), w.history, e, now);
    }
  }

  lemma OtherEntry(h: seq<Entry>, e: Entry, rule: string, device: string)
    requires e.Observed? && (e.rule != rule || e.device != device)
    ensures Streak(h + [e], rule, device) == Streak(h, rule, device)
    ensures LastAction(h + [e], rule, device) == LastAction(h, rule, device)
    ensures forall day :: ActionsOn(h + [e], rule, device, day) == ActionsOn(h, rule, device, day)
  {
    HistoryGrows(h, e);
  }

  lemma ObserveWrites(w: World, id: string, def: Rule, device: string, now: int, seen: Observation)
    ensures var r := ObserveTx(w, id, def, device, now, seen);
      r.Some? ==>
        && (forall k :: k != (id, device) ==> (k in r.value.states <==> k in w.states) && (k in w.states ==> r.value.states[k] == w.states[k]))
        && (r.value.history == w.history ||
            (|r.value.history| == |w.history| + 1 && var e := r.value.history[|w.history|];
             r.value.history == w.history + [e] && e.Observed? && e.rule == id && e.device == device))
  {
  }

  lemma ObserveTouchesOneRow(w: World, id: string, def: Rule, device: string, now: int, seen: Observation, rule: string, other: string)
    requires rule != id || other != device
    ensures var r := ObserveTx(w, id, def, device, now, seen);
      r.Some? ==>
        && StateOf(r.value, rule, other) == StateOf(w, rule, other)
        && Streak(r.value.history, rule, other) == Streak(w.history, rule, other)
        && LastAction(r.value.history, rule, other) == LastAction(w.history, rule, other)
        && forall day :: ActionsOn(r.value.history, rule, other, day) == ActionsOn(w.history, rule, other, day)
  {
    var r := ObserveTx(w, id, def, device, now, seen);
    hide ObserveTx;
    ObserveWrites(w, id, def, device, now, seen);
    if r.Some? && r.value.history != w.history {
      OtherEntry(w.history, r.value.history[|w.history|], rule, other);
    }
  }

  lemma WritesKeepDefinitions(w: World, w': World, id: string, device: string)
    requires RulesOk(w) && id in w.rules && Writes(w, w', id, device)
    requires w'.history != w.history ==> JustifiedAt(w'.history, |w.history|)
    ensures forall r :: r in w.rules ==> SameDefinition(w'.history, r, w.rules[r])
    ensures forall k :: 0 <= k < |w'.history| ==> JustifiedAt(w'.history, k)
  {
    if w'.history != w.history {
      var e :| w'.history == w.history + [e] && e.Observed? && e.rule == id && e.device == device && e.def == w.rules[id];
      HistoryGrows(w.history, e);
      JustificationsStay(w.history, e);
    }
  }

  lemma ObserveKeepsRules(w: World, id: string, device: string, now: int, seen: Observation)
    requires RulesOk(w) && id in w.rules
    ensures var r := ObserveTx(w, id, w.rules[id], device, now, seen); r.Some? ==> RulesOk(r.value) && r.value.rules == w.rules
  {
    var r := ObserveTx(w, id, w.rules[id], device, now, seen);
    hide ObserveTx;
    assert StateMatches(w, id, device);
    ObserveMatches(w, id, device, now, seen);
    if r.Some? {
      WritesKeepDefinitions(w, r.value, id, device);
      hide Streak, LastAction, SameDefinition, JustifiedAt, StateOf;
      forall x, d | x in w.rules ensures StateMatches(r.value, x, d) {
        assert StateMatches(w, x, d);
        if x != id || d != device { ObserveTouchesOneRow(w, id, w.rules[id], device, now, seen, x, d); }
      }
    }
  }

  /** Reactions gained at most one, and no earlier command came alive. */
  lemma MoreReactions(w: World, w': World, r: Reaction)
    requires LiveOnce(w) && w'.reactions == w.reactions + [r]
    requires forall i :: 0 <= i < |w.reactions| && w.reactions[i].rule == r.rule && w.reactions[i].device == r.device ==>
      !IsLive(w', w.reactions[i].command)
    requires forall i :: 0 <= i < |w.reactions| && w.reactions[i].command.Some? ==> w.reactions[i].command != r.command
    requires forall i :: 0 <= i < |w.reactions| && IsLive(w', w.reactions[i].command) ==> IsLive(w, w.reactions[i].command)
    ensures LiveOnce(w')
  {
    hide IsLive;
    assert forall i :: 0 <= i < |w.reactions| ==> w'.reactions[i] == w.reactions[i];
  }

  /** What an observation does to reactions and commands. */
  lemma ObserveReacts(w: World, id: string, def: Rule, device: string, now: int, seen: Observation)
    ensures var r := ObserveTx(w, id, def, device, now, seen);
      r.Some? ==>
        var w' := r.value;
        var v := w.(commands := CancelQueuedFor(w, id, device));
        && (w'.reactions == w.reactions ==> w'.commands == w.commands || w'.commands == v.commands)
        && (w'.reactions != w.reactions ==>
              exists command, commands :: w'.reactions == w.reactions + [Reaction(id, device, command)]
                && (commands == w.commands || commands == v.commands) && !AnyLive(w.(commands := commands), id, device)
                && (if command.None? then w'.commands == commands
                    else w'.commands == commands[command.value := CmdQueued] && !KnownCommand(w.reactions, command.value)))
  {
  }

  lemma ObserveKeepsLive(w: World, id: string, def: Rule, device: string, now: int, seen: Observation)
    requires LiveOnce(w)
    ensures var r := ObserveTx(w, id, def, device, now, seen); r.Some? ==> LiveOnce(r.value)
  {
    ObserveReacts(w, id, def, device, now, seen);
    hide ObserveTx, LiveOnce;
    var r := ObserveTx(w, id, def, device, now, seen);
    if r.Some? {
      var w' := r.value;
      if w'.reactions == w.reactions {
        FewerLive(w, w');
      } else {
        var command, commands :| w'.reactions == w.reactions + [Reaction(id, device, command)]
          && (commands == w.commands || commands == CancelQueuedFor(w, id, device)) && !AnyLive(w.(commands := commands), id, device)
          && (if command.None? then w'.commands == commands
              else w'.commands == commands[command.value := CmdQueued] && !KnownCommand(w.reactions, command.value));
        forall i | 0 <= i < |w.reactions| && w.reactions[i].command.Some?
          ensures w.reactions[i].command != command
          ensures IsLive(w', w.reactions[i].command) ==> IsLive(w, w.reactions[i].command)
          ensures w.reactions[i].rule == id && w.reactions[i].device == device ==> !IsLive(w', w.reactions[i].command)
        {
          var c := w.reactions[i].command.value;
          assert KnownCommand(w.reactions, c);
          if w.reactions[i].rule == id && w.reactions[i].device == device {
            assert IssuedFor(w.reactions, id, device, c);
          }
        }
        MoreReactions(w, w', Reaction(id, device, command));
      }
    }
  }

  lemma ObserveKeepsDays(w: World, id: string, device: string, now: int, seen: Observation)
    requires id in w.rules && ValidRule(w.rules[id]) && DaysMatch(w, id, device)
    requires StateOf(w, id, device).day.Some? ==> StateOf(w, id, device).day.value <= now / DAY
    ensures var r := ObserveTx(w, id, w.rules[id], device, now, seen);
      r.Some? ==>
        && r.value.rules == w.rules && DaysMatch(r.value, id, device)
        && (StateOf(r.value, id, device).day.Some? ==> StateOf(r.value, id, device).day.value <= now / DAY)
  {
    ObserveCounts(w, id, w.rules[id], device, now, seen);
    var r := ObserveTx(w, id, w.rules[id], device, now, seen);
    hide ObserveTx, StateOf, ActionsOn;
    if r.Some? && r.value.history != w.history {
      var e := r.value.history[|w.history|];
      OwnEntry(w.history, e);
      DayCounts(w.rules[id], StateOf(w, id, device), w.history, e, now);
    }
  }

  lemma DayCounts(def: Rule, s: RuleState, h: seq<Entry>, e: Entry, now: int)
    requires e.Observed? && e.at == now && (e.acted ==> Due(def, Counted(def, s, now, e.violating), now))
    requires forall day :: ActionsOn(h, e.rule, e.device, day) <= def.maxActionsPerDay
    requires s.day.Some? ==> s.actions == ActionsOn(h, e.rule, e.device, s.day.value)
    requires forall day :: s.day.None? || s.day.value < day ==> ActionsOn(h, e.rule, e.device, day) == 0
    requires s.day.Some? ==> s.day.value <= now / DAY
    ensures forall day :: ActionsOn(h + [e], e.rule, e.device, day) <= def.maxActionsPerDay
    ensures RowAfter(def, s, now, e.violating, e.acted, "").actions == ActionsOn(h + [e], e.rule, e.device, now / DAY)
    ensures forall day :: now / DAY < day ==> ActionsOn(h + [e], e.rule, e.device, day) == 0
  {
    OwnEntry(h, e);
    hide ActionsOn, Min;
    var today := now / DAY;
    assert Counted(def, s, now, e.violating).actions == ActionsOn(h, e.rule, e.device, today);
  }

  // ---------- Runs ----------

  datatype Step =
    | Save(id: string, rule: Rule, permitted: bool)
    | Advance(id: string, permitted: bool, now: int, seen: string -> Observation)
    | Agents(commands: map<string, CommandStatus>)

  /** Agents may change and delete commands, but a finished command never becomes live again and
      no other feature reuses the identifier of a reaction command. */
  ghost predicate AgentsMay(w: World, commands: map<string, CommandStatus>) {
    forall c :: c in commands && KnownCommand(w.reactions, c) && Live(commands[c]) ==> c in w.commands && Live(w.commands[c])
  }

  ghost predicate Possible(w: World, step: Step) {
    step.Agents? ==> AgentsMay(w, step.commands)
  }

  function Settle(w: World, r: Option<World>): World { if r.Some? then r.value else w }

  function Apply(w: World, step: Step): World {
    match step
    case Save(id, rule, permitted) => Settle(w, SaveRuleTx(w, id, rule, permitted))
    case Advance(id, permitted, now, seen) => Settle(w, AdvanceRuleTx(w, id, permitted, now, seen))
    case Agents(commands) => w.(commands := commands)
  }

  const EMPTY: World := World(map[], map[], [], map[], [])

  ghost predicate IsRun(states: seq<World>, steps: seq<Step>) {
    && |states| == |steps| + 1
    && states[0] == EMPTY
    && forall k :: 0 <= k < |steps| ==> Possible(states[k], steps[k]) && states[k + 1] == Apply(states[k], steps[k])
  }

  lemma {:induction false} PassKeeps(w: World, id: string, devices: seq<string>, now: int, seen: string -> Observation)
    requires RulesOk(w) && LiveOnce(w) && id in w.rules
    ensures var r := PassTx(w, id, w.rules[id], devices, now, seen);
      r.Some? ==> RulesOk(r.value) && LiveOnce(r.value) && r.value.rules == w.rules
    decreases |devices|
  {
    if devices != [] {
      ObserveKeepsRules(w, id, devices[0], now, seen(devices[0]));
      ObserveKeepsLive(w, id, w.rules[id], devices[0], now, seen(devices[0]));
      hide ObserveTx, RulesOk, LiveOnce;
      var one := ObserveTx(w, id, w.rules[id], devices[0], now, seen(devices[0]));
      if one.Some? { PassKeeps(one.value, id, devices[1..], now, seen); }
    }
  }

  lemma SaveKeepsRules(w: World, id: string, rule: Rule)
    requires RulesOk(w) && ValidRule(rule)
    ensures RulesOk(SaveRuleTx(w, id, rule, true).value)
  {
    var w' := SaveRuleTx(w, id, rule, true).value;
    HistoryGrows(w.history, Saved(id));
    JustificationsStay(w.history, Saved(id));
    forall x, d | x in w'.rules ensures StateMatches(w', x, d) {
      if x != id { assert StateMatches(w, x, d); }
    }
  }

  lemma FewerLive(w: World, w': World)
    requires LiveOnce(w) && w'.reactions == w.reactions
    requires forall i :: 0 <= i < |w.reactions| && IsLive(w', w.reactions[i].command) ==> IsLive(w, w.reactions[i].command)
    ensures LiveOnce(w')
  {
  }

  lemma StepKeeps(w: World, step: Step)
    requires RulesOk(w) && LiveOnce(w) && Possible(w, step)
    ensures RulesOk(Apply(w, step)) && LiveOnce(Apply(w, step))
  {
    match step
    case Save(id, rule, permitted) =>
      if SaveRuleTx(w, id, rule, permitted).Some? {
        SaveKeepsRules(w, id, rule);
        FewerLive(w, Apply(w, step));
      }
    case Advance(id, permitted, now, seen) =>
      if id in w.rules { PassKeeps(w, id, Compact(w.rules[id].devices), now, seen); }
    case Agents(commands) =>
      forall i | 0 <= i < |w.reactions| && IsLive(w.(commands := commands), w.reactions[i].command)
        ensures IsLive(w, w.reactions[i].command)
      {
        assert KnownCommand(w.reactions, w.reactions[i].command.value);
      }
      FewerLive(w, w.(commands := commands));
      forall x, d | x in w.rules ensures StateMatches(w.(commands := commands), x, d) { assert StateMatches(w, x, d); }
  }

  lemma {:induction false} RunKeeps(states: seq<World>, steps: seq<Step>, k: nat)
    requires IsRun(states, steps) && k < |states|
    ensures RulesOk(states[k]) && LiveOnce(states[k])
  {
    if k > 0 {
      RunKeeps(states, steps, k - 1);
      StepKeeps(states[k - 1], steps[k - 1]);
    }
  }

  // ---------- The promises ----------

  /** The stored counter is always the streak of newly processed known violations, capped. */
  lemma CounterIsCappedStreak(states: seq<World>, steps: seq<Step>, k: nat, rule: string, device: string)
    requires IsRun(states, steps) && k < |states| && rule in states[k].rules
    ensures StateOf(states[k], rule, device).violations
         == Min(states[k].rules[rule].consecutive, Streak(states[k].history, rule, device))
  {
    RunKeeps(states, steps, k);
    assert StateMatches(states[k], rule, device);
  }

  /** An action is taken only on a violation that makes the streak reach the configured length. */
  lemma ActionsNeedFullStreak(states: seq<World>, steps: seq<Step>, k: nat, a: nat)
    requires IsRun(states, steps) && k < |states| && a < |states[k].history|
    requires states[k].history[a].Observed? && states[k].history[a].acted
    ensures var e := states[k].history[a];
      e.violating && Streak(states[k].history[..a], e.rule, e.device) + 1 >= e.def.consecutive
  {
    RunKeeps(states, steps, k);
    assert JustifiedAt(states[k].history, a);
  }

  /** The pass saw no observation of the device that it had not already processed. */
  ghost predicate Stale(w: World, id: string, device: string, seen: Observation) {
    seen.Nothing? || (seen.Sample? && (id, device) in w.states && seen.id == w.states[(id, device)].last)
  }

  lemma {:induction false} StalePass(w: World, id: string, def: Rule, devices: seq<string>, now: int, seen: string -> Observation)
    requires forall i :: 0 <= i < |devices| ==> Stale(w, id, devices[i], seen(devices[i]))
    ensures PassTx(w, id, def, devices, now, seen) == Some(w)
    decreases |devices|
  {
    if devices != [] {
      var d := devices[0];
      assert Stale(w, id, d, seen(d));
      if seen(d).Sample? { assert w.states[(id, d) := w.states[(id, d)]] == w.states; }
      StalePass(w, id, def, devices[1..], now, seen);
    }
  }

  /** A pass that sees no new observation changes nothing at all. */
  lemma StalePassChangesNothing(w: World, id: string, permitted: bool, now: int, seen: string -> Observation)
    requires forall d :: Stale(w, id, d, seen(d))
    ensures AdvanceRuleTx(w, id, permitted, now, seen) == Some(w)
  {
    if id in w.rules { StalePass(w, id, w.rules[id], Compact(w.rules[id].devices), now, seen); }
  }

  /** No save of the rule between two positions of the history. */
  ghost predicate NoSave(h: seq<Entry>, a: nat, b: nat, rule: string)
    requires b <= |h|
  {
    forall k :: a <= k < b ==> h[k] != Saved(rule)
  }

  /** An action since the last save is remembered by the last action, which is no earlier. */
  lemma {:induction false} LastActionIsLater(h: seq<Entry>, a: nat, b: nat, rule: string, device: string, def: Rule)
    requires a < b <= |h| && NoSave(h, a, b, rule) && 0 <= def.cooldownSeconds
    requires h[a].Observed? && h[a].rule == rule && h[a].device == device && h[a].acted
    requires forall k :: 0 <= k < b ==> JustifiedAt(h, k)
    requires forall k :: a <= k < b && h[k].Observed? && h[k].rule == rule ==> h[k].def == def
    ensures LastAction(h[..b], rule, device).Some? && h[a].at <= LastAction(h[..b], rule, device).value
  {
    assert h[..b][..b - 1] == h[..b - 1] && h[..b][b - 1] == h[b - 1];
    if b > a + 1 {
      LastActionIsLater(h, a, b - 1, rule, device, def);
      assert JustifiedAt(h, b - 1);
    }
  }

  lemma {:induction false} DefinitionHolds(h: seq<Entry>, a: nat, rule: string, def: Rule)
    requires a < |h| && SameDefinition(h, rule, def) && NoSave(h, a, |h|, rule)
    ensures h[a].Observed? && h[a].rule == rule ==> h[a].def == def
  {
    if a < |h| - 1 {
      assert h[..|h| - 1][a] == h[a];
      DefinitionHolds(h[..|h| - 1], a, rule, def);
    }
  }

  /** Position `x` of the history is an action of the rule on the device. */
  ghost predicate IsAction(h: seq<Entry>, x: nat, rule: string, device: string) {
    x < |h| && h[x].Observed? && h[x].acted && h[x].rule == rule && h[x].device == device
  }

  /** Within one saved definition, any two actions on a device are at least a cooldown apart. */
  lemma ActionsRespectCooldown(states: seq<World>, steps: seq<Step>, k: nat, a: nat, b: nat, rule: string, device: string)
    requires IsRun(states, steps) && k < |states| && a < b < |states[k].history|
    requires IsAction(states[k].history, a, rule, device) && IsAction(states[k].history, b, rule, device)
    requires NoSave(states[k].history, a, b, rule)
    ensures states[k].history[a].at + states[k].history[b].def.cooldownSeconds * SECOND <= states[k].history[b].at
  {
    RunKeeps(states, steps, k);
    var h := states[k].history;
    assert JustifiedAt(h, b);
    forall x | a <= x < b && h[x].Observed? && h[x].rule == rule ensures h[x].def == h[b].def {
      DefinitionHolds(h[..b], x, rule, h[b].def);
    }
    LastActionIsLater(h, a, b, rule, device, h[b].def);
  }

  /** At most one reaction command per rule and device is ever live, even across rule edits. */
  lemma AtMostOneLiveCommand(states: seq<World>, steps: seq<Step>, k: nat, c: string, d: string, rule: string, device: string)
    requires IsRun(states, steps) && k < |states|
    requires IssuedFor(states[k].reactions, rule, device, c) && IssuedFor(states[k].reactions, rule, device, d)
    requires IsLive(states[k], Some(c)) && IsLive(states[k], Some(d))
    ensures c == d
  {
    RunKeeps(states, steps, k);
    var w := states[k];
    var i :| 0 <= i < |w.reactions| && w.reactions[i] == Reaction(rule, device, Some(c));
    var j :| 0 <= j < |w.reactions| && w.reactions[j] == Reaction(rule, device, Some(d));
  }

  // ---------- The daily cap ----------

  /** Every pass happens at or after the day of every state row. */
  ghost predicate NotBefore(w: World, now: int) {
    forall k :: k in w.states && w.states[k].day.Some? ==> w.states[k].day.value <= now / DAY
  }

  ghost predicate DaysOk(w: World) {
    && (forall r :: r in w.rules ==> ValidRule(w.rules[r]))
    && (forall r, d :: r in w.rules ==> DaysMatch(w, r, d))
    && (forall r, d, day :: r !in w.rules ==> ActionsOn(w.history, r, d, day) == 0)
  }

  lemma {:induction false} PassKeepsDays(w: World, id: string, devices: seq<string>, now: int, seen: string -> Observation)
    requires DaysOk(w) && id in w.rules && NotBefore(w, now)
    ensures var r := PassTx(w, id, w.rules[id], devices, now, seen);
      r.Some? ==> DaysOk(r.value) && NotBefore(r.value, now) && r.value.rules == w.rules
    decreases |devices|
  {
    if devices != [] {
      var d := devices[0];
      var one := ObserveTx(w, id, w.rules[id], d, now, seen(d));
      ObserveKeepsDaysOk(w, id, d, now, seen(d));
      hide ObserveTx, DaysOk, NotBefore;
      if one.Some? { PassKeepsDays(one.value, id, devices[1..], now, seen); }
    }
  }

  lemma ObserveKeepsDaysOk(w: World, id: string, d: string, now: int, seen: Observation)
    requires DaysOk(w) && id in w.rules && NotBefore(w, now)
    ensures var r := ObserveTx(w, id, w.rules[id], d, now, seen);
      r.Some? ==> DaysOk(r.value) && NotBefore(r.value, now) && r.value.rules == w.rules
  {
    var one := ObserveTx(w, id, w.rules[id], d, now, seen);
    if one.Some? {
      ObserveKeepsDays(w, id, d, now, seen);
      ObserveKeepsRows(w, id, d, now, seen);
      hide ObserveTx;
      var v := one.value;
      forall r, e | r in w.rules ensures DaysMatch(v, r, e) {
        assert DaysMatch(w, r, e);
        if r != id || e != d { ObserveTouchesOneRow(w, id, w.rules[id], d, now, seen, r, e); }
      }
      forall r, e, day | r !in w.rules ensures ActionsOn(v.history, r, e, day) == 0 {
        ObserveTouchesOneRow(w, id, w.rules[id], d, now, seen, r, e);
      }
    }
  }

  lemma ObserveKeepsRows(w: World, id: string, device: string, now: int, seen: Observation)
    requires id in w.rules && NotBefore(w, now)
    ensures var r := ObserveTx(w, id, w.rules[id], device, now, seen); r.Some? ==> NotBefore(r.value, now)
  {
  }

  lemma SaveKeepsDays(w: World, id: string, rule: Rule)
    requires DaysOk(w) && ValidRule(rule)
    ensures DaysOk(SaveRuleTx(w, id, rule, true).value)
  {
    var w' := SaveRuleTx(w, id, rule, true).value;
    HistoryGrows(w.history, Saved(id));
    forall r, d | r in w'.rules ensures DaysMatch(w', r, d) {
      if r != id { assert DaysMatch(w, r, d); }
    }
  }

  /** Passes run on a clock whose date never goes back. */
  ghost predicate Forward(w: World, step: Step) {
    step.Advance? ==> NotBefore(w, step.now)
  }

  lemma {:induction false} RunKeepsDays(states: seq<World>, steps: seq<Step>, k: nat)
    requires IsRun(states, steps) && k < |states|
    requires forall m :: 0 <= m < k ==> Forward(states[m], steps[m])
    ensures DaysOk(states[k])
  {
    if k > 0 {
      RunKeepsDays(states, steps, k - 1);
      var w, step := states[k - 1], steps[k - 1];
      match step
      case Save(id, rule, permitted) =>
        if SaveRuleTx(w, id, rule, permitted).Some? { SaveKeepsDays(w, id, rule); }
      case Advance(id, permitted, now, seen) =>
        if id in w.rules { PassKeepsDays(w, id, Compact(w.rules[id].devices), now, seen); }
      case Agents(commands) =>
        forall r, d | r in w.rules ensures DaysMatch(states[k], r, d) { assert DaysMatch(w, r, d); }
    }
  }

  /** With a clock whose date never goes back, a device gets at most the configured number of
      actions per UTC day within one saved definition. */
  lemma DailyCapHolds(states: seq<World>, steps: seq<Step>, k: nat, rule: string, device: string, day: int)
    requires IsRun(states, steps) && k < |states| && rule in states[k].rules
    requires forall m :: 0 <= m < k ==> Forward(states[m], steps[m])
    ensures ActionsOn(states[k].history, rule, device, day) <= states[k].rules[rule].maxActionsPerDay
  {
    RunKeepsDays(states, steps, k);
    assert DaysMatch(states[k], rule, device);
  }
}
