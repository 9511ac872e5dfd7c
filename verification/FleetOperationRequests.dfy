/**
 What creating, cancelling and resuming an operation answer and write, and what a pass does to the
 command table, told without the functions that compute it.
 */
module FleetOperationRequests {
  import opened Text
  import opened Units
  import opened FleetOperations
  import opened FleetOperationSafety
  import opened FleetOperationRuns
  import opened FleetOperationTheorems
  import opened FleetOperationOutcomes

  // ---------- The command table of a pass ----------

  /** Old rows stay, but the operation's own live rows expire in time. */
  ghost predicate ExpiredExactly(items: seq<Item>, now: int, before: map<string, Command>, after: map<string, Command>) {
    forall c :: c in before ==>
      && c in after
      && after[c] ==
         if (exists i :: 0 <= i < |items| && items[i].command == Some(c)) && Live(before[c].status)
            && before[c].expiresAt.Some? && before[c].expiresAt.value <= now
         then before[c].(status := CmdExpired) else before[c]
  }

  /** The ledger entry was made from what signing answered for its device, and its row is queued. */
  ghost predicate EntryIsSigned(entry: Issued, id: string, deadline: int, targets: string -> Target, commands: map<string, Command>) {
    var t := targets(entry.device);
    && entry == Issued(id, entry.device, entry.command, t.askedAt, t.signedAt) && t.signed == Some(entry.command)
    && entry.command in commands
    && commands[entry.command] == Command(entry.device, CmdQueued, None, false, None, Some(ExpiryOf(entry.askedAt, entry.signedAt, deadline)))
  }

  /** The rows added since `p` are exactly those of the ledger entries added since. */
  ghost predicate AddsExactly(id: string, deadline: int, targets: string -> Target, p: Pass, r: Pass) {
    && p.issued <= r.issued
    && (forall c :: c in p.commands ==> c in r.commands && r.commands[c] == p.commands[c])
    && (forall a :: |p.issued| <= a < |r.issued| ==>
          EntryIsSigned(r.issued[a], id, deadline, targets, r.commands) && r.issued[a].command !in p.commands)
    && (forall c :: c in r.commands && c !in p.commands ==> exists a :: |p.issued| <= a < |r.issued| && r.issued[a].command == c)
  }

  /** New rows are exactly those of new ledger entries, each as signed. */
  ghost predicate RowsAdded(id: string, deadline: int, targets: string -> Target, issued: seq<Issued>, issued': seq<Issued>,
      commands: map<string, Command>, commands': map<string, Command>)
  {
    && issued <= issued'
    && (forall a :: |issued| <= a < |issued'| ==>
          EntryIsSigned(issued'[a], id, deadline, targets, commands') && issued'[a].command !in commands)
    && (forall c :: c in commands' && c !in commands ==> exists a :: |issued| <= a < |issued'| && issued'[a].command == c)
  }

  lemma AddsNothing(id: string, deadline: int, targets: string -> Target, p: Pass, r: Pass)
    requires r.issued == p.issued && r.commands == p.commands
    ensures AddsExactly(id, deadline, targets, p, r)
  {
  }

  lemma OneAdds(id: string, op: Operation, targets: string -> Target, i: nat, p: Pass)
    requires i < |p.items|
    ensures var d := DispatchOne(id, op, targets, i, p); !d.Fault? ==> AddsExactly(id, op.deadline, targets, p, d.pass)
  {
    var d := DispatchOne(id, op, targets, i, p);
    if !d.Fault? && d.pass.issued != p.issued {
      var q, n := d.pass, |p.issued|;
      hide ExpiryOf;
      assert q.issued[n].device == p.items[i].device;
      assert EntryIsSigned(q.issued[n], id, op.deadline, targets, q.commands);
    }
  }

  lemma AddsMore(id: string, deadline: int, targets: string -> Target, p: Pass, q: Pass, r: Pass)
    requires AddsExactly(id, deadline, targets, p, q) && AddsExactly(id, deadline, targets, q, r)
    ensures AddsExactly(id, deadline, targets, p, r)
  {
    hide ExpiryOf;
    forall a | |p.issued| <= a < |r.issued|
      ensures EntryIsSigned(r.issued[a], id, deadline, targets, r.commands) && r.issued[a].command !in p.commands
    {
      if a < |q.issued| {
        assert r.issued[a] == q.issued[a] && EntryIsSigned(q.issued[a], id, deadline, targets, q.commands);
      }
    }
    forall c | c in r.commands && c !in p.commands ensures exists a :: |p.issued| <= a < |r.issued| && r.issued[a].command == c {
      if c in q.commands {
        var a :| |p.issued| <= a < |q.issued| && q.issued[a].command == c;
        assert r.issued[a] == q.issued[a];
      }
    }
  }

  lemma {:induction false} DispatchAdds(id: string, op: Operation, targets: string -> Target, limit: int, i: nat, p: Pass)
    requires i <= |p.items|
    ensures var r := Dispatch(id, op, targets, limit, i, p); r.Some? ==> AddsExactly(id, op.deadline, targets, p, r.value)
    decreases |p.items| - i
  {
    AddsNothing(id, op.deadline, targets, p, p);
    if i < |p.items| {
      var r := Dispatch(id, op, targets, limit, i, p);
      if p.items[i].status != Pending || CountIn(p.items, IN_FLIGHT) >= limit {
        DispatchAdds(id, op, targets, limit, i + 1, p);
      } else {
        OneAdds(id, op, targets, i, p);
        var d := DispatchOne(id, op, targets, i, p);
        ServedOutcome(id, op, targets, i, p, limit, Running, 0);
        hide DispatchOne, CountIn, AddsExactly, PendingOutcome;
        if d.Continue? {
          DispatchAdds(id, op, targets, limit, i + 1, d.pass);
          if r.Some? { AddsMore(id, op.deadline, targets, p, d.pass, r.value); }
        }
      }
    }
  }

  lemma PassCommands(db: Db, id: string, now: int, targets: string -> Target)
    requires id in db.ops && RunPass(db, id, now, targets).Some?
    ensures var op, r := db.ops[id], RunPass(db, id, now, targets).value;
      && ExpiredExactly(op.items, now, db.commands, r.commands)
      && exists expired: map<string, Command> :: expired.Keys == db.commands.Keys && AddsExactly(id, op.deadline, targets, Pass([], Running, expired, db.issued), r)
  {
    var op := db.ops[id];
    var expired := ExpireOwned(db.commands, op.items, now);
    var seen := Observed(op, expired, now);
    var r := RunPass(db, id, now, targets).value;
    assert ExpiredExactly(op.items, now, db.commands, expired);
    var start := Pass(seen.items, seen.status, expired, db.issued);
    assert seen.deadline == op.deadline;
    if seen.status == Running {
      DispatchAdds(id, seen, targets, Limit(seen), 0, start);
    } else {
      AddsNothing(id, op.deadline, targets, start, start);
    }
    hide Observed, Dispatch;
    assert AddsExactly(id, op.deadline, targets, Pass([], Running, expired, db.issued), r);
  }

  /** In any run a committed advance expires exactly the operation's own live commands whose time is up, keeps
      every other row, and adds exactly one queued row for each entry it adds to the ledger, as signed. */
  lemma CommandsAreExact(states: seq<Db>, steps: seq<Step>, k: nat, id: string)
    requires IsRun(states, steps) && k < |steps| && Advances(states[k], steps[k], id)
    ensures ExpiredExactly(states[k].ops[id].items, steps[k].now, states[k].commands, states[k + 1].commands)
    ensures RowsAdded(id, states[k].ops[id].deadline, steps[k].targets, states[k].issued, states[k + 1].issued, states[k].commands, states[k + 1].commands)
  {
    AdvanceIs(states[k], steps[k], id);
    hide RunPass, Advanced, AdvanceTx, ExpiredExactly, EntryIsSigned;
    PassCommands(states[k], id, steps[k].now, steps[k].targets);
  }

  // ---------- Cancelling and resuming ----------

  /** All but operation `id` and the command table is as before. */
  ghost predicate OthersSame(db: Db, db': Db, id: string) {
    && db'.requests == db.requests && db'.issued == db.issued && db'.ops.Keys == db.ops.Keys
    && forall other :: other in db.ops && other != id ==> db'.ops[other] == db.ops[other]
  }

  /** A cancel is accepted exactly from the owner. On an active operation it cancels its pending items and its
      queued commands and nothing else; on an ended one it changes nothing. */
  lemma CancelIsExact(db: Db, user: string, id: string)
    ensures CancelTx(db, user, id).Some? <==> id in db.ops && db.ops[id].user == user
    ensures CancelTx(db, user, id).Some? && !Active(db.ops[id].status) ==> CancelTx(db, user, id).value == db
    ensures CancelTx(db, user, id).Some? && Active(db.ops[id].status) ==>
      var db', op := CancelTx(db, user, id).value, db.ops[id];
      && OthersSame(db, db', id)
      && db'.ops[id] == op.(status := Cancelling, items := db'.ops[id].items) && |db'.ops[id].items| == |op.items|
      && (forall i :: 0 <= i < |op.items| ==>
            db'.ops[id].items[i] == if op.items[i].status == Pending then op.items[i].(status := Cancelled) else op.items[i])
      && db'.commands.Keys == db.commands.Keys
      && (forall c :: c in db.commands ==>
            db'.commands[c] ==
            if db.commands[c].status == CmdQueued && (exists i :: 0 <= i < |op.items| && op.items[i].command == Some(c))
            then db.commands[c].(status := CmdCancelled) else db.commands[c])
  {
  }

  /** A resume is accepted exactly from the owner, with the permission, for a paused operation, which it sets running. */
  lemma ResumeIsExact(db: Db, user: string, id: string, allowed: bool)
    ensures ResumeTx(db, user, id, allowed).Some? <==> id in db.ops && db.ops[id].user == user && allowed && db.ops[id].status == Paused
    ensures ResumeTx(db, user, id, allowed).Some? ==>
      var db' := ResumeTx(db, user, id, allowed).value;
      OthersSame(db, db', id) && db'.commands == db.commands && db'.ops[id] == db.ops[id].(status := Running)
  {
  }

  // ---------- Creating ----------

  lemma {:induction false} AdmissionIsFirst(ids: seq<string>, devices: string -> Admission)
    ensures AdmissionOf(ids, devices) == Admit <==> forall i :: 0 <= i < |ids| ==> devices(ids[i]) == Admit
    ensures AdmissionOf(ids, devices) != Admit ==>
      exists i :: 0 <= i < |ids| && devices(ids[i]) == AdmissionOf(ids, devices) && forall j :: 0 <= j < i ==> devices(ids[j]) == Admit
  {
    if ids != [] && devices(ids[0]) == Admit {
      AdmissionIsFirst(ids[1..], devices);
      if AdmissionOf(ids, devices) != Admit {
        var i :| 0 <= i < |ids[1..]| && devices(ids[1..][i]) == AdmissionOf(ids[1..], devices) && forall j :: 0 <= j < i ==> devices(ids[1..][j]) == Admit;
        assert ids[i + 1] == ids[1..][i];
        forall j | 0 <= j < i + 1 ensures devices(ids[j]) == Admit {
          if j > 0 { assert ids[j] == ids[1..][j - 1]; }
        }
      }
    }
  }

  /** Every target, and the caller, is admitted. */
  ghost predicate EveryoneAdmitted(input: Input, env: CreateEnv) {
    env.principal == Admit && forall d :: d in input.devices ==> env.devices(d) == Admit
  }

  /** The device is refused, and every one before it is admitted. */
  ghost predicate IsLeastRefused(input: Input, env: CreateEnv, d: string) {
    d in input.devices && env.devices(d) != Admit && forall e :: e in input.devices && Below(e, d) ==> env.devices(e) == Admit
  }

  /** The answer is that of the caller, or of the least refused device. */
  ghost predicate RefusedAs(input: Input, env: CreateEnv, answer: Admission) {
    || (env.principal != Admit && answer == env.principal)
    || (env.principal == Admit && answer != Admit && exists d :: IsLeastRefused(input, env, d) && env.devices(d) == answer)
  }

  lemma AdmissionIsExact(input: Input, env: CreateEnv)
    ensures Admissible(input, env) == Admit <==> EveryoneAdmitted(input, env)
    ensures Admissible(input, env) != Admit ==> RefusedAs(input, env, Admissible(input, env))
  {
    if env.principal == Admit {
      var ids, answer := SortUnique(input.devices), Admissible(input, env);
      SortUniqueSorts(input.devices);
      AdmissionIsFirst(ids, env.devices);
      hide SortUnique, AdmissionOf;
      if answer == Admit {
        forall d | d in input.devices ensures env.devices(d) == Admit {
          var i :| 0 <= i < |ids| && ids[i] == d;
        }
      } else {
        var i :| 0 <= i < |ids| && env.devices(ids[i]) == answer && forall j :: 0 <= j < i ==> env.devices(ids[j]) == Admit;
        assert ids[i] in ids;
        forall e | e in input.devices && Below(e, ids[i]) ensures env.devices(e) == Admit {
          var j :| 0 <= j < |ids| && ids[j] == e;
          BelowIsTrichotomous(e, ids[i]);
        }
        assert IsLeastRefused(input, env, ids[i]);
      }
    }
  }

  /** The commands that may be fanned out. */
  const KINDS: seq<string> := ["agent_update", "diagnostic_report", "interfaces_show", "ping", "pkg_list_installed", "route_show",
    "system_backup_create", "traceroute", "uci_profile_apply", "uci_profile_preview", "uci_profile_rollback"]

  /** What a request must be, before anybody is asked. */
  ghost predicate Acceptable(input: Input, argumentsValid: bool) {
    && TrimSpace(input.kind) in KINDS && argumentsValid
    && 1 <= input.parallelism <= 20 && 1 <= |input.devices| <= 100 && |input.title| <= 160 && 8 <= |input.key| <= 128
    && |input.args| <= (if input.kind == "agent_update" then 262144 else 16384)
  }

  /** The deadline, where given, can be read and lies within the next day. */
  ghost predicate DeadlineFits(d: Option<DeadlineText>, now: int) {
    d.Some? ==> d.value.DeadlineText? && now < d.value.at <= now + DAY
  }

  ghost predicate ArgumentsFit(input: Input) {
    forall d :: d in input.devices ==> |if d in input.deviceArgs then input.deviceArgs[d] else input.args| <= 16384
  }

  lemma KindsAreListed(kind: string)
    ensures FleetCommandAllowed(kind) <==> TrimSpace(kind) in KINDS
  {
    hide TrimSpace;
  }

  /** An operation is created exactly when the request is acceptable, a scheduled run is still valid, caller and
      every device are admitted, the key is new, the caller has fewer than twenty active operations, and
      deadline, identifier and arguments fit. */
  lemma CreatedExactly(db: Db, user: string, input: Input, runValid: bool, env: CreateEnv)
    ensures CreateTx(db, user, input, runValid, env).Created? <==>
      && Acceptable(input, env.argumentsValid) && runValid && EveryoneAdmitted(input, env)
      && (user, input.key) !in db.requests && |ActiveOf(db, user)| < 20
      && env.freshId.Some? && env.freshId.value !in db.ops && DeadlineFits(input.deadline, env.now) && ArgumentsFit(input)
  {
    KindsAreListed(input.kind);
    AdmissionIsExact(input, env);
    hide FleetCommandAllowed, Admissible, ActiveOf, EveryoneAdmitted, RefusedAs, TrimSpace, PayloadOf, SortUnique;
  }

  /** An existing operation is returned only to an admitted request. */
  lemma ExistingIsAdmitted(db: Db, user: string, input: Input, runValid: bool, env: CreateEnv)
    requires CreateTx(db, user, input, runValid, env).Existing?
    ensures Acceptable(input, env.argumentsValid) && runValid && EveryoneAdmitted(input, env) && (user, input.key) in db.requests
  {
    KindsAreListed(input.kind);
    AdmissionIsExact(input, env);
    hide FleetCommandAllowed, Admissible, ActiveOf, EveryoneAdmitted, RefusedAs, TrimSpace, PayloadOf, SortUnique;
  }

  /** When somebody is not admitted, the refusal is that of the caller or of the least refused device. */
  lemma RefusalIsExact(db: Db, user: string, input: Input, runValid: bool, env: CreateEnv)
    requires Acceptable(input, env.argumentsValid) && runValid && !EveryoneAdmitted(input, env)
    ensures var r := CreateTx(db, user, input, runValid, env);
      && r.Rejected?
      && (r.error == NoAccess ==> RefusedAs(input, env, RefuseAccess))
      && (r.error == NoFeature ==> RefusedAs(input, env, RefuseFeature))
      && (r.error == StoreFault ==> RefusedAs(input, env, AdmissionFault))
      && r.error in {NoAccess, NoFeature, StoreFault}
  {
    KindsAreListed(input.kind);
    AdmissionIsExact(input, env);
    hide FleetCommandAllowed, Admissible, ActiveOf, EveryoneAdmitted, RefusedAs, TrimSpace, PayloadOf, SortUnique;
  }

  /** The created operation runs, waits for its canary when asked to, and has one pending item per device. */
  lemma CreatedIsExact(db: Db, user: string, input: Input, runValid: bool, env: CreateEnv)
    requires CreateTx(db, user, input, runValid, env).Created?
    ensures var r := CreateTx(db, user, input, runValid, env);
      && r.id == env.freshId.value && r.db.ops.Keys == db.ops.Keys + {r.id}
      && r.db.commands == db.commands && r.db.issued == db.issued && (forall id :: id in db.ops ==> r.db.ops[id] == db.ops[id])
      && r.db.requests == db.requests[(user, input.key) := r.id]
      && var op := r.db.ops[r.id];
        && op.user == user && op.key == input.key && op.args == input.args && op.status == Running && op.canaryPending == input.canary
        && op.payload.kind == input.kind && op.payload.parallelism == input.parallelism && op.payload.stop == input.stop
        && op.deadline == (if input.deadline.Some? then input.deadline.value.at else env.now + DAY)
        && (forall x :: x in op.items ==> x == Item(x.device, None, Pending) && x.device in input.devices)
        && (forall d :: d in input.devices ==> Item(d, None, Pending) in op.items)
        && (forall i, j :: 0 <= i < j < |op.items| ==> Below(op.items[i].device, op.items[j].device))
  {
    var ids := SortUnique(input.devices);
    SortUniqueSorts(input.devices);
    var op := NewOperation(user, input, env.now);
    forall d | d in input.devices ensures Item(d, None, Pending) in op.items {
      var i :| 0 <= i < |ids| && ids[i] == d;
      assert op.items[i] == Item(d, None, Pending);
    }
    forall x | x in op.items ensures x == Item(x.device, None, Pending) && x.device in input.devices {
      var i :| 0 <= i < |op.items| && op.items[i] == x;
      assert ids[i] in ids;
    }
    hide FleetCommandAllowed, Admissible, ActiveOf, SortUnique, TrimSpace, WithinLimits;
  }

  /** Each rejection has its cause. */
  lemma RejectionsHaveCauses(db: Db, user: string, input: Input, runValid: bool, env: CreateEnv)
    requires CreateTx(db, user, input, runValid, env).Rejected?
    ensures match CreateTx(db, user, input, runValid, env).error
      case NotAvailable => TrimSpace(input.kind) !in KINDS
      case InvalidLimits => TrimSpace(input.kind) in KINDS && !Acceptable(input, true)
      case InvalidArguments => !env.argumentsValid || !ArgumentsFit(input)
      case NoAccess => !runValid || RefusedAs(input, env, RefuseAccess)
      case NoFeature => RefusedAs(input, env, RefuseFeature)
      case Conflict => (user, input.key) in db.requests
      case TooManyActive => |ActiveOf(db, user)| >= 20
      case InvalidDeadline => !DeadlineFits(input.deadline, env.now)
      case StoreFault => RefusedAs(input, env, AdmissionFault) || env.freshId.None? || env.freshId.value in db.ops
  {
    KindsAreListed(input.kind);
    AdmissionIsExact(input, env);
    hide FleetCommandAllowed, Admissible, ActiveOf, EveryoneAdmitted, RefusedAs, TrimSpace, PayloadOf, SortUnique, Replays;
  }
}
