/** Runs from the empty tables that show the exceptions to the scheduler's promises. */
module FleetOperationWitnesses {
  import opened Text
  import opened Units
  import opened FleetOperations
  import opened FleetOperationSafety
  import opened FleetOperationRuns
  import opened FleetOperationTheorems

  /** A canary operation over two devices, accepted at time 0 with the default deadline. */
  const REQUEST: Input := Input("request1", "ping both", ["a", "b"], "ping", "", map[], 1, true, None, false)
  const ACCEPTED: CreateEnv := CreateEnv(0, true, Admit, (d: string) => Admit, Some("o"))
  const CREATE: Step := Create("u", REQUEST, true, ACCEPTED)

  /** Signing takes two microseconds. */
  function Slow(device: string): Target {
    Target(Access.Allowed, UpdateNeeded, false, Some("command of " + device), 0, 2 * MICROSECOND)
  }

  function Refused(device: string): Target {
    Target(Denied, UpdateNeeded, false, None, 0, 0)
  }

  lemma RequestIsAccepted()
    ensures FleetCommandAllowed(REQUEST.kind) && SortUnique(REQUEST.devices) == ["a", "b"] && Admissible(REQUEST, ACCEPTED) == Admit
  {
    var ids := ["a", "b"];
    assert ids[1..] == ["b"] && ids[1..][1..] == [];
    assert SortUnique(ids[1..]) == ["b"];
    assert SortUnique(ids) == Insert("a", ["b"]);
    assert AdmissionOf(ids[1..], ACCEPTED.devices) == Admit;
  }

  lemma Begun() returns (db: Db)
    ensures db == Apply(EMPTY, CREATE)
    ensures db.commands == map[] && db.issued == [] && db.ops.Keys == {"o"}
    ensures db.ops["o"].items == [Item("a", None, Pending), Item("b", None, Pending)]
    ensures db.ops["o"].status == Running && db.ops["o"].canaryPending && db.ops["o"].deadline == DAY
    ensures db.ops["o"].payload.kind == "ping" && !db.ops["o"].payload.stop && db.ops["o"].payload.parallelism == 1
  {
    RequestIsAccepted();
    hide FleetCommandAllowed, SortUnique, AdmissionOf;
    assert ActiveOf(EMPTY, "u") == {};
    db := Apply(EMPTY, CREATE);
    assert db.ops["o"].items == [Item("a", None, Pending), Item("b", None, Pending)];
  }

  lemma BegunIsServable(db: Db)
    requires "o" in db.ops && db.ops["o"].items == [Item("a", None, Pending), Item("b", None, Pending)]
    requires db.commands == map[] && db.issued == []
    ensures Untouched(db.ops["o"].items) && Servable(db, "ping", Slow("a"))
  {
  }

  lemma Sent() returns (db: Db)
    ensures db == Apply(Apply(EMPTY, CREATE), Advance("o", 0, Slow))
    ensures "o" in db.ops && db.ops["o"].status == Running && db.ops["o"].canaryPending && db.ops["o"].deadline == DAY
    ensures db.ops["o"].items == [Item("a", Some("command of a"), Queued), Item("b", None, Pending)]
    ensures db.ops["o"].payload.kind == "ping"
    ensures db.issued == [Issued("o", "a", "command of a", 0, 2 * MICROSECOND)]
    ensures "command of a" in db.commands && db.commands.Keys == {"command of a"}
    ensures db.commands["command of a"].status == CmdQueued && db.commands["command of a"].expiresAt == Some(DAY + 2 * MICROSECOND)
  {
    hide Apply, Untouched, Servable;
    var before := Begun();
    BegunIsServable(before);
    db := Apply(before, Advance("o", 0, Slow));
    FirstPendingIsServed(before, "o", 0, Slow, 0);
    assert ExpiryOf(0, 2 * MICROSECOND, DAY) == DAY + 2 * MICROSECOND;
    assert "command of " + "a" == "command of a";
  }

  lemma SentIsReachable(db: Db)
    requires db == Apply(Apply(EMPTY, CREATE), Advance("o", 0, Slow))
    ensures IsRun([EMPTY, Apply(EMPTY, CREATE), db], [CREATE, Advance("o", 0, Slow)])
  {
    hide Apply;
    var states, steps := [EMPTY, Apply(EMPTY, CREATE), db], [CREATE, Advance("o", 0, Slow)];
    forall k | 0 <= k < |steps| ensures Possible(states[k], steps[k]) && states[k + 1] == Apply(states[k], steps[k]) {
      if k == 1 { assert states[2] == db; }
    }
  }

  /** The deadline alone is not always enough: with two microseconds between asking and signing the
      command outlives the deadline, and the pass at the deadline does not end the operation. */
  lemma LateSigningOutlivesDeadline() returns (states: seq<Db>, steps: seq<Step>)
    ensures IsRun(states, steps) && |states| == 3 && "o" in states[2].ops
    ensures Active(states[2].ops["o"].status) && states[2].ops["o"].deadline == DAY
    ensures var db := Apply(states[2], Advance("o", DAY, Slow)); "o" in db.ops && !db.ops["o"].status.Ended?
  {
    hide IsRun, RunPass, Advanced, CreateTx;
    var db := Sent();
    SentIsReachable(db);
    states, steps := [EMPTY, Apply(EMPTY, CREATE), db], [CREATE, Advance("o", 0, Slow)];
    var op := db.ops["o"];
    assert Awaits(op.items[0], db.commands, DAY);
    DeadlineEndsEveryOperation(states, steps, 2, "o", DAY, Slow);
  }

  /** The canary gate does reopen: after its device is deleted, a second command is issued. */
  lemma CanaryIsBypassed() returns (states: seq<Db>, steps: seq<Step>)
    ensures IsRun(states, steps) && |states| == 3 && "o" in states[2].ops && states[2].ops["o"].canaryPending
    ensures var db := Apply(Apply(states[2], DeleteDevice("a")), Advance("o", 0, Slow));
      "o" in db.ops && db.ops["o"].canaryPending && !AtMostOneIssued("o", db.issued)
  {
    hide IsRun, Apply, AtMostOneIssued, ServesNext, DeletesCanary;
    var db := Sent();
    SentIsReachable(db);
    states, steps := [EMPTY, Apply(EMPTY, CREATE), db], [CREATE, Advance("o", 0, Slow)];
    SecondIsServable(db);
    DeletingCanaryReopensGate(states, steps, 2, "o", "a", 0, Slow, 0);
  }

  lemma SecondIsServable(db: Db)
    requires "o" in db.ops && db.ops["o"].canaryPending && db.ops["o"].payload.kind == "ping"
    requires db.ops["o"].items == [Item("a", Some("command of a"), Queued), Item("b", None, Pending)]
    requires db.commands.Keys == {"command of a"} && db.issued == [Issued("o", "a", "command of a", 0, 2 * MICROSECOND)]
    ensures DeletesCanary(db, DeleteDevice("a"), "o") && ServesNext(db, "o", "a", Slow, 0)
  {
    var items := db.ops["o"].items;
    assert items[0].device == "a";
    OneIsLeft(items[0], items[1]);
    hide WithoutDevice;
    assert "command of " + "b" == "command of b" && "command of b"[11] != "command of a"[11];
  }

  lemma OneIsLeft(x: Item, y: Item)
    requires x.device != y.device
    ensures WithoutDevice([x, y], x.device) == [y]
  {
    assert [x, y][..1] == [x] && [x][..0] == [];
    assert WithoutDevice([x], x.device) == [];
  }

  // ---------- A failed operation without a failed item ----------

  lemma BothFailed() returns (db: Db)
    ensures db == Apply(Apply(EMPTY, CREATE), Advance("o", 0, Refused))
    ensures "o" in db.ops && db.ops["o"].status == Ended(VFailed)
    ensures db.ops["o"].items == [Item("a", None, Failed), Item("b", None, Failed)]
  {
    var before := Begun();
    var op := before.ops["o"];
    IdleIsObservedAsIs(op, ExpireOwned(before.commands, op.items, 0), 0);
    var start := Pass(op.items, Running, map[], []);
    CountIsZero(op.items, IN_FLIGHT);
    var one := start.(items := [Item("a", None, Failed), Item("b", None, Pending)]);
    CountIsZero(one.items, IN_FLIGHT);
    var two := one.(items := [Item("a", None, Failed), Item("b", None, Failed)]);
    CountIsZero(two.items, IN_FLIGHT);
    CountIsZero(two.items, {Pending});
    CountIsZero(two.items, {Failed});
    hide CountIn, Observed, FleetCommandAllowed, CreateTx;
    assert two.items[0].status == Failed;
    assert DispatchOne("o", op, Refused, 0, start) == Continue(one);
    assert DispatchOne("o", op, Refused, 1, one) == Continue(two);
    assert Dispatch("o", op, Refused, 1, 2, two) == Some(two);
    assert Dispatch("o", op, Refused, 1, 1, one) == Some(two);
    assert Dispatch("o", op, Refused, 1, 0, start) == Some(two);
    assert ExpireOwned(before.commands, op.items, 0) == map[];
    assert RunPass(before, "o", 0, Refused) == Some(two);
    db := Apply(before, Advance("o", 0, Refused));
  }

  /** After both failed devices are deleted the operation is still failed, with no failed item. */
  lemma FailureIsForgotten() returns (states: seq<Db>, steps: seq<Step>)
    ensures IsRun(states, steps) && |states| == 5 && "o" in states[2].ops && HasFailure(states[2].ops["o"].items)
    ensures "o" in states[4].ops && states[4].ops["o"].status == Ended(VFailed) && !HasFailure(states[4].ops["o"].items)
  {
    var db := BothFailed();
    var less := Apply(db, DeleteDevice("a"));
    states := [EMPTY, Apply(EMPTY, CREATE), db, less, Apply(less, DeleteDevice("b"))];
    steps := [CREATE, Advance("o", 0, Refused), DeleteDevice("a"), DeleteDevice("b")];
    hide Apply;
    assert forall k :: 0 <= k < |steps| ==> Possible(states[k], steps[k]) && states[k + 1] == Apply(states[k], steps[k]);
    assert db.ops["o"].items[0] in db.ops["o"].items;
    assert steps[2] == DeleteDevice("a") && steps[3] == DeleteDevice("b");
    assert Deleted(steps, 2, 4, "a") && Deleted(steps, 2, 4, "b");
    FailedVerdictShowsFailure(states, steps, 2, 4, "o");
  }

  // ---------- A request that conflicts with itself ----------

  /** The same request with a readable deadline in another spelling than the stored one. */
  const LOOSE: Input := REQUEST.(deadline := Some(DeadlineText(DAY, false)))

  lemma LooseIsCreated() returns (db: Db)
    ensures CreateTx(EMPTY, "u", LOOSE, true, ACCEPTED) == Created(db, "o")
  {
    RequestIsAccepted();
    assert Admissible(LOOSE, ACCEPTED) == Admissible(REQUEST, ACCEPTED);
    hide FleetCommandAllowed, SortUnique, AdmissionOf, Admissible, PayloadOf;
    assert ActiveOf(EMPTY, "u") == {};
    db := CreateTx(EMPTY, "u", LOOSE, true, ACCEPTED).db;
  }

  /** Sent twice, a request with a deadline in another spelling conflicts with the operation it created. */
  lemma LooseDeadlineConflicts() returns (states: seq<Db>, steps: seq<Step>)
    ensures IsRun(states, steps) && |states| == 2 && steps[0] == Create("u", LOOSE, true, ACCEPTED) && "o" in states[1].ops
    ensures CreateTx(states[1], "u", LOOSE, true, ACCEPTED) == Rejected(Conflict)
  {
    var db := LooseIsCreated();
    RequestIsAccepted();
    assert Admitted(LOOSE, ACCEPTED);
    NewOperationIs(EMPTY, "u", LOOSE, true, ACCEPTED);
    assert Apply(EMPTY, Create("u", LOOSE, true, ACCEPTED)) == db;
    hide CreateTx, Apply, Admitted;
    states, steps := [EMPTY, db], [Create("u", LOOSE, true, ACCEPTED)];
    ReplayIsExact(states, steps, 0, 1, "o", LOOSE, ACCEPTED);
  }
}
