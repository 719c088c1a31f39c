/**
 The life of one plan under its operator: created, then approved, rejected or expired, run,
 crashed and resumed, in any order and any number of times.
*/
module PlanApproval {
  import opened Wrappers
  import opened Plans
  import opened PlanRuns
  import opened PlanOutcome

  /**
   What may be done about a saved plan.  Approval is followed by execution, as the orchestrator
   does it; `cut` is after how many log entries the process dies, if it does.
  */
  datatype Op =
    | Approve(world: World, cut: nat)
    | Reject(cut: nat)
    | Expire(cut: nat)
    | Resume(life: Life)

  function Cut(log: seq<Entry>, cut: nat): seq<Entry> {
    if cut < |log| then log[..cut] else log
  }

  function OpLog(row: PlanRow, entity: EntityName, op: Op): seq<Entry> {
    match op
    case Approve(world, cut) =>
      if row.status != PendingApproval then []
      else
        var approved := row.(status := InExecution);
        Cut([Saved(approved)] + ExecutePlan(approved, entity, world).log, cut)
    case Reject(cut) =>
      if row.status != PendingApproval then [] else Cut([Saved(row.(status := Rejected))], cut)
    case Expire(cut) =>
      if row.status != PendingApproval then [] else Cut([Saved(row.(status := Expired))], cut)
    case Resume(life) => LifeLog(row, entity, life)
  }

  function AfterOp(row: PlanRow, entity: EntityName, op: Op): PlanRow {
    LastSaved(row, OpLog(row, entity, op))
  }

  /** Everything written and called over a sequence of operations. */
  function OpsLog(row: PlanRow, entity: EntityName, ops: seq<Op>): seq<Entry>
    decreases |ops|
  {
    if ops == [] then [] else OpLog(row, entity, ops[0]) + OpsLog(AfterOp(row, entity, ops[0]), entity, ops[1..])
  }

  /** Did this operation take the plan out of pending approval? */
  predicate Resolves(row: PlanRow, entity: EntityName, op: Op) {
    !op.Resume? && OpLog(row, entity, op) != []
  }

  /** How many of the operations resolve the plan. */
  function Resolutions(row: PlanRow, entity: EntityName, ops: seq<Op>): nat
    decreases |ops|
  {
    if ops == [] then 0
    else (if Resolves(row, entity, ops[0]) then 1 else 0) + Resolutions(AfterOp(row, entity, ops[0]), entity, ops[1..])
  }

  // ----- Pending approval is left once and never entered again -----

  /** No save puts the plan back to pending approval. */
  ghost predicate NeverPending(log: seq<Entry>) {
    forall i :: 0 <= i < |log| && log[i].Saved? ==> log[i].row.status != PendingApproval
  }

  lemma {:induction false} LastIsNotPending(row: PlanRow, log: seq<Entry>)
    requires NeverPending(log) && row.status != PendingApproval
    ensures LastSaved(row, log).status != PendingApproval
    decreases |log|
  {
    if log != [] {
      assert forall i :: 0 <= i < |log[1..]| ==> log[1..][i] == log[i + 1];
      LastIsNotPending(DiskAfter(row, log[0]), log[1..]);
    }
  }

  lemma {:induction false} RunStepsNeverPends(row: PlanRow, todo: seq<Step>, entity: EntityName, world: World)
    requires row.status != PendingApproval
    ensures NeverPending(RunSteps(row, todo, entity, world).log)
    decreases |todo|
  {
    if todo != [] {
      var step := todo[0];
      var d := Dispatch(row, step, entity, world(step.order));
      assert NeverPending(d.log) && d.row.status != PendingApproval;
      RunStepsNeverPends(row, todo[1..], entity, world);
      RunStepsNeverPends(Mark(row, step.order, Skipped), todo[1..], entity, world);
      RunStepsNeverPends(d.row, todo[1..], entity, world);
    }
  }

  lemma {:induction false} ExecuteNeverPends(row: PlanRow, entity: EntityName, world: World)
    ensures NeverPending(ExecutePlan(row, entity, world).log)
  {
    RunStepsNeverPends(row.(status := InExecution, states := Reset(row.states)), SortSteps(row.steps), entity, world);
  }

  lemma {:induction false} OpNeverPends(row: PlanRow, entity: EntityName, op: Op)
    ensures NeverPending(OpLog(row, entity, op))
  {
    match op
    case Approve(world, cut) => ExecuteNeverPends(row.(status := InExecution), entity, world);
    case Resume(life) => ExecuteNeverPends(Resumed(row), entity, life.world);
    case _ =>
  }

  /** An operation leaves the plan pending exactly if it was pending and the operation wrote nothing. */
  lemma {:induction false} OpKeepsPending(row: PlanRow, entity: EntityName, op: Op)
    ensures AfterOp(row, entity, op).status == PendingApproval <==> row.status == PendingApproval && OpLog(row, entity, op) == []
    ensures AfterOp(row, entity, op).status == PendingApproval ==> AfterOp(row, entity, op) == row
    ensures Resolves(row, entity, op) ==> row.status == PendingApproval
  {
    var log := OpLog(row, entity, op);
    OpNeverPends(row, entity, op);
    if log != [] {
      if row.status == PendingApproval {
        assert log[0].Saved?;
      }
      assert forall i :: 0 <= i < |log[1..]| ==> log[1..][i] == log[i + 1];
      LastIsNotPending(DiskAfter(row, log[0]), log[1..]);
    }
  }

  /** An approval, rejection or expiry takes effect exactly on a pending plan, if its save is not lost, and leaves it as it says. */
  lemma {:induction false} ResolvesIff(row: PlanRow, entity: EntityName, op: Op)
    requires !op.Resume?
    ensures Resolves(row, entity, op) <==> row.status == PendingApproval && op.cut > 0
    ensures Resolves(row, entity, op) && op.Reject? ==> AfterOp(row, entity, op) == row.(status := Rejected)
    ensures Resolves(row, entity, op) && op.Expire? ==> AfterOp(row, entity, op) == row.(status := Expired)
    ensures Resolves(row, entity, op) && op.Approve? ==>
      OpLog(row, entity, op)[0] == Saved(row.(status := InExecution))
      && (|ExecutePlan(row.(status := InExecution), entity, op.world).log| < op.cut ==>
            OpLog(row, entity, op) == [Saved(row.(status := InExecution))] + ExecutePlan(row.(status := InExecution), entity, op.world).log)
  {
    if Resolves(row, entity, op) && !op.Approve? {
      var refused := row.(status := if op.Reject? then Rejected else Expired);
      assert OpLog(row, entity, op) == [Saved(refused)];
      assert [Saved(refused)][1..] == [];
      assert LastSaved(row, [Saved(refused)]) == LastSaved(refused, []);
    }
  }

  /** At most one approval, rejection or expiry ever takes effect, and only on a plan that was pending. */
  lemma {:induction false} ResolvedAtMostOnce(row: PlanRow, entity: EntityName, ops: seq<Op>)
    ensures Resolutions(row, entity, ops) <= if row.status == PendingApproval then 1 else 0
    decreases |ops|
  {
    if ops != [] {
      OpKeepsPending(row, entity, ops[0]);
      ResolvedAtMostOnce(AfterOp(row, entity, ops[0]), entity, ops[1..]);
    }
  }

  // ----- No handler call without approval -----

  ghost predicate NotInExecution(row: PlanRow) {
    row.status == PendingApproval || row.status == Rejected || row.status == Expired
  }

  /** Any operation but an approval calls no handler and leaves such a plan such; if it writes at all, the plan is refused. */
  lemma {:induction false} WithoutApproval(row: PlanRow, entity: EntityName, op: Op)
    requires NotInExecution(row) && !op.Approve?
    ensures Executions(OpLog(row, entity, op)) == 0
    ensures NotInExecution(AfterOp(row, entity, op))
    ensures OpLog(row, entity, op) != [] ==> AfterOp(row, entity, op).status != PendingApproval
  {
    var log := OpLog(row, entity, op);
    if log != [] {
      var refused := row.(status := if op.Reject? then Rejected else Expired);
      assert log == [Saved(refused)];
      assert log[1..] == [];
      assert LastSaved(row, log) == LastSaved(refused, []) == refused;
      assert Executions(log) == Executions([]) == 0;
    }
  }

  /** Without an approval no handler is ever called. */
  lemma {:induction false} NothingWithoutApproval(row: PlanRow, entity: EntityName, ops: seq<Op>)
    requires NotInExecution(row)
    requires forall op :: op in ops ==> !op.Approve?
    ensures Executions(OpsLog(row, entity, ops)) == 0
    decreases |ops|
  {
    if ops != [] {
      var op := ops[0];
      assert op in ops && forall o :: o in ops[1..] ==> o in ops;
      var log := OpLog(row, entity, op);
      WithoutApproval(row, entity, op);
      NothingWithoutApproval(AfterOp(row, entity, op), entity, ops[1..]);
      ExecutionsAdd(log, OpsLog(AfterOp(row, entity, op), entity, ops[1..]));
    }
  }

  /** A rejected or expired plan is never written or run again. */
  lemma {:induction false} RefusedStaysRefused(row: PlanRow, entity: EntityName, ops: seq<Op>)
    requires row.status == Rejected || row.status == Expired
    ensures OpsLog(row, entity, ops) == []
    decreases |ops|
  {
    if ops != [] {
      RefusedStaysRefused(row, entity, ops[1..]);
    }
  }

  /**
   For a plan that needs approval: whatever is done with it, if any handler is ever called then
   one of the operations is an approval that took effect, it is the only resolution, and no
   handler was called before it.
  */
  lemma {:induction false} ApprovedBeforeExecuted(row: PlanRow, entity: EntityName, ops: seq<Op>) returns (k: nat)
    requires row.status == PendingApproval && Executions(OpsLog(row, entity, ops)) > 0
    ensures k < |ops| && ops[k].Approve?
    ensures OpsLog(row, entity, ops[..k]) == []
    ensures Resolves(row, entity, ops[k])
    ensures Resolutions(AfterOp(row, entity, ops[k]), entity, ops[k + 1..]) == 0
    decreases |ops|
  {
    var next := AfterOp(row, entity, ops[0]);
    OpKeepsPending(row, entity, ops[0]);
    if OpLog(row, entity, ops[0]) != [] {
      k := 0;
      FirstWasApproval(row, entity, ops, next);
      ResolvedAtMostOnce(next, entity, ops[1..]);
    } else {
      assert next == row;
      assert [] + OpsLog(next, entity, ops[1..]) == OpsLog(next, entity, ops[1..]);
      var j := ApprovedBeforeExecuted(next, entity, ops[1..]);
      k := j + 1;
      LaterIsLater(row, entity, ops, j);
    }
  }

  lemma {:induction false} FirstWasApproval(row: PlanRow, entity: EntityName, ops: seq<Op>, next: PlanRow)
    requires row.status == PendingApproval && Executions(OpsLog(row, entity, ops)) > 0 && ops != []
    requires next == AfterOp(row, entity, ops[0]) && OpLog(row, entity, ops[0]) != []
    ensures ops[0].Approve?
  {
    ExecutionsAdd(OpLog(row, entity, ops[0]), OpsLog(next, entity, ops[1..]));
    if !ops[0].Approve? {
      WithoutApproval(row, entity, ops[0]);
      RefusedStaysRefused(next, entity, ops[1..]);
    }
  }

  /** Where the first operation wrote nothing, the rest of the operations is the same plan's. */
  lemma {:induction false} LaterIsLater(row: PlanRow, entity: EntityName, ops: seq<Op>, j: nat)
    requires ops != [] && OpLog(row, entity, ops[0]) == [] && j <= |ops[1..]|
    ensures OpsLog(row, entity, ops[..j + 1]) == OpsLog(row, entity, ops[1..][..j])
    ensures ops[j + 1..] == ops[1..][j..]
  {
    assert ops[..j + 1][1..] == ops[1..][..j];
  }

  /** The same, from create_plan on: a plan with a step above AUTO_FIX. */
  lemma {:induction false} CreatedNeedsApproval(id: PlanId, steps: seq<Step>, entity: EntityName, ops: seq<Op>)
    requires Rank(EffectiveTier(steps)) > Rank(AutoFix)
    ensures Executions(OpsLog(Created(id, steps), entity, ops)) > 0 ==>
      exists k :: 0 <= k < |ops| && ops[k].Approve? && Resolves(Created(id, steps), entity, ops[k])
                  && OpsLog(Created(id, steps), entity, ops[..k]) == []
  {
    ApprovalFollowsTier(steps);
    if Executions(OpsLog(Created(id, steps), entity, ops)) > 0 {
      var k := ApprovedBeforeExecuted(Created(id, steps), entity, ops);
    }
  }

  // ----- A whole life from creation on -----

  /** The resumptions of a plan that is in execution. */
  function LivesOf(row: PlanRow, entity: EntityName, ops: seq<Op>): seq<Life>
    decreases |ops|
  {
    if ops == [] then []
    else
      (if ops[0].Resume? && row.status == InExecution then [ops[0].life] else []) +
      LivesOf(AfterOp(row, entity, ops[0]), entity, ops[1..])
  }

  /** Is the operation an execution: a resumption of a plan in execution, or an approval that takes effect? */
  predicate Runs(row: PlanRow, entity: EntityName, op: Op) {
    (op.Resume? && row.status == InExecution) || (op.Approve? && Resolves(row, entity, op))
  }

  function RunCount(row: PlanRow, entity: EntityName, ops: seq<Op>): nat
    decreases |ops|
  {
    if ops == [] then 0
    else (if Runs(row, entity, ops[0]) then 1 else 0) + RunCount(AfterOp(row, entity, ops[0]), entity, ops[1..])
  }

  /** A plan that is not pending is only ever resumed. */
  lemma {:induction false} OpsAreHistory(row: PlanRow, entity: EntityName, ops: seq<Op>)
    requires row.status != PendingApproval
    ensures OpsLog(row, entity, ops) == History(row, entity, LivesOf(row, entity, ops))
    ensures RunCount(row, entity, ops) == |LivesOf(row, entity, ops)|
    decreases |ops|
  {
    if ops != [] {
      var next, rest := AfterOp(row, entity, ops[0]), ops[1..];
      OpKeepsPending(row, entity, ops[0]);
      OpsAreHistory(next, entity, rest);
      if ops[0].Resume? && row.status == InExecution {
        HistoryStarts(row, entity, ops[0].life, LivesOf(next, entity, rest));
      } else {
        assert OpLog(row, entity, ops[0]) == [] && next == row;
        assert [] + OpsLog(row, entity, rest) == OpsLog(row, entity, rest);
        assert [] + LivesOf(row, entity, rest) == LivesOf(row, entity, rest);
      }
    }
  }

  /** An approval is a save of the approved plan and then a life of it. */
  lemma {:induction false} ApproveIsLife(row: PlanRow, entity: EntityName, world: World, cut: nat)
    requires Untouched(row) && row.status == PendingApproval && cut > 0
    ensures
      var approved := row.(status := InExecution);
      var log := LifeLog(approved, entity, Life(world, cut - 1));
      OpLog(row, entity, Approve(world, cut)) == [Saved(approved)] + log && AfterOp(row, entity, Approve(world, cut)) == LastSaved(approved, log)
  {
    var approved := row.(status := InExecution);
    UntouchedReset(approved);
    var log := ExecutePlan(approved, entity, world).log;
    var total := [Saved(approved)] + log;
    assert OpLog(row, entity, Approve(world, cut)) == Cut(total, cut);
    assert LifeLog(approved, entity, Life(world, cut - 1)) == Cut(log, cut - 1);
    CutAfterFirst(Saved(approved), log, cut);
    SavedOnce(row, approved, Cut(log, cut - 1));
  }

  lemma {:induction false} CutAfterFirst(e: Entry, log: seq<Entry>, cut: nat)
    requires cut > 0
    ensures Cut([e] + log, cut) == [e] + Cut(log, cut - 1)
  {
  }

  lemma {:induction false} SavedOnce(row: PlanRow, saved: PlanRow, log: seq<Entry>)
    ensures LastSaved(row, [Saved(saved)] + log) == LastSaved(saved, log)
  {
    assert ([Saved(saved)] + log)[1..] == log;
  }

  lemma {:induction false} HistoryStarts(disk: PlanRow, entity: EntityName, life: Life, lives: seq<Life>)
    ensures
      var log := LifeLog(disk, entity, life);
      History(disk, entity, [life] + lives) == log + History(LastSaved(disk, log), entity, lives)
  {
    assert ([life] + lives)[1..] == lives;
  }

  /** A log that begins with saves of an untouched plan and goes on as a history of it in execution. */
  ghost predicate SplitsInto(row: PlanRow, log: seq<Entry>, entity: EntityName, prefix: seq<Entry>, start: PlanRow, lives: seq<Life>) {
    && log == prefix + History(start, entity, lives)
    && (forall i :: 0 <= i < |prefix| ==> prefix[i].Saved? && Untouched(prefix[i].row))
    && Untouched(start) && LastSaved(row, prefix) == start
  }

  lemma {:induction false} ApprovedSplit(row: PlanRow, entity: EntityName, approved: PlanRow, life: Life, log: seq<Entry>, after: seq<Entry>, lives: seq<Life>)
    requires Untouched(approved) && log == LifeLog(approved, entity, life)
    requires after == History(LastSaved(approved, log), entity, lives)
    ensures SplitsInto(row, ([Saved(approved)] + log) + after, entity, [Saved(approved)], approved, [life] + lives)
  {
    assert History(approved, entity, [life] + lives) == log + after by {
      HistoryStarts(approved, entity, life, lives);
    }
    Regroup([Saved(approved)], log, after);
    SavedOnce(row, approved, []);
    assert [Saved(approved)] + [] == [Saved(approved)];
  }

  lemma {:induction false} Regroup(a: seq<Entry>, b: seq<Entry>, c: seq<Entry>)
    ensures (a + b) + c == a + (b + c)
  {
  }

  lemma {:induction false} RefusedSplit(row: PlanRow, entity: EntityName, op: Op, after: seq<Entry>, lives: seq<Life>)
    requires Untouched(row) && row.status == PendingApproval && (op.Reject? || op.Expire?) && op.cut > 0
    requires after == History(AfterOp(row, entity, op), entity, lives)
    ensures
      var refused := row.(status := if op.Reject? then Rejected else Expired);
      SplitsInto(row, OpLog(row, entity, op) + after, entity, [Saved(refused)], refused, lives)
  {
    var refused := row.(status := if op.Reject? then Rejected else Expired);
    assert OpLog(row, entity, op) == [Saved(refused)];
    SavedOnce(row, refused, []);
    assert [Saved(refused)] + [] == [Saved(refused)];
  }

  /**
   From creation on, a plan's log is a prefix of saves with all steps pending, followed by a
   history that starts from such a save, with one life for each execution.
  */
  lemma {:induction false} OpsSplit(row: PlanRow, entity: EntityName, ops: seq<Op>)
      returns (prefix: seq<Entry>, start: PlanRow, lives: seq<Life>)
    requires Untouched(row) && (row.status == PendingApproval || row.status == InExecution)
    ensures SplitsInto(row, OpsLog(row, entity, ops), entity, prefix, start, lives)
    ensures |start.states| == |row.steps| && |lives| == RunCount(row, entity, ops)
    decreases |ops|
  {
    if row.status == InExecution {
      OpsAreHistory(row, entity, ops);
      prefix, start, lives := [], row, LivesOf(row, entity, ops);
    } else if ops == [] {
      prefix, start, lives := [], row, [];
    } else {
      var op, rest := ops[0], ops[1..];
      var next := AfterOp(row, entity, op);
      OpKeepsPending(row, entity, op);
      if !Resolves(row, entity, op) {
        assert OpLog(row, entity, op) == [];
        prefix, start, lives := OpsSplit(row, entity, rest);
        assert [] + OpsLog(row, entity, rest) == OpsLog(row, entity, rest);
      } else {
        OpsAreHistory(next, entity, rest);
        lives := LivesOf(next, entity, rest);
        if op.Approve? {
          start := row.(status := InExecution);
          var life := Life(op.world, op.cut - 1);
          ApproveIsLife(row, entity, op.world, op.cut);
          ApprovedSplit(row, entity, start, life, LifeLog(start, entity, life), OpsLog(next, entity, rest), lives);
          lives := [life] + lives;
        } else {
          RefusedSplit(row, entity, op, OpsLog(next, entity, rest), lives);
          start := row.(status := if op.Reject? then Rejected else Expired);
        }
        prefix := [Saved(start)];
      }
    }
  }

  lemma {:induction false} SplitLaunchable(row: PlanRow, log: seq<Entry>, entity: EntityName, prefix: seq<Entry>, start: PlanRow, lives: seq<Life>, j: nat, order: int)
    requires SplitsInto(row, log, entity, prefix, start, lives) && j < |log| && log[j] == Executed(order)
    ensures Launchable(LastSaved(row, log[..j]), order)
  {
    var h := History(start, entity, lives);
    assert j >= |prefix| && h[j - |prefix|] == Executed(order);
    assert Executable(start) by { UntouchedIsExecutable(start); }
    ExecutedOnlyWhenLaunchable(start, entity, lives, j - |prefix|, order);
    AfterPrefix(row, log, prefix, start, h, j);
  }

  lemma {:induction false} AfterPrefix(row: PlanRow, log: seq<Entry>, prefix: seq<Entry>, start: PlanRow, h: seq<Entry>, j: nat)
    requires log == prefix + h && LastSaved(row, prefix) == start && |prefix| <= j <= |log|
    ensures LastSaved(row, log[..j]) == LastSaved(start, h[..j - |prefix|])
  {
    LastSavedAfter(row, prefix, h, j);
  }

  lemma {:induction false} SplitNeverSkips(row: PlanRow, log: seq<Entry>, entity: EntityName, prefix: seq<Entry>, start: PlanRow, lives: seq<Life>, j: nat, order: int)
    requires SplitsInto(row, log, entity, prefix, start, lives) && j < |log| && log[j].Saved?
    ensures StatusOf(log[j].row.states, order) != Some(Skipped)
  {
    if j >= |prefix| {
      assert Executable(start) by { UntouchedIsExecutable(start); }
      NothingIsEverSkipped(start, entity, lives, j - |prefix|, order);
    } else {
      UntouchedStatus(prefix[j].row, order);
    }
  }

  /**
   From creation on: whenever a handler is called, the plan is on disk as in execution with the step
   executing, and that step's dependencies are all of smaller order and done.
  */
  lemma {:induction false} CreatedExecutesOnlyLaunchable(id: PlanId, steps: seq<Step>, entity: EntityName, ops: seq<Op>, j: nat, order: int)
    requires j < |OpsLog(Created(id, steps), entity, ops)| && OpsLog(Created(id, steps), entity, ops)[j] == Executed(order)
    ensures Launchable(LastSaved(Created(id, steps), OpsLog(Created(id, steps), entity, ops)[..j]), order)
  {
    var prefix, start, lives := OpsSplit(Created(id, steps), entity, ops);
    SplitLaunchable(Created(id, steps), OpsLog(Created(id, steps), entity, ops), entity, prefix, start, lives, j, order);
  }

  /** From creation on, no save shows a skipped step: `conditional` never takes effect. */
  lemma {:induction false} CreatedNeverSkips(id: PlanId, steps: seq<Step>, entity: EntityName, ops: seq<Op>, j: nat, order: int)
    requires j < |OpsLog(Created(id, steps), entity, ops)| && OpsLog(Created(id, steps), entity, ops)[j].Saved?
    ensures StatusOf(OpsLog(Created(id, steps), entity, ops)[j].row.states, order) != Some(Skipped)
  {
    var prefix, start, lives := OpsSplit(Created(id, steps), entity, ops);
    SplitNeverSkips(Created(id, steps), OpsLog(Created(id, steps), entity, ops), entity, prefix, start, lives, j, order);
  }

  /** From creation on, over approvals, crashes and resumptions: a step shown as done by any save is never executed after it. */
  lemma {:induction false} CreatedNeverExecutesAgain(id: PlanId, steps: seq<Step>, entity: EntityName, ops: seq<Op>)
    ensures NoRepeats(OpsLog(Created(id, steps), entity, ops))
  {
    var prefix, start, lives := OpsSplit(Created(id, steps), entity, ops);
    UntouchedIsExecutable(start);
    HistoryNoRepeats(start, entity, lives);
    forall i | 0 <= i < |prefix|
      ensures forall o :: !Done(prefix[i].row, o)
    {
      UntouchedIsExecutable(prefix[i].row);
    }
    NoRepeatsAfter(prefix, History(start, entity, lives));
  }

  lemma {:induction false} NoRepeatsAfter(prefix: seq<Entry>, h: seq<Entry>)
    requires NoRepeats(h) && forall i :: 0 <= i < |prefix| ==> prefix[i].Saved? && forall o :: !Done(prefix[i].row, o)
    ensures NoRepeats(prefix + h)
  {
    var log: seq<Entry> := prefix + h;
    forall i, j | 0 <= i < j < |log| && log[i].Saved? && log[j].Executed?
      ensures !Done(log[i].row, log[j].order)
    {
      if i >= |prefix| {
        assert log[i] == h[i - |prefix|] && log[j] == h[j - |prefix|];
      }
    }
  }

  /**
   From creation on: handlers are called at most once per step and once more for every execution
   after the first, the executions being resumptions of the plan in execution and the approval that took effect.
  */
  lemma {:induction false} CreatedExecutionsBounded(id: PlanId, steps: seq<Step>, entity: EntityName, ops: seq<Op>)
    ensures
      var runs := RunCount(Created(id, steps), entity, ops);
      Executions(OpsLog(Created(id, steps), entity, ops)) <= if runs == 0 then 0 else |steps| + runs - 1
  {
    var prefix, start, lives := OpsSplit(Created(id, steps), entity, ops);
    ExecutionsAdd(prefix, History(start, entity, lives));
    NoExecutions(prefix);
    UntouchedIsExecutable(start);
    if lives != [] {
      ExecutionsBounded(start, entity, lives);
    }
  }

  lemma {:induction false} NoExecutions(log: seq<Entry>)
    requires forall i :: 0 <= i < |log| ==> log[i].Saved?
    ensures Executions(log) == 0
    decreases |log|
  {
    if log != [] {
      NoExecutions(log[1..]);
    }
  }
}
