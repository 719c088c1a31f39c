/**
 `create_plan`, and how `execute_plan` can end: which plans complete, and what the step
 states look like when one does not.
*/
module PlanOutcome {
  import opened Wrappers
  import opened Plans
  import opened PlanRuns

  // ----- create_plan -----

  function Rank(tier: RiskTier): nat {
    match tier
    case AutoFix => 0
    case Recommend => 1
    case Escalate => 2
    case Block => 3
  }

  /** The first step of highest rank decides; without steps it is AUTO_FIX. */
  function EffectiveTier(steps: seq<Step>): RiskTier {
    if steps == [] then AutoFix
    else
      var rest := EffectiveTier(steps[..|steps| - 1]);
      var last := steps[|steps| - 1].riskTier;
      if Rank(last) > Rank(rest) then last else rest
  }

  predicate RequiresApproval(steps: seq<Step>) {
    exists i :: 0 <= i < |steps| && steps[i].riskTier != AutoFix
  }

  /** The stored maximum and the approval rule agree: approval is needed iff the maximum is above AUTO_FIX. */
  lemma {:induction false} ApprovalFollowsTier(steps: seq<Step>)
    ensures RequiresApproval(steps) <==> Rank(EffectiveTier(steps)) > Rank(AutoFix)
    ensures forall i :: 0 <= i < |steps| ==> Rank(steps[i].riskTier) <= Rank(EffectiveTier(steps))
    ensures steps != [] ==> exists i :: 0 <= i < |steps| && steps[i].riskTier == EffectiveTier(steps)
  {
    if steps != [] {
      var n := |steps| - 1;
      ApprovalFollowsTier(steps[..n]);
      assert forall i :: 0 <= i < n ==> steps[..n][i] == steps[i];
      if RequiresApproval(steps[..n]) {
        var i :| 0 <= i < n && steps[..n][i].riskTier != AutoFix;
        assert steps[i].riskTier != AutoFix;
      }
      if EffectiveTier(steps) == steps[n].riskTier {
      } else {
        var i :| 0 <= i < n && steps[..n][i].riskTier == EffectiveTier(steps[..n]);
        assert steps[i].riskTier == EffectiveTier(steps);
      }
    }
  }

  function Created(id: PlanId, steps: seq<Step>): PlanRow {
    PlanRow(id,
            if RequiresApproval(steps) then PendingApproval else InExecution,
            steps,
            seq(|steps|, i requires 0 <= i < |steps| => StepState(steps[i].order, Pending)),
            EffectiveTier(steps))
  }

  /** A new plan has one pending state for each step, in their order, and runs at once exactly if every step is AUTO_FIX. */
  lemma {:induction false} CreatedIs(id: PlanId, steps: seq<Step>)
    ensures
      var row := Created(id, steps);
      && row.id == id && row.steps == steps && |row.states| == |steps|
      && (forall i :: 0 <= i < |steps| ==> row.states[i] == StepState(steps[i].order, Pending))
      && (row.status == InExecution <==> forall s :: s in steps ==> s.riskTier == AutoFix)
      && (row.status == PendingApproval <==> exists s :: s in steps && s.riskTier != AutoFix)
      && (forall s :: s in steps ==> Rank(s.riskTier) <= Rank(row.tier))
      && (row.tier == AutoFix || exists s :: s in steps && s.riskTier == row.tier)
  {
    ApprovalFollowsTier(steps);
    if RequiresApproval(steps) {
      var i :| 0 <= i < |steps| && steps[i].riskTier != AutoFix;
      assert steps[i] in steps;
    }
    if EffectiveTier(steps) != AutoFix {
      var i :| 0 <= i < |steps| && steps[i].riskTier == EffectiveTier(steps);
      assert steps[i] in steps;
    }
  }

  /** A plan whose steps are all pending. */
  ghost predicate Untouched(row: PlanRow) {
    && |row.states| == |row.steps|
    && forall i :: 0 <= i < |row.steps| ==> row.states[i] == StepState(row.steps[i].order, Pending)
  }

  lemma {:induction false} UntouchedStatus(row: PlanRow, order: int)
    requires Untouched(row)
    ensures StatusOf(row.states, order) == if Among(row.steps, order) then Some(Pending) else None
  {
    FindIsLast(row.states, order);
    if Find(row.states, order).Some? {
      assert row.steps[Find(row.states, order).value] in row.steps;
    } else {
      assert forall i :: 0 <= i < |row.steps| ==> row.states[i].order != order;
    }
  }

  lemma {:induction false} UntouchedIsExecutable(row: PlanRow)
    requires Untouched(row)
    ensures Executable(row) && forall o :: !Done(row, o)
  {
    forall o
      ensures StatusOf(row.states, o) == if Among(row.steps, o) then Some(Pending) else None
    {
      UntouchedStatus(row, o);
    }
    assert forall o :: !Done(row, o);
    assert WellFormed(row) by {
      forall s | s in row.steps
        ensures StatusOf(row.states, s.order).Some?
      {
        assert Among(row.steps, s.order);
      }
    }
  }

  // ----- How one call of execute_plan ends -----

  /** The plan stopped at `order`: earlier steps of `todo` are done, later ones as they were in `start`. */
  ghost predicate StoppedAt(start: PlanRow, end: PlanRow, todo: seq<Step>, order: int) {
    && Among(todo, order)
    && (StatusOf(end.states, order) == Some(Failed) || StatusOf(end.states, order) == Some(Blocked))
    && (forall p :: Among(todo, p) && p < order ==> Done(end, p))
    && (forall p :: p > order ==> StatusOf(end.states, p) == StatusOf(start.states, p))
  }

  /** Completed with everything done, or aborted at one step. */
  ghost predicate EndsProperly(start: PlanRow, end: PlanRow, todo: seq<Step>) {
    || (end.status == Completed && forall p :: Among(todo, p) ==> Done(end, p))
    || (end.status == Aborted && exists o :: StoppedAt(start, end, todo, o))
  }

  /** What is done in `start` is as it was in `end`, and the plan is the same. */
  ghost predicate Carries(start: PlanRow, end: PlanRow) {
    && SamePlan(start, end)
    && forall p :: Done(start, p) ==> StatusOf(end.states, p) == StatusOf(start.states, p)
  }

  lemma {:induction false} MarkCarries(row: PlanRow, order: int, status: StepStatus)
    requires HasOrder(row, order) && !Done(row, order)
    ensures Carries(row, Mark(row, order, status))
    ensures forall p :: p != order ==> StatusOf(Mark(row, order, status).states, p) == StatusOf(row.states, p)
    ensures StatusOf(Mark(row, order, status).states, order) == Some(status)
  {
    MarkGet(row, order, status);
  }

  /** One dispatched step ends succeeded, or failed with the plan aborted; no other step changes. */
  lemma {:induction false} DispatchEnd(row: PlanRow, step: Step, entity: EntityName, outcome: Outcome)
    requires HasOrder(row, step.order) && row.status == InExecution
    ensures
      var end := Dispatch(row, step, entity, outcome).row;
      && SamePlan(row, end)
      && (forall p :: p != step.order ==> StatusOf(end.states, p) == StatusOf(row.states, p))
      && (if outcome.hasHandler && outcome.execute == Returned(Success) && outcome.verify == Checked(true)
          then end.status == InExecution && StatusOf(end.states, step.order) == Some(Succeeded)
          else end.status == Aborted && StatusOf(end.states, step.order) == Some(Failed))
  {
    var o := step.order;
    var executing := Mark(row, o, Executing);
    MarkGet(row, o, Executing);
    MarkGet(executing, o, Failed);
    MarkGet(executing, o, Verifying);
    var verifying := Mark(executing, o, Verifying);
    MarkGet(verifying, o, Succeeded);
    MarkGet(verifying, o, Failed);
  }

  lemma {:induction false} CarriesOn(a: PlanRow, b: PlanRow, c: PlanRow)
    requires Carries(a, b) && Carries(b, c)
    ensures Carries(a, c)
  {
    forall p | Done(a, p)
      ensures StatusOf(c.states, p) == StatusOf(a.states, p)
    {
      assert Done(b, p);
    }
  }

  /** What the main loop guarantees from any point on. */
  ghost predicate LoopEnds(start: PlanRow, end: PlanRow, todo: seq<Step>) {
    && Carries(start, end)
    && EndsProperly(start, end, todo)
    && (forall p :: !Among(todo, p) ==> StatusOf(end.states, p) == StatusOf(start.states, p))
  }

  lemma {:induction false} SameHasOrder(a: PlanRow, b: PlanRow, todo: seq<Step>)
    requires SamePlan(a, b) && forall s :: s in todo ==> HasOrder(a, s.order)
    ensures forall s :: s in todo ==> HasOrder(b, s.order)
  {
    forall s | s in todo
      ensures HasOrder(b, s.order)
    {
      FindIgnoresStatus(a.states, b.states, s.order);
    }
  }

  /** One iteration of the main loop, as a function. */
  function StepRun(row: PlanRow, step: Step, entity: EntityName, world: World): Run {
    if Done(row, step.order) then Run(row, [])
    else
      match Evaluate(step.dependsOn, step.conditional, row.states)
      case Blocked => Stop(Abort(row, step.order, Blocked))
      case Skipped => Stop(Mark(row, step.order, Skipped))
      case _ => Dispatch(row, step, entity, world(step.order))
  }

  lemma {:induction false} StepThenRest(row: PlanRow, todo: seq<Step>, entity: EntityName, world: World)
    requires todo != [] && row.status == InExecution
    ensures
      var first := StepRun(row, todo[0], entity, world);
      var all := RunSteps(row, todo, entity, world);
      if first.row.status == Aborted then all == first
      else
        var rest := RunSteps(first.row, todo[1..], entity, world);
        all == Run(rest.row, first.log + rest.log)
  {
    var rest := RunSteps(row, todo[1..], entity, world);
    assert [] + rest.log == rest.log;
  }

  lemma {:induction false} StepKeepsPlan(row: PlanRow, step: Step, entity: EntityName, world: World)
    requires row.status == InExecution && HasOrder(row, step.order)
    ensures
      var end := StepRun(row, step, entity, world).row;
      SamePlan(row, end) && (end.status == InExecution || end.status == Aborted)
  {
    if !Done(row, step.order) {
      match Evaluate(step.dependsOn, step.conditional, row.states)
      case Blocked => MarkGet(row, step.order, Blocked);
      case Skipped => MarkGet(row, step.order, Skipped);
      case _ => DispatchEnd(row, step, entity, world(step.order));
    }
  }

  lemma {:induction false} StepKeepsOrders(row: PlanRow, todo: seq<Step>, entity: EntityName, world: World)
    requires todo != [] && row.status == InExecution && forall s :: s in todo ==> HasOrder(row, s.order)
    ensures
      var end := StepRun(row, todo[0], entity, world).row;
      && (forall s :: s in todo[1..] ==> HasOrder(end, s.order))
      && (end.status == InExecution || end.status == Aborted)
  {
    assert todo[0] in todo && forall s :: s in todo[1..] ==> s in todo;
    StepKeepsPlan(row, todo[0], entity, world);
    SameHasOrder(row, StepRun(row, todo[0], entity, world).row, todo[1..]);
  }

  /** The first step of `todo` has become done, and the rest ends properly. */
  lemma {:induction false} PassOver(start: PlanRow, mid: PlanRow, end: PlanRow, todo: seq<Step>)
    requires todo != [] && Ascending(todo)
    requires Carries(start, mid) && Done(mid, todo[0].order) && LoopEnds(mid, end, todo[1..])
    requires forall p :: p != todo[0].order ==> StatusOf(mid.states, p) == StatusOf(start.states, p)
    ensures LoopEnds(start, end, todo)
  {
    var first, rest := todo[0].order, todo[1..];
    assert todo == [todo[0]] + rest;
    CarriesOn(start, mid, end);
    assert Done(end, first);
    assert forall p :: Among(todo, p) ==> Among(rest, p) || p == first by {
      forall p | Among(todo, p)
        ensures Among(rest, p) || p == first
      {
        var s :| s in todo && s.order == p;
        assert s == todo[0] || s in rest;
      }
    }
    assert Among(todo, first) by { assert todo[0] in todo; }
    assert forall p :: Among(rest, p) ==> Among(todo, p) by {
      forall p | Among(rest, p)
        ensures Among(todo, p)
      {
        var s :| s in rest && s.order == p;
        assert s in todo;
      }
    }
    if end.status == Aborted {
      var o :| StoppedAt(mid, end, rest, o);
      var s :| s in rest && s.order == o;
      assert first <= o;
      assert StoppedAt(start, end, todo, o);
    }
  }

  /** The plan is aborted at the first step of `todo`. */
  lemma {:induction false} StopHere(start: PlanRow, end: PlanRow, todo: seq<Step>)
    requires todo != [] && Ascending(todo) && Carries(start, end) && end.status == Aborted
    requires StatusOf(end.states, todo[0].order) == Some(Failed) || StatusOf(end.states, todo[0].order) == Some(Blocked)
    requires forall p :: p != todo[0].order ==> StatusOf(end.states, p) == StatusOf(start.states, p)
    ensures LoopEnds(start, end, todo)
  {
    var first := todo[0].order;
    assert todo[0] in todo;
    assert Among(todo, first);
    forall p | Among(todo, p)
      ensures first <= p
    {
      var s :| s in todo && s.order == p;
      var i :| 0 <= i < |todo| && todo[i] == s;
    }
    assert StoppedAt(start, end, todo, first);
  }

  lemma {:induction false} NothingLeft(row: PlanRow)
    ensures LoopEnds(row, row.(status := Completed), [])
  {
    var end := row.(status := Completed);
    assert forall p :: StatusOf(end.states, p) == StatusOf(row.states, p);
    assert forall p :: !Among([], p);
  }

  lemma {:induction false} BlockedHere(row: PlanRow, todo: seq<Step>)
    requires todo != [] && Ascending(todo) && HasOrder(row, todo[0].order) && !Done(row, todo[0].order)
    ensures LoopEnds(row, Abort(row, todo[0].order, Blocked), todo)
  {
    var o := todo[0].order;
    MarkCarries(row, o, Blocked);
    AbortStatus(row, o, Blocked);
    StopHere(row, Abort(row, o, Blocked), todo);
  }

  lemma {:induction false} RunStepsOutcome(row: PlanRow, todo: seq<Step>, entity: EntityName, world: World)
    requires row.status == InExecution && Ascending(todo)
    requires forall s :: s in todo ==> HasOrder(row, s.order)
    ensures LoopEnds(row, RunSteps(row, todo, entity, world).row, todo)
    decreases |todo|
  {
    if todo == [] {
      NothingLeft(row);
      return;
    }
    var step, rest := todo[0], todo[1..];
    assert step in todo && forall s :: s in rest ==> s in todo;
    var verdict := Evaluate(step.dependsOn, step.conditional, row.states);
    EvaluateSays(step.dependsOn, step.conditional, row);
    if Done(row, step.order) {
      RunStepsOutcome(row, rest, entity, world);
      PassOver(row, row, RunSteps(row, rest, entity, world).row, todo);
    } else if verdict == Blocked {
      BlockedHere(row, todo);
    } else if verdict == Skipped {
      RunStepsSkips(row, todo, entity, world);
    } else {
      RunStepsDispatches(row, todo, entity, world);
    }
  }

  lemma {:induction false} RunStepsSkips(row: PlanRow, todo: seq<Step>, entity: EntityName, world: World)
    requires row.status == InExecution && Ascending(todo) && todo != []
    requires forall s :: s in todo ==> HasOrder(row, s.order)
    requires !Done(row, todo[0].order) && Evaluate(todo[0].dependsOn, todo[0].conditional, row.states) == Skipped
    ensures LoopEnds(row, RunSteps(row, todo, entity, world).row, todo)
    decreases |todo|, 0
  {
    var rest := todo[1..];
    var skipped := Mark(row, todo[0].order, Skipped);
    var end := RunSteps(row, todo, entity, world).row;
    assert end == RunSteps(skipped, rest, entity, world).row;
    SkippedCarries(row, todo);
    assert Ascending(rest);
    RunStepsOutcome(skipped, rest, entity, world);
    PassOver(row, skipped, end, todo);
  }

  lemma {:induction false} SkippedCarries(row: PlanRow, todo: seq<Step>)
    requires todo != [] && !Done(row, todo[0].order) && forall s :: s in todo ==> HasOrder(row, s.order)
    ensures
      var skipped := Mark(row, todo[0].order, Skipped);
      && Carries(row, skipped) && Done(skipped, todo[0].order)
      && (forall p :: p != todo[0].order ==> StatusOf(skipped.states, p) == StatusOf(row.states, p))
      && (forall s :: s in todo[1..] ==> HasOrder(skipped, s.order))
  {
    assert todo[0] in todo && forall s :: s in todo[1..] ==> s in todo;
    MarkCarries(row, todo[0].order, Skipped);
    SameHasOrder(row, Mark(row, todo[0].order, Skipped), todo[1..]);
  }

  lemma {:induction false} AbortStatus(row: PlanRow, order: int, status: StepStatus)
    ensures forall p :: StatusOf(Abort(row, order, status).states, p) == StatusOf(Mark(row, order, status).states, p)
  {
  }

  lemma {:induction false} RunStepsDispatches(row: PlanRow, todo: seq<Step>, entity: EntityName, world: World)
    requires row.status == InExecution && Ascending(todo) && todo != []
    requires forall s :: s in todo ==> HasOrder(row, s.order)
    requires !Done(row, todo[0].order) && Evaluate(todo[0].dependsOn, todo[0].conditional, row.states) == Ready
    ensures LoopEnds(row, RunSteps(row, todo, entity, world).row, todo)
    decreases |todo|, 0
  {
    var step, rest := todo[0], todo[1..];
    var end := RunSteps(row, todo, entity, world).row;
    var mid := Dispatch(row, step, entity, world(step.order)).row;
    assert step in todo && forall s :: s in rest ==> s in todo;
    DispatchEnd(row, step, entity, world(step.order));
    if mid.status == Aborted {
      assert end == mid;
      StopHere(row, end, todo);
    } else {
      assert end == RunSteps(mid, rest, entity, world).row;
      SameHasOrder(row, mid, rest);
      assert Ascending(rest);
      RunStepsOutcome(mid, rest, entity, world);
      PassOver(row, mid, end, todo);
    }
  }

  lemma {:induction false} StartedStates(row: PlanRow)
    ensures
      var started := row.(status := InExecution, states := Reset(row.states));
      && SamePlan(row, started)
      && (forall p :: StatusOf(started.states, p) == if StatusOf(row.states, p) == Some(Executing) then Some(Ready) else StatusOf(row.states, p))
      && (WellFormed(row) ==> forall s :: s in SortSteps(row.steps) ==> HasOrder(started, s.order))
  {
    forall p
      ensures StatusOf(Reset(row.states), p) == if StatusOf(row.states, p) == Some(Executing) then Some(Ready) else StatusOf(row.states, p)
    {
      ResetGet(row.states, p);
    }
    SortSorts(row.steps);
  }

  /** The loop's guarantee, in terms of the plan's steps instead of the sorted ones. */
  lemma {:induction false} LoopEndsSorted(start: PlanRow, end: PlanRow, steps: seq<Step>)
    requires LoopEnds(start, end, SortSteps(steps))
    ensures end.status == Completed || (end.status == Aborted && exists o :: StoppedAt(start, end, steps, o))
    ensures end.status == Completed <==> forall s :: s in steps ==> Done(end, s.order)
  {
    forall p
      ensures Among(SortSteps(steps), p) <==> Among(steps, p)
    {
      AmongSorted(steps, p);
    }
    if end.status == Aborted {
      var o :| StoppedAt(start, end, SortSteps(steps), o);
      assert StoppedAt(start, end, steps, o);
      var s :| s in steps && s.order == o;
    } else {
      forall s | s in steps
        ensures Done(end, s.order)
      {
        assert Among(steps, s.order);
      }
    }
  }

  /**
   For any plan, resumed or new: `execute_plan` ends COMPLETED exactly when every step is done;
   otherwise it ends aborted at one failed or blocked step, with all earlier steps done and all
   later ones as the call found them.  What was done before stays as it was.
  */
  lemma {:induction false} ExecuteOutcome(row: PlanRow, entity: EntityName, world: World)
    requires WellFormed(row)
    ensures
      var end := ExecutePlan(row, entity, world).row;
      && SamePlan(row, end)
      && (end.status == Completed <==> forall s :: s in row.steps ==> Done(end, s.order))
      && (end.status == Completed || (end.status == Aborted && exists o :: StoppedAt(Resumed(row), end, row.steps, o)))
      && (forall p :: Done(row, p) ==> StatusOf(end.states, p) == StatusOf(row.states, p))
  {
    var started := row.(status := InExecution, states := Reset(row.states));
    var end := ExecutePlan(row, entity, world).row;
    StartedStates(row);
    SortSorts(row.steps);
    RunStepsOutcome(started, SortSteps(row.steps), entity, world);
    LoopEndsSorted(started, end, row.steps);
    if end.status == Aborted {
      var o :| StoppedAt(started, end, row.steps, o);
      assert StoppedAt(Resumed(row), end, row.steps, o);
    }
    forall p | Done(row, p)
      ensures StatusOf(end.states, p) == StatusOf(row.states, p)
    {
      assert Done(started, p);
    }
  }

  lemma {:induction false} AmongSorted(steps: seq<Step>, order: int)
    ensures Among(SortSteps(steps), order) <==> Among(steps, order)
  {
    SortSorts(steps);
    if Among(steps, order) {
      var s :| s in steps && s.order == order;
      assert s in SortSteps(steps);
    }
  }

  // ----- Which plans complete -----

  ghost predicate DistinctOrders(steps: seq<Step>) {
    forall i, j :: 0 <= i < j < |steps| ==> steps[i].order != steps[j].order
  }

  /** Every dependency is an earlier step of the plan: no cycle, no forward and no unknown reference. */
  ghost predicate WellFounded(steps: seq<Step>) {
    forall s :: s in steps ==> DependsOnEarlier(steps, s)
  }

  ghost predicate DependsOnEarlier(steps: seq<Step>, step: Step) {
    forall d :: d in step.dependsOn ==> d < step.order && Among(steps, d)
  }

  /** The same of the first step of each order, the one that runs. */
  ghost predicate FirstsHold(steps: seq<Step>) {
    forall s {:trigger IsFirst(steps, s)} :: IsFirst(steps, s) ==> DependsOnEarlier(steps, s)
  }

  lemma {:induction false} OfOrderHas(steps: seq<Step>, step: Step)
    ensures step in OfOrder(steps, step.order) <==> step in steps
  {
    if steps != [] {
      OfOrderHas(steps[1..], step);
      assert steps == [steps[0]] + steps[1..];
    }
  }

  lemma {:induction false} OfOrderAre(steps: seq<Step>, order: int)
    ensures forall s :: s in OfOrder(steps, order) ==> s in steps && s.order == order
  {
    if steps != [] {
      OfOrderAre(steps[1..], order);
    }
  }

  /** With distinct orders every step is the first of its order. */
  lemma {:induction false} DistinctAreFirst(steps: seq<Step>, step: Step)
    requires DistinctOrders(steps) && step in steps
    ensures IsFirst(steps, step)
  {
    OfOrderHas(steps, step);
    OfOrderAre(steps, step.order);
    var first := OfOrder(steps, step.order)[0];
    assert first in steps && first.order == step.order;
  }

  lemma {:induction false} DistinctFirstsHold(steps: seq<Step>)
    requires DistinctOrders(steps)
    ensures FirstsHold(steps) <==> WellFounded(steps)
  {
    forall s | s in steps
      ensures IsFirst(steps, s)
    {
      DistinctAreFirst(steps, s);
    }
    forall s | IsFirst(steps, s)
      ensures s in steps
    {
      FirstIsIn(steps, s);
    }
  }

  /** Every done order has the dependencies of its first step done and of smaller order. */
  ghost predicate DoneDepsHeld(row: PlanRow) {
    forall s {:trigger DepsHeld(row, s)} :: IsFirst(row.steps, s) && Done(row, s.order) ==> DepsHeld(row, s)
  }

  ghost predicate BusyDepsHeld(row: PlanRow, busy: Option<int>) {
    forall s {:trigger DepsHeld(row, s)} :: IsFirst(row.steps, s) && busy == Some(s.order) ==> DepsHeld(row, s)
  }

  lemma {:induction false} DepsStayHeld(disk: PlanRow, row: PlanRow, step: Step)
    requires DepsHeld(disk, step) && forall p :: Done(disk, p) ==> Done(row, p)
    ensures DepsHeld(row, step)
  {
  }

  lemma {:induction false} LegalKeepsDeps(disk: PlanRow, busy: Option<int>, log: seq<Entry>)
    requires Legal(disk, busy, log)
    requires DoneDepsHeld(disk) && BusyDepsHeld(disk, busy)
    ensures DoneDepsHeld(LastSaved(disk, log))
    decreases |log|
  {
    if log != [] {
      var e := log[0];
      var next, now := DiskAfter(disk, e), BusyNext(busy, e);
      assert Allowed(disk, busy, e);
      if e.Saved? {
        assert forall p :: Done(disk, p) ==> Done(next, p);
        forall s | IsFirst(next.steps, s) && (Done(next, s.order) || now == Some(s.order))
          ensures DepsHeld(next, s)
        {
          assert Done(disk, s.order) || busy == Some(s.order);
          assert DepsHeld(disk, s);
          DepsStayHeld(disk, next, s);
        }
      } else if e.Executed? {
        var step :| IsFirst(disk.steps, step) && step.order == e.order && DepsHeld(disk, step);
        forall s | IsFirst(disk.steps, s) && now == Some(s.order)
          ensures DepsHeld(disk, s)
        {
          assert s == step;
        }
      }
      LegalKeepsDeps(next, now, log[1..]);
    }
  }

  ghost predicate CompletedProperly(row: PlanRow) {
    row.status == Completed ==> AllDone(row)
  }

  lemma {:induction false} LegalKeepsCompletion(disk: PlanRow, busy: Option<int>, log: seq<Entry>)
    requires Legal(disk, busy, log) && CompletedProperly(disk)
    ensures CompletedProperly(LastSaved(disk, log))
    decreases |log|
  {
    if log != [] {
      assert Allowed(disk, busy, log[0]);
      LegalKeepsCompletion(DiskAfter(disk, log[0]), BusyNext(busy, log[0]), log[1..]);
    }
  }

  /** What the disk holds after all the lives. */
  function DiskAfterLives(disk: PlanRow, entity: EntityName, lives: seq<Life>): PlanRow {
    LastSaved(disk, History(disk, entity, lives))
  }

  lemma {:induction false} HistoryKeepsDeps(disk: PlanRow, entity: EntityName, lives: seq<Life>)
    requires Executable(disk) && DoneDepsHeld(disk) && CompletedProperly(disk)
    ensures
      var end := DiskAfterLives(disk, entity, lives);
      Executable(end) && SamePlan(disk, end) && DoneDepsHeld(end) && CompletedProperly(end)
    decreases |lives|
  {
    if lives != [] {
      var log := LifeLog(disk, entity, lives[0]);
      var next := LastSaved(disk, log);
      LifeLegal(disk, entity, lives[0]);
      LegalKeepsDeps(disk, None, log);
      LegalKeepsCompletion(disk, None, log);
      HistoryKeepsDeps(next, entity, lives[1..]);
      LastSavedAdds(disk, log, History(next, entity, lives[1..]));
    }
  }

  lemma {:induction false} AllDoneFirstsHold(row: PlanRow)
    requires Executable(row) && AllDone(row) && DoneDepsHeld(row)
    ensures FirstsHold(row.steps)
  {
    forall s | IsFirst(row.steps, s)
      ensures DependsOnEarlier(row.steps, s)
    {
      FirstIsIn(row.steps, s);
      assert HasOrder(row, s.order);
      assert Done(row, s.order);
      assert DepsHeld(row, s);
      forall d | d in s.dependsOn
        ensures Among(row.steps, d)
      {
        assert Done(row, d);
        assert HasOrder(row, d);
      }
    }
  }

  /**
   A new plan in which the first step of some order has a cyclic, forward or unknown dependency
   never completes, whatever the handlers answer and however often it is resumed.
  */
  lemma {:induction false} CompletesOnlyIfFirstsHold(disk: PlanRow, entity: EntityName, lives: seq<Life>)
    requires Untouched(disk) && disk.status == InExecution
    requires DiskAfterLives(disk, entity, lives).status == Completed
    ensures FirstsHold(disk.steps)
  {
    assert Executable(disk) && DoneDepsHeld(disk) by { UntouchedIsExecutable(disk); }
    HistoryKeepsDeps(disk, entity, lives);
    var end := DiskAfterLives(disk, entity, lives);
    AllDoneFirstsHold(end);
    assert end.steps == disk.steps;
  }

  ghost predicate AllAnswerWell(world: World) {
    forall o :: world(o) == Outcome(true, Returned(Success), Checked(true))
  }

  /** Dependencies of `step` are earlier and done or still to come. */
  ghost predicate Reachable(row: PlanRow, todo: seq<Step>, step: Step) {
    forall d :: d in step.dependsOn ==> d < step.order && (Done(row, d) || Among(todo, d))
  }

  lemma {:induction false} NextIsReady(row: PlanRow, todo: seq<Step>)
    requires todo != [] && Ascending(todo) && Reachable(row, todo, todo[0])
    ensures Evaluate(todo[0].dependsOn, todo[0].conditional, row.states) == Ready
  {
    assert forall s :: s in todo ==> todo[0].order <= s.order;
    forall d | d in todo[0].dependsOn
      ensures Done(row, d)
    {
      assert !Among(todo, d);
    }
    EvaluateSays(todo[0].dependsOn, todo[0].conditional, row);
  }

  lemma {:induction false} StaysReachable(row: PlanRow, mid: PlanRow, todo: seq<Step>, step: Step)
    requires todo != [] && Reachable(row, todo, step)
    requires Done(mid, todo[0].order) && forall p :: Done(row, p) ==> Done(mid, p)
    ensures Reachable(mid, todo[1..], step)
  {
    forall d | d in step.dependsOn
      ensures Done(mid, d) || Among(todo[1..], d)
    {
      if Among(todo, d) {
        var t :| t in todo && t.order == d;
        assert t == todo[0] || t in todo[1..];
      }
    }
  }

  lemma {:induction false} NextSucceeds(row: PlanRow, todo: seq<Step>, entity: EntityName, world: World) returns (mid: PlanRow)
    requires AllAnswerWell(world) && row.status == InExecution && todo != [] && Ascending(todo)
    requires HasOrder(row, todo[0].order) && (!Done(row, todo[0].order) ==> Reachable(row, todo, todo[0]))
    ensures SamePlan(row, mid) && mid.status == InExecution && Done(mid, todo[0].order)
    ensures forall p :: Done(row, p) ==> Done(mid, p)
    ensures RunSteps(row, todo, entity, world).row == RunSteps(mid, todo[1..], entity, world).row
  {
    var step := todo[0];
    mid := row;
    if !Done(row, step.order) {
      NextIsReady(row, todo);
      DispatchEnd(row, step, entity, world(step.order));
      mid := Dispatch(row, step, entity, world(step.order)).row;
    }
  }

  /** The first step of each order that is not done can be reached. */
  ghost predicate FirstsReachable(row: PlanRow, todo: seq<Step>) {
    forall s {:trigger IsFirst(todo, s)} :: IsFirst(todo, s) && !Done(row, s.order) ==> Reachable(row, todo, s)
  }

  lemma {:induction false} FirstsStayReachable(row: PlanRow, mid: PlanRow, todo: seq<Step>)
    requires todo != [] && FirstsReachable(row, todo)
    requires Done(mid, todo[0].order) && forall p :: Done(row, p) ==> Done(mid, p)
    ensures FirstsReachable(mid, todo[1..])
  {
    forall s | IsFirst(todo[1..], s) && !Done(mid, s.order)
      ensures Reachable(mid, todo[1..], s)
    {
      assert OfOrder(todo, s.order) == OneOf(todo[0], s.order) + OfOrder(todo[1..], s.order);
      assert IsFirst(todo, s) && !Done(row, s.order);
      StaysReachable(row, mid, todo, s);
    }
  }

  /** With first steps that can be reached and obliging handlers the loop gets to its end. */
  lemma {:induction false} RunStepsCompletes(row: PlanRow, todo: seq<Step>, entity: EntityName, world: World)
    requires AllAnswerWell(world) && row.status == InExecution && Ascending(todo)
    requires forall s :: s in todo ==> HasOrder(row, s.order)
    requires FirstsReachable(row, todo)
    ensures RunSteps(row, todo, entity, world).row.status == Completed
    decreases |todo|
  {
    if todo != [] {
      assert todo[0] in todo && forall s :: s in todo[1..] ==> s in todo;
      assert IsFirst(todo, todo[0]) by {
        assert OfOrder(todo, todo[0].order) == OneOf(todo[0], todo[0].order) + OfOrder(todo[1..], todo[0].order);
      }
      var mid := NextSucceeds(row, todo, entity, world);
      SameHasOrder(row, mid, todo[1..]);
      FirstsStayReachable(row, mid, todo);
      RunStepsCompletes(mid, todo[1..], entity, world);
    }
  }

  lemma {:induction false} FirstsHoldCompletes(disk: PlanRow, entity: EntityName, world: World)
    requires Untouched(disk) && disk.status == InExecution && FirstsHold(disk.steps) && AllAnswerWell(world)
    ensures ExecutePlan(disk, entity, world).row.status == Completed
  {
    var todo := SortSteps(disk.steps);
    UntouchedReset(disk);
    SortedHaveOrders(disk);
    SortSorts(disk.steps);
    forall s | IsFirst(todo, s)
      ensures Reachable(disk, todo, s)
    {
      SortIsStable(disk.steps, s.order);
      assert IsFirst(disk.steps, s) && DependsOnEarlier(disk.steps, s);
      forall d | d in s.dependsOn
        ensures d < s.order && Among(todo, d)
      {
        AmongSorted(disk.steps, d);
      }
    }
    RunStepsCompletes(disk, todo, entity, world);
  }

  lemma {:induction false} UntouchedReset(disk: PlanRow)
    requires Untouched(disk)
    ensures Resumed(disk) == disk
  {
    assert Reset(disk.states) == disk.states;
  }

  lemma {:induction false} SortedHaveOrders(disk: PlanRow)
    requires Untouched(disk)
    ensures forall s :: s in SortSteps(disk.steps) ==> HasOrder(disk, s.order)
  {
    SortSorts(disk.steps);
    forall s | s in SortSteps(disk.steps)
      ensures HasOrder(disk, s.order)
    {
      assert Among(disk.steps, s.order);
      UntouchedStatus(disk, s.order);
    }
  }

  /** One undisturbed call is a life. */
  lemma {:induction false} CallIsLife(disk: PlanRow, entity: EntityName, world: World)
    requires Untouched(disk) && disk.status == InExecution
    ensures
      var run := ExecutePlan(disk, entity, world);
      DiskAfterLives(disk, entity, [Life(world, |run.log|)]) == run.row
  {
    var log := ExecutePlan(disk, entity, world).log;
    var life := Life(world, |log|);
    UntouchedReset(disk);
    assert Executable(disk) by { UntouchedIsExecutable(disk); }
    ExecuteEnds(disk, entity, world);
    assert History(LastSaved(disk, log), entity, []) == [];
    assert History(disk, entity, [life]) == log + [] == log;
  }

  ghost predicate CanComplete(disk: PlanRow, entity: EntityName) {
    exists world :: ExecutePlan(disk, entity, world).row.status == Completed
  }

  /**
   A new plan can complete, in one call or over any number of lives, if and only if every
   dependency of the first step of each order is an earlier step of the plan.  Steps that come
   after the first of their order never run, and what they depend on does not matter.
  */
  lemma {:induction false} CanCompleteIffFirstsHold(disk: PlanRow, entity: EntityName)
    requires Untouched(disk) && disk.status == InExecution
    ensures CanComplete(disk, entity) <==> FirstsHold(disk.steps)
    ensures (exists lives :: DiskAfterLives(disk, entity, lives).status == Completed) <==> FirstsHold(disk.steps)
  {
    if world: World :| ExecutePlan(disk, entity, world).row.status == Completed {
      CallIsLife(disk, entity, world);
      CompletesOnlyIfFirstsHold(disk, entity, [Life(world, |ExecutePlan(disk, entity, world).log|)]);
    }
    if lives :| DiskAfterLives(disk, entity, lives).status == Completed {
      CompletesOnlyIfFirstsHold(disk, entity, lives);
    }
    if FirstsHold(disk.steps) {
      var world: World := (o: int) => Outcome(true, Returned(Success), Checked(true));
      FirstsHoldCompletes(disk, entity, world);
      CallIsLife(disk, entity, world);
      assert DiskAfterLives(disk, entity, [Life(world, |ExecutePlan(disk, entity, world).log|)]).status == Completed;
    }
  }

  /** With distinct orders: if and only if every dependency of every step is an earlier step of the plan. */
  lemma {:induction false} CanCompleteIffWellFounded(disk: PlanRow, entity: EntityName)
    requires Untouched(disk) && DistinctOrders(disk.steps) && disk.status == InExecution
    ensures CanComplete(disk, entity) <==> WellFounded(disk.steps)
  {
    CanCompleteIffFirstsHold(disk, entity);
    DistinctFirstsHold(disk.steps);
  }

  // ----- Duplicate orders -----

  /** A state that a later one of the same order hides from `state_by_order`. */
  ghost predicate Hidden(states: seq<StepState>, i: nat) {
    i < |states| && exists j :: i < j < |states| && states[j].order == states[i].order
  }

  lemma {:induction false} MarkKeepsHidden(row: PlanRow, order: int, status: StepStatus, i: nat)
    requires HasOrder(row, order) && Hidden(row.states, i)
    ensures Mark(row, order, status).states[i] == row.states[i] && Hidden(Mark(row, order, status).states, i)
  {
    FindIsLast(row.states, order);
    var j :| i < j < |row.states| && row.states[j].order == row.states[i].order;
    var m := Mark(row, order, status);
    assert m.states[j].order == m.states[i].order;
  }

  lemma {:induction false} DispatchKeepsHidden(row: PlanRow, step: Step, entity: EntityName, outcome: Outcome, i: nat)
    requires HasOrder(row, step.order) && Hidden(row.states, i)
    ensures
      var end := Dispatch(row, step, entity, outcome).row;
      |end.states| == |row.states| && end.states[i] == row.states[i] && Hidden(end.states, i)
  {
    var o := step.order;
    var executing := Mark(row, o, Executing);
    MarkGet(row, o, Executing);
    MarkKeepsHidden(row, o, Executing, i);
    MarkKeepsHidden(executing, o, Failed, i);
    MarkKeepsHidden(executing, o, Verifying, i);
    MarkGet(executing, o, Verifying);
    var verifying := Mark(executing, o, Verifying);
    MarkKeepsHidden(verifying, o, Succeeded, i);
    MarkKeepsHidden(verifying, o, Failed, i);
  }

  lemma {:induction false} RunStepsKeepsHidden(row: PlanRow, todo: seq<Step>, entity: EntityName, world: World, i: nat)
    requires row.status == InExecution && Hidden(row.states, i)
    requires forall s :: s in todo ==> HasOrder(row, s.order)
    ensures var end := RunSteps(row, todo, entity, world).row; i < |end.states| && end.states[i] == row.states[i]
    decreases |todo|
  {
    if todo != [] {
      var step, rest := todo[0], todo[1..];
      assert step in todo && forall s :: s in rest ==> s in todo;
      var verdict := Evaluate(step.dependsOn, step.conditional, row.states);
      EvaluateSays(step.dependsOn, step.conditional, row);
      if Done(row, step.order) {
        RunStepsKeepsHidden(row, rest, entity, world, i);
      } else if verdict == Blocked {
        MarkKeepsHidden(row, step.order, Blocked, i);
      } else if verdict == Skipped {
        MarkKeepsHidden(row, step.order, Skipped, i);
        MarkGet(row, step.order, Skipped);
        SameHasOrder(row, Mark(row, step.order, Skipped), rest);
        RunStepsKeepsHidden(Mark(row, step.order, Skipped), rest, entity, world, i);
      } else {
        DispatchKeepsHidden(row, step, entity, world(step.order), i);
        DispatchEnd(row, step, entity, world(step.order));
        var mid := Dispatch(row, step, entity, world(step.order)).row;
        if mid.status != Aborted {
          SameHasOrder(row, mid, rest);
          RunStepsKeepsHidden(mid, rest, entity, world, i);
        }
      }
    }
  }

  /**
   `order` is only validated to be at least 1.  When a new plan completes, its list of step
   states shows every step as done if and only if the orders are distinct; a repeated order
   leaves a step that was never run and is still pending.
  */
  lemma {:induction false} CompletedListIffDistinct(disk: PlanRow, entity: EntityName, world: World)
    requires Untouched(disk) && disk.status == InExecution
    requires ExecutePlan(disk, entity, world).row.status == Completed
    ensures
      var end := ExecutePlan(disk, entity, world).row;
      (forall i :: 0 <= i < |end.states| ==> IsDone(Some(end.states[i].status))) <==> DistinctOrders(disk.steps)
  {
    var end := ExecutePlan(disk, entity, world).row;
    assert WellFormed(disk) by { UntouchedIsExecutable(disk); }
    UntouchedReset(disk);
    ExecuteOutcome(disk, entity, world);
    if DistinctOrders(disk.steps) {
      forall i | 0 <= i < |end.states|
        ensures IsDone(Some(end.states[i].status))
      {
        var o := end.states[i].order;
        assert disk.states[i].order == o == disk.steps[i].order;
        FindIsLast(end.states, o);
        var k := Find(end.states, o).value;
        assert disk.states[k].order == disk.steps[k].order;
        assert k == i;
        assert Done(end, disk.steps[i].order);
      }
    } else {
      var i, j :| 0 <= i < j < |disk.steps| && disk.steps[i].order == disk.steps[j].order;
      assert disk.states[j].order == disk.states[i].order;
      SortedHaveOrders(disk);
      RunStepsKeepsHidden(disk, SortSteps(disk.steps), entity, world, i);
      assert end.states[i].status == Pending;
    }
  }

  // ----- The circuit breaker hears of every attempt -----

  /** `next` is what follows a call of the step's handler: the breaker's record, or the aborting save if it raised. */
  ghost predicate AnsweredBy(step: Step, entity: EntityName, outcome: Outcome, next: Entry) {
    match outcome.execute
    case ExecuteRaised => next.Saved? && next.row.status == Aborted
    case Returned(status) => next == Attempted(if step.target.Some? then step.target.value else entity, status == Success)
  }

  ghost predicate AnsweredAt(steps: seq<Step>, entity: EntityName, world: World, log: seq<Entry>, i: nat)
    requires i + 1 < |log| && log[i].Executed?
  {
    exists s :: s in steps && s.order == log[i].order && AnsweredBy(s, entity, world(s.order), log[i + 1])
  }

  ghost predicate Recorded(steps: seq<Step>, entity: EntityName, world: World, log: seq<Entry>) {
    && (forall i :: 0 <= i < |log| && log[i].Executed? ==> i + 1 < |log| && AnsweredAt(steps, entity, world, log, i))
    && (forall i :: 0 <= i < |log| && log[i].Attempted? ==> i > 0 && log[i - 1].Executed?)
  }

  lemma {:induction false} RecordedJoins(steps: seq<Step>, entity: EntityName, world: World, a: seq<Entry>, b: seq<Entry>)
    requires Recorded(steps, entity, world, a) && Recorded(steps, entity, world, b)
    ensures Recorded(steps, entity, world, a + b)
  {
    var log := a + b;
    forall i | 0 <= i < |log| && log[i].Executed?
      ensures i + 1 < |log| && AnsweredAt(steps, entity, world, log, i)
    {
      if i < |a| {
        assert AnsweredAt(steps, entity, world, a, i);
        assert log[i + 1] == a[i + 1];
      } else {
        assert AnsweredAt(steps, entity, world, b, i - |a|);
        assert log[i + 1] == b[i + 1 - |a|];
      }
    }
    forall i | 0 <= i < |log| && log[i].Attempted?
      ensures i > 0 && log[i - 1].Executed?
    {
      assert i >= |a| ==> b[i - |a|].Attempted?;
    }
  }

  lemma {:induction false} DispatchRecorded(steps: seq<Step>, row: PlanRow, step: Step, entity: EntityName, world: World)
    requires step in steps
    ensures Recorded(steps, entity, world, Dispatch(row, step, entity, world(step.order)).log)
  {
    var log := Dispatch(row, step, entity, world(step.order)).log;
    if world(step.order).hasHandler {
      assert AnsweredBy(step, entity, world(step.order), log[2]);
    }
  }

  lemma {:induction false} RunStepsRecorded(steps: seq<Step>, row: PlanRow, todo: seq<Step>, entity: EntityName, world: World)
    requires forall s :: s in todo ==> s in steps
    ensures Recorded(steps, entity, world, RunSteps(row, todo, entity, world).log)
    decreases |todo|
  {
    if todo != [] {
      var step, rest := todo[0], todo[1..];
      assert step in todo && forall s :: s in rest ==> s in todo;
      if Done(row, step.order) {
        RunStepsRecorded(steps, row, rest, entity, world);
      } else {
        match Evaluate(step.dependsOn, step.conditional, row.states)
        case Blocked =>
        case Skipped =>
          var skipped := Mark(row, step.order, Skipped);
          RunStepsRecorded(steps, skipped, rest, entity, world);
          RecordedJoins(steps, entity, world, [Saved(skipped)], RunSteps(skipped, rest, entity, world).log);
        case _ =>
          var d := Dispatch(row, step, entity, world(step.order));
          DispatchRecorded(steps, row, step, entity, world);
          RunStepsRecorded(steps, d.row, rest, entity, world);
          RecordedJoins(steps, entity, world, d.log, RunSteps(d.row, rest, entity, world).log);
      }
    }
  }

  /**
   Every handler call that returns is followed at once by one record with the circuit breaker,
   under the action's target or else the event's entity and with its success, every call that
   raises by the aborting save, and nothing else is ever recorded.
  */
  lemma {:induction false} EveryAttemptIsRecorded(row: PlanRow, entity: EntityName, world: World)
    ensures Recorded(row.steps, entity, world, ExecutePlan(row, entity, world).log)
  {
    var started := row.(status := InExecution);
    SortSorts(row.steps);
    RunStepsRecorded(row.steps, started.(states := Reset(row.states)), SortSteps(row.steps), entity, world);
    RecordedJoins(row.steps, entity, world, [Saved(started)],
                  RunSteps(started.(states := Reset(row.states)), SortSteps(row.steps), entity, world).log);
  }

  // ----- Two plans -----

  /**
   A step that is conditional on one that fails is not skipped: the plan fails with it, and the
   conditional step stays pending.
  */
  lemma {:induction false} ConditionalIsNotSkipped(id: PlanId, entity: EntityName, world: World)
    requires world(1) == Outcome(true, Returned(Failure), Checked(true))
    ensures
      var steps := [Step(1, AutoFix, None, [], false), Step(2, AutoFix, None, [1], true)];
      var end := ExecutePlan(Created(id, steps), entity, world).row;
      && Created(id, steps).status == InExecution
      && end.status == Aborted
      && end.states == [StepState(1, Failed), StepState(2, Pending)]
  {
    var one, two := Step(1, AutoFix, None, [], false), Step(2, AutoFix, None, [1], true);
    var row := Created(id, [one, two]);
    assert row.states == [StepState(1, Pending), StepState(2, Pending)];
    assert Reset(row.states) == row.states;
    assert [one, two][1..] == [two] && [two][1..] == [];
    assert SortSteps([two]) == [two];
    assert SortSteps([one, two]) == [one, two];
    FindIn(row.states, 1, 0);
    assert Mark(row, 1, Executing).states == [StepState(1, Executing), StepState(2, Pending)];
    FindIn(Mark(row, 1, Executing).states, 1, 0);
  }

  lemma {:induction false} FindIn(states: seq<StepState>, order: int, k: nat)
    requires k < |states| && states[k].order == order && forall i :: k < i < |states| ==> states[i].order != order
    ensures Find(states, order) == Some(k)
  {
    FindIsLast(states, order);
  }

  /**
   Two steps of one order, the second with a dependency there is not: the plan completes, although
   it is not well-founded.  The first step is run under the second one's state, and the second is not run.
  */
  lemma {:induction false} RepeatedOrderIsNotRun(id: PlanId, entity: EntityName, world: World)
    requires world(1) == Outcome(true, Returned(Success), Checked(true))
    ensures
      var steps := [Step(1, AutoFix, None, [], false), Step(1, AutoFix, None, [9], false)];
      var end := ExecutePlan(Created(id, steps), entity, world).row;
      !WellFounded(steps) && end.status == Completed && end.states == [StepState(1, Pending), StepState(1, Succeeded)]
  {
    var one, other := Step(1, AutoFix, None, [], false), Step(1, AutoFix, None, [9], false);
    var row := Created(id, [one, other]);
    assert other in row.steps && 9 in other.dependsOn && !DependsOnEarlier(row.steps, other);
    assert row.states == [StepState(1, Pending), StepState(1, Pending)];
    assert Reset(row.states) == row.states;
    assert [one, other][1..] == [other] && [other][1..] == [];
    assert SortSteps([other]) == [other];
    assert SortSteps([one, other]) == [one, other];
    FindIn(row.states, 1, 1);
    var executing := Mark(row, 1, Executing);
    assert executing.states == [StepState(1, Pending), StepState(1, Executing)];
    FindIn(executing.states, 1, 1);
    var verifying := Mark(executing, 1, Verifying);
    assert verifying.states == [StepState(1, Pending), StepState(1, Verifying)];
    FindIn(verifying.states, 1, 1);
    var done := Mark(verifying, 1, Succeeded);
    assert done.states == [StepState(1, Pending), StepState(1, Succeeded)];
    FindIn(done.states, 1, 1);
  }
}
