/**
 Runs of one plan across crashes.  A crash cuts the executor's log at any point; what is left
 of it is the last save.  `Legal` says what may follow what in a log, and everything about
 crashes is proved from it.
*/
module PlanRuns {
  import opened Wrappers
  import opened Plans

  // ----- Plans as create_plan and execute_plan leave them -----

  ghost predicate HasOrder(row: PlanRow, order: int) {
    StatusOf(row.states, order).Some?
  }

  /** No step is done while an earlier one is not. */
  ghost predicate Staged(row: PlanRow) {
    forall p, q {:trigger Done(row, p), Done(row, q)} :: HasOrder(row, p) && Done(row, q) && p < q ==> Done(row, p)
  }

  /** While the plan is not aborted no step has failed, and no step was ever skipped. */
  ghost predicate Healthy(row: PlanRow) {
    forall o :: StatusOf(row.states, o) != Some(Skipped)
             && (row.status != Aborted ==> StatusOf(row.states, o) != Some(Failed) && StatusOf(row.states, o) != Some(Blocked))
  }

  /** A done step has only earlier, done dependencies. */
  ghost predicate DepsHeld(row: PlanRow, step: Step) {
    forall d :: d in step.dependsOn ==> d < step.order && Done(row, d)
  }

  ghost predicate Sound(row: PlanRow) {
    WellFormed(row) && Staged(row) && Healthy(row)
  }

  // ----- Legal logs -----

  ghost predicate AllDone(row: PlanRow) {
    forall p {:trigger Done(row, p)} :: HasOrder(row, p) ==> Done(row, p)
  }

  ghost predicate SamePlan(a: PlanRow, b: PlanRow) {
    && a.id == b.id && a.steps == b.steps && a.tier == b.tier
    && |a.states| == |b.states|
    && forall i :: 0 <= i < |a.states| ==> a.states[i].order == b.states[i].order
  }

  /** May `row` be saved over `disk` while the handler of `busy` is the last one called? */
  ghost predicate Evolves(disk: PlanRow, row: PlanRow, busy: Option<int>) {
    && SamePlan(disk, row)
    && disk.status == InExecution
    && (row.status == InExecution || row.status == Completed || row.status == Aborted)
    && Sound(row)
    && (row.status == Completed ==> AllDone(row))
    && (forall o :: Done(disk, o) ==> StatusOf(row.states, o) == StatusOf(disk.states, o))
    && (forall o :: Done(row, o) && !Done(disk, o) ==> busy == Some(o) && StatusOf(row.states, o) == Some(Succeeded))
  }

  /** May the handler of `order` be called when `disk` is what is saved? */
  ghost predicate Launchable(disk: PlanRow, order: int) {
    && disk.status == InExecution
    && StatusOf(disk.states, order) == Some(Executing)
    && exists step :: IsFirst(disk.steps, step) && step.order == order && DepsHeld(disk, step)
  }

  /** May the executor do `e` when `disk` is saved and `busy` is the order whose handler was called and is not yet done? */
  ghost predicate Allowed(disk: PlanRow, busy: Option<int>, e: Entry) {
    match e
    case Saved(row) => Evolves(disk, row, busy)
    case Executed(o) => busy == None && Launchable(disk, o)
    case Attempted(_, _) => busy.Some?
    case Verified(o) => busy == Some(o) && StatusOf(disk.states, o) == Some(Verifying)
  }

  function DiskAfter(disk: PlanRow, e: Entry): PlanRow {
    if e.Saved? then e.row else disk
  }

  function BusyNext(busy: Option<int>, e: Entry): Option<int> {
    match e
    case Saved(row) => if busy.Some? && Done(row, busy.value) then None else busy
    case Executed(o) => Some(o)
    case _ => busy
  }

  ghost predicate Legal(disk: PlanRow, busy: Option<int>, log: seq<Entry>)
    decreases |log|
  {
    log == [] || (Allowed(disk, busy, log[0]) && Legal(DiskAfter(disk, log[0]), BusyNext(busy, log[0]), log[1..]))
  }

  /** What is on disk after the log. */
  function LastSaved(disk: PlanRow, log: seq<Entry>): PlanRow
    decreases |log|
  {
    if log == [] then disk else LastSaved(DiskAfter(disk, log[0]), log[1..])
  }

  function BusyAfter(busy: Option<int>, log: seq<Entry>): Option<int>
    decreases |log|
  {
    if log == [] then busy else BusyAfter(BusyNext(busy, log[0]), log[1..])
  }

  /** How often a handler was called. */
  function Executions(log: seq<Entry>): nat
    decreases |log|
  {
    if log == [] then 0 else (if log[0].Executed? then 1 else 0) + Executions(log[1..])
  }

  lemma {:induction false} LegalCons(disk: PlanRow, busy: Option<int>, e: Entry, rest: seq<Entry>)
    requires Allowed(disk, busy, e) && Legal(DiskAfter(disk, e), BusyNext(busy, e), rest)
    ensures Legal(disk, busy, [e] + rest)
    ensures LastSaved(disk, [e] + rest) == LastSaved(DiskAfter(disk, e), rest)
    ensures BusyAfter(busy, [e] + rest) == BusyAfter(BusyNext(busy, e), rest)
  {
    assert ([e] + rest)[1..] == rest;
  }

  lemma {:induction false} LastSavedAdds(disk: PlanRow, a: seq<Entry>, b: seq<Entry>)
    ensures LastSaved(disk, a + b) == LastSaved(LastSaved(disk, a), b)
    decreases |a|
  {
    if a == [] {
      assert a + b == b;
    } else {
      assert (a + b)[1..] == a[1..] + b;
      LastSavedAdds(DiskAfter(disk, a[0]), a[1..], b);
    }
  }

  lemma {:induction false} BusyAdds(busy: Option<int>, a: seq<Entry>, b: seq<Entry>)
    ensures BusyAfter(busy, a + b) == BusyAfter(BusyAfter(busy, a), b)
    decreases |a|
  {
    if a == [] {
      assert a + b == b;
    } else {
      assert (a + b)[1..] == a[1..] + b;
      BusyAdds(BusyNext(busy, a[0]), a[1..], b);
    }
  }

  lemma {:induction false} LegalJoins(disk: PlanRow, busy: Option<int>, a: seq<Entry>, b: seq<Entry>)
    requires Legal(disk, busy, a) && Legal(LastSaved(disk, a), BusyAfter(busy, a), b)
    ensures Legal(disk, busy, a + b)
    decreases |a|
  {
    if a == [] {
      assert a + b == b;
    } else {
      var next, now, rest := DiskAfter(disk, a[0]), BusyNext(busy, a[0]), a[1..];
      LegalJoins(next, now, rest, b);
      assert (a + b)[0] == a[0] && (a + b)[1..] == rest + b;
    }
  }

  lemma {:induction false} LegalAppend(disk: PlanRow, busy: Option<int>, a: seq<Entry>, b: seq<Entry>)
    requires Legal(disk, busy, a) && Legal(LastSaved(disk, a), BusyAfter(busy, a), b)
    ensures Legal(disk, busy, a + b)
    ensures LastSaved(disk, a + b) == LastSaved(LastSaved(disk, a), b)
    ensures BusyAfter(busy, a + b) == BusyAfter(BusyAfter(busy, a), b)
  {
    LegalJoins(disk, busy, a, b);
    LastSavedAdds(disk, a, b);
    BusyAdds(busy, a, b);
  }

  /** A crash leaves a legal log, and what follows any point of a legal log is legal from there. */
  lemma {:induction false} LegalParts(disk: PlanRow, busy: Option<int>, a: seq<Entry>, b: seq<Entry>)
    requires Legal(disk, busy, a + b)
    ensures Legal(disk, busy, a)
    ensures Legal(LastSaved(disk, a), BusyAfter(busy, a), b)
    decreases |a|
  {
    if a == [] {
      assert a + b == b;
    } else {
      var next, now, rest := DiskAfter(disk, a[0]), BusyNext(busy, a[0]), a[1..];
      assert (a + b)[0] == a[0] && (a + b)[1..] == rest + b;
      LegalParts(next, now, rest, b);
    }
  }

  lemma {:induction false} LegalCut(disk: PlanRow, busy: Option<int>, log: seq<Entry>, k: nat)
    requires Legal(disk, busy, log) && k <= |log|
    ensures Legal(disk, busy, log[..k])
    ensures Legal(LastSaved(disk, log[..k]), BusyAfter(busy, log[..k]), log[k..])
    ensures LastSaved(disk, log) == LastSaved(LastSaved(disk, log[..k]), log[k..])
  {
    assert log == log[..k] + log[k..];
    LegalParts(disk, busy, log[..k], log[k..]);
    LastSavedAdds(disk, log[..k], log[k..]);
  }

  // ----- execute_plan writes legal logs -----

  /** What memory and disk have in common when no handler is running. */
  ghost predicate Near(disk: PlanRow, row: PlanRow) {
    && SamePlan(disk, row)
    && disk.status == InExecution && row.status == InExecution
    && Sound(row)
    && (forall o :: Done(row, o) <==> Done(disk, o))
    && (forall o :: Done(disk, o) ==> StatusOf(row.states, o) == StatusOf(disk.states, o))
  }

  lemma {:induction false} MarkGet(row: PlanRow, order: int, status: StepStatus)
    requires HasOrder(row, order)
    ensures SamePlan(row, Mark(row, order, status))
    ensures forall p :: StatusOf(Mark(row, order, status).states, p)
                     == if p == order then Some(status) else StatusOf(row.states, p)
  {
    FindIsLast(row.states, order);
    forall p
      ensures StatusOf(Mark(row, order, status).states, p) == if p == order then Some(status) else StatusOf(row.states, p)
    {
      SetThenGet(row.states, order, status, p);
    }
  }

  lemma {:induction false} EvaluateSays(dependsOn: seq<int>, conditional: bool, row: PlanRow)
    ensures Evaluate(dependsOn, conditional, row.states) == Ready <==> forall d :: d in dependsOn ==> Done(row, d)
    ensures Evaluate(dependsOn, conditional, row.states) in {Ready, Skipped, Blocked}
  {
    if dependsOn != [] {
      var d := dependsOn[0];
      EvaluateSays(dependsOn[1..], conditional, row);
      assert dependsOn == [d] + dependsOn[1..];
      assert (forall x :: x in dependsOn ==> Done(row, x)) <==> Done(row, d) && forall x :: x in dependsOn[1..] ==> Done(row, x);
    }
  }

  /** The dependency at `i` is the first that is not done. */
  ghost predicate FirstUnmet(dependsOn: seq<int>, row: PlanRow, i: nat) {
    i < |dependsOn| && !Done(row, dependsOn[i]) && forall j :: 0 <= j < i ==> Done(row, dependsOn[j])
  }

  ghost predicate FailedAt(dependsOn: seq<int>, row: PlanRow, i: nat) {
    FirstUnmet(dependsOn, row, i) &&
    (StatusOf(row.states, dependsOn[i]) == Some(Failed) || StatusOf(row.states, dependsOn[i]) == Some(Blocked))
  }

  /** A step is skipped exactly if it is conditional and the first dependency that is not done failed or was blocked. */
  lemma {:induction false} SkippedIff(dependsOn: seq<int>, conditional: bool, row: PlanRow)
    ensures Evaluate(dependsOn, conditional, row.states) == Skipped <==> conditional && exists i: nat :: FailedAt(dependsOn, row, i)
  {
    if dependsOn != [] {
      var rest := dependsOn[1..];
      if Done(row, dependsOn[0]) {
        SkippedIff(rest, conditional, row);
        if i: nat :| FailedAt(rest, row, i) {
          assert FailedAt(dependsOn, row, i + 1);
        }
        if i: nat :| FailedAt(dependsOn, row, i) {
          assert i > 0 && FailedAt(rest, row, i - 1);
        }
      } else {
        assert FirstUnmet(dependsOn, row, 0) && forall i: nat :: FirstUnmet(dependsOn, row, i) ==> i == 0;
        assert FailedAt(dependsOn, row, 0) <==>
          StatusOf(row.states, dependsOn[0]) == Some(Failed) || StatusOf(row.states, dependsOn[0]) == Some(Blocked);
      }
    }
  }

  ghost predicate EarlierDone(row: PlanRow, order: int) {
    forall p {:trigger Done(row, p)} :: HasOrder(row, p) && p < order ==> Done(row, p)
  }

  lemma {:induction false} MarkKeepsWellFormed(row: PlanRow, order: int, status: StepStatus)
    requires HasOrder(row, order) && WellFormed(row)
    ensures WellFormed(Mark(row, order, status))
  {
    MarkGet(row, order, status);
    forall s | s in row.steps
      ensures StatusOf(Mark(row, order, status).states, s.order).Some?
    {
      assert StatusOf(row.states, s.order).Some?;
    }
  }

  /** The next step may be saved as running. */
  lemma {:induction false} RunningMaySave(disk: PlanRow, row: PlanRow, order: int, status: StepStatus, busy: Option<int>)
    requires Near(disk, row) && HasOrder(row, order) && !Done(row, order)
    requires status == Executing || status == Verifying
    ensures
      var r := Mark(row, order, status);
      Evolves(disk, r, busy) && Near(r, r) && StatusOf(r.states, order) == Some(status)
      && (EarlierDone(row, order) ==> EarlierDone(r, order))
  {
    MarkGet(row, order, status);
    MarkKeepsWellFormed(row, order, status);
    assert forall p :: Done(Mark(row, order, status), p) <==> Done(row, p);
  }

  /** ... as succeeded, if its handler was the last one called and everything before it is done ... */
  lemma {:induction false} SuccessMaySave(disk: PlanRow, row: PlanRow, order: int)
    requires Near(disk, row) && HasOrder(row, order) && !Done(row, order) && EarlierDone(row, order)
    ensures
      var r := Mark(row, order, Succeeded);
      Evolves(disk, r, Some(order)) && Near(r, r) && StatusOf(r.states, order) == Some(Succeeded)
      && (forall p :: Done(row, p) ==> Done(r, p))
  {
    MarkGet(row, order, Succeeded);
    MarkKeepsWellFormed(row, order, Succeeded);
    assert forall p :: Done(Mark(row, order, Succeeded), p) <==> Done(row, p) || p == order;
  }

  /** ... or as failed or blocked, together with the plan. */
  lemma {:induction false} AbortMaySave(disk: PlanRow, row: PlanRow, order: int, status: StepStatus, busy: Option<int>)
    requires Near(disk, row) && HasOrder(row, order) && !Done(row, order)
    requires status == Failed || status == Blocked
    ensures
      var r := Abort(row, order, status);
      Evolves(disk, r, busy) && !Done(r, order)
  {
    MarkGet(row, order, status);
    MarkKeepsWellFormed(row, order, status);
    var m := Mark(row, order, status);
    var r := Abort(row, order, status);
    assert r.states == m.states;
    assert forall p :: Done(r, p) <==> Done(row, p);
    assert WellFormed(r);
  }

  lemma {:induction false} LaunchableNow(disk: PlanRow, row: PlanRow, step: Step)
    requires Near(row, row) && IsFirst(row.steps, step) && step in row.steps && !Done(row, step.order) && EarlierDone(row, step.order)
    requires forall d :: d in step.dependsOn ==> Done(row, d)
    requires disk == Mark(row, step.order, Executing)
    ensures Launchable(disk, step.order)
  {
    MarkGet(row, step.order, Executing);
    forall d | d in step.dependsOn
      ensures d < step.order && Done(disk, d)
    {
      assert HasOrder(row, step.order);
    }
    assert DepsHeld(disk, step);
  }

  /**
   How a step that was not done when `row` was saved may end: with the plan aborted, or with
   the step done, nothing else changed, and no handler call outstanding.
  */
  ghost predicate Settled(row: PlanRow, order: int, end: PlanRow, busy: Option<int>) {
    || end.status == Aborted
    || (&& busy == None
        && Near(end, end)
        && SamePlan(row, end)
        && Done(end, order)
        && (forall p :: HasOrder(row, p) ==> HasOrder(end, p))
        && (forall p :: Done(row, p) ==> Done(end, p)))
  }

  ghost predicate Settles(row: PlanRow, order: int, busy: Option<int>, r: Run) {
    && Legal(row, busy, r.log)
    && LastSaved(row, r.log) == r.row
    && Settled(row, order, r.row, BusyAfter(busy, r.log))
  }

  /** The step at `order` is the next one of a running plan saved as `row`. */
  ghost predicate Current(row: PlanRow, order: int) {
    Near(row, row) && HasOrder(row, order) && !Done(row, order) && EarlierDone(row, order)
  }

  lemma {:induction false} StopSettles(row: PlanRow, order: int, busy: Option<int>)
    requires Current(row, order)
    ensures Settles(row, order, busy, Stop(Abort(row, order, Failed)))
    ensures busy == Some(order) ==> Settles(row, order, busy, Stop(Mark(row, order, Succeeded)))
  {
    AbortMaySave(row, row, order, Failed, busy);
    LegalCons(row, busy, Saved(Abort(row, order, Failed)), []);
    if busy == Some(order) {
      SuccessMaySave(row, row, order);
      MarkGet(row, order, Succeeded);
      LegalCons(row, busy, Saved(Mark(row, order, Succeeded)), []);
    }
  }

  lemma {:induction false} ThenSettles(row: PlanRow, order: int, busy: Option<int>, e: Entry, rest: Run)
    requires Allowed(row, busy, e) && !e.Saved? && Settles(row, order, BusyNext(busy, e), rest)
    ensures Settles(row, order, busy, Then(e, rest))
  {
    LegalCons(row, busy, e, rest.log);
  }

  lemma {:induction false} AfterReturnSettles(row: PlanRow, order: int, success: bool, answer: VerifyAnswer)
    requires Current(row, order)
    ensures Settles(row, order, Some(order), AfterReturn(row, order, success, answer))
  {
    if success {
      var verifying := Mark(row, order, Verifying);
      RunningMaySave(row, row, order, Verifying, Some(order));
      MarkGet(row, order, Verifying);
      StopSettles(verifying, order, Some(order));
      var stop := Stop(if answer == Checked(true) then Mark(verifying, order, Succeeded) else Abort(verifying, order, Failed));
      ThenSettles(verifying, order, Some(order), Verified(order), stop);
      LegalCons(row, Some(order), Saved(verifying), Then(Verified(order), stop).log);
      assert forall p :: Done(row, p) ==> Done(verifying, p);
      assert forall p :: HasOrder(row, p) ==> HasOrder(verifying, p);
    } else {
      StopSettles(row, order, Some(order));
    }
  }

  lemma {:induction false} CallHandlerSettles(row: PlanRow, step: Step, entity: EntityName, outcome: Outcome)
    requires Current(row, step.order) && Launchable(row, step.order)
    ensures Settles(row, step.order, None, CallHandler(row, step, entity, outcome))
  {
    var o := step.order;
    StopSettles(row, o, None);
    StopSettles(row, o, Some(o));
    if outcome.hasHandler {
      if outcome.execute.ExecuteRaised? {
        ThenSettles(row, o, None, Executed(o), Stop(Abort(row, o, Failed)));
      } else {
        var success := outcome.execute.status == Success;
        var attempt := Attempted(if step.target.Some? then step.target.value else entity, success);
        var rest := AfterReturn(row, o, success, outcome.verify);
        AfterReturnSettles(row, o, success, outcome.verify);
        ThenSettles(row, o, Some(o), attempt, rest);
        ThenSettles(row, o, None, Executed(o), Then(attempt, rest));
      }
    }
  }

  /** One dispatched step writes a legal log over whatever was on disk, and settles. */
  lemma {:induction false} DispatchSettles(disk: PlanRow, row: PlanRow, step: Step, entity: EntityName, outcome: Outcome)
    requires Near(disk, row) && IsFirst(row.steps, step) && step in row.steps && !Done(row, step.order) && EarlierDone(row, step.order)
    requires forall d :: d in step.dependsOn ==> Done(row, d)
    ensures
      var d := Dispatch(row, step, entity, outcome);
      Legal(disk, None, d.log) && LastSaved(disk, d.log) == d.row && Settled(row, step.order, d.row, BusyAfter(None, d.log))
  {
    var o := step.order;
    assert HasOrder(row, o);
    RunningMaySave(disk, row, o, Executing, None);
    var executing := Mark(row, o, Executing);
    MarkGet(row, o, Executing);
    NearSelf(disk, row);
    LaunchableNow(executing, row, step);
    var call := CallHandler(executing, step, entity, outcome);
    CallHandlerSettles(executing, step, entity, outcome);
    LegalCons(disk, None, Saved(executing), call.log);
    assert forall p :: Done(row, p) ==> Done(executing, p);
    assert forall p :: HasOrder(row, p) ==> HasOrder(executing, p);
  }

  lemma {:induction false} NearSelf(disk: PlanRow, row: PlanRow)
    requires Near(disk, row)
    ensures Near(row, row)
  {
  }

  /** Whether `log`, written from `disk` on, is legal and ends the plan: completed with everything done, or aborted. */
  ghost predicate Ends(disk: PlanRow, r: Run) {
    && Legal(disk, None, r.log)
    && LastSaved(disk, r.log) == r.row
    && (r.row.status == Completed || r.row.status == Aborted)
    && (r.row.status == Completed ==> BusyAfter(None, r.log) == None)
  }

  ghost predicate Among(todo: seq<Step>, order: int) {
    exists s :: s in todo && s.order == order
  }

  /** Whatever is not done is still to be looked at. */
  ghost predicate Covers(row: PlanRow, todo: seq<Step>) {
    forall p {:trigger Among(todo, p)} :: HasOrder(row, p) && !Done(row, p) ==> Among(todo, p)
  }

  /** Of the orders that are not done, no step has been looked at yet. */
  ghost predicate Untried(row: PlanRow, todo: seq<Step>) {
    forall o {:trigger OfOrder(todo, o)} :: !Done(row, o) ==> OfOrder(todo, o) == OfOrder(row.steps, o)
  }

  lemma {:induction false} UntriedRest(row: PlanRow, end: PlanRow, todo: seq<Step>)
    requires todo != [] && Untried(row, todo) && Done(end, todo[0].order) && end.steps == row.steps
    requires forall p :: Done(row, p) ==> Done(end, p)
    ensures Untried(end, todo[1..])
  {
    forall o | !Done(end, o)
      ensures OfOrder(todo[1..], o) == OfOrder(row.steps, o)
    {
      assert OfOrder(todo, o) == OneOf(todo[0], o) + OfOrder(todo[1..], o);
      assert !Done(row, o);
    }
  }

  lemma {:induction false} NextIsFirst(row: PlanRow, todo: seq<Step>)
    requires todo != [] && Untried(row, todo) && !Done(row, todo[0].order)
    ensures IsFirst(row.steps, todo[0])
  {
    assert OfOrder(todo, todo[0].order) == OneOf(todo[0], todo[0].order) + OfOrder(todo[1..], todo[0].order);
  }

  lemma {:induction false} CoversRest(row: PlanRow, end: PlanRow, todo: seq<Step>)
    requires todo != [] && Covers(row, todo) && Done(end, todo[0].order) && SamePlan(row, end)
    requires forall p :: Done(row, p) ==> Done(end, p)
    ensures Covers(end, todo[1..])
  {
    forall p | HasOrder(end, p) && !Done(end, p)
      ensures Among(todo[1..], p)
    {
      FindIgnoresStatus(row.states, end.states, p);
      assert !Done(row, p);
      assert Among(todo, p);
      var s :| s in todo && s.order == p;
      assert todo == [todo[0]] + todo[1..];
    }
  }

  lemma {:induction false} CompletedMaySave(disk: PlanRow, row: PlanRow)
    requires Near(disk, row) && Covers(row, [])
    ensures Evolves(disk, row.(status := Completed), None)
  {
    forall p | HasOrder(row, p)
      ensures Done(row, p)
    {
      assert !Among([], p);
    }
    var completed := row.(status := Completed);
    assert forall o :: StatusOf(completed.states, o) == StatusOf(row.states, o);
    assert forall o :: Done(completed, o) <==> Done(row, o);
    assert WellFormed(completed);
  }

  lemma {:induction false} NextIsCurrent(row: PlanRow, todo: seq<Step>)
    requires todo != [] && Ascending(todo) && Covers(row, todo)
    ensures EarlierDone(row, todo[0].order)
  {
    assert forall s :: s in todo ==> todo[0].order <= s.order;
    forall p | HasOrder(row, p) && p < todo[0].order
      ensures Done(row, p)
    {
      assert !Among(todo, p);
    }
  }

  /** A healthy plan skips nothing. */
  lemma {:induction false} NeverSkips(row: PlanRow, step: Step)
    requires Healthy(row) && row.status == InExecution
    ensures Evaluate(step.dependsOn, step.conditional, row.states) != Skipped
  {
    SkippedIff(step.dependsOn, step.conditional, row);
  }

  lemma {:induction false} RunStepsEnds(disk: PlanRow, row: PlanRow, todo: seq<Step>, entity: EntityName, world: World)
    requires Near(disk, row) && Ascending(todo) && Covers(row, todo) && Untried(row, todo)
    requires forall s :: s in todo ==> s in row.steps
    ensures Ends(disk, RunSteps(row, todo, entity, world))
    decreases |todo|
  {
    var r := RunSteps(row, todo, entity, world);
    if todo == [] {
      CompletedMaySave(disk, row);
      LegalCons(disk, None, Saved(r.row), []);
      return;
    }
    var step := todo[0];
    assert step in todo && forall s :: s in todo[1..] ==> s in todo;
    NearSelf(disk, row);
    if Done(row, step.order) {
      CoversRest(row, row, todo);
      UntriedRest(row, row, todo);
      RunStepsEnds(disk, row, todo[1..], entity, world);
      return;
    }
    NextIsCurrent(row, todo);
    NeverSkips(row, step);
    assert HasOrder(row, step.order);
    if Evaluate(step.dependsOn, step.conditional, row.states) == Blocked {
      AbortMaySave(disk, row, step.order, Blocked, None);
      LegalCons(disk, None, Saved(r.row), []);
    } else {
      DispatchEnds(disk, row, todo, entity, world);
    }
  }

  lemma {:induction false} DispatchEnds(disk: PlanRow, row: PlanRow, todo: seq<Step>, entity: EntityName, world: World)
    requires Near(disk, row) && Ascending(todo) && Covers(row, todo) && Untried(row, todo) && todo != []
    requires forall s :: s in todo ==> s in row.steps
    requires !Done(row, todo[0].order) && EarlierDone(row, todo[0].order)
    requires Evaluate(todo[0].dependsOn, todo[0].conditional, row.states) != Blocked
    requires Evaluate(todo[0].dependsOn, todo[0].conditional, row.states) != Skipped
    ensures Ends(disk, RunSteps(row, todo, entity, world))
    decreases |todo|, 0
  {
    var step := todo[0];
    assert step in todo && forall s :: s in todo[1..] ==> s in todo;
    EvaluateSays(step.dependsOn, step.conditional, row);
    NextIsFirst(row, todo);
    DispatchSettles(disk, row, step, entity, world(step.order));
    var d := Dispatch(row, step, entity, world(step.order));
    if d.row.status != Aborted {
      CoversRest(row, d.row, todo);
      UntriedRest(row, d.row, todo);
      RunStepsEnds(d.row, d.row, todo[1..], entity, world);
      LegalAppend(disk, None, d.log, RunSteps(d.row, todo[1..], entity, world).log);
    }
  }

  // ----- Crashes and resumption -----

  lemma {:induction false} ResetGet(states: seq<StepState>, order: int)
    ensures StatusOf(Reset(states), order)
         == if StatusOf(states, order) == Some(Executing) then Some(Ready) else StatusOf(states, order)
  {
    FindIgnoresStatus(states, Reset(states), order);
  }

  function Resumed(disk: PlanRow): PlanRow {
    disk.(states := Reset(disk.states))
  }

  lemma {:induction false} ResumedNear(disk: PlanRow)
    requires Sound(disk) && disk.status == InExecution
    ensures Near(disk, Resumed(disk)) && Evolves(disk, Resumed(disk), None)
  {
    var row := Resumed(disk);
    forall o
      ensures Done(row, o) <==> Done(disk, o)
      ensures HasOrder(row, o) <==> HasOrder(disk, o)
      ensures StatusOf(row.states, o) == if StatusOf(disk.states, o) == Some(Executing) then Some(Ready) else StatusOf(disk.states, o)
    {
      ResetGet(disk.states, o);
    }
    assert WellFormed(row) by {
      forall s | s in row.steps
        ensures StatusOf(row.states, s.order).Some?
      {
        assert HasOrder(disk, s.order);
      }
    }
  }

  /** Every order of a plan belongs to one of its steps, as create_plan arranges. */
  ghost predicate StatesMatchSteps(row: PlanRow) {
    forall o {:trigger HasOrder(row, o)} :: HasOrder(row, o) ==> Among(row.steps, o)
  }

  lemma {:induction false} ExecuteEnds(disk: PlanRow, entity: EntityName, world: World)
    requires Sound(disk) && StatesMatchSteps(disk) && disk.status == InExecution
    ensures Ends(disk, ExecutePlan(Resumed(disk), entity, world))
  {
    var started := Resumed(disk);
    var row := Resumed(started);
    ResumedNear(disk);
    ResumedNear(started);
    SortSorts(disk.steps);
    var todo := SortSteps(disk.steps);
    forall p | HasOrder(row, p) && !Done(row, p)
      ensures Among(todo, p)
    {
      FindIgnoresStatus(disk.states, row.states, p);
      assert HasOrder(disk, p);
      assert Among(disk.steps, p);
      var s :| s in disk.steps && s.order == p;
      assert s in todo;
    }
    forall o
      ensures OfOrder(todo, o) == OfOrder(row.steps, o)
    {
      SortIsStable(disk.steps, o);
    }
    var rest := RunSteps(row, todo, entity, world);
    RunStepsEnds(started, row, todo, entity, world);
    LegalCons(disk, None, Saved(started), rest.log);
  }

  /** One process life: `execute_plan` on the resumed plan, cut off after `cut` log entries. */
  datatype Life = Life(world: World, cut: nat)

  function LifeLog(disk: PlanRow, entity: EntityName, life: Life): seq<Entry> {
    if disk.status != InExecution then []
    else
      var log := ExecutePlan(Resumed(disk), entity, life.world).log;
      if life.cut < |log| then log[..life.cut] else log
  }

  /** Everything done over a sequence of lives, each after the first starting from what the one before left on disk. */
  function History(disk: PlanRow, entity: EntityName, lives: seq<Life>): seq<Entry>
    decreases |lives|
  {
    if lives == [] then []
    else
      var log := LifeLog(disk, entity, lives[0]);
      log + History(LastSaved(disk, log), entity, lives[1..])
  }

  ghost predicate Executable(disk: PlanRow) {
    Sound(disk) && StatesMatchSteps(disk)
  }

  lemma {:induction false} LegalKeepsExecutable(disk: PlanRow, busy: Option<int>, log: seq<Entry>)
    requires Legal(disk, busy, log) && Executable(disk)
    ensures Executable(LastSaved(disk, log)) && SamePlan(disk, LastSaved(disk, log))
    decreases |log|
  {
    if log != [] {
      var next := DiskAfter(disk, log[0]);
      forall o | HasOrder(next, o)
        ensures Among(next.steps, o)
      {
        FindIgnoresStatus(disk.states, next.states, o);
        assert HasOrder(disk, o);
      }
      LegalKeepsExecutable(next, BusyNext(busy, log[0]), log[1..]);
    }
  }

  lemma {:induction false} LifeLegal(disk: PlanRow, entity: EntityName, life: Life)
    requires Executable(disk)
    ensures Legal(disk, None, LifeLog(disk, entity, life)) && Executable(LastSaved(disk, LifeLog(disk, entity, life)))
    ensures SamePlan(disk, LastSaved(disk, LifeLog(disk, entity, life)))
  {
    if disk.status == InExecution {
      ExecuteEnds(disk, entity, life.world);
      var log := ExecutePlan(Resumed(disk), entity, life.world).log;
      if life.cut < |log| {
        LegalCut(disk, None, log, life.cut);
      }
    }
    LegalKeepsExecutable(disk, None, LifeLog(disk, entity, life));
  }

  // ----- A step saved as done is never executed again -----

  lemma {:induction false} DoneStays(disk: PlanRow, busy: Option<int>, log: seq<Entry>, order: int)
    requires Legal(disk, busy, log) && Done(disk, order)
    ensures Done(LastSaved(disk, log), order) && Executed(order) !in log
    decreases |log|
  {
    if log != [] {
      DoneStays(DiskAfter(disk, log[0]), BusyNext(busy, log[0]), log[1..], order);
      assert log == [log[0]] + log[1..];
    }
  }

  lemma {:induction false} DoneStaysInHistory(disk: PlanRow, entity: EntityName, lives: seq<Life>, order: int)
    requires Executable(disk) && Done(disk, order)
    ensures Executed(order) !in History(disk, entity, lives)
    decreases |lives|
  {
    if lives != [] {
      var log := LifeLog(disk, entity, lives[0]);
      LifeLegal(disk, entity, lives[0]);
      DoneStays(disk, None, log, order);
      DoneStaysInHistory(LastSaved(disk, log), entity, lives[1..], order);
    }
  }

  lemma {:induction false} LegalAt(disk: PlanRow, busy: Option<int>, log: seq<Entry>, i: nat)
    requires Legal(disk, busy, log) && i < |log|
    ensures Allowed(LastSaved(disk, log[..i]), BusyAfter(busy, log[..i]), log[i])
    ensures LastSaved(disk, log[..i + 1]) == DiskAfter(LastSaved(disk, log[..i]), log[i])
  {
    LegalCut(disk, busy, log, i);
    assert log[i..][0] == log[i];
    assert log[..i + 1] == log[..i] + [log[i]];
    LastSavedAdds(disk, log[..i], [log[i]]);
  }

  lemma {:induction false} LastSavedAfter(disk: PlanRow, log: seq<Entry>, rest: seq<Entry>, j: nat)
    requires |log| <= j <= |log| + |rest|
    ensures LastSaved(disk, (log + rest)[..j]) == LastSaved(LastSaved(disk, log), rest[..j - |log|])
  {
    assert (log + rest)[..j] == log + rest[..j - |log|];
    LastSavedAdds(disk, log, rest[..j - |log|]);
  }

  /** Within one life: what a save shows as done stays done and is not executed afterwards. */
  lemma {:induction false} DoneFromSave(disk: PlanRow, log: seq<Entry>, i: nat, order: int)
    requires Legal(disk, None, log) && i < |log| && log[i].Saved? && Done(log[i].row, order)
    ensures Done(LastSaved(disk, log), order)
    ensures forall j :: i < j < |log| ==> log[j] != Executed(order)
  {
    LegalAt(disk, None, log, i);
    LegalCut(disk, None, log, i + 1);
    var saved := LastSaved(disk, log[..i + 1]);
    DoneStays(saved, BusyAfter(None, log[..i + 1]), log[i + 1..], order);
    forall j | i < j < |log|
      ensures log[j] != Executed(order)
    {
      assert log[j] == log[i + 1..][j - i - 1];
    }
  }

  /** No entry executes a step that an earlier save shows as done. */
  ghost predicate NoRepeats(log: seq<Entry>) {
    forall i, j :: 0 <= i < j < |log| && log[i].Saved? && log[j].Executed? ==> !Done(log[i].row, log[j].order)
  }

  /** A life followed by whatever respects what it left on disk. */
  lemma {:induction false} NoRepeatsJoins(disk: PlanRow, log: seq<Entry>, rest: seq<Entry>)
    requires Legal(disk, None, log) && NoRepeats(rest)
    requires forall o :: Done(LastSaved(disk, log), o) ==> Executed(o) !in rest
    ensures NoRepeats(log + rest)
  {
    var h := log + rest;
    forall i, j | 0 <= i < j < |h| && h[i].Saved? && h[j].Executed?
      ensures !Done(h[i].row, h[j].order)
    {
      if i < |log| && Done(h[i].row, h[j].order) {
        DoneFromSave(disk, log, i, h[j].order);
      }
    }
  }

  lemma {:induction false} HistoryNoRepeats(disk: PlanRow, entity: EntityName, lives: seq<Life>)
    requires Executable(disk)
    ensures NoRepeats(History(disk, entity, lives))
    decreases |lives|
  {
    if lives != [] {
      var log := LifeLog(disk, entity, lives[0]);
      var next := LastSaved(disk, log);
      LifeLegal(disk, entity, lives[0]);
      HistoryNoRepeats(next, entity, lives[1..]);
      forall o | Done(next, o)
        ensures Executed(o) !in History(next, entity, lives[1..])
      {
        DoneStaysInHistory(next, entity, lives[1..], o);
      }
      NoRepeatsJoins(disk, log, History(next, entity, lives[1..]));
    }
  }

  /** Once some save, at any point of any history, shows a step as done, no later entry executes it. */
  lemma {:induction false} NeverExecutedAgain(disk: PlanRow, entity: EntityName, lives: seq<Life>, i: nat, j: nat, order: int)
    requires Executable(disk)
    requires i < j < |History(disk, entity, lives)|
    requires History(disk, entity, lives)[i].Saved? && Done(History(disk, entity, lives)[i].row, order)
    ensures History(disk, entity, lives)[j] != Executed(order)
  {
    HistoryNoRepeats(disk, entity, lives);
  }

  lemma {:induction false} AllowedInLife(disk: PlanRow, log: seq<Entry>, rest: seq<Entry>, j: nat) returns (busy: Option<int>)
    requires Legal(disk, None, log) && j < |log|
    ensures Allowed(LastSaved(disk, (log + rest)[..j]), busy, (log + rest)[j])
  {
    assert (log + rest)[..j] == log[..j];
    LegalAt(disk, None, log, j);
    busy := BusyAfter(None, log[..j]);
  }

  /** Every entry of every history is one allowed over what is on disk at that moment. */
  lemma {:induction false} AllowedInHistory(disk: PlanRow, entity: EntityName, lives: seq<Life>, j: nat) returns (busy: Option<int>)
    requires Executable(disk) && j < |History(disk, entity, lives)|
    ensures var h := History(disk, entity, lives); Allowed(LastSaved(disk, h[..j]), busy, h[j])
    decreases |lives|
  {
    var log := LifeLog(disk, entity, lives[0]);
    var next := LastSaved(disk, log);
    var rest := History(next, entity, lives[1..]);
    if j < |log| {
      LifeLegal(disk, entity, lives[0]);
      busy := AllowedInLife(disk, log, rest, j);
    } else {
      assert Executable(next) by { LifeLegal(disk, entity, lives[0]); }
      busy := AllowedInHistory(next, entity, lives[1..], j - |log|);
      LastSavedAfter(disk, log, rest, j);
    }
  }

  /**
   Whenever a handler is called, in any history, the plan is on disk as in execution with the
   step executing, and that step's dependencies are all of smaller order and done.
  */
  lemma {:induction false} ExecutedOnlyWhenLaunchable(disk: PlanRow, entity: EntityName, lives: seq<Life>, j: nat, order: int)
    requires Executable(disk)
    requires j < |History(disk, entity, lives)| && History(disk, entity, lives)[j] == Executed(order)
    ensures Launchable(LastSaved(disk, History(disk, entity, lives)[..j]), order)
  {
    var busy := AllowedInHistory(disk, entity, lives, j);
  }

  /** No save of any history shows a skipped step: `conditional` never takes effect. */
  lemma {:induction false} NothingIsEverSkipped(disk: PlanRow, entity: EntityName, lives: seq<Life>, j: nat, order: int)
    requires Executable(disk)
    requires j < |History(disk, entity, lives)| && History(disk, entity, lives)[j].Saved?
    ensures StatusOf(History(disk, entity, lives)[j].row.states, order) != Some(Skipped)
  {
    var busy := AllowedInHistory(disk, entity, lives, j);
    assert Healthy(History(disk, entity, lives)[j].row);
  }

  // ----- How often handlers are called -----

  function Orders(states: seq<StepState>): set<int> {
    set s | s in states :: s.order
  }

  /** The orders that are done. */
  ghost function DoneSet(row: PlanRow): set<int> {
    set o | o in Orders(row.states) && Done(row, o)
  }

  ghost function Count(busy: Option<int>): nat {
    if busy.Some? then 1 else 0
  }

  lemma {:induction false} FewOrders(states: seq<StepState>)
    ensures |Orders(states)| <= |states|
  {
    if states != [] {
      var n := |states| - 1;
      FewOrders(states[..n]);
      assert states == states[..n] + [states[n]];
      assert Orders(states) == Orders(states[..n]) + {states[n].order};
    }
  }

  lemma {:induction false} DoneHasOrder(row: PlanRow, order: int)
    requires HasOrder(row, order)
    ensures order in Orders(row.states)
  {
    FindIsLast(row.states, order);
  }

  /** Saves only ever add done orders, and add one when they end a handler call. */
  lemma {:induction false} DoneSetGrows(disk: PlanRow, row: PlanRow, busy: Option<int>)
    requires Evolves(disk, row, busy) && (busy.Some? ==> !Done(disk, busy.value))
    ensures |DoneSet(disk)| + Count(busy) <= |DoneSet(row)| + Count(BusyNext(busy, Saved(row)))
  {
    forall o | o in DoneSet(disk)
      ensures o in DoneSet(row)
    {
      DoneHasOrder(row, o);
    }
    assert DoneSet(disk) <= DoneSet(row);
    if busy.Some? && Done(row, busy.value) {
      DoneHasOrder(row, busy.value);
      assert DoneSet(disk) + {busy.value} <= DoneSet(row);
      SubsetSize(DoneSet(disk) + {busy.value}, DoneSet(row));
    } else {
      SubsetSize(DoneSet(disk), DoneSet(row));
    }
  }

  lemma {:induction false} SubsetSize(a: set<int>, b: set<int>)
    requires a <= b
    ensures |a| <= |b|
  {
    assert b == a + (b - a);
  }

  ghost predicate Outstanding(disk: PlanRow, busy: Option<int>) {
    busy.Some? ==> HasOrder(disk, busy.value) && !Done(disk, busy.value)
  }

  /** In a legal log each handler call but the last pays for a newly done order. */
  lemma {:induction false} ExecutionsPaid(disk: PlanRow, busy: Option<int>, log: seq<Entry>)
    requires Legal(disk, busy, log) && Outstanding(disk, busy)
    ensures Outstanding(LastSaved(disk, log), BusyAfter(busy, log))
    ensures Executions(log) + |DoneSet(disk)| + Count(busy) <= |DoneSet(LastSaved(disk, log))| + Count(BusyAfter(busy, log))
    decreases |log|
  {
    if log != [] {
      var next := DiskAfter(disk, log[0]);
      if log[0].Saved? {
        DoneSetGrows(disk, log[0].row, busy);
        if busy.Some? {
          FindIgnoresStatus(disk.states, next.states, busy.value);
        }
      }
      ExecutionsPaid(next, BusyNext(busy, log[0]), log[1..]);
    }
  }

  lemma {:induction false} ExecutionsAdd(a: seq<Entry>, b: seq<Entry>)
    ensures Executions(a + b) == Executions(a) + Executions(b)
    decreases |a|
  {
    if a == [] {
      assert a + b == b;
    } else {
      assert (a + b)[1..] == a[1..] + b;
      ExecutionsAdd(a[1..], b);
    }
  }

  /** Room for done orders, less one if a handler call is outstanding. */
  lemma {:induction false} DoneSetRoom(row: PlanRow, busy: Option<int>)
    requires Outstanding(row, busy)
    ensures |DoneSet(row)| + Count(busy) <= |Orders(row.states)|
  {
    if busy.Some? {
      DoneHasOrder(row, busy.value);
      SubsetSize(DoneSet(row) + {busy.value}, Orders(row.states));
    } else {
      SubsetSize(DoneSet(row), Orders(row.states));
    }
  }

  lemma {:induction false} SameOrders(a: PlanRow, b: PlanRow)
    requires SamePlan(a, b)
    ensures Orders(a.states) == Orders(b.states)
  {
    forall o | o in Orders(a.states)
      ensures o in Orders(b.states)
    {
      var i :| 0 <= i < |a.states| && a.states[i].order == o;
      assert b.states[i] in b.states;
    }
    forall o | o in Orders(b.states)
      ensures o in Orders(a.states)
    {
      var i :| 0 <= i < |b.states| && b.states[i].order == o;
      assert a.states[i] in a.states;
    }
  }

  lemma {:induction false} ExecutionsCounted(disk: PlanRow, entity: EntityName, lives: seq<Life>)
    requires Executable(disk) && lives != []
    ensures Executions(History(disk, entity, lives)) + |DoneSet(disk)| <= |Orders(disk.states)| + |lives| - 1
    decreases |lives|
  {
    var log := LifeLog(disk, entity, lives[0]);
    var next := LastSaved(disk, log);
    LifeLegal(disk, entity, lives[0]);
    ExecutionsPaid(disk, None, log);
    DoneSetRoom(next, BusyAfter(None, log));
    SameOrders(disk, next);
    ExecutionsAdd(log, History(next, entity, lives[1..]));
    if |lives| > 1 {
      ExecutionsCounted(next, entity, lives[1..]);
    }
  }

  /** However often the process crashes, handlers are called at most once per step plus once per crash. */
  lemma {:induction false} ExecutionsBounded(disk: PlanRow, entity: EntityName, lives: seq<Life>)
    requires Executable(disk) && lives != []
    ensures
      var crashes := |lives| - 1;
      Executions(History(disk, entity, lives)) <= |disk.states| + crashes
  {
    ExecutionsCounted(disk, entity, lives);
    FewOrders(disk.states);
  }

  /** One life executes no step twice, and leaves at most one of the steps it executed not done. */
  lemma {:induction false} AtMostOneLost(disk: PlanRow, entity: EntityName, life: Life) returns (lost: Option<int>)
    requires Executable(disk)
    ensures
      var log := LifeLog(disk, entity, life);
      && (forall o :: Executed(o) in log ==> Done(LastSaved(disk, log), o) || lost == Some(o))
      && (forall i, j :: 0 <= i < j < |log| && log[i].Executed? ==> log[j] != log[i])
  {
    var log := LifeLog(disk, entity, life);
    LifeLegal(disk, entity, life);
    LegalExecutesOnce(disk, None, log);
    lost := BusyAfter(None, log);
  }

  lemma {:induction false} LegalExecutesOnce(disk: PlanRow, busy: Option<int>, log: seq<Entry>)
    requires Legal(disk, busy, log)
    ensures busy.Some? ==> Executed(busy.value) !in log
    ensures busy.Some? ==> Done(LastSaved(disk, log), busy.value) || BusyAfter(busy, log) == busy
    ensures forall o :: Executed(o) in log ==> Done(LastSaved(disk, log), o) || BusyAfter(busy, log) == Some(o)
    ensures forall i, j :: 0 <= i < j < |log| && log[i].Executed? ==> log[j] != log[i]
    decreases |log|
  {
    if log != [] {
      var next, now := DiskAfter(disk, log[0]), BusyNext(busy, log[0]);
      LegalExecutesOnce(next, now, log[1..]);
      if busy.Some? && now == None {
        DoneStays(next, now, log[1..], busy.value);
      }
      assert log == [log[0]] + log[1..];
      forall i, j | 0 <= i < j < |log| && log[i].Executed?
        ensures log[j] != log[i]
      {
        assert log[j] == log[1..][j - 1];
        if i > 0 {
          assert log[i] == log[1..][i - 1];
        }
      }
    }
  }
}
