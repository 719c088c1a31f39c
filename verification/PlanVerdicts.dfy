/**
 What `execute_plan` leaves of a plan, step by step, told by the plan it is given, the plan it
 leaves and what the handlers answer: no other plan fits.
*/
module PlanVerdicts {
  import opened Wrappers
  import opened Plans
  import opened PlanRuns
  import opened PlanOutcome

  /** The status of order d when the steps of order p have their turn: smaller orders as the call leaves them, the others as it finds them. */
  function Seen(start: PlanRow, end: PlanRow, p: int, d: int): Option<StepStatus> {
    StatusOf(if d < p then end.states else start.states, d)
  }

  ghost predicate AllMet(start: PlanRow, end: PlanRow, step: Step) {
    forall d :: d in step.dependsOn ==> IsDone(Seen(start, end, step.order, d))
  }

  /** The i-th dependency is the first that is not done, and it failed or was blocked. */
  ghost predicate FailsAt(start: PlanRow, end: PlanRow, step: Step, i: nat) {
    && i < |step.dependsOn|
    && (forall j :: 0 <= j < i ==> IsDone(Seen(start, end, step.order, step.dependsOn[j])))
    && (var seen := Seen(start, end, step.order, step.dependsOn[i]); seen == Some(Failed) || seen == Some(Blocked))
  }

  ghost predicate Excused(start: PlanRow, end: PlanRow, step: Step) {
    step.conditional && exists i: nat :: FailsAt(start, end, step, i)
  }

  predicate Good(outcome: Outcome) {
    outcome.hasHandler && outcome.execute == Returned(Success) && outcome.verify == Checked(true)
  }

  /** A step that had its turn: run if its dependencies were done, and else skipped or blocked. */
  ghost predicate Explained(start: PlanRow, end: PlanRow, step: Step, outcome: Outcome) {
    var status := StatusOf(end.states, step.order);
    && (status == Some(Succeeded) <==> AllMet(start, end, step) && Good(outcome))
    && (status == Some(Failed) <==> AllMet(start, end, step) && !Good(outcome))
    && (status == Some(Skipped) <==> Excused(start, end, step))
    && (status == Some(Blocked) <==> !AllMet(start, end, step) && !Excused(start, end, step))
  }

  /** Everything of smaller order is done. */
  ghost predicate HadTurn(end: PlanRow, todo: seq<Step>, order: int) {
    forall p {:trigger Among(todo, p)} :: Among(todo, p) && p < order ==> Done(end, p)
  }

  /** Of each order that was not done, the first step had its turn and is explained, or the order is as it was. */
  ghost predicate AllExplained(start: PlanRow, end: PlanRow, todo: seq<Step>, world: World) {
    forall s {:trigger IsFirst(todo, s)} :: IsFirst(todo, s) && !Done(start, s.order) ==>
      if HadTurn(end, todo, s.order) then Explained(start, end, s, world(s.order))
      else StatusOf(end.states, s.order) == StatusOf(start.states, s.order)
  }

  // ----- The main loop explains its steps -----

  /** What a step sees depends only on the orders below its own and, as found, on the others. */
  lemma {:induction false} SameSight(a: PlanRow, b: PlanRow, end: PlanRow, end': PlanRow, step: Step, outcome: Outcome)
    requires Explained(a, end, step, outcome) && StatusOf(end'.states, step.order) == StatusOf(end.states, step.order)
    requires forall d :: d >= step.order ==> IsDone(StatusOf(b.states, d)) == IsDone(StatusOf(a.states, d))
    requires forall d :: d >= step.order && !IsDone(StatusOf(a.states, d)) ==>
      ((StatusOf(b.states, d) == Some(Failed) || StatusOf(b.states, d) == Some(Blocked)) <==> (StatusOf(a.states, d) == Some(Failed) || StatusOf(a.states, d) == Some(Blocked)))
    requires forall d :: d < step.order ==> StatusOf(end'.states, d) == StatusOf(end.states, d)
    ensures Explained(b, end', step, outcome)
  {
    forall d
      ensures IsDone(Seen(b, end', step.order, d)) == IsDone(Seen(a, end, step.order, d))
      ensures !IsDone(Seen(a, end, step.order, d)) ==>
        ((Seen(b, end', step.order, d) == Some(Failed) || Seen(b, end', step.order, d) == Some(Blocked))
         <==> (Seen(a, end, step.order, d) == Some(Failed) || Seen(a, end, step.order, d) == Some(Blocked)))
    {
    }
    assert AllMet(b, end', step) == AllMet(a, end, step);
    forall i: nat
      ensures FailsAt(b, end', step, i) == FailsAt(a, end, step, i)
    {
    }
  }

  /** The loop looks at a step: what its evaluation says is what it saw. */
  lemma {:induction false} VerdictSays(row: PlanRow, end: PlanRow, step: Step)
    requires forall d :: d < step.order ==> StatusOf(end.states, d) == StatusOf(row.states, d)
    ensures Evaluate(step.dependsOn, step.conditional, row.states) == Ready <==> AllMet(row, end, step)
    ensures Evaluate(step.dependsOn, step.conditional, row.states) == Skipped <==> Excused(row, end, step)
    ensures Evaluate(step.dependsOn, step.conditional, row.states) in {Ready, Skipped, Blocked}
  {
    EvaluateSays(step.dependsOn, step.conditional, row);
    SkippedIff(step.dependsOn, step.conditional, row);
    assert forall d :: Seen(row, end, step.order, d) == StatusOf(row.states, d);
    forall i: nat
      ensures FailsAt(row, end, step, i) <==> FailedAt(step.dependsOn, row, i)
    {
    }
  }

  /** How a step may leave its turn. */
  ghost predicate Fits(row: PlanRow, step: Step, outcome: Outcome, status: StepStatus) {
    match Evaluate(step.dependsOn, step.conditional, row.states)
    case Blocked => status == Blocked
    case Skipped => status == Skipped
    case _ => status == if Good(outcome) then Succeeded else Failed
  }

  lemma {:induction false} FitsIsExplained(row: PlanRow, end: PlanRow, step: Step, outcome: Outcome, status: StepStatus)
    requires Fits(row, step, outcome, status) && StatusOf(end.states, step.order) == Some(status)
    requires forall d :: d < step.order ==> StatusOf(end.states, d) == StatusOf(row.states, d)
    ensures Explained(row, end, step, outcome)
  {
    VerdictSays(row, end, step);
  }

  lemma {:induction false} FirstOfRest(todo: seq<Step>, s: Step)
    requires todo != [] && IsFirst(todo, s)
    ensures s == todo[0] || (s.order != todo[0].order && IsFirst(todo[1..], s))
  {
    assert OfOrder(todo, s.order) == OneOf(todo[0], s.order) + OfOrder(todo[1..], s.order);
  }

  lemma {:induction false} FirstIsLeast(todo: seq<Step>)
    requires todo != [] && Ascending(todo)
    ensures IsFirst(todo, todo[0]) && Among(todo, todo[0].order)
    ensures forall p :: Among(todo, p) ==> todo[0].order <= p
    ensures forall p :: Among(todo, p) <==> p == todo[0].order || Among(todo[1..], p)
  {
    var first, rest := todo[0], todo[1..];
    assert todo == [first] + rest && first in todo;
    assert OfOrder(todo, first.order) == OneOf(first, first.order) + OfOrder(rest, first.order);
    forall p | Among(todo, p)
      ensures first.order <= p && (p == first.order || Among(rest, p))
    {
      var s :| s in todo && s.order == p;
      var i :| 0 <= i < |todo| && todo[i] == s;
    }
    forall p | Among(rest, p)
      ensures Among(todo, p)
    {
      var s :| s in rest && s.order == p;
      assert s in todo;
    }
  }

  /** The loop stops at its first step. */
  lemma {:induction false} StopExplains(row: PlanRow, end: PlanRow, todo: seq<Step>, world: World, status: StepStatus)
    requires todo != [] && Ascending(todo) && !Done(row, todo[0].order)
    requires Fits(row, todo[0], world(todo[0].order), status) && (status == Failed || status == Blocked)
    requires StatusOf(end.states, todo[0].order) == Some(status)
    requires forall p :: p != todo[0].order ==> StatusOf(end.states, p) == StatusOf(row.states, p)
    ensures AllExplained(row, end, todo, world)
  {
    FirstIsLeast(todo);
    FitsIsExplained(row, end, todo[0], world(todo[0].order), status);
    forall s | IsFirst(todo, s) && s != todo[0]
      ensures !HadTurn(end, todo, s.order) && s.order != todo[0].order
    {
      FirstOfRest(todo, s);
      FirstIsIn(todo, s);
      assert Among(todo, s.order);
    }
  }

  /** The loop passes its first step, and the rest is explained. */
  lemma {:induction false} PassExplains(row: PlanRow, mid: PlanRow, end: PlanRow, todo: seq<Step>, world: World, status: StepStatus)
    requires todo != [] && Ascending(todo) && AllExplained(mid, end, todo[1..], world) && LoopEnds(mid, end, todo[1..])
    requires forall p :: p != todo[0].order ==> StatusOf(mid.states, p) == StatusOf(row.states, p)
    requires StatusOf(mid.states, todo[0].order) == Some(status) && (status == Succeeded || status == Skipped)
    requires Done(row, todo[0].order) || Fits(row, todo[0], world(todo[0].order), status)
    ensures AllExplained(row, end, todo, world)
  {
    var first, rest := todo[0], todo[1..];
    FirstIsLeast(todo);
    assert Done(mid, first.order);
    assert StatusOf(end.states, first.order) == Some(status);
    forall s | IsFirst(todo, s) && !Done(row, s.order)
      ensures if HadTurn(end, todo, s.order) then Explained(row, end, s, world(s.order))
              else StatusOf(end.states, s.order) == StatusOf(row.states, s.order)
    {
      if s == first {
        forall d | d < first.order
          ensures StatusOf(end.states, d) == StatusOf(row.states, d)
        {
          assert !Among(rest, d);
        }
        FitsIsExplained(row, end, first, world(first.order), status);
        assert HadTurn(end, todo, first.order);
      } else {
        FirstOfRest(todo, s);
        LaterStep(row, mid, end, todo, world, s);
      }
    }
  }

  lemma {:induction false} LaterStep(row: PlanRow, mid: PlanRow, end: PlanRow, todo: seq<Step>, world: World, s: Step)
    requires todo != [] && Ascending(todo) && AllExplained(mid, end, todo[1..], world)
    requires forall p :: p != todo[0].order ==> StatusOf(mid.states, p) == StatusOf(row.states, p)
    requires Done(end, todo[0].order) && s.order != todo[0].order && IsFirst(todo[1..], s) && !Done(row, s.order)
    ensures if HadTurn(end, todo, s.order) then Explained(row, end, s, world(s.order))
            else StatusOf(end.states, s.order) == StatusOf(row.states, s.order)
  {
    var rest := todo[1..];
    FirstIsLeast(todo);
    FirstIsIn(rest, s);
    assert Among(rest, s.order) && todo[0].order < s.order;
    assert HadTurn(end, todo, s.order) <==> HadTurn(end, rest, s.order);
    if HadTurn(end, rest, s.order) {
      SameSight(mid, row, end, end, s, world(s.order));
    }
  }

  /** One turn leaves the step with a status that fits, the plan aborted if that is a failure, and other steps alone. */
  ghost predicate Turn(row: PlanRow, step: Step, outcome: Outcome, r: Run, status: StepStatus) {
    && StatusOf(r.row.states, step.order) == Some(status)
    && (forall p :: p != step.order ==> StatusOf(r.row.states, p) == StatusOf(row.states, p))
    && (r.row.status == Aborted <==> status == Failed || status == Blocked)
    && if Done(row, step.order) then IsDone(Some(status)) && r.log == [] else Fits(row, step, outcome, status)
  }

  lemma {:induction false} TakesTurn(row: PlanRow, step: Step, entity: EntityName, world: World) returns (status: StepStatus)
    requires row.status == InExecution && HasOrder(row, step.order)
    ensures Turn(row, step, world(step.order), StepRun(row, step, entity, world), status)
  {
    EvaluateSays(step.dependsOn, step.conditional, row);
    var verdict := Evaluate(step.dependsOn, step.conditional, row.states);
    if Done(row, step.order) {
      status := StatusOf(row.states, step.order).value;
    } else if verdict == Blocked {
      status := Blocked;
      MarkCarries(row, step.order, Blocked);
      AbortStatus(row, step.order, Blocked);
    } else if verdict == Skipped {
      status := Skipped;
      MarkCarries(row, step.order, Skipped);
    } else {
      status := if Good(world(step.order)) then Succeeded else Failed;
      DispatchEnd(row, step, entity, world(step.order));
    }
  }

  lemma {:induction false} RunStepsExplains(row: PlanRow, todo: seq<Step>, entity: EntityName, world: World)
    requires row.status == InExecution && Ascending(todo)
    requires forall s :: s in todo ==> HasOrder(row, s.order)
    ensures AllExplained(row, RunSteps(row, todo, entity, world).row, todo, world)
    decreases |todo|
  {
    if todo != [] {
      assert todo[0] in todo;
      var first := StepRun(row, todo[0], entity, world);
      var status := TakesTurn(row, todo[0], entity, world);
      StepThenRest(row, todo, entity, world);
      if first.row.status == Aborted {
        StopExplains(row, first.row, todo, world, status);
      } else {
        StepKeepsOrders(row, todo, entity, world);
        RunStepsExplains(first.row, todo[1..], entity, world);
        RunStepsOutcome(first.row, todo[1..], entity, world);
        PassExplains(row, first.row, RunSteps(row, todo, entity, world).row, todo, world, status);
      }
    }
  }

  // ----- The plan that is left -----

  /** Execution interrupted by a crash is taken back. */
  function Rested(status: StepStatus): StepStatus {
    if status == Executing then Ready else status
  }

  ghost predicate AsFound(row: PlanRow, end: PlanRow, order: int) {
    StatusOf(end.states, order) == match StatusOf(row.states, order) case None => None case Some(status) => Some(Rested(status))
  }

  /** Of each order that was not done, the first step had its turn and is explained, or the order is as it was found. */
  ghost predicate FirstsLeft(row: PlanRow, end: PlanRow, world: World) {
    forall s {:trigger IsFirst(row.steps, s)} :: IsFirst(row.steps, s) && !Done(row, s.order) ==>
      if HadTurn(end, row.steps, s.order) then Explained(row, end, s, world(s.order)) else AsFound(row, end, s.order)
  }

  /** What was done stays, and so do orders of no step and states that a later one of their order hides. */
  ghost predicate OthersLeft(row: PlanRow, end: PlanRow) {
    && (forall p {:trigger Done(row, p)} :: Done(row, p) ==> StatusOf(end.states, p) == StatusOf(row.states, p))
    && (forall p {:trigger Among(row.steps, p)} :: !Among(row.steps, p) ==> AsFound(row, end, p))
    && (forall i: nat {:trigger Hidden(row.states, i)} :: Hidden(row.states, i) ==> i < |end.states| && end.states[i].status == Rested(row.states[i].status))
  }

  ghost predicate EverythingDone(row: PlanRow) {
    forall s :: s in row.steps ==> Done(row, s.order)
  }

  /**
   `end` is what a call leaves of `row`: completed if every step is done and else aborted, each step
   that had its turn explained, and the rest as it was found.
  */
  ghost predicate LeftBy(row: PlanRow, end: PlanRow, world: World) {
    && SamePlan(row, end)
    && end.status == (if EverythingDone(end) then Completed else Aborted)
    && FirstsLeft(row, end, world)
    && OthersLeft(row, end)
  }

  lemma {:induction false} ResetHides(states: seq<StepState>, i: nat)
    requires Hidden(states, i)
    ensures Hidden(Reset(states), i) && Reset(states)[i].status == Rested(states[i].status)
  {
    var j :| i < j < |states| && states[j].order == states[i].order;
    assert Reset(states)[j].order == Reset(states)[i].order;
  }

  lemma {:induction false} FirstsSorted(steps: seq<Step>)
    ensures forall s :: IsFirst(SortSteps(steps), s) <==> IsFirst(steps, s)
    ensures forall p :: Among(SortSteps(steps), p) <==> Among(steps, p)
  {
    forall s
      ensures IsFirst(SortSteps(steps), s) <==> IsFirst(steps, s)
    {
      SortIsStable(steps, s.order);
    }
    forall p
      ensures Among(SortSteps(steps), p) <==> Among(steps, p)
    {
      AmongSorted(steps, p);
    }
  }

  /** Whatever is explained from the started plan is explained from the one given. */
  lemma {:induction false} ExplainedFromRow(row: PlanRow, started: PlanRow, end: PlanRow, world: World)
    requires started == row.(status := InExecution, states := Reset(row.states)) && AllExplained(started, end, SortSteps(row.steps), world)
    ensures FirstsLeft(row, end, world)
  {
    StartedStates(row);
    FirstsSorted(row.steps);
    forall s | IsFirst(row.steps, s) && !Done(row, s.order)
      ensures if HadTurn(end, row.steps, s.order) then Explained(row, end, s, world(s.order)) else AsFound(row, end, s.order)
    {
      assert HadTurn(end, row.steps, s.order) <==> HadTurn(end, SortSteps(row.steps), s.order);
      if HadTurn(end, row.steps, s.order) {
        SameSight(started, row, end, end, s, world(s.order));
      }
    }
  }

  lemma {:induction false} OthersAreLeft(row: PlanRow, started: PlanRow, end: PlanRow, entity: EntityName, world: World)
    requires WellFormed(row) && started == row.(status := InExecution, states := Reset(row.states))
    requires end == RunSteps(started, SortSteps(row.steps), entity, world).row && LoopEnds(started, end, SortSteps(row.steps))
    ensures OthersLeft(row, end)
  {
    StartedStates(row);
    forall p | !Among(row.steps, p)
      ensures AsFound(row, end, p)
    {
      AmongSorted(row.steps, p);
    }
    forall i: nat | Hidden(row.states, i)
      ensures i < |end.states| && end.states[i].status == Rested(row.states[i].status)
    {
      ResetHides(row.states, i);
      RunStepsKeepsHidden(started, SortSteps(row.steps), entity, world, i);
    }
    forall p | Done(row, p)
      ensures StatusOf(end.states, p) == StatusOf(row.states, p)
    {
      assert Done(started, p);
    }
  }

  lemma {:induction false} FirstsAreLeft(row: PlanRow, started: PlanRow, entity: EntityName, world: World)
    requires WellFormed(row) && started == row.(status := InExecution, states := Reset(row.states))
    ensures FirstsLeft(row, RunSteps(started, SortSteps(row.steps), entity, world).row, world)
    ensures LoopEnds(started, RunSteps(started, SortSteps(row.steps), entity, world).row, SortSteps(row.steps))
  {
    StartedStates(row);
    SortSorts(row.steps);
    RunStepsOutcome(started, SortSteps(row.steps), entity, world);
    RunStepsExplains(started, SortSteps(row.steps), entity, world);
    ExplainedFromRow(row, started, RunSteps(started, SortSteps(row.steps), entity, world).row, world);
  }

  lemma {:induction false} ExecuteLeaves(row: PlanRow, entity: EntityName, world: World, end: PlanRow)
    requires WellFormed(row) && end == ExecutePlan(row, entity, world).row
    ensures LeftBy(row, end, world)
  {
    var started := row.(status := InExecution, states := Reset(row.states));
    FirstsAreLeft(row, started, entity, world);
    OthersAreLeft(row, started, end, entity, world);
    ExecuteOutcome(row, entity, world);
  }

  // ----- There is no other -----

  lemma {:induction false} HasFirst(steps: seq<Step>, order: int) returns (s: Step)
    requires Among(steps, order)
    ensures IsFirst(steps, s) && s.order == order
  {
    var t :| t in steps && t.order == order;
    OfOrderHas(steps, t);
    s := OfOrder(steps, order)[0];
    OfOrderAre(steps, order);
  }

  ghost predicate AgreeBelow(a: PlanRow, b: PlanRow, order: int) {
    forall p :: p < order ==> StatusOf(a.states, p) == StatusOf(b.states, p)
  }

  /** Two explained plans that agree below an order agree on that order. */
  lemma {:induction false} AgreeAt(row: PlanRow, a: PlanRow, b: PlanRow, world: World, order: int)
    requires LeftBy(row, a, world) && LeftBy(row, b, world) && AgreeBelow(a, b, order) && WellFormed(row)
    ensures StatusOf(a.states, order) == StatusOf(b.states, order)
  {
    if Among(row.steps, order) && !Done(row, order) {
      var s := HasFirst(row.steps, order);
      FirstIsIn(row.steps, s);
      AgreeAtFirst(row, a, b, world, s);
    }
  }

  lemma {:induction false} AgreeAtFirst(row: PlanRow, a: PlanRow, b: PlanRow, world: World, s: Step)
    requires SamePlan(row, a) && SamePlan(row, b) && AgreeBelow(a, b, s.order) && HasOrder(row, s.order)
    requires IsFirst(row.steps, s) && !Done(row, s.order) && FirstsLeft(row, a, world) && FirstsLeft(row, b, world)
    ensures StatusOf(a.states, s.order) == StatusOf(b.states, s.order)
  {
    assert HadTurn(a, row.steps, s.order) <==> HadTurn(b, row.steps, s.order);
    if HadTurn(a, row.steps, s.order) {
      SameExplanation(row, a, b, s, world(s.order));
    }
  }

  lemma {:induction false} SameExplanation(row: PlanRow, a: PlanRow, b: PlanRow, s: Step, outcome: Outcome)
    requires AgreeBelow(a, b, s.order) && Explained(row, a, s, outcome) && Explained(row, b, s, outcome)
    requires SamePlan(row, a) && SamePlan(row, b) && HasOrder(row, s.order)
    ensures StatusOf(a.states, s.order) == StatusOf(b.states, s.order)
  {
    assert forall d :: Seen(row, a, s.order, d) == Seen(row, b, s.order, d);
    assert AllMet(row, a, s) == AllMet(row, b, s);
    forall i: nat
      ensures FailsAt(row, a, s, i) == FailsAt(row, b, s, i)
    {
    }
  }

  /** ... and so they agree everywhere, going up through the steps. */
  lemma {:induction false} AgreeUpTo(row: PlanRow, a: PlanRow, b: PlanRow, world: World, sorted: seq<Step>, k: nat)
    requires LeftBy(row, a, world) && LeftBy(row, b, world) && WellFormed(row)
    requires Ascending(sorted) && k <= |sorted| && forall p :: Among(sorted, p) <==> Among(row.steps, p)
    ensures forall i :: 0 <= i < k ==> StatusOf(a.states, sorted[i].order) == StatusOf(b.states, sorted[i].order)
  {
    if k > 0 {
      AgreeUpTo(row, a, b, world, sorted, k - 1);
      var order := sorted[k - 1].order;
      forall p | p < order
        ensures StatusOf(a.states, p) == StatusOf(b.states, p)
      {
        if Among(sorted, p) {
          var s :| s in sorted && s.order == p;
          var i :| 0 <= i < |sorted| && sorted[i] == s;
        } else {
          assert !Among(row.steps, p);
        }
      }
      AgreeAt(row, a, b, world, order);
    }
  }

  lemma {:induction false} AgreeEverywhere(row: PlanRow, a: PlanRow, b: PlanRow, world: World)
    requires LeftBy(row, a, world) && LeftBy(row, b, world) && WellFormed(row)
    ensures forall p :: StatusOf(a.states, p) == StatusOf(b.states, p)
  {
    var sorted := SortSteps(row.steps);
    SortSorts(row.steps);
    FirstsSorted(row.steps);
    AgreeUpTo(row, a, b, world, sorted, |sorted|);
    forall p
      ensures StatusOf(a.states, p) == StatusOf(b.states, p)
    {
      if Among(sorted, p) {
        var s :| s in sorted && s.order == p;
        var i :| 0 <= i < |sorted| && sorted[i] == s;
      }
    }
  }

  lemma {:induction false} SameStates(row: PlanRow, a: PlanRow, b: PlanRow)
    requires SamePlan(row, a) && SamePlan(row, b) && OthersLeft(row, a) && OthersLeft(row, b)
    requires forall p :: StatusOf(a.states, p) == StatusOf(b.states, p)
    ensures a.states == b.states
  {
    forall i | 0 <= i < |row.states|
      ensures a.states[i] == b.states[i]
    {
      assert a.states[i].order == row.states[i].order == b.states[i].order;
      if Hidden(row.states, i) {
        assert a.states[i].status == Rested(row.states[i].status) == b.states[i].status;
      } else {
        FindIn(a.states, row.states[i].order, i);
        FindIn(b.states, row.states[i].order, i);
        assert StatusOf(a.states, row.states[i].order) == StatusOf(b.states, row.states[i].order);
        assert a.states[i].status == b.states[i].status;
      }
    }
  }

  /**
   For every plan, new or resumed: of all plans, the one that `execute_plan` leaves is the only one
   in which every step that had its turn succeeded, failed, was skipped or was blocked for its own
   reason and everything else is as it was found.
  */
  lemma {:induction false} ExecuteLeavesExactly(row: PlanRow, entity: EntityName, world: World, end: PlanRow)
    requires WellFormed(row)
    ensures end == ExecutePlan(row, entity, world).row <==> LeftBy(row, end, world)
  {
    var left := ExecutePlan(row, entity, world).row;
    ExecuteLeaves(row, entity, world, left);
    if LeftBy(row, end, world) {
      AgreeEverywhere(row, left, end, world);
      SameStates(row, left, end);
      assert EverythingDone(left) <==> EverythingDone(end);
    }
  }

  // ----- Why a plan stops -----

  /** Above the order at which a plan stopped, what is done was done before. */
  lemma {:induction false} NotPastTheStop(row: PlanRow, end: PlanRow, world: World, s: Step, d: int)
    requires LeftBy(row, end, world) && s in row.steps && !Done(end, s.order) && d >= s.order
    ensures Done(end, d) <==> Done(row, d)
  {
    assert Among(row.steps, s.order);
    if Among(row.steps, d) && !Done(row, d) && d != s.order {
      var t := HasFirst(row.steps, d);
      assert !HadTurn(end, row.steps, d);
    }
  }

  /**
   A plan stops at the first order that is not done, and there only because of the first step of
   that order: blocked if and only if one of its dependencies is not done, and failed if and only if
   all are and its handler is missing, raises, does not return success or does not verify.
  */
  lemma {:induction false} StopsBecause(row: PlanRow, entity: EntityName, world: World, end: PlanRow, s: Step)
    requires WellFormed(row) && end == ExecutePlan(row, entity, world).row
    requires IsFirst(row.steps, s) && !Done(end, s.order) && HadTurn(end, row.steps, s.order)
    ensures end.status == Aborted
    ensures StatusOf(end.states, s.order) == Some(Blocked) <==> exists d :: d in s.dependsOn && !Done(end, d)
    ensures StatusOf(end.states, s.order) == Some(Failed) <==>
      && (forall d :: d in s.dependsOn ==> Done(end, d))
      && !(world(s.order).hasHandler && world(s.order).execute == Returned(Success) && world(s.order).verify == Checked(true))
  {
    ExecuteLeavesExactly(row, entity, world, end);
    FirstIsIn(row.steps, s);
    NotPastTheStop(row, end, world, s, s.order);
    assert Explained(row, end, s, world(s.order));
    forall d
      ensures IsDone(Seen(row, end, s.order, d)) <==> Done(end, d)
    {
      if d >= s.order {
        NotPastTheStop(row, end, world, s, d);
      }
    }
  }

  // ----- Which handlers are called -----

  /** The order was not done, had its turn, and was run. */
  ghost predicate WasRun(start: PlanRow, end: PlanRow, todo: seq<Step>, order: int) {
    && Among(todo, order) && !Done(start, order) && HadTurn(end, todo, order)
    && (StatusOf(end.states, order) == Some(Succeeded) || StatusOf(end.states, order) == Some(Failed))
  }

  /** If the order was run and has a handler it is called, and verified after a success. */
  ghost predicate Calls(log: seq<Entry>, order: int, run: bool, outcome: Outcome) {
    && (Executed(order) in log <==> run && outcome.hasHandler)
    && (Verified(order) in log <==> run && outcome.hasHandler && outcome.execute == Returned(Success))
  }

  /** Handlers are called for exactly the orders that were run and have one, and verified after a success. */
  ghost predicate CallsFit(start: PlanRow, end: PlanRow, todo: seq<Step>, world: World, log: seq<Entry>) {
    forall p :: Calls(log, p, WasRun(start, end, todo, p), world(p))
  }

  lemma {:induction false} DispatchCalls(row: PlanRow, step: Step, entity: EntityName, outcome: Outcome, p: int)
    ensures Calls(Dispatch(row, step, entity, outcome).log, p, p == step.order, outcome)
  {
  }

  /** One turn calls the step's handler if it is run. */
  lemma {:induction false} TakesTurnCalls(row: PlanRow, step: Step, entity: EntityName, world: World, status: StepStatus, p: int)
    requires Turn(row, step, world(step.order), StepRun(row, step, entity, world), status)
    ensures Calls(StepRun(row, step, entity, world).log, p,
                  p == step.order && !Done(row, step.order) && (status == Succeeded || status == Failed), world(step.order))
  {
    if !Done(row, step.order) {
      EvaluateSays(step.dependsOn, step.conditional, row);
      if Evaluate(step.dependsOn, step.conditional, row.states) == Ready {
        DispatchCalls(row, step, entity, world(step.order), p);
      }
    }
  }

  lemma {:induction false} PassRuns(row: PlanRow, mid: PlanRow, end: PlanRow, todo: seq<Step>, p: int)
    requires todo != [] && Ascending(todo) && Done(end, todo[0].order) && p != todo[0].order
    requires Done(mid, p) == Done(row, p)
    ensures WasRun(row, end, todo, p) <==> WasRun(mid, end, todo[1..], p)
  {
    FirstIsLeast(todo);
    if p > todo[0].order {
      assert HadTurn(end, todo, p) <==> HadTurn(end, todo[1..], p);
    }
  }

  lemma {:induction false} PassCalls(row: PlanRow, mid: Run, end: PlanRow, todo: seq<Step>, world: World, rest: seq<Entry>, status: StepStatus, p: int)
    requires todo != [] && Ascending(todo) && Turn(row, todo[0], world(todo[0].order), mid, status) && (status == Succeeded || status == Skipped)
    requires StatusOf(end.states, todo[0].order) == Some(status)
    requires Calls(mid.log, p, p == todo[0].order && !Done(row, p) && (status == Succeeded || status == Failed), world(todo[0].order))
    requires Calls(rest, p, WasRun(mid.row, end, todo[1..], p), world(p))
    ensures Calls(mid.log + rest, p, WasRun(row, end, todo, p), world(p))
  {
    FirstIsLeast(todo);
    if p == todo[0].order {
      assert HadTurn(end, todo, p);
    } else {
      PassRuns(row, mid.row, end, todo, p);
    }
  }

  lemma {:induction false} StopCalls(row: PlanRow, end: Run, todo: seq<Step>, world: World, status: StepStatus, p: int)
    requires todo != [] && Ascending(todo) && Turn(row, todo[0], world(todo[0].order), end, status) && (status == Failed || status == Blocked)
    requires Calls(end.log, p, p == todo[0].order && !Done(row, p) && (status == Succeeded || status == Failed), world(todo[0].order))
    ensures Calls(end.log, p, WasRun(row, end.row, todo, p), world(p))
  {
    FirstIsLeast(todo);
    assert !Done(end.row, todo[0].order);
    if p == todo[0].order {
      assert HadTurn(end.row, todo, p);
    }
  }

  lemma {:induction false} RunStepsCalls(row: PlanRow, todo: seq<Step>, entity: EntityName, world: World)
    requires row.status == InExecution && Ascending(todo)
    requires forall s :: s in todo ==> HasOrder(row, s.order)
    ensures CallsFit(row, RunSteps(row, todo, entity, world).row, todo, world, RunSteps(row, todo, entity, world).log)
    decreases |todo|
  {
    if todo != [] {
      assert todo[0] in todo;
      var first := StepRun(row, todo[0], entity, world);
      var status := TakesTurn(row, todo[0], entity, world);
      StepThenRest(row, todo, entity, world);
      if first.row.status == Aborted {
        forall p
          ensures Calls(first.log, p, WasRun(row, first.row, todo, p), world(p))
        {
          TakesTurnCalls(row, todo[0], entity, world, status, p);
          StopCalls(row, first, todo, world, status, p);
        }
      } else {
        var rest := RunSteps(first.row, todo[1..], entity, world);
        StepKeepsOrders(row, todo, entity, world);
        RunStepsCalls(first.row, todo[1..], entity, world);
        RunStepsOutcome(first.row, todo[1..], entity, world);
        assert Done(first.row, todo[0].order);
        forall p
          ensures Calls(first.log + rest.log, p, WasRun(row, rest.row, todo, p), world(p))
        {
          TakesTurnCalls(row, todo[0], entity, world, status, p);
          PassCalls(row, first, rest.row, todo, world, rest.log, status, p);
        }
      }
    }
  }

  /**
   A call of `execute_plan` first saves the plan as executing and last saves the plan it leaves; in
   between it calls a handler for exactly the orders that were run and have one, and verifies exactly
   those whose handler returned success.
  */
  lemma {:induction false} CallsExactly(row: PlanRow, entity: EntityName, world: World)
    requires WellFormed(row)
    ensures
      var r := ExecutePlan(row, entity, world);
      && r.log != [] && r.log[0] == Saved(row.(status := InExecution)) && r.log[|r.log| - 1] == Saved(r.row)
      && CallsFit(row, r.row, row.steps, world, r.log)
  {
    var started, todo := row.(status := InExecution, states := Reset(row.states)), SortSteps(row.steps);
    var r := ExecutePlan(row, entity, world);
    StartedStates(row);
    SortSorts(row.steps);
    FirstsSorted(row.steps);
    RunStepsCalls(started, todo, entity, world);
    LastIsSaved(started, todo, entity, world);
    forall p
      ensures WasRun(row, r.row, row.steps, p) <==> WasRun(started, r.row, todo, p)
    {
      assert HadTurn(r.row, row.steps, p) <==> HadTurn(r.row, todo, p);
    }
  }

  lemma {:induction false} LastIsSaved(row: PlanRow, todo: seq<Step>, entity: EntityName, world: World)
    requires row.status == InExecution && forall s :: s in todo ==> HasOrder(row, s.order)
    ensures var r := RunSteps(row, todo, entity, world); r.log != [] && r.log[|r.log| - 1] == Saved(r.row)
    decreases |todo|
  {
    if todo != [] {
      assert todo[0] in todo;
      var first := StepRun(row, todo[0], entity, world);
      StepThenRest(row, todo, entity, world);
      StepKeepsOrders(row, todo, entity, world);
      if first.row.status == Aborted {
        StepEndsSaved(row, todo[0], entity, world);
      } else {
        LastIsSaved(first.row, todo[1..], entity, world);
      }
    }
  }

  lemma {:induction false} StepEndsSaved(row: PlanRow, step: Step, entity: EntityName, world: World)
    requires row.status == InExecution
    ensures var r := StepRun(row, step, entity, world); r.row.status == Aborted ==> r.log != [] && r.log[|r.log| - 1] == Saved(r.row)
  {
  }
}
