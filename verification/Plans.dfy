/**
 Remediation plans: their data, and `execute_plan` as a function from a saved plan and the
 outcomes of the handler calls to the plan it ends with and everything it does on the way.
*/
module Plans {
  import opened Wrappers

  type PlanId(==, !new)
  type EntityName(==, !new)

  datatype RiskTier = AutoFix | Recommend | Escalate | Block

  datatype PlanStatus = PendingApproval | Rejected | Expired | InExecution | Completed | Aborted

  datatype StepStatus = Pending | Ready | Executing | Verifying | Succeeded | Failed | Skipped | Blocked

  /** A step, with the fields of its action that the executor looks at; an empty target is None. */
  datatype Step = Step(
    order: int,
    riskTier: RiskTier,
    target: Option<EntityName>,
    dependsOn: seq<int>,
    conditional: bool)

  datatype StepState = StepState(order: int, status: StepStatus)

  /** A plan as it is written to its table: `InExecution` is the source's "executing", `Aborted` its "failed". */
  datatype PlanRow = PlanRow(
    id: PlanId,
    status: PlanStatus,
    steps: seq<Step>,
    states: seq<StepState>,
    tier: RiskTier)

  // ----- What the handlers answer -----

  datatype ActionStatus = Success | Failure | NotRun | Timeout | DryRun
  datatype ExecuteAnswer = ExecuteRaised | Returned(status: ActionStatus)
  datatype VerifyAnswer = VerifyRaised | Checked(verified: bool)
  datatype Outcome = Outcome(hasHandler: bool, execute: ExecuteAnswer, verify: VerifyAnswer)

  /** What each step's handler would answer during one call of `execute_plan`. */
  type World = int -> Outcome

  // ----- What the executor does, in order -----

  datatype Entry =
    | Saved(row: PlanRow)
    | Executed(order: int)
    | Attempted(entity: EntityName, success: bool)
    | Verified(order: int)

  datatype Run = Run(row: PlanRow, log: seq<Entry>)

  // ----- Step states by order -----

  /** Position of the last state with this order: later states win in `state_by_order`. */
  function Find(states: seq<StepState>, order: int): (r: Option<nat>)
    ensures r.Some? ==> r.value < |states|
  {
    if states == [] then None
    else if states[|states| - 1].order == order then Some(|states| - 1)
    else Find(states[..|states| - 1], order)
  }

  lemma {:induction false} FindIsLast(states: seq<StepState>, order: int)
    ensures match Find(states, order)
      case None => forall i :: 0 <= i < |states| ==> states[i].order != order
      case Some(k) => k < |states| && states[k].order == order && forall i :: k < i < |states| ==> states[i].order != order
  {
    if states != [] {
      var n := |states| - 1;
      FindIsLast(states[..n], order);
      assert forall i :: 0 <= i < n ==> states[..n][i] == states[i];
    }
  }

  function StatusOf(states: seq<StepState>, order: int): Option<StepStatus> {
    match Find(states, order)
    case None => None
    case Some(k) => Some(states[k].status)
  }

  function SetStatus(states: seq<StepState>, order: int, status: StepStatus): seq<StepState> {
    match Find(states, order)
    case None => states
    case Some(k) => states[k := StepState(order, status)]
  }

  predicate IsDone(status: Option<StepStatus>) {
    status == Some(Succeeded) || status == Some(Skipped)
  }

  predicate Done(row: PlanRow, order: int) {
    IsDone(StatusOf(row.states, order))
  }

  /** Every step has a state, as `create_plan` arranges. */
  ghost predicate WellFormed(row: PlanRow) {
    forall s :: s in row.steps ==> StatusOf(row.states, s.order).Some?
  }

  lemma {:induction false} FindIgnoresStatus(states: seq<StepState>, others: seq<StepState>, order: int)
    requires |states| == |others|
    requires forall i :: 0 <= i < |states| ==> states[i].order == others[i].order
    ensures Find(states, order) == Find(others, order)
  {
    if states != [] {
      var n := |states| - 1;
      FindIgnoresStatus(states[..n], others[..n], order);
    }
  }

  /** Setting one order's status changes that order's status and no other's. */
  lemma {:induction false} SetThenGet(states: seq<StepState>, order: int, status: StepStatus, other: int)
    requires StatusOf(states, order).Some?
    ensures StatusOf(SetStatus(states, order, status), other)
         == if other == order then Some(status) else StatusOf(states, other)
  {
    FindIsLast(states, order);
    FindIsLast(states, other);
    FindIgnoresStatus(states, SetStatus(states, order, status), other);
    FindIgnoresStatus(states, SetStatus(states, order, status), order);
  }

  function Mark(row: PlanRow, order: int, status: StepStatus): PlanRow {
    row.(states := SetStatus(row.states, order, status))
  }

  /** The step fails or is blocked, and the plan with it, in one save. */
  function Abort(row: PlanRow, order: int, status: StepStatus): PlanRow {
    Mark(row, order, status).(status := Aborted)
  }

  // ----- Dependencies and order -----

  /** `_evaluate_dependencies`: Ready, Skipped or Blocked. */
  function Evaluate(dependsOn: seq<int>, conditional: bool, states: seq<StepState>): StepStatus {
    if dependsOn == [] then Ready
    else
      match StatusOf(states, dependsOn[0])
      case None => Blocked
      case Some(Succeeded) => Evaluate(dependsOn[1..], conditional, states)
      case Some(Skipped) => Evaluate(dependsOn[1..], conditional, states)
      case Some(Failed) => if conditional then Skipped else Blocked
      case Some(Blocked) => if conditional then Skipped else Blocked
      case Some(_) => Blocked
  }

  function Insert(step: Step, sorted: seq<Step>): seq<Step> {
    if sorted == [] || step.order <= sorted[0].order then [step] + sorted
    else [sorted[0]] + Insert(step, sorted[1..])
  }

  /** Stable sort by order. */
  function SortSteps(steps: seq<Step>): seq<Step> {
    if steps == [] then [] else Insert(steps[0], SortSteps(steps[1..]))
  }

  ghost predicate Ascending(steps: seq<Step>) {
    forall i, j :: 0 <= i < j < |steps| ==> steps[i].order <= steps[j].order
  }

  lemma {:induction false} InsertSorts(step: Step, sorted: seq<Step>)
    requires Ascending(sorted)
    ensures Ascending(Insert(step, sorted))
    ensures forall s :: s in Insert(step, sorted) <==> s == step || s in sorted
  {
    if sorted != [] && step.order > sorted[0].order {
      InsertSorts(step, sorted[1..]);
      var r := Insert(step, sorted[1..]);
      assert forall j :: 0 <= j < |r| ==> r[j] in r;
      assert sorted == [sorted[0]] + sorted[1..];
    }
  }

  lemma {:induction false} SortSorts(steps: seq<Step>)
    ensures Ascending(SortSteps(steps))
    ensures forall s :: s in SortSteps(steps) <==> s in steps
  {
    if steps != [] {
      SortSorts(steps[1..]);
      InsertSorts(steps[0], SortSteps(steps[1..]));
      assert steps == [steps[0]] + steps[1..];
    }
  }

  /** The steps of one order, as they come. */
  function OfOrder(steps: seq<Step>, order: int): seq<Step> {
    if steps == [] then [] else OneOf(steps[0], order) + OfOrder(steps[1..], order)
  }

  function OneOf(step: Step, order: int): seq<Step> {
    if step.order == order then [step] else []
  }

  /** The step is the first of its order: of steps that repeat an order it is the one that runs. */
  ghost predicate IsFirst(steps: seq<Step>, step: Step) {
    OfOrder(steps, step.order) != [] && OfOrder(steps, step.order)[0] == step
  }

  lemma {:induction false} FirstIsIn(steps: seq<Step>, step: Step)
    requires IsFirst(steps, step)
    ensures step in steps
  {
    if steps[0].order != step.order {
      FirstIsIn(steps[1..], step);
    }
  }

  lemma {:induction false} OfOrderCons(step: Step, rest: seq<Step>, order: int)
    ensures OfOrder([step] + rest, order) == OneOf(step, order) + OfOrder(rest, order)
  {
    assert ([step] + rest)[1..] == rest;
  }

  lemma {:induction false} InsertIsStable(step: Step, sorted: seq<Step>, order: int)
    ensures OfOrder(Insert(step, sorted), order) == OneOf(step, order) + OfOrder(sorted, order)
  {
    if sorted == [] || step.order <= sorted[0].order {
      OfOrderCons(step, sorted, order);
    } else {
      InsertIsStable(step, sorted[1..], order);
      OfOrderCons(sorted[0], Insert(step, sorted[1..]), order);
      assert OneOf(step, order) == [] || OneOf(sorted[0], order) == [];
    }
  }

  lemma {:induction false} InsertAddsOne(step: Step, sorted: seq<Step>)
    ensures multiset(Insert(step, sorted)) == multiset(sorted) + multiset{step}
  {
    if sorted != [] && step.order > sorted[0].order {
      InsertAddsOne(step, sorted[1..]);
      assert sorted == [sorted[0]] + sorted[1..];
    }
  }

  /** The sort keeps every step as often as it comes, ... */
  lemma {:induction false} SortPermutes(steps: seq<Step>)
    ensures multiset(SortSteps(steps)) == multiset(steps)
  {
    if steps != [] {
      SortPermutes(steps[1..]);
      InsertAddsOne(steps[0], SortSteps(steps[1..]));
      assert steps == [steps[0]] + steps[1..];
    }
  }

  /** ... and steps of one order in the order they come. */
  lemma {:induction false} SortIsStable(steps: seq<Step>, order: int)
    ensures OfOrder(SortSteps(steps), order) == OfOrder(steps, order)
  {
    if steps != [] {
      SortIsStable(steps[1..], order);
      InsertIsStable(steps[0], SortSteps(steps[1..]), order);
    }
  }

  // ----- execute_plan -----

  function Reset(states: seq<StepState>): seq<StepState> {
    seq(|states|, i requires 0 <= i < |states| =>
      if states[i].status == Executing then StepState(states[i].order, Ready) else states[i])
  }

  function Then(e: Entry, rest: Run): Run {
    Run(rest.row, [e] + rest.log)
  }

  function Stop(row: PlanRow): Run {
    Run(row, [Saved(row)])
  }

  /** The step was executed successfully and is saved as verifying. */
  function VerifyStep(row: PlanRow, order: int, answer: VerifyAnswer): Run {
    Then(Verified(order), Stop(if answer == Checked(true) then Mark(row, order, Succeeded) else Abort(row, order, Failed)))
  }

  /** The handler has returned. */
  function AfterReturn(row: PlanRow, order: int, success: bool, answer: VerifyAnswer): Run {
    if !success then Stop(Abort(row, order, Failed))
    else
      var verifying := Mark(row, order, Verifying);
      Then(Saved(verifying), VerifyStep(verifying, order, answer))
  }

  /** The step is saved as executing. */
  function CallHandler(row: PlanRow, step: Step, entity: EntityName, outcome: Outcome): Run {
    var failed := Stop(Abort(row, step.order, Failed));
    if !outcome.hasHandler then failed
    else if outcome.execute.ExecuteRaised? then Then(Executed(step.order), failed)
    else
      var success := outcome.execute.status == Success;
      var attempt := Attempted(if step.target.Some? then step.target.value else entity, success);
      Then(Executed(step.order), Then(attempt, AfterReturn(row, step.order, success, outcome.verify)))
  }

  /** A step whose dependencies are met, from its first save to its last. */
  function Dispatch(row: PlanRow, step: Step, entity: EntityName, outcome: Outcome): Run {
    var executing := Mark(row, step.order, Executing);
    Then(Saved(executing), CallHandler(executing, step, entity, outcome))
  }

  /** The main loop from some point on: `todo` are the sorted steps still to be looked at. */
  function RunSteps(row: PlanRow, todo: seq<Step>, entity: EntityName, world: World): Run
    decreases |todo|
  {
    if todo == [] then
      var completed := row.(status := Completed);
      Run(completed, [Saved(completed)])
    else
      var step := todo[0];
      if Done(row, step.order) then RunSteps(row, todo[1..], entity, world)
      else
        match Evaluate(step.dependsOn, step.conditional, row.states)
        case Blocked =>
          var blocked := Abort(row, step.order, Blocked);
          Run(blocked, [Saved(blocked)])
        case Skipped =>
          var skipped := Mark(row, step.order, Skipped);
          var rest := RunSteps(skipped, todo[1..], entity, world);
          Run(rest.row, [Saved(skipped)] + rest.log)
        case _ =>
          var d := Dispatch(row, step, entity, world(step.order));
          if d.row.status == Aborted then d
          else
            var rest := RunSteps(d.row, todo[1..], entity, world);
            Run(rest.row, d.log + rest.log)
  }

  function ExecutePlan(row: PlanRow, entity: EntityName, world: World): Run {
    var started := row.(status := InExecution);
    var rest := RunSteps(started.(states := Reset(row.states)), SortSteps(row.steps), entity, world);
    Run(rest.row, [Saved(started)] + rest.log)
  }
}
