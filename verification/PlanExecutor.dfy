/**
 The plan executor as the source writes it: plan objects updated in place, a cache of them,
 and a table that every transition is saved to.
*/
module PlanExecutor {
  import opened Collections
  import opened Plans
  import opened PlanRuns
  import opened PlanOutcome

  class RemediationPlan {
    const id: PlanId
    const steps: seq<Step>
    const tier: RiskTier
    var status: PlanStatus
    var states: seq<StepState>

    function Row(): PlanRow
      reads this
    {
      PlanRow(id, status, steps, states, tier)
    }

    constructor (row: PlanRow)
      ensures Row() == row
    {
      id, steps, tier, status, states := row.id, row.steps, row.tier, row.status, row.states;
    }

    /** Assigns the status of the state that `state_by_order` holds for this order. */
    method SetStep(order: int, status: StepStatus)
      requires HasOrder(Row(), order)
      modifies this`states
      ensures Row() == Mark(old(Row()), order, status)
    {
      var k := |states| - 1;
      FindIsLast(states, order);
      while states[k].order != order
        invariant Find(states, order).value <= k < |states|
        decreases k
      {
        k := k - 1;
      }
      states := states[k := StepState(order, status)];
    }
  }

  ghost predicate Caches(row: PlanRow, saved: PlanRow) {
    row == saved || (saved.status == InExecution && row == Resumed(saved))
  }

  /** The saved plan with each interrupted step ready again and nothing else changed. */
  ghost predicate ReadyAgain(saved: PlanRow, row: PlanRow) {
    && row == saved.(states := row.states) && |row.states| == |saved.states|
    && forall i :: 0 <= i < |saved.states| ==>
         row.states[i] == if saved.states[i].status == Executing then StepState(saved.states[i].order, Ready) else saved.states[i]
  }

  lemma {:induction false} ResumedIsReady(saved: PlanRow)
    ensures ReadyAgain(saved, Resumed(saved))
  {
  }

  class PlanExecutor {
    var plans: map<PlanId, RemediationPlan>
    var db: map<PlanId, PlanRow>
    ghost var log: seq<Entry>

    /** Cached plans are what was last saved of them, or that with interrupted steps made ready again. */
    ghost predicate Valid()
      reads this, plans.Values
    {
      && (forall id :: id in plans ==> plans[id].id == id && id in db && Caches(plans[id].Row(), db[id]))
      && (forall id :: id in db ==> db[id].id == id)
    }

    constructor ()
      ensures Valid() && plans == map[] && db == map[] && log == []
    {
      plans, db, log := map[], map[], [];
    }

    method PersistPlan(plan: RemediationPlan)
      modifies this`db, this`log
      ensures db == old(db)[plan.id := plan.Row()] && log == old(log) + [Saved(plan.Row())]
    {
      db := db[plan.id := plan.Row()];
      log := log + [Saved(plan.Row())];
    }

    method CreatePlan(id: PlanId, steps: seq<Step>) returns (plan: RemediationPlan)
      requires Valid() && id !in db
      modifies this
      ensures Valid() && fresh(plan) && plans == old(plans)[id := plan]
      ensures plan.Row() == Created(id, steps) && db == old(db)[id := Created(id, steps)]
      ensures log == old(log) + [Saved(Created(id, steps))]
    {
      var states := seq(|steps|, i requires 0 <= i < |steps| => StepState(steps[i].order, Pending));
      plan := new RemediationPlan(PlanRow(id, PendingApproval, steps, states, EffectiveTier(steps)));
      if !RequiresApproval(steps) {
        plan.status := InExecution;
      }
      PersistPlan(plan);
      plans := plans[id := plan];
    }

    /** The process ends: memory is gone, the table stays. */
    method Crash()
      modifies this`plans
      ensures plans == map[] && (old(Valid()) ==> Valid())
    {
      plans := map[];
    }

    method LoadPlan(id: PlanId) returns (plan: RemediationPlan?)
      requires Valid() && id !in plans
      modifies this`plans
      ensures Valid()
      ensures plan != null <==> id in db
      ensures if plan == null then plans == old(plans) else fresh(plan) && plans == old(plans)[id := plan] && plan.Row() == db[id]
    {
      plan := null;
      if id in db {
        plan := new RemediationPlan(db[id]);
        plans := plans[id := plan];
      }
    }

    /**
     approve_plan, reject_plan and expire_plan, which differ in the status they assign: the plan
     returned is null unless the table holds the plan as pending approval.
    */
    method ResolvePlan(id: PlanId, to: PlanStatus) returns (plan: RemediationPlan?)
      requires Valid() && (to == InExecution || to == Rejected || to == Expired)
      modifies this, if id in plans then {plans[id]} else {}
      ensures Valid()
      ensures plan != null <==> id in old(db) && old(db)[id].status == PendingApproval
      ensures plan != null ==>
        && id in plans && plans[id] == plan
        && plan.Row() == old(db)[id].(status := to)
        && db == old(db)[id := plan.Row()]
        && log == old(log) + [Saved(plan.Row())]
      ensures plan == null ==> db == old(db) && log == old(log)
    {
      if id in plans {
        plan := plans[id];
      } else {
        plan := LoadPlan(id);
      }
      if plan == null || plan.status != PendingApproval {
        return null;
      }
      plan.status := to;
      PersistPlan(plan);
      plans := plans[id := plan];
    }

    /** Reloads every plan saved as in execution, with interrupted steps made ready again; runs nothing. */
    method ResumeInProgress() returns (resumed: seq<RemediationPlan>)
      requires Valid()
      modifies this`plans
      ensures Valid()
      ensures forall p :: p in resumed ==> fresh(p) && p.id in db && db[p.id].status == InExecution && p.Row() == Resumed(db[p.id])
      ensures forall p :: p in resumed ==> ReadyAgain(db[p.id], p.Row())
      ensures forall id :: id in db && db[id].status == InExecution ==> id in plans && plans[id] in resumed
    {
      resumed := [];
      var ids := Enumerate(db.Keys);
      for i := 0 to |ids|
        invariant Valid()
        invariant forall p :: p in resumed ==> fresh(p) && p.id in db && db[p.id].status == InExecution && p.Row() == Resumed(db[p.id])
        invariant forall k :: 0 <= k < i && db[ids[k]].status == InExecution ==> ids[k] in plans && plans[ids[k]] in resumed
      {
        var row := db[ids[i]];
        if row.status == InExecution {
          var plan := new RemediationPlan(Resumed(row));
          plans := plans[plan.id := plan];
          resumed := resumed + [plan];
        }
      }
      forall p | p in resumed
        ensures ReadyAgain(db[p.id], p.Row())
      {
        ResumedIsReady(db[p.id]);
      }
    }

    /** Fails or blocks a step and the plan with it, and saves both at once. */
    method AbortPlan(plan: RemediationPlan, order: int, status: StepStatus)
      requires HasOrder(plan.Row(), order)
      modifies this`db, this`log, plan
      ensures plan.Row() == Abort(old(plan.Row()), order, status)
      ensures db == old(db)[plan.id := plan.Row()] && log == old(log) + Stop(plan.Row()).log
    {
      plan.SetStep(order, status);
      plan.status := Aborted;
      PersistPlan(plan);
    }

    /** After a successful handler call: verify, and save what that says. */
    method VerifyStep(plan: RemediationPlan, order: int, answer: VerifyAnswer)
      requires HasOrder(plan.Row(), order)
      modifies this`db, this`log, plan
      ensures plan.Row() == Plans.VerifyStep(old(plan.Row()), order, answer).row
      ensures db == old(db)[plan.id := plan.Row()]
      ensures log == old(log) + Plans.VerifyStep(old(plan.Row()), order, answer).log
    {
      log := log + [Verified(order)];
      if answer != Checked(true) {
        AbortPlan(plan, order, Failed);
      } else {
        plan.SetStep(order, Succeeded);
        PersistPlan(plan);
      }
    }

    method AfterReturn(plan: RemediationPlan, order: int, success: bool, answer: VerifyAnswer)
      requires HasOrder(plan.Row(), order)
      modifies this`db, this`log, plan
      ensures plan.Row() == Plans.AfterReturn(old(plan.Row()), order, success, answer).row
      ensures db == old(db)[plan.id := plan.Row()]
      ensures log == old(log) + Plans.AfterReturn(old(plan.Row()), order, success, answer).log
    {
      if !success {
        AbortPlan(plan, order, Failed);
      } else {
        MarkGet(plan.Row(), order, Verifying);
        plan.SetStep(order, Verifying);
        PersistPlan(plan);
        VerifyStep(plan, order, answer);
      }
    }

    method CallHandler(plan: RemediationPlan, step: Step, entity: EntityName, outcome: Outcome)
      requires HasOrder(plan.Row(), step.order)
      modifies this`db, this`log, plan
      ensures plan.Row() == Plans.CallHandler(old(plan.Row()), step, entity, outcome).row
      ensures db == old(db)[plan.id := plan.Row()]
      ensures log == old(log) + Plans.CallHandler(old(plan.Row()), step, entity, outcome).log
    {
      if !outcome.hasHandler {
        AbortPlan(plan, step.order, Failed);
        return;
      }
      log := log + [Executed(step.order)];
      if outcome.execute.ExecuteRaised? {
        AbortPlan(plan, step.order, Failed);
        return;
      }
      var success := outcome.execute.status == Success;
      log := log + [Attempted(if step.target.Some? then step.target.value else entity, success)];
      AfterReturn(plan, step.order, success, outcome.verify);
    }

    /** One iteration of the main loop. */
    method RunStep(plan: RemediationPlan, step: Step, entity: EntityName, world: World)
      requires HasOrder(plan.Row(), step.order) && plan.status == InExecution && plan.id in db
      modifies this`db, this`log, plan
      ensures plan.Row() == StepRun(old(plan.Row()), step, entity, world).row
      ensures plan.id in db && db == old(db)[plan.id := db[plan.id]]
      ensures db[plan.id] == plan.Row() || (plan.Row() == old(plan.Row()) && db == old(db))
      ensures log == old(log) + StepRun(old(plan.Row()), step, entity, world).log
    {
      if Done(plan.Row(), step.order) {
        return;
      }
      var verdict := Evaluate(step.dependsOn, step.conditional, plan.states);
      if verdict == Blocked {
        AbortPlan(plan, step.order, Blocked);
      } else if verdict == Skipped {
        plan.SetStep(step.order, Skipped);
        PersistPlan(plan);
      } else {
        MarkGet(plan.Row(), step.order, Executing);
        plan.SetStep(step.order, Executing);
        PersistPlan(plan);
        CallHandler(plan, step, entity, world(step.order));
      }
    }

    /** One iteration, seen as progress towards the plan `end` and the log `total`. */
    method Iterate(plan: RemediationPlan, todo: seq<Step>, entity: EntityName, world: World, ghost end: PlanRow, ghost total: seq<Entry>)
      requires todo != [] && Remaining(end, total, log, plan.Row(), todo, entity, world) && plan.id in db
      modifies this`db, this`log, plan
      ensures plan.id in db && db == old(db)[plan.id := db[plan.id]]
      ensures plan.status == Aborted ==> plan.Row() == end && log == total && db[plan.id] == end
      ensures plan.status != Aborted ==> Remaining(end, total, log, plan.Row(), todo[1..], entity, world)
    {
      RemainingStep(end, total, log, plan.Row(), todo, entity, world);
      RunStep(plan, todo[0], entity, world);
    }

    /** The main loop and the completion after it. */
    method RunLoop(plan: RemediationPlan, sorted: seq<Step>, entity: EntityName, world: World)
      requires plan.status == InExecution && plan.id in db && forall s :: s in sorted ==> HasOrder(plan.Row(), s.order)
      modifies this`db, this`log, plan
      ensures plan.Row() == RunSteps(old(plan.Row()), sorted, entity, world).row
      ensures db == old(db)[plan.id := plan.Row()]
      ensures log == old(log) + RunSteps(old(plan.Row()), sorted, entity, world).log
    {
      ghost var run := RunSteps(plan.Row(), sorted, entity, world);
      ghost var total := log + run.log;
      var todo := sorted;
      while todo != []
        invariant plan.id in db && db == old(db)[plan.id := db[plan.id]]
        invariant Remaining(run.row, total, log, plan.Row(), todo, entity, world)
        decreases |todo|
      {
        Iterate(plan, todo, entity, world, run.row, total);
        if plan.status == Aborted {
          return;
        }
        todo := todo[1..];
      }
      plan.status := Completed;
      PersistPlan(plan);
    }

    /** Saves the plan as executing and makes interrupted steps ready again. */
    method BeginExecution(plan: RemediationPlan)
      modifies this`db, this`log, plan
      ensures
        var started := old(plan.Row()).(status := InExecution);
        && plan.Row() == started.(states := Reset(started.states))
        && db == old(db)[plan.id := started] && log == old(log) + [Saved(started)]
    {
      plan.status := InExecution;
      PersistPlan(plan);
      plan.states := Reset(plan.states);
    }

    method ExecutePlan(plan: RemediationPlan, entity: EntityName, world: World)
      requires WellFormed(plan.Row())
      modifies this`db, this`log, plan
      ensures plan.Row() == Plans.ExecutePlan(old(plan.Row()), entity, world).row
      ensures db == old(db)[plan.id := plan.Row()]
      ensures log == old(log) + Plans.ExecutePlan(old(plan.Row()), entity, world).log
    {
      var sorted := SortSteps(plan.steps);
      ResetKeepsOrders(plan.Row(), sorted);
      BeginExecution(plan);
      RunLoop(plan, sorted, entity, world);
    }
  }

  /** What is still to be done leads to the plan `end` and the log `total`. */
  ghost predicate Remaining(end: PlanRow, total: seq<Entry>, log: seq<Entry>, row: PlanRow, todo: seq<Step>, entity: EntityName, world: World) {
    && row.status == InExecution
    && (forall s :: s in todo ==> HasOrder(row, s.order))
    && end == RunSteps(row, todo, entity, world).row
    && total == log + RunSteps(row, todo, entity, world).log
  }

  lemma {:induction false} RemainingStep(end: PlanRow, total: seq<Entry>, log: seq<Entry>, row: PlanRow, todo: seq<Step>, entity: EntityName, world: World)
    requires Remaining(end, total, log, row, todo, entity, world) && todo != []
    ensures HasOrder(row, todo[0].order)
    ensures
      var first := StepRun(row, todo[0], entity, world);
      if first.row.status == Aborted then end == first.row && total == log + first.log
      else Remaining(end, total, log + first.log, first.row, todo[1..], entity, world)
  {
    assert todo[0] in todo;
    var first := StepRun(row, todo[0], entity, world);
    StepThenRest(row, todo, entity, world);
    StepKeepsOrders(row, todo, entity, world);
    Appended(log, first.log, RunSteps(first.row, todo[1..], entity, world).log);
  }

  lemma {:induction false} Appended(a: seq<Entry>, b: seq<Entry>, c: seq<Entry>)
    ensures a + (b + c) == (a + b) + c
  {
  }

  lemma {:induction false} ResetKeepsOrders(row: PlanRow, todo: seq<Step>)
    requires WellFormed(row) && todo == SortSteps(row.steps)
    ensures forall s :: s in todo ==> StatusOf(Reset(row.states), s.order).Some?
  {
    SortSorts(row.steps);
    forall s | s in todo
      ensures StatusOf(Reset(row.states), s.order).Some?
    {
      ResetGet(row.states, s.order);
    }
  }
}
