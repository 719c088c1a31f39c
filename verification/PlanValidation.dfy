/**
 The second pass of `_validate_plan_steps`, which strips steps with bad dependencies from a plan
 the reasoning model proposed, in one pass over the orders it started with.
*/
module PlanValidation {
  import opened Wrappers
  import opened Collections
  import opened Plans
  import opened PlanRuns
  import opened PlanOutcome

  function OrdersOf(steps: seq<Step>): set<int> {
    set s | s in steps :: s.order
  }

  /** Every dependency is an existing order, and a smaller one. */
  predicate Sane(orders: set<int>, step: Step) {
    forall i :: 0 <= i < |step.dependsOn| ==> step.dependsOn[i] in orders && step.dependsOn[i] < step.order
  }

  function Kept(orders: set<int>, steps: seq<Step>): seq<Step> {
    if steps == [] then []
    else
      var last := steps[|steps| - 1];
      Kept(orders, steps[..|steps| - 1]) + if Sane(orders, last) then [last] else []
  }

  /** None if no step remains. */
  function Validated(steps: seq<Step>): Option<seq<Step>> {
    var kept := Kept(OrdersOf(steps), steps);
    if kept == [] then None else Some(kept)
  }

  method ValidateSteps(steps: seq<Step>) returns (validated: Option<seq<Step>>)
    ensures validated == Validated(steps)
  {
    var orders := set s | s in steps :: s.order;
    var kept: seq<Step> := [];
    for i := 0 to |steps|
      invariant kept == Kept(orders, steps[..i])
    {
      assert steps[..i + 1][..i] == steps[..i];
      var step := steps[i];
      var sane := true;
      for k := 0 to |step.dependsOn|
        invariant sane <==> forall j :: 0 <= j < k ==> step.dependsOn[j] in orders && step.dependsOn[j] < step.order
      {
        if step.dependsOn[k] !in orders || step.dependsOn[k] >= step.order {
          sane := false;
        }
      }
      if sane {
        kept := kept + [step];
      }
    }
    assert steps[..|steps|] == steps;
    validated := if kept == [] then None else Some(kept);
  }

  lemma {:induction false} KeptAre(orders: set<int>, steps: seq<Step>, step: Step)
    ensures step in Kept(orders, steps) <==> step in steps && Sane(orders, step)
  {
    if steps != [] {
      var n := |steps| - 1;
      KeptAre(orders, steps[..n], step);
      assert steps == steps[..n] + [steps[n]];
    }
  }

  /** Every dependency is the order of some proposed step, and smaller. */
  ghost predicate Passes(steps: seq<Step>, step: Step) {
    forall d :: d in step.dependsOn ==> d < step.order && exists t :: t in steps && t.order == d
  }

  lemma {:induction false} PassesIffSane(steps: seq<Step>, step: Step)
    ensures Sane(OrdersOf(steps), step) <==> Passes(steps, step)
  {
    if Sane(OrdersOf(steps), step) {
      forall d | d in step.dependsOn
        ensures d < step.order && exists t :: t in steps && t.order == d
      {
        var i :| 0 <= i < |step.dependsOn| && step.dependsOn[i] == d;
      }
    }
    if Passes(steps, step) {
      forall i | 0 <= i < |step.dependsOn|
        ensures step.dependsOn[i] in OrdersOf(steps) && step.dependsOn[i] < step.order
      {
        var d := step.dependsOn[i];
        assert d in step.dependsOn;
        var t :| t in steps && t.order == d;
      }
    }
  }

  ghost function PassingAt(steps: seq<Step>, all: seq<Step>): set<int> {
    set i | 0 <= i < |steps| && Passes(all, steps[i])
  }

  lemma {:induction false} KeptAt(all: seq<Step>, steps: seq<Step>) returns (at: seq<nat>)
    ensures Selects(at, |steps|, PassingAt(steps, all)) && PickedAt(Kept(OrdersOf(all), steps), steps, at)
  {
    if steps == [] {
      at := [];
    } else {
      var n := |steps| - 1;
      at := KeptAt(all, steps[..n]);
      var list := Kept(OrdersOf(all), steps[..n]);
      assert list + [] == list;
      PassesIffSane(all, steps[n]);
      at := PickNext(list, steps, n, at, PassingAt(steps[..n], all), PassingAt(steps, all));
    }
  }

  /** What is validated are, in their order, exactly the steps all of whose dependencies are orders of proposed steps and smaller than their own; nothing is if there are none. */
  lemma {:induction false} ValidatedAre(steps: seq<Step>) returns (at: seq<nat>)
    ensures Selects(at, |steps|, PassingAt(steps, steps))
    ensures if at == [] then Validated(steps) == None else Validated(steps).Some? && PickedAt(Validated(steps).value, steps, at)
  {
    at := KeptAt(steps, steps);
  }

  // ----- What the stripped steps leave behind, in terms of the proposed plan -----

  /** Each dependency names an order of which some proposed step passes the check. */
  ghost predicate DepsSurvive(steps: seq<Step>, step: Step) {
    forall d :: d in step.dependsOn ==> exists t :: t in steps && t.order == d && Sane(OrdersOf(steps), t)
  }

  lemma {:induction false} DependsIffSurvive(steps: seq<Step>, step: Step)
    requires Sane(OrdersOf(steps), step)
    ensures DependsOnEarlier(Kept(OrdersOf(steps), steps), step) <==> DepsSurvive(steps, step)
  {
    var orders := OrdersOf(steps);
    forall t
      ensures t in Kept(orders, steps) <==> t in steps && Sane(orders, t)
    {
      KeptAre(orders, steps, t);
    }
    forall d | d in step.dependsOn
      ensures d < step.order
    {
      var i :| 0 <= i < |step.dependsOn| && step.dependsOn[i] == d;
    }
  }

  /**
   What validation lets through is well-founded if and only if, among the proposed steps, whatever
   a step that passes depends on is an order of which some step passes too.
  */
  lemma {:induction false} ValidIffDepsSurvive(steps: seq<Step>)
    ensures WellFounded(Kept(OrdersOf(steps), steps)) <==>
            forall s :: s in steps && Sane(OrdersOf(steps), s) ==> DepsSurvive(steps, s)
  {
    var orders := OrdersOf(steps);
    forall s
      ensures s in Kept(orders, steps) <==> s in steps && Sane(orders, s)
      ensures Sane(orders, s) ==> (DependsOnEarlier(Kept(orders, steps), s) <==> DepsSurvive(steps, s))
    {
      KeptAre(orders, steps, s);
      if Sane(orders, s) {
        DependsIffSurvive(steps, s);
      }
    }
  }

  /** The i-th proposed step passes, and none of its order before it does. */
  predicate FirstSane(orders: set<int>, steps: seq<Step>, i: nat) {
    && i < |steps| && Sane(orders, steps[i])
    && forall j :: 0 <= j < i && steps[j].order == steps[i].order ==> !Sane(orders, steps[j])
  }

  lemma {:induction false} OfOrderAppend(a: seq<Step>, step: Step, order: int)
    ensures OfOrder(a + [step], order) == OfOrder(a, order) + OneOf(step, order)
  {
    if a == [] {
      assert a + [step] == [step] && [step][1..] == [];
    } else {
      assert (a + [step])[1..] == a[1..] + [step];
      OfOrderAppend(a[1..], step, order);
    }
  }

  /** What the last proposed step adds to the kept steps of an order. */
  lemma {:induction false} KeptOfOrder(orders: set<int>, steps: seq<Step>, order: int)
    requires steps != []
    ensures
      var before, last := steps[..|steps| - 1], steps[|steps| - 1];
      OfOrder(Kept(orders, steps), order) == OfOrder(Kept(orders, before), order) + if Sane(orders, last) then OneOf(last, order) else []
  {
    var kept := Kept(orders, steps[..|steps| - 1]);
    OfOrderAppend(kept, steps[|steps| - 1], order);
    assert kept + [] == kept && OfOrder(kept, order) + [] == OfOrder(kept, order);
  }

  lemma {:induction false} NoneOfOrder(orders: set<int>, steps: seq<Step>, order: int)
    ensures OfOrder(Kept(orders, steps), order) == [] <==>
            forall j :: 0 <= j < |steps| && steps[j].order == order ==> !Sane(orders, steps[j])
  {
    if steps != [] {
      var n := |steps| - 1;
      NoneOfOrder(orders, steps[..n], order);
      KeptOfOrder(orders, steps, order);
      assert forall j :: 0 <= j < n ==> steps[..n][j] == steps[j];
    }
  }

  lemma {:induction false} FirstSaneBefore(orders: set<int>, steps: seq<Step>, n: nat, i: nat)
    requires i < n <= |steps|
    ensures FirstSane(orders, steps[..n], i) <==> FirstSane(orders, steps, i)
  {
    assert forall j :: 0 <= j < n ==> steps[..n][j] == steps[j];
  }

  lemma {:induction false} FirstKeptIsSane(orders: set<int>, steps: seq<Step>, step: Step) returns (i: nat)
    requires IsFirst(Kept(orders, steps), step)
    ensures FirstSane(orders, steps, i) && steps[i] == step
  {
    var n := |steps| - 1;
    KeptOfOrder(orders, steps, step.order);
    if OfOrder(Kept(orders, steps[..n]), step.order) == [] {
      NoneOfOrder(orders, steps[..n], step.order);
      i := n;
    } else {
      i := FirstKeptIsSane(orders, steps[..n], step);
      FirstSaneBefore(orders, steps, n, i);
    }
  }

  /** The first kept step of an order is the first proposed one of it that passes. */
  lemma {:induction false} FirstSaneIsKept(orders: set<int>, steps: seq<Step>, i: nat)
    requires FirstSane(orders, steps, i)
    ensures IsFirst(Kept(orders, steps), steps[i])
  {
    var n := |steps| - 1;
    KeptOfOrder(orders, steps, steps[i].order);
    if i < n {
      FirstSaneBefore(orders, steps, n, i);
      FirstSaneIsKept(orders, steps[..n], i);
    } else {
      NoneOfOrder(orders, steps[..n], steps[i].order);
    }
  }

  /**
   A validated plan can complete if and only if, among the proposed steps, whatever the first step
   of an order that passes depends on is an order of which some step passes too.
  */
  lemma {:induction false} ValidatedCanCompleteIff(id: PlanId, steps: seq<Step>, entity: EntityName)
    ensures
      var row := Created(id, Kept(OrdersOf(steps), steps)).(status := InExecution);
      CanComplete(row, entity) <==> forall i: nat :: FirstSane(OrdersOf(steps), steps, i) ==> DepsSurvive(steps, steps[i])
  {
    var orders := OrdersOf(steps);
    var kept := Kept(orders, steps);
    CanCompleteIffFirstsHold(Created(id, kept).(status := InExecution), entity);
    forall i: nat | FirstSane(orders, steps, i)
      ensures IsFirst(kept, steps[i])
      ensures DependsOnEarlier(kept, steps[i]) <==> DepsSurvive(steps, steps[i])
    {
      FirstSaneIsKept(orders, steps, i);
      DependsIffSurvive(steps, steps[i]);
    }
    forall s | IsFirst(kept, s)
      ensures exists i: nat :: FirstSane(orders, steps, i) && steps[i] == s
    {
      var i := FirstKeptIsSane(orders, steps, s);
    }
  }

  lemma {:induction false} KeptTwo(orders: set<int>, one: Step, two: Step)
    requires !Sane(orders, one) && Sane(orders, two)
    ensures Kept(orders, [one, two]) == [two]
  {
    assert [one, two][..1] == [one] && [one][..0] == [];
    assert Kept(orders, [one]) == [];
  }

  lemma {:induction false} AloneIsNotWellFounded(two: Step)
    requires two.dependsOn == [1] && two.order == 2
    ensures !WellFounded([two]) && DistinctOrders([two])
  {
    assert two in [two] && 1 in two.dependsOn;
    assert !Among([two], 1);
    assert !DependsOnEarlier([two], two);
  }

  /** Step 1 depends on a step there is not and is stripped; step 2 depends on step 1, is kept, and can never run. */
  lemma {:induction false} StrippedStepLeavesADangler(id: PlanId, entity: EntityName, world: World)
    ensures
      var one, two := Step(1, AutoFix, None, [9], false), Step(2, AutoFix, None, [1], false);
      && Validated([one, two]) == Some([two])
      && ExecutePlan(Created(id, [two]), entity, world).row.status != Completed
  {
    var one, two := Step(1, AutoFix, None, [9], false), Step(2, AutoFix, None, [1], false);
    var orders := OrdersOf([one, two]);
    assert one in [one, two] && two in [one, two];
    assert orders == {1, 2};
    assert one.dependsOn[0] == 9 && !Sane(orders, one) && Sane(orders, two);
    KeptTwo(orders, one, two);
    AloneIsNotWellFounded(two);
    CanCompleteIffWellFounded(Created(id, [two]), entity);
  }
}
