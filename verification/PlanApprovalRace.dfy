/**
 Concurrent approve_plan, reject_plan and expire_plan calls for one plan, split at their awaits.

 The three documented compare-and-swaps read and write a cached plan object without an await
 in between, but a plan that is not cached is first loaded, and two calls may both be loading.
*/
module PlanApprovalRace {
  import opened Wrappers
  import opened Plans

  /** Where a call that wants to move the plan to `to` has got to; `obj` is the plan object it holds. */
  datatype Call =
    | NotStarted(to: PlanStatus)
    | Reading(to: PlanStatus)
    | HasRow(to: PlanStatus, read: PlanStatus)
    | Saving(to: PlanStatus, obj: nat)
    | Returned(to: PlanStatus)
    | Refused

  /** The saved status, the cached plan object if any, the status of every plan object, and the calls. */
  datatype Race = Race(saved: PlanStatus, cached: Option<nat>, objects: seq<PlanStatus>, calls: seq<Call>)

  ghost predicate Valid(r: Race) {
    && (r.cached.Some? ==> r.cached.value < |r.objects|)
    && forall i :: 0 <= i < |r.calls| && r.calls[i].Saving? ==> r.calls[i].obj < |r.objects|
  }

  /** The check and the assignment after it, which no other call can come between. */
  function CheckAndSet(r: Race, i: nat, obj: nat): Race
    requires i < |r.calls| && obj < |r.objects| && !r.calls[i].Refused?
  {
    if r.objects[obj] != PendingApproval then r.(calls := r.calls[i := Refused])
    else
      var to := r.calls[i].to;
      r.(objects := r.objects[obj := to], calls := r.calls[i := Saving(to, obj)])
  }

  /** Call `i` runs to its next await. */
  function Advance(r: Race, i: nat): Race
    requires i < |r.calls| && Valid(r)
  {
    match r.calls[i]
    case NotStarted(to) =>
      if r.cached.Some? then CheckAndSet(r, i, r.cached.value) else r.(calls := r.calls[i := Reading(to)])
    case Reading(to) => r.(calls := r.calls[i := HasRow(to, r.saved)])
    case HasRow(to, read) =>
      var obj := |r.objects|;
      CheckAndSet(r.(objects := r.objects + [read], cached := Some(obj)), i, obj)
    case Saving(to, obj) => r.(saved := to, cached := Some(obj), calls := r.calls[i := Call.Returned(to)])
    case _ => r
  }

  lemma {:induction false} AdvanceValid(r: Race, i: nat)
    requires i < |r.calls| && Valid(r)
    ensures Valid(Advance(r, i)) && |Advance(r, i).calls| == |r.calls|
  {
  }

  /** The calls take turns as the schedule says; indices that name no call are idle turns. */
  function Play(r: Race, schedule: seq<nat>): Race
    requires Valid(r)
    decreases |schedule|
  {
    if schedule == [] then r
    else if schedule[0] < |r.calls| then
      AdvanceValid(r, schedule[0]);
      Play(Advance(r, schedule[0]), schedule[1..])
    else Play(r, schedule[1..])
  }

  /** Past its check, a call goes on to return the plan. */
  predicate Wins(c: Call) {
    c.Saving? || c.Returned?
  }

  ghost predicate AtMostOneWins(calls: seq<Call>) {
    forall i, j :: 0 <= i < j < |calls| ==> !(Wins(calls[i]) && Wins(calls[j]))
  }

  /** A pending plan, in the cache or not, and the calls about to be made. */
  function Before(inCache: bool, targets: seq<PlanStatus>): Race {
    Race(PendingApproval,
         if inCache then Some(0) else None,
         if inCache then [PendingApproval] else [],
         seq(|targets|, i requires 0 <= i < |targets| => NotStarted(targets[i])))
  }

  ghost predicate Targets(targets: seq<PlanStatus>) {
    forall i :: 0 <= i < |targets| ==> targets[i] == InExecution || targets[i] == Rejected || targets[i] == Expired
  }

  /** With the plan cached there is one object, and its status tells whether someone has won. */
  ghost predicate OneObject(r: Race) {
    && Valid(r)
    && |r.objects| == 1
    && r.cached == Some(0)
    && AtMostOneWins(r.calls)
    && (forall i :: 0 <= i < |r.calls| ==> !r.calls[i].Reading? && !r.calls[i].HasRow?)
    && (forall i :: 0 <= i < |r.calls| && r.calls[i].NotStarted? ==> r.calls[i].to != PendingApproval)
    && (r.objects[0] == PendingApproval ==> forall i :: 0 <= i < |r.calls| ==> !Wins(r.calls[i]))
  }

  lemma {:induction false} CachedIsSafe(r: Race, schedule: seq<nat>)
    requires OneObject(r)
    ensures AtMostOneWins(Play(r, schedule).calls)
    decreases |schedule|
  {
    if schedule != [] {
      var i := schedule[0];
      if i < |r.calls| {
        assert OneObject(Advance(r, i));
        CachedIsSafe(Advance(r, i), schedule[1..]);
      } else {
        CachedIsSafe(r, schedule[1..]);
      }
    }
  }

  /** Two calls on a plan that is not cached: both start loading, both read it as pending, both go ahead. */
  lemma {:induction false} ColdRace(targets: seq<PlanStatus>)
    requires |targets| >= 2
    ensures
      var calls := Play(Before(false, targets), [0, 1, 0, 1, 0, 1]).calls;
      |calls| == |targets| && Wins(calls[0]) && Wins(calls[1])
  {
    var r0 := Before(false, targets);
    var r1 := Advance(r0, 0);
    var r2 := Advance(r1, 1);
    var r3 := Advance(r2, 0);
    var r4 := Advance(r3, 1);
    var r5 := Advance(r4, 0);
    var r6 := Advance(r5, 1);
    assert r4.calls[0] == HasRow(targets[0], PendingApproval) && r4.calls[1] == HasRow(targets[1], PendingApproval);
    calc {
      Play(r0, [0, 1, 0, 1, 0, 1]);
      Play(r1, [1, 0, 1, 0, 1]);
      Play(r2, [0, 1, 0, 1]);
      Play(r3, [1, 0, 1]);
      Play(r4, [0, 1]);
      Play(r5, [1]);
      Play(r6, []);
    }
  }

  /**
   The calls exclude each other on every schedule if and only if the plan was cached when they
   began or there is only one of them.
  */
  lemma {:induction false} ExclusiveIffCached(inCache: bool, targets: seq<PlanStatus>)
    requires Targets(targets)
    ensures (forall schedule :: AtMostOneWins(Play(Before(inCache, targets), schedule).calls)) <==> inCache || |targets| <= 1
  {
    if inCache {
      assert OneObject(Before(true, targets));
      forall schedule
        ensures AtMostOneWins(Play(Before(inCache, targets), schedule).calls)
      {
        CachedIsSafe(Before(true, targets), schedule);
      }
    } else if |targets| <= 1 {
      forall schedule
        ensures AtMostOneWins(Play(Before(inCache, targets), schedule).calls)
      {
        PlayKeepsCalls(Before(inCache, targets), schedule);
      }
    } else {
      ColdRace(targets);
      assert !AtMostOneWins(Play(Before(inCache, targets), [0, 1, 0, 1, 0, 1]).calls);
    }
  }

  lemma {:induction false} PlayKeepsCalls(r: Race, schedule: seq<nat>)
    requires Valid(r)
    ensures |Play(r, schedule).calls| == |r.calls|
    decreases |schedule|
  {
    if schedule != [] {
      if schedule[0] < |r.calls| {
        AdvanceValid(r, schedule[0]);
        PlayKeepsCalls(Advance(r, schedule[0]), schedule[1..]);
      } else {
        PlayKeepsCalls(r, schedule[1..]);
      }
    }
  }
}
