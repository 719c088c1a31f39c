/**
 What the circuit breaker answers, told by the operations themselves: which records an operation
 still counts, when the breaker trips, and for how long.
*/
module BreakerHistory {
  import opened Wrappers
  import opened CircuitBreaker

  // ----- Which records count -----

  /** Does the operation forget the attempts of this entity? */
  predicate Erases(op: Op, entity: EntityName) {
    op == ResetOp(None) || op == ResetOp(Some(entity))
  }

  /** The j-th of the first n operations recorded an attempt that none after it has erased. */
  ghost predicate Remembered(ops: seq<Op>, n: nat, j: int)
    requires n <= |ops|
  {
    0 <= j < n && ops[j].RecordOp? && forall i :: j < i < n ==> !Erases(ops[i], ops[j].entity)
  }

  /** The operations whose records the k-th one, which may be a record itself, finds in its window. */
  ghost function Window(c: Config, ops: seq<Op>, k: nat): set<int>
    requires k < |ops| && !ops[k].ResetOp?
  {
    set j | 0 <= j <= k && Remembered(ops, k + 1, j) && ops[j].recordedAt >= ops[k].readings.pruneAt - c.window
  }

  ghost function Failing(c: Config, ops: seq<Op>, k: nat): set<int>
    requires k < |ops| && !ops[k].ResetOp?
  {
    set j | j in Window(c, ops, k) && !ops[j].success
  }

  ghost function Own(c: Config, ops: seq<Op>, k: nat): set<int>
    requires k < |ops| && !ops[k].ResetOp?
  {
    set j | j in Window(c, ops, k) && ops[j].entity == ops[k].entity
  }

  // ----- When the breaker is tripped -----

  /** At least five attempts, and failures / attempts at or above rateNum / rateDen. */
  ghost predicate RateHigh(c: Config, ops: seq<Op>, k: nat)
    requires k < |ops| && !ops[k].ResetOp?
  {
    |Window(c, ops, k)| >= 5 && |Failing(c, ops, k)| * c.rateDen >= c.rateNum * |Window(c, ops, k)|
  }

  /** No full reset strictly between the two. */
  predicate Unbroken(ops: seq<Op>, i: nat, k: nat)
    requires k <= |ops|
  {
    forall m :: i < m < k ==> ops[m] != ResetOp(None)
  }

  /** An earlier trip is still inside its pause when the k-th operation looks. */
  ghost predicate Paused(c: Config, ops: seq<Op>, k: nat)
    requires k < |ops| && !ops[k].ResetOp?
    decreases k, 0
  {
    exists i: nat :: i < k && Trips(c, ops, i) && Unbroken(ops, i, k) && ops[k].readings.globalAt - ops[i].readings.globalAt < c.pause
  }

  /** The i-th operation begins a pause. */
  ghost predicate Trips(c: Config, ops: seq<Op>, i: nat)
    requires i < |ops|
    decreases i, 1
  {
    !ops[i].ResetOp? && !Paused(c, ops, i) && RateHigh(c, ops, i)
  }

  ghost predicate Tripped(c: Config, ops: seq<Op>, k: nat)
    requires k < |ops| && !ops[k].ResetOp?
  {
    Paused(c, ops, k) || RateHigh(c, ops, k)
  }

  /** One of the entity's own attempts in the window is less than the cooldown back. */
  ghost predicate TooSoon(c: Config, ops: seq<Op>, k: nat)
    requires k < |ops| && !ops[k].ResetOp?
  {
    exists j :: j in Own(c, ops, k) && ops[k].readings.cooldownAt - ops[j].recordedAt < c.cooldown
  }

  // ----- The history as a list of operations -----

  /** The remembered operations, in order. */
  ghost function Live(ops: seq<Op>, n: nat): seq<nat>
    requires n <= |ops|
  {
    if n == 0 then []
    else
      match ops[n - 1]
      case RecordOp(_, _, _, _) => Live(ops, n - 1) + [n - 1]
      case CheckOp(_, _) => Live(ops, n - 1)
      case ResetOp(_) => Spared(Live(ops, n - 1), ops, ops[n - 1])
  }

  ghost function Spared(live: seq<nat>, ops: seq<Op>, reset: Op): seq<nat> {
    if live == [] then []
    else
      var j := live[|live| - 1];
      Spared(live[..|live| - 1], ops, reset) + if j < |ops| && ops[j].RecordOp? && !Erases(reset, ops[j].entity) then [j] else []
  }

  /** Is the operation among them? */
  ghost predicate Holds(live: seq<nat>, j: int) {
    live != [] && (live[|live| - 1] == j || Holds(live[..|live| - 1], j))
  }

  /** All of them are records before the n-th operation, in ascending order. */
  ghost predicate Rising(live: seq<nat>, ops: seq<Op>, n: nat) {
    n <= |ops| && (live == [] || (var j := live[|live| - 1]; j < n && ops[j].RecordOp? && Rising(live[..|live| - 1], ops, j)))
  }

  lemma {:induction false} HoldsAppend(live: seq<nat>, j: nat, i: int)
    ensures Holds(live + [j], i) <==> i == j || Holds(live, i)
  {
    assert (live + [j])[..|live|] == live;
  }

  lemma {:induction false} RisingAppend(live: seq<nat>, ops: seq<Op>, j: nat, n: nat)
    requires Rising(live, ops, j) && j < n <= |ops| && ops[j].RecordOp?
    ensures Rising(live + [j], ops, n)
  {
    assert (live + [j])[..|live|] == live;
  }

  lemma {:induction false} RisingFurther(live: seq<nat>, ops: seq<Op>, n: nat, m: nat)
    requires Rising(live, ops, n) && n <= m <= |ops|
    ensures Rising(live, ops, m)
  {
  }

  lemma {:induction false} HeldIsBelow(live: seq<nat>, ops: seq<Op>, n: nat, j: int)
    requires Rising(live, ops, n) && Holds(live, j)
    ensures 0 <= j < n && ops[j].RecordOp?
  {
    if live[|live| - 1] != j {
      HeldIsBelow(live[..|live| - 1], ops, live[|live| - 1], j);
    }
  }

  lemma {:induction false} SparedRises(live: seq<nat>, ops: seq<Op>, n: nat, reset: Op)
    requires Rising(live, ops, n)
    ensures Rising(Spared(live, ops, reset), ops, n)
  {
    if live != [] {
      var before, j := live[..|live| - 1], live[|live| - 1];
      SparedRises(before, ops, j, reset);
      if Erases(reset, ops[j].entity) {
        RisingFurther(Spared(before, ops, reset), ops, j, n);
        assert Spared(before, ops, reset) + [] == Spared(before, ops, reset);
      } else {
        RisingAppend(Spared(before, ops, reset), ops, j, n);
      }
    }
  }

  lemma {:induction false} SparedHolds(live: seq<nat>, ops: seq<Op>, n: nat, reset: Op, i: int)
    requires Rising(live, ops, n)
    ensures Holds(Spared(live, ops, reset), i) <==> Holds(live, i) && 0 <= i < |ops| && ops[i].RecordOp? && !Erases(reset, ops[i].entity)
  {
    if live != [] {
      var before, j := live[..|live| - 1], live[|live| - 1];
      SparedHolds(before, ops, j, reset, i);
      HoldsAppend(Spared(before, ops, reset), j, i);
      assert Spared(before, ops, reset) + [] == Spared(before, ops, reset);
      if Holds(before, i) {
        HeldIsBelow(before, ops, j, i);
      }
    }
  }

  lemma {:induction false} RememberedMore(ops: seq<Op>, n: nat, j: int)
    requires n < |ops|
    ensures Remembered(ops, n + 1, j) <==> (j == n && ops[n].RecordOp?) || (Remembered(ops, n, j) && !Erases(ops[n], ops[j].entity))
  {
  }

  lemma {:induction false} LiveRises(ops: seq<Op>, n: nat)
    requires n <= |ops|
    ensures Rising(Live(ops, n), ops, n)
  {
    if n > 0 {
      LiveRises(ops, n - 1);
      var before := Live(ops, n - 1);
      if ops[n - 1].RecordOp? {
        RisingAppend(before, ops, n - 1, n);
      } else if ops[n - 1].CheckOp? {
        RisingFurther(before, ops, n - 1, n);
      } else {
        SparedRises(before, ops, n - 1, ops[n - 1]);
        RisingFurther(Live(ops, n), ops, n - 1, n);
      }
    }
  }

  lemma {:induction false} LiveIsRemembered(ops: seq<Op>, n: nat, j: int)
    requires n <= |ops|
    ensures Holds(Live(ops, n), j) <==> Remembered(ops, n, j)
  {
    if n > 0 {
      LiveIsRemembered(ops, n - 1, j);
      RememberedMore(ops, n - 1, j);
      var before := Live(ops, n - 1);
      if ops[n - 1].RecordOp? {
        HoldsAppend(before, n - 1, j);
      } else if ops[n - 1].ResetOp? {
        LiveRises(ops, n - 1);
        SparedHolds(before, ops, n - 1, ops[n - 1], j);
      }
    }
  }

  /** What the operations recorded. */
  ghost function Records(live: seq<nat>, ops: seq<Op>): seq<Attempt> {
    if live == [] then []
    else
      var j := live[|live| - 1];
      Records(live[..|live| - 1], ops) + if j < |ops| && ops[j].RecordOp? then [Attempt(ops[j].entity, ops[j].recordedAt, ops[j].success)] else []
  }

  lemma {:induction false} RecordsAppend(live: seq<nat>, ops: seq<Op>, j: nat)
    requires j < |ops| && ops[j].RecordOp?
    ensures Records(live + [j], ops) == Records(live, ops) + [Attempt(ops[j].entity, ops[j].recordedAt, ops[j].success)]
  {
    assert (live + [j])[..|live|] == live;
  }

  lemma {:induction false} SparedRecords(live: seq<nat>, ops: seq<Op>, n: nat, entity: EntityName)
    requires Rising(live, ops, n)
    ensures Records(Spared(live, ops, ResetOp(Some(entity))), ops) == Without(Records(live, ops), entity)
  {
    if live != [] {
      var before, j := live[..|live| - 1], live[|live| - 1];
      SparedRecords(before, ops, j, entity);
      var spared, r := Spared(before, ops, ResetOp(Some(entity))), Records(before, ops);
      var a := Attempt(ops[j].entity, ops[j].recordedAt, ops[j].success);
      RecordsAppend(spared, ops, j);
      WithoutAppend(r, a, entity);
      assert spared + [] == spared && Without(r, entity) + [] == Without(r, entity);
    }
  }

  lemma {:induction false} WithoutAppend(attempts: seq<Attempt>, a: Attempt, entity: EntityName)
    ensures Without(attempts + [a], entity) == Without(attempts, entity) + if a.entity != entity then [a] else []
  {
    assert (attempts + [a])[..|attempts|] == attempts;
  }

  lemma {:induction false} SparedByFull(live: seq<nat>, ops: seq<Op>)
    ensures Spared(live, ops, ResetOp(None)) == []
  {
    if live != [] {
      SparedByFull(live[..|live| - 1], ops);
    }
  }

  /** The attempts not erased by the first n operations. */
  function AttemptsAt(ops: seq<Op>, n: nat): seq<Attempt>
    requires n <= |ops|
  {
    if n == 0 then []
    else
      match ops[n - 1]
      case RecordOp(e, ok, t, _) => AttemptsAt(ops, n - 1) + [Attempt(e, t, ok)]
      case CheckOp(_, _) => AttemptsAt(ops, n - 1)
      case ResetOp(None) => []
      case ResetOp(Some(e)) => Without(AttemptsAt(ops, n - 1), e)
  }

  lemma {:induction false} AttemptsAreLive(ops: seq<Op>, n: nat)
    requires n <= |ops|
    ensures AttemptsAt(ops, n) == Records(Live(ops, n), ops)
  {
    if n > 0 {
      var live := Live(ops, n - 1);
      AttemptsAreLive(ops, n - 1);
      match ops[n - 1]
      case RecordOp(_, _, _, _) => RecordsAppend(live, ops, n - 1);
      case CheckOp(_, _) =>
      case ResetOp(which) =>
        if which.None? {
          SparedByFull(live, ops);
        } else {
          LiveRises(ops, n - 1);
          SparedRecords(live, ops, n - 1, which.value);
        }
    }
  }

  // ----- Counting -----

  ghost function RecentOf(live: seq<nat>, ops: seq<Op>, cutoff: int): set<int> {
    set j | 0 <= j < |ops| && Holds(live, j) && ops[j].RecordOp? && ops[j].recordedAt >= cutoff
  }

  ghost function FailingOf(live: seq<nat>, ops: seq<Op>, cutoff: int): set<int> {
    set j | j in RecentOf(live, ops, cutoff) && !ops[j].success
  }

  ghost function OwnOf(live: seq<nat>, ops: seq<Op>, cutoff: int, entity: EntityName): set<int> {
    set j | j in RecentOf(live, ops, cutoff) && ops[j].entity == entity
  }

  lemma {:induction false} RecentMore(live: seq<nat>, ops: seq<Op>, n: nat, before: seq<nat>, j: nat, cutoff: int)
    requires Rising(live, ops, n) && live != [] && before == live[..|live| - 1] && j == live[|live| - 1]
    ensures j !in RecentOf(before, ops, cutoff)
    ensures RecentOf(live, ops, cutoff) == RecentOf(before, ops, cutoff) + if ops[j].recordedAt >= cutoff then {j as int} else {}
  {
    if Holds(before, j) {
      HeldIsBelow(before, ops, j, j);
    }
  }

  lemma {:induction false} KeptMore(live: seq<nat>, ops: seq<Op>, before: seq<nat>, j: nat, cutoff: int)
    requires live == before + [j] && j < |ops| && ops[j].RecordOp?
    ensures
      var a := Attempt(ops[j].entity, ops[j].recordedAt, ops[j].success);
      Prune(Records(live, ops), cutoff) == Prune(Records(before, ops), cutoff) + if a.at >= cutoff then [a] else []
  {
    RecordsAppend(before, ops, j);
    PruneAppend(Records(before, ops), Attempt(ops[j].entity, ops[j].recordedAt, ops[j].success), cutoff);
  }

  /** The pruned list counts what the sets count: all, ... */
  lemma {:induction false} RecentCount(live: seq<nat>, ops: seq<Op>, n: nat, cutoff: int)
    requires Rising(live, ops, n)
    ensures |Prune(Records(live, ops), cutoff)| == |RecentOf(live, ops, cutoff)|
  {
    if live != [] {
      var before, j := live[..|live| - 1], live[|live| - 1];
      RecentCount(before, ops, j, cutoff);
      RecentMore(live, ops, n, before, j, cutoff);
      KeptMore(live, ops, before, j, cutoff);
    }
  }

  lemma {:induction false} FailuresAppend(kept: seq<Attempt>, a: Attempt)
    ensures Failures(kept + [a]) == Failures(kept) + if a.success then 0 else 1
    ensures Failures(kept + []) == Failures(kept)
  {
    assert (kept + [a])[..|kept|] == kept && kept + [] == kept;
  }

  lemma {:induction false} OfAppend(kept: seq<Attempt>, a: Attempt, entity: EntityName)
    ensures |Of(kept + [a], entity)| == |Of(kept, entity)| + if a.entity == entity then 1 else 0
    ensures Of(kept + [], entity) == Of(kept, entity)
  {
    assert (kept + [a])[..|kept|] == kept && kept + [] == kept;
  }

  /** ... the failures, ... */
  lemma {:induction false} FailingCount(live: seq<nat>, ops: seq<Op>, n: nat, cutoff: int)
    requires Rising(live, ops, n)
    ensures Failures(Prune(Records(live, ops), cutoff)) == |FailingOf(live, ops, cutoff)|
  {
    if live != [] {
      var before, j := live[..|live| - 1], live[|live| - 1];
      FailingCount(before, ops, j, cutoff);
      RecentMore(live, ops, n, before, j, cutoff);
      KeptMore(live, ops, before, j, cutoff);
      FailuresAppend(Prune(Records(before, ops), cutoff), Attempt(ops[j].entity, ops[j].recordedAt, ops[j].success));
      FailingMore(live, ops, before, j, cutoff);
    }
  }

  lemma {:induction false} FailingMore(live: seq<nat>, ops: seq<Op>, before: seq<nat>, j: nat, cutoff: int)
    requires j < |ops| && ops[j].RecordOp? && j !in RecentOf(before, ops, cutoff)
    requires RecentOf(live, ops, cutoff) == RecentOf(before, ops, cutoff) + if ops[j].recordedAt >= cutoff then {j as int} else {}
    ensures |FailingOf(live, ops, cutoff)| == |FailingOf(before, ops, cutoff)| + if ops[j].recordedAt >= cutoff && !ops[j].success then 1 else 0
  {
    assert FailingOf(live, ops, cutoff) == FailingOf(before, ops, cutoff) + if ops[j].recordedAt >= cutoff && !ops[j].success then {j as int} else {};
  }

  /** ... and an entity's own. */
  lemma {:induction false} OwnCount(live: seq<nat>, ops: seq<Op>, n: nat, cutoff: int, entity: EntityName)
    requires Rising(live, ops, n)
    ensures |Of(Prune(Records(live, ops), cutoff), entity)| == |OwnOf(live, ops, cutoff, entity)|
  {
    if live != [] {
      var before, j := live[..|live| - 1], live[|live| - 1];
      OwnCount(before, ops, j, cutoff, entity);
      RecentMore(live, ops, n, before, j, cutoff);
      KeptMore(live, ops, before, j, cutoff);
      OfAppend(Prune(Records(before, ops), cutoff), Attempt(ops[j].entity, ops[j].recordedAt, ops[j].success), entity);
      OwnMore(live, ops, before, j, cutoff, entity);
    }
  }

  lemma {:induction false} OwnMore(live: seq<nat>, ops: seq<Op>, before: seq<nat>, j: nat, cutoff: int, entity: EntityName)
    requires j < |ops| && ops[j].RecordOp? && j !in RecentOf(before, ops, cutoff)
    requires RecentOf(live, ops, cutoff) == RecentOf(before, ops, cutoff) + if ops[j].recordedAt >= cutoff then {j as int} else {}
    ensures |OwnOf(live, ops, cutoff, entity)|
         == |OwnOf(before, ops, cutoff, entity)| + if ops[j].recordedAt >= cutoff && ops[j].entity == entity then 1 else 0
  {
    assert OwnOf(live, ops, cutoff, entity)
        == OwnOf(before, ops, cutoff, entity) + if ops[j].recordedAt >= cutoff && ops[j].entity == entity then {j as int} else {};
  }

  // ----- What an operation sees -----

  /** The attempts that the k-th operation finds in its window. */
  function SeenBy(c: Config, ops: seq<Op>, k: nat): seq<Attempt>
    requires k < |ops| && !ops[k].ResetOp?
  {
    Prune(AttemptsAt(ops, k + 1), ops[k].readings.pruneAt - c.window)
  }

  lemma {:induction false} WindowIsRecent(c: Config, ops: seq<Op>, k: nat)
    requires k < |ops| && !ops[k].ResetOp?
    ensures RecentOf(Live(ops, k + 1), ops, ops[k].readings.pruneAt - c.window) == Window(c, ops, k)
  {
    forall j
      ensures j in RecentOf(Live(ops, k + 1), ops, ops[k].readings.pruneAt - c.window) <==> j in Window(c, ops, k)
    {
      LiveIsRemembered(ops, k + 1, j);
    }
  }

  lemma {:induction false} RecentSeen(c: Config, ops: seq<Op>, k: nat)
    requires k < |ops| && !ops[k].ResetOp?
    ensures |SeenBy(c, ops, k)| == |Window(c, ops, k)|
  {
    AttemptsAreLive(ops, k + 1);
    LiveRises(ops, k + 1);
    WindowIsRecent(c, ops, k);
    RecentCount(Live(ops, k + 1), ops, k + 1, ops[k].readings.pruneAt - c.window);
  }

  lemma {:induction false} FailingIsFailing(c: Config, ops: seq<Op>, k: nat)
    requires k < |ops| && !ops[k].ResetOp?
    ensures FailingOf(Live(ops, k + 1), ops, ops[k].readings.pruneAt - c.window) == Failing(c, ops, k)
  {
    WindowIsRecent(c, ops, k);
  }

  lemma {:induction false} FailingSeen(c: Config, ops: seq<Op>, k: nat)
    requires k < |ops| && !ops[k].ResetOp?
    ensures Failures(SeenBy(c, ops, k)) == |Failing(c, ops, k)|
  {
    AttemptsAreLive(ops, k + 1);
    LiveRises(ops, k + 1);
    FailingIsFailing(c, ops, k);
    FailingCount(Live(ops, k + 1), ops, k + 1, ops[k].readings.pruneAt - c.window);
  }

  lemma {:induction false} OwnIsOwn(c: Config, ops: seq<Op>, k: nat)
    requires k < |ops| && !ops[k].ResetOp?
    ensures OwnOf(Live(ops, k + 1), ops, ops[k].readings.pruneAt - c.window, ops[k].entity) == Own(c, ops, k)
  {
    WindowIsRecent(c, ops, k);
  }

  lemma {:induction false} OwnSeen(c: Config, ops: seq<Op>, k: nat)
    requires k < |ops| && !ops[k].ResetOp?
    ensures |Of(SeenBy(c, ops, k), ops[k].entity)| == |Own(c, ops, k)|
  {
    AttemptsAreLive(ops, k + 1);
    LiveRises(ops, k + 1);
    OwnIsOwn(c, ops, k);
    OwnCount(Live(ops, k + 1), ops, k + 1, ops[k].readings.pruneAt - c.window, ops[k].entity);
  }

  lemma {:induction false} RateSeen(c: Config, ops: seq<Op>, k: nat)
    requires k < |ops| && !ops[k].ResetOp?
    ensures RateTrips(c, SeenBy(c, ops, k)) <==> RateHigh(c, ops, k)
  {
    RecentSeen(c, ops, k);
    FailingSeen(c, ops, k);
  }

  // ----- The trip -----

  /** The time of the trip kept after the first n operations. */
  ghost function TripTime(c: Config, ops: seq<Op>, n: nat): Option<int>
    requires n <= |ops|
  {
    if n == 0 then None
    else if ops[n - 1].ResetOp? then if ops[n - 1].which.None? then None else TripTime(c, ops, n - 1)
    else
      var before, at := TripTime(c, ops, n - 1), ops[n - 1].readings.globalAt;
      if before.Some? && at - before.value < c.pause then before else if RateHigh(c, ops, n - 1) then Some(at) else None
  }

  /** The trip time kept after the first n operations is that of a trip, and every other trip is past its pause. */
  ghost predicate TripKept(c: Config, ops: seq<Op>, n: nat, tripped: Option<int>, now: int)
    requires n <= |ops|
  {
    && (tripped.Some? ==> exists i: nat :: i < n && Trips(c, ops, i) && Unbroken(ops, i, n) && ops[i].readings.globalAt == tripped.value)
    && (forall i: nat :: i < n && Trips(c, ops, i) && Unbroken(ops, i, n) ==>
          tripped == Some(ops[i].readings.globalAt) || now - ops[i].readings.globalAt >= c.pause)
  }

  lemma {:induction false} KeptIsPaused(c: Config, ops: seq<Op>, k: nat, tripped: Option<int>, now: int)
    requires k < |ops| && !ops[k].ResetOp? && TripKept(c, ops, k, tripped, now) && now <= ops[k].readings.globalAt
    ensures Paused(c, ops, k) <==> tripped.Some? && ops[k].readings.globalAt - tripped.value < c.pause
  {
  }

  lemma {:induction false} TripStep(c: Config, ops: seq<Op>, k: nat, tripped: Option<int>, now: int, next: Option<int>)
    requires k < |ops| && !ops[k].ResetOp? && TripKept(c, ops, k, tripped, now) && now <= ops[k].readings.globalAt
    requires
      var at := ops[k].readings.globalAt;
      next == if tripped.Some? && at - tripped.value < c.pause then tripped else if RateHigh(c, ops, k) then Some(at) else None
    ensures next.Some? <==> Tripped(c, ops, k)
    ensures TripKept(c, ops, k + 1, next, ops[k].readings.globalAt)
  {
    KeptIsPaused(c, ops, k, tripped, now);
    assert Trips(c, ops, k) <==> !Paused(c, ops, k) && RateHigh(c, ops, k);
    forall i: nat | i < k
      ensures Unbroken(ops, i, k + 1) <==> Unbroken(ops, i, k)
    {
    }
    if Paused(c, ops, k) {
      assert next == tripped;
    } else if RateHigh(c, ops, k) {
      assert Trips(c, ops, k) && Unbroken(ops, k, k + 1);
    }
  }

  lemma {:induction false} TripReset(c: Config, ops: seq<Op>, k: nat, tripped: Option<int>, now: int)
    requires k < |ops| && ops[k].ResetOp? && TripKept(c, ops, k, tripped, now)
    ensures TripKept(c, ops, k + 1, if ops[k] == ResetOp(None) then None else tripped, now)
  {
    forall i: nat | i < k
      ensures Unbroken(ops, i, k + 1) <==> Unbroken(ops, i, k) && ops[k] != ResetOp(None)
    {
    }
  }

  lemma {:induction false} TripLater(c: Config, ops: seq<Op>, n: nat, tripped: Option<int>, now: int, later: int)
    requires n <= |ops| && TripKept(c, ops, n, tripped, now) && now <= later
    ensures TripKept(c, ops, n, tripped, later)
  {
  }

  // ----- Runs -----

  /** The last reading of the first n operations. */
  function ClockAt(ops: seq<Op>, n: nat, since: int): int
    requires n <= |ops|
  {
    if n == 0 then since else LastReading(ops[n - 1], ClockAt(ops, n - 1, since))
  }

  lemma {:induction false} ClockRest(ops: seq<Op>, n: nat, since: int)
    requires 0 < n <= |ops|
    ensures ClockAt(ops, n, since) == ClockAt(ops[1..], n - 1, LastReading(ops[0], since))
  {
    if n > 1 {
      ClockRest(ops, n - 1, since);
      assert ops[1..][n - 2] == ops[n - 1];
    }
  }

  /** Every operation reads the clock in order, from the last reading before it on. */
  ghost predicate Orderly(ops: seq<Op>, since: int) {
    forall k: nat {:trigger ClockAt(ops, k, since)} :: k < |ops| ==> InOrder(ops[k], ClockAt(ops, k, since))
  }

  lemma {:induction false} MonotonicIsOrderly(ops: seq<Op>, since: int)
    requires Monotonic(ops, since)
    ensures Orderly(ops, since)
  {
    forall k: nat | k < |ops|
      ensures InOrder(ops[k], ClockAt(ops, k, since))
    {
      ReadsInOrder(ops, k, since);
    }
  }

  lemma {:induction false} ReadsInOrder(ops: seq<Op>, k: nat, since: int)
    requires Monotonic(ops, since) && k < |ops|
    ensures InOrder(ops[k], ClockAt(ops, k, since))
    decreases k
  {
    if k > 0 {
      ReadsInOrder(ops[1..], k - 1, LastReading(ops[0], since));
      ClockRest(ops, k, since);
    }
  }

  lemma {:induction false} TripAt(c: Config, ops: seq<Op>, n: nat, since: int)
    requires Orderly(ops, since) && n <= |ops|
    ensures TripKept(c, ops, n, TripTime(c, ops, n), ClockAt(ops, n, since))
  {
    if n > 0 {
      TripAt(c, ops, n - 1, since);
      TripNext(c, ops, n - 1, TripTime(c, ops, n - 1), TripTime(c, ops, n), ClockAt(ops, n - 1, since));
    }
  }

  lemma {:induction false} TripNext(c: Config, ops: seq<Op>, k: nat, tripped: Option<int>, next: Option<int>, now: int)
    requires k < |ops| && tripped == TripTime(c, ops, k) && next == TripTime(c, ops, k + 1)
    requires TripKept(c, ops, k, tripped, now) && InOrder(ops[k], now)
    ensures TripKept(c, ops, k + 1, next, LastReading(ops[k], now))
    ensures !ops[k].ResetOp? ==> (next.Some? <==> Tripped(c, ops, k))
  {
    if ops[k].ResetOp? {
      TripReset(c, ops, k, tripped, now);
    } else {
      TripStep(c, ops, k, tripped, now, next);
      TripLater(c, ops, k + 1, next, ops[k].readings.globalAt, LastReading(ops[k], now));
    }
  }

  lemma {:induction false} TripTimeIsTripped(c: Config, ops: seq<Op>, k: nat, since: int)
    requires Orderly(ops, since) && k < |ops| && !ops[k].ResetOp?
    ensures TripTime(c, ops, k + 1).Some? <==> Tripped(c, ops, k)
  {
    TripAt(c, ops, k, since);
    TripNext(c, ops, k, TripTime(c, ops, k), TripTime(c, ops, k + 1), ClockAt(ops, k, since));
  }

  // ----- The cooldown -----

  lemma {:induction false} AttemptsInTime(ops: seq<Op>, n: nat, since: int)
    requires Orderly(ops, since) && n <= |ops|
    ensures InTime(AttemptsAt(ops, n), ClockAt(ops, n, since))
  {
    if n > 0 {
      AttemptsInTime(ops, n - 1, since);
      var before, now := AttemptsAt(ops, n - 1), ClockAt(ops, n - 1, since);
      assert InOrder(ops[n - 1], now);
      match ops[n - 1]
      case RecordOp(e, ok, t, r) => InTimeAppend(before, Attempt(e, t, ok), r.cooldownAt);
      case CheckOp(_, _) =>
      case ResetOp(which) =>
        if which.Some? {
          WithoutInTime(before, which.value, now);
        }
    }
  }

  /** Some attempt of the entity at or after the cutoff is less than the cooldown back. */
  ghost predicate RecentAttempt(history: seq<Attempt>, entity: EntityName, cutoff: int, now: int, cooldown: int) {
    exists i :: 0 <= i < |history| && history[i].entity == entity && history[i].at >= cutoff && now - history[i].at < cooldown
  }

  lemma {:induction false} RecentAppend(history: seq<Attempt>, a: Attempt, entity: EntityName, cutoff: int, now: int, cooldown: int)
    ensures RecentAttempt(history + [a], entity, cutoff, now, cooldown)
       <==> RecentAttempt(history, entity, cutoff, now, cooldown) || (a.entity == entity && a.at >= cutoff && now - a.at < cooldown)
  {
    var more := history + [a];
    if i :| 0 <= i < |history| && history[i].entity == entity && history[i].at >= cutoff && now - history[i].at < cooldown {
      assert more[i] == history[i];
    }
    assert more[|history|] == a;
  }

  ghost predicate SoonOf(ops: seq<Op>, live: seq<nat>, entity: EntityName, cutoff: int, now: int, cooldown: int) {
    exists j :: j in OwnOf(live, ops, cutoff, entity) && now - ops[j].recordedAt < cooldown
  }

  lemma {:induction false} TooSoonIsRecent(ops: seq<Op>, live: seq<nat>, n: nat, entity: EntityName, cutoff: int, now: int, cooldown: int)
    requires Rising(live, ops, n)
    ensures RecentAttempt(Records(live, ops), entity, cutoff, now, cooldown) <==> SoonOf(ops, live, entity, cutoff, now, cooldown)
  {
    if live != [] {
      var before, j := live[..|live| - 1], live[|live| - 1];
      TooSoonIsRecent(ops, before, j, entity, cutoff, now, cooldown);
      RecentAppend(Records(before, ops), Attempt(ops[j].entity, ops[j].recordedAt, ops[j].success), entity, cutoff, now, cooldown);
      SoonMore(ops, live, n, before, j, entity, cutoff, now, cooldown);
    }
  }

  lemma {:induction false} SoonMore(ops: seq<Op>, live: seq<nat>, n: nat, before: seq<nat>, j: nat, entity: EntityName, cutoff: int, now: int, cooldown: int)
    requires Rising(live, ops, n) && live != [] && before == live[..|live| - 1] && j == live[|live| - 1]
    ensures SoonOf(ops, live, entity, cutoff, now, cooldown)
       <==> SoonOf(ops, before, entity, cutoff, now, cooldown)
            || (ops[j].entity == entity && ops[j].recordedAt >= cutoff && now - ops[j].recordedAt < cooldown)
  {
    RecentMore(live, ops, n, before, j, cutoff);
    if SoonOf(ops, before, entity, cutoff, now, cooldown) {
      var i :| i in OwnOf(before, ops, cutoff, entity) && now - ops[i].recordedAt < cooldown;
      assert i in OwnOf(live, ops, cutoff, entity);
    }
    if ops[j].entity == entity && ops[j].recordedAt >= cutoff {
      assert j in OwnOf(live, ops, cutoff, entity);
    }
    if SoonOf(ops, live, entity, cutoff, now, cooldown) {
      var i :| i in OwnOf(live, ops, cutoff, entity) && now - ops[i].recordedAt < cooldown;
      assert i != j ==> i in OwnOf(before, ops, cutoff, entity);
    }
  }

  lemma {:induction false} LastIsRecent(history: seq<Attempt>, entity: EntityName, cutoff: int, now: int, cooldown: int)
    requires forall i, j :: 0 <= i < j < |history| ==> history[i].at <= history[j].at
    ensures
      var own := Of(Prune(history, cutoff), entity);
      (own != [] && now - own[|own| - 1].at < cooldown) <==> RecentAttempt(history, entity, cutoff, now, cooldown)
  {
    LastDecides(history, entity, cutoff, now, cooldown);
  }

  lemma {:induction false} CooldownIsRecent(c: Config, ops: seq<Op>, k: nat, since: int, attempts: seq<Attempt>, own: seq<Attempt>)
    requires Orderly(ops, since) && k < |ops| && !ops[k].ResetOp?
    requires attempts == AttemptsAt(ops, k + 1) && own == Of(Prune(attempts, ops[k].readings.pruneAt - c.window), ops[k].entity)
    ensures (own != [] && ops[k].readings.cooldownAt - own[|own| - 1].at < c.cooldown)
       <==> RecentAttempt(attempts, ops[k].entity, ops[k].readings.pruneAt - c.window, ops[k].readings.cooldownAt, c.cooldown)
  {
    AttemptsInTime(ops, k + 1, since);
    LastIsRecent(attempts, ops[k].entity, ops[k].readings.pruneAt - c.window, ops[k].readings.cooldownAt, c.cooldown);
  }

  /** The last of the entity's attempts in the window decides about the cooldown exactly as all of them do. */
  lemma {:induction false} CooldownIsTooSoon(c: Config, ops: seq<Op>, k: nat, since: int)
    requires Orderly(ops, since) && k < |ops| && !ops[k].ResetOp?
    ensures
      var own := Of(SeenBy(c, ops, k), ops[k].entity);
      (own != [] && ops[k].readings.cooldownAt - own[|own| - 1].at < c.cooldown) <==> TooSoon(c, ops, k)
  {
    CooldownIsRecent(c, ops, k, since, AttemptsAt(ops, k + 1), Of(SeenBy(c, ops, k), ops[k].entity));
    SoonIsRecent(c, ops, k);
  }

  lemma {:induction false} SoonIsRecent(c: Config, ops: seq<Op>, k: nat)
    requires k < |ops| && !ops[k].ResetOp?
    ensures RecentAttempt(AttemptsAt(ops, k + 1), ops[k].entity, ops[k].readings.pruneAt - c.window, ops[k].readings.cooldownAt, c.cooldown)
       <==> TooSoon(c, ops, k)
  {
    AttemptsAreLive(ops, k + 1);
    LiveRises(ops, k + 1);
    TooSoonIsRecent(ops, Live(ops, k + 1), k + 1, ops[k].entity, ops[k].readings.pruneAt - c.window, ops[k].readings.cooldownAt, c.cooldown);
    OwnIsOwn(c, ops, k);
  }

  // ----- The verdicts -----

  /** The verdict that the operations so far call for. */
  ghost function Deserved(c: Config, ops: seq<Op>, k: nat): Verdict
    requires k < |ops| && !ops[k].ResetOp?
  {
    if Tripped(c, ops, k) then GlobalTripped
    else if |Own(c, ops, k)| >= c.maxAttempts then EntityTripped
    else if TooSoon(c, ops, k) then EntityCooldown
    else Allowed
  }

  lemma {:induction false} JudgedAsDeserved(c: Config, ops: seq<Op>, k: nat, since: int)
    requires Orderly(ops, since) && k < |ops| && !ops[k].ResetOp?
    ensures Judge(c, SeenBy(c, ops, k), TripTime(c, ops, k + 1).Some?, ops[k].entity, ops[k].readings.cooldownAt) == Deserved(c, ops, k)
  {
    TripTimeIsTripped(c, ops, k, since);
    OwnSeen(c, ops, k);
    CooldownIsTooSoon(c, ops, k, since);
  }

  /** The breaker that forgets nothing, as the operations up to the n-th leave it. */
  ghost function Told(c: Config, ops: seq<Op>, n: nat): Breaker
    requires n <= |ops|
  {
    Breaker(AttemptsAt(ops, n), TripTime(c, ops, n))
  }

  lemma {:induction false} StepIsTold(c: Config, ops: seq<Op>, k: nat)
    requires k < |ops|
    ensures FullStep(c, Told(c, ops, k), ops[k]).0 == Told(c, ops, k + 1)
    ensures !ops[k].ResetOp? ==>
      FullStep(c, Told(c, ops, k), ops[k]).1
      == Some(Judge(c, SeenBy(c, ops, k), TripTime(c, ops, k + 1).Some?, ops[k].entity, ops[k].readings.cooldownAt))
  {
    if !ops[k].ResetOp? {
      RateSeen(c, ops, k);
    }
  }

  lemma {:induction false} FullVerdictAt(c: Config, b: Breaker, ops: seq<Op>, k: nat)
    requires k < |ops|
    ensures |FullVerdicts(c, b, ops)| == |ops| && FullVerdicts(c, b, ops)[k] == FullStep(c, FullAfter(c, b, ops[..k]), ops[k]).1
    decreases |ops|
  {
    var next := FullStep(c, b, ops[0]).0;
    if |ops| > 1 {
      FullVerdictAt(c, next, ops[1..], if k > 0 then k - 1 else 0);
    }
    if k > 0 {
      assert ops[..k][1..] == ops[1..][..k - 1];
    } else {
      assert ops[..0] == [];
    }
  }

  lemma {:induction false} FullAfterAppend(c: Config, b: Breaker, ops: seq<Op>, op: Op)
    ensures FullAfter(c, b, ops + [op]) == FullStep(c, FullAfter(c, b, ops), op).0
    decreases |ops|
  {
    if ops == [] {
      assert ops + [op] == [op] && [op][1..] == [];
    } else {
      assert (ops + [op])[1..] == ops[1..] + [op];
      FullAfterAppend(c, FullStep(c, b, ops[0]).0, ops[1..], op);
    }
  }

  lemma {:induction false} AfterIsTold(c: Config, ops: seq<Op>, n: nat)
    requires n <= |ops|
    ensures FullAfter(c, New(), ops[..n]) == Told(c, ops, n)
  {
    if n == 0 {
      assert ops[..0] == [];
    } else {
      AfterIsTold(c, ops, n - 1);
      StepIsTold(c, ops, n - 1);
      FullAfterAppend(c, New(), ops[..n - 1], ops[n - 1]);
      assert ops[..n - 1] + [ops[n - 1]] == ops[..n];
    }
  }

  /**
   For every run of a monotonic clock and every check or record in it, the breaker as it is, pruning
   included: it answers GlobalTripped exactly if an earlier trip is inside its pause with no full
   reset since, or the failure rate of the window is too high; else EntityTripped exactly if the
   entity has the maximum of remembered attempts in the window; else EntityCooldown exactly if one of
   those is less than the cooldown back; and else it allows.
  */
  lemma {:induction false} VerdictsAreDeserved(c: Config, since: int, ops: seq<Op>, k: nat)
    requires c.window >= 0 && Monotonic(ops, since) && k < |ops|
    ensures |Verdicts(c, New(), ops)| == |ops|
    ensures Verdicts(c, New(), ops)[k] == if ops[k].ResetOp? then None else Some(Deserved(c, ops, k))
  {
    PruningIsInvisible(c, since, ops);
    FullVerdictAt(c, New(), ops, k);
    AfterIsTold(c, ops, k);
    ToldVerdict(c, since, ops, k);
  }

  lemma {:induction false} ToldVerdict(c: Config, since: int, ops: seq<Op>, k: nat)
    requires Monotonic(ops, since) && k < |ops|
    ensures FullStep(c, Told(c, ops, k), ops[k]).1 == if ops[k].ResetOp? then None else Some(Deserved(c, ops, k))
  {
    if !ops[k].ResetOp? {
      StepIsTold(c, ops, k);
      MonotonicIsOrderly(ops, since);
      JudgedAsDeserved(c, ops, k, since);
    }
  }

  /** The breaker is left tripped by exactly the operations that find it so. */
  lemma {:induction false} TrippedIff(c: Config, since: int, ops: seq<Op>, k: nat)
    requires c.window >= 0 && Monotonic(ops, since) && k < |ops| && !ops[k].ResetOp?
    ensures After(c, New(), ops[..k + 1]).trippedAt.Some? <==> Tripped(c, ops, k)
  {
    MonotonicIsOrderly(ops, since);
    TripTimeIsTripped(c, ops, k, since);
    TripTimesAgree(c, since, ops, k);
  }

  lemma {:induction false} TripTimesAgree(c: Config, since: int, ops: seq<Op>, k: nat)
    requires c.window >= 0 && Monotonic(ops, since) && k < |ops|
    ensures After(c, New(), ops[..k + 1]).trippedAt == TripTime(c, ops, k + 1)
  {
    AfterIsTold(c, ops, k);
    var next, now := UpToOperation(c, New(), New(), since - c.window, since, ops, k);
    var cut := StepAgrees(c, After(c, New(), ops[..k]), Told(c, ops, k), next, now, ops[k]);
    StepIsTold(c, ops, k);
    AfterMore(c, New(), ops[..k], ops[k]);
    assert ops[..k] + [ops[k]] == ops[..k + 1];
  }

  lemma {:induction false} AfterMore(c: Config, b: Breaker, ops: seq<Op>, op: Op)
    ensures After(c, b, ops + [op]) == Step(c, After(c, b, ops), op).0
    decreases |ops|
  {
    if ops == [] {
      assert ops + [op] == [op] && [op][1..] == [];
    } else {
      assert (ops + [op])[1..] == ops[1..] + [op];
      AfterMore(c, Step(c, b, ops[0]).0, ops[1..], op);
    }
  }
}
