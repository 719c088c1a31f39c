/**
 The queue in front of the plan executor: `_process_approval` and `_process_rejection` call
 `approve_plan` or `reject_plan` only for an entry the queue has just returned as resolved, and
 `_dispatch_remediation_plan` adds one entry for each plan it creates.
*/
module PlanGate {
  import opened Wrappers
  import Q = PendingQueue
  import R = PendingRuns
  import opened Plans

  /**
   One plan behind the queue.  `saved` is its status in the table until it is decided, `waiting` are
   the calls that tasks of this process are about to make, and `made` all that were ever begun.
  */
  datatype Gate = Gate(queue: R.State, saved: PlanStatus, waiting: seq<PlanStatus>, made: seq<PlanStatus>)

  /** A stretch of the queue, or one approve_plan or reject_plan call up to its save. */
  datatype Event = Queue(e: R.Event) | SavePlan

  /** The call that follows the resolution of an entry; an expired one is only notified about. */
  function CallFor(status: Q.PendingStatus): seq<PlanStatus> {
    match status
    case Approved => [PlanStatus.InExecution]
    case Rejected => [PlanStatus.Rejected]
    case _ => []
  }

  /** The calls for the plan with this key that a stretch of the queue leads to. */
  function CallsAfter(q: R.State, e: R.Event, key: Q.DedupKey): seq<PlanStatus> {
    if e.FinishTask? && e.t < |q.tasks| && q.tasks[e.t].Committed? && q.tasks[e.t].id in q.store.actions
       && q.store.actions[q.tasks[e.t].id].key == key
    then CallFor(q.tasks[e.t].to) else []
  }

  ghost function Next(s: Gate, e: Event, key: Q.DedupKey): Gate {
    match e
    case Queue(e) =>
      var calls := CallsAfter(s.queue, e, key);
      Gate(R.Next(s.queue, e), s.saved, if e.Crash? then [] else s.waiting + calls, s.made + calls)
    case SavePlan =>
      if s.waiting == [] then s
      else s.(saved := if s.saved == PendingApproval then s.waiting[0] else s.saved, waiting := s.waiting[1..])
  }

  ghost function Run(s: Gate, events: seq<Event>, key: Q.DedupKey): Gate
    decreases |events|
  {
    if events == [] then s else Run(Next(s, events[0], key), events[1..], key)
  }

  predicate AddsKey(e: Event, key: Q.DedupKey) {
    e.Queue? && e.e.StartAdd? && e.e.key == Some(key)
  }

  /** How often the plan is put before the operator. */
  function Adds(events: seq<Event>, key: Q.DedupKey): nat
    decreases |events|
  {
    if events == [] then 0 else (if AddsKey(events[0], key) then 1 else 0) + Adds(events[1..], key)
  }

  /** The plan is created and not yet put before the operator. */
  function Start(): Gate {
    Gate(R.Start(), PendingApproval, [], [])
  }

  // ----- At most one call -----

  /** At most one call was begun, for the one row with the key, and as that row says; the plan goes where the call says. */
  ghost predicate AtMostOnce(s: Gate, key: Q.DedupKey, only: Option<Q.ActionId>) {
    && R.Inv(s.queue) && R.OnlyRow(s.queue, key, only) && |s.made| <= 1
    && (s.made != [] ==> only.Some? && only.value in s.queue.resolved && s.made == CallFor(s.queue.store.durable[only.value].status))
    && (if s.saved == PendingApproval then s.waiting == [] || s.waiting == s.made else s.waiting == [] && s.made == [s.saved])
  }

  /** A resolved row stays as it is. */
  lemma {:induction false} ResolvedRowStays(q: R.State, e: R.Event, id: Q.ActionId)
    requires R.Inv(q) && id in q.resolved
    ensures id in R.Next(q, e).resolved && id in R.Next(q, e).store.durable
    ensures R.Next(q, e).store.durable[id].status == q.store.durable[id].status
  {
    assert id in q.store.durable && q.store.durable[id].status != Q.Pending;
  }

  lemma {:induction false} NextKeepsOnce(s: Gate, e: R.Event, key: Q.DedupKey, only: Option<Q.ActionId>)
    requires AtMostOnce(s, key, only) && !AddsKey(Queue(e), key)
    ensures AtMostOnce(Next(s, Queue(e), key), key, only)
  {
    R.NextKeeps(s.queue, e);
    R.OnlyRowStays(s.queue, e, key, only);
    if s.made != [] {
      ResolvedRowStays(s.queue, e, only.value);
    }
    if CallsAfter(s.queue, e, key) != [] {
      var c := s.queue.tasks[e.t];
      assert R.OwnsRow(s.queue, c.id, c.to, true);
    }
  }

  lemma {:induction false} RunKeepsOnce(s: Gate, events: seq<Event>, key: Q.DedupKey, only: Option<Q.ActionId>)
    requires AtMostOnce(s, key, only) && Adds(events, key) == 0
    ensures AtMostOnce(Run(s, events, key), key, only)
    decreases |events|
  {
    if events != [] {
      if events[0].Queue? {
        NextKeepsOnce(s, events[0].e, key, only);
      }
      RunKeepsOnce(Next(s, events[0], key), events[1..], key, only);
    }
  }

  lemma {:induction false} AddedOnce(s: Gate, events: seq<Event>, key: Q.DedupKey) returns (only: Option<Q.ActionId>)
    requires AtMostOnce(s, key, None) && Adds(events, key) <= 1
    ensures AtMostOnce(Run(s, events, key), key, only)
    decreases |events|
  {
    if events == [] {
      only := None;
    } else if AddsKey(events[0], key) {
      only := Some(events[0].e.newId);
      R.NextKeeps(s.queue, events[0].e);
      RunKeepsOnce(Next(s, events[0], key), events[1..], key, only);
    } else {
      if events[0].Queue? {
        NextKeepsOnce(s, events[0].e, key, None);
      }
      only := AddedOnce(Next(s, events[0], key), events[1..], key);
    }
  }

  /**
   In every interleaving of the queue and its plan, with crashes: a plan whose entry is added once
   is approved or rejected by at most one call, and its status is still pending or the one that call sets.
  */
  lemma {:induction false} AtMostOnePlanCall(events: seq<Event>, key: Q.DedupKey)
    requires Adds(events, key) <= 1
    ensures
      var s := Run(Start(), events, key);
      |s.made| <= 1 && (s.saved == PendingApproval || s.made == [s.saved])
  {
    var only := AddedOnce(Start(), events, key);
  }

  // ----- A crash between the queue and the plan -----

  lemma {:induction false} RunKeepsQueue(s: Gate, events: seq<Event>, key: Q.DedupKey)
    requires R.Inv(s.queue)
    ensures R.Inv(Run(s, events, key).queue)
    decreases |events|
  {
    if events != [] {
      if events[0].Queue? {
        R.NextKeeps(s.queue, events[0].e);
      }
      RunKeepsQueue(Next(s, events[0], key), events[1..], key);
    }
  }

  /** The plan stays pending whatever happens, unless it is put before the operator again. */
  ghost predicate Stuck(s: Gate, key: Q.DedupKey) {
    forall events {:trigger Run(s, events, key)} :: Adds(events, key) == 0 ==> Run(s, events, key).saved == PendingApproval
  }

  /** Nobody can decide about the key any more, and no add of it is under way. */
  ghost predicate NothingToDecide(q: R.State, key: Q.DedupKey) {
    && (forall id :: Q.IsPending(q.store.actions, id) ==> q.store.actions[id].key != key)
    && (q.main.Preparing? || q.main.Inserted? || q.main.AddCommitted? ==> q.main.p.key != key)
  }

  lemma {:induction false} NothingToDecideStays(q: R.State, e: R.Event, key: Q.DedupKey)
    requires R.Inv(q) && NothingToDecide(q, key) && !AddsKey(Queue(e), key)
    ensures NothingToDecide(R.Next(q, e), key) && CallsAfter(q, e, key) == []
  {
    if e.FinishTask? && e.t < |q.tasks| && q.tasks[e.t].Committed? {
      assert R.OwnsRow(q, q.tasks[e.t].id, q.tasks[e.t].to, true);
    }
    forall id | Q.IsPending(R.Next(q, e).store.actions, id)
      ensures R.Next(q, e).store.actions[id].key != key
    {
      PendingWas(q, e, id);
    }
  }

  /** What is pending after a stretch was pending before it, or was being added. */
  lemma {:induction false} PendingWas(q: R.State, e: R.Event, id: Q.ActionId)
    requires R.Inv(q) && Q.IsPending(R.Next(q, e).store.actions, id)
    ensures
      || (Q.IsPending(q.store.actions, id) && q.store.actions[id].key == R.Next(q, e).store.actions[id].key)
      || ((q.main.Inserted? || q.main.AddCommitted?) && q.main.p.key == R.Next(q, e).store.actions[id].key)
  {
    if e.Crash? {
      assert Q.IsPending(q.store.durable, id);
      assert R.SameRow(q.store.durable[id], q.store.working[id]);
    }
  }

  lemma {:induction false} NothingHappens(s: Gate, events: seq<Event>, key: Q.DedupKey)
    requires R.Inv(s.queue) && NothingToDecide(s.queue, key) && s.waiting == [] && Adds(events, key) == 0
    ensures Run(s, events, key).saved == s.saved
    decreases |events|
  {
    if events != [] {
      if events[0].Queue? {
        NothingToDecideStays(s.queue, events[0].e, key);
        R.NextKeeps(s.queue, events[0].e);
      }
      NothingHappens(Next(s, events[0], key), events[1..], key);
    }
  }

  /** An approval or a rejection and the call it leads to, undisturbed. */
  function Decide(id: Q.ActionId, to: Q.PendingStatus): seq<Event> {
    [Queue(R.StartResolve(id, to)), Queue(R.UpdateTask(0)), Queue(R.CommitTask(0)), Queue(R.FinishTask(0)), SavePlan]
  }

  lemma {:induction false} DecideAddsNothing(id: Q.ActionId, to: Q.PendingStatus, n: nat, key: Q.DedupKey)
    requires n <= 5
    ensures Adds(Decide(id, to)[n..], key) == 0
    decreases 5 - n
  {
    if n < 5 {
      DecideAddsNothing(id, to, n + 1, key);
      assert Decide(id, to)[n..][1..] == Decide(id, to)[n + 1..] && Decide(id, to)[n..][0] == Decide(id, to)[n];
    }
  }

  /** Between calls, with the entry pending in memory and in the table, and nothing decided. */
  ghost predicate Awaiting(s: Gate, id: Q.ActionId, key: Q.DedupKey) {
    && R.Inv(s.queue) && R.Quiet(s.queue) && s.saved == PendingApproval && s.waiting == []
    && Q.IsPending(s.queue.store.actions, id) && s.queue.store.actions[id].key == key
  }

  /** What the tasks, the store and the plan are after the first n stretches of a decision. */
  ghost predicate Decided(st: Q.Store, id: Q.ActionId, to: Q.PendingStatus, n: nat, d: Gate) {
    && d.queue.main == R.Free && d.queue.tasks == TasksAt(id, to, n) && d.queue.store == StoreAt(st, id, to, n)
    && d.waiting == (if n == 4 then CallFor(to) else [])
    && if n < 5 then d.saved == PendingApproval else [d.saved] == CallFor(to)
  }

  function TasksAt(id: Q.ActionId, to: Q.PendingStatus, n: nat): seq<R.Task> {
    if n == 0 then []
    else [if n == 1 then R.Checked(id, to) else if n == 2 then R.Updated(id, to) else if n == 3 then R.Committed(id, to) else R.Finished]
  }

  function StoreAt(st: Q.Store, id: Q.ActionId, to: Q.PendingStatus, n: nat): Q.Store {
    if n < 2 then st
    else if n == 2 then Q.CompareAndSet(st, id, to)
    else if n == 3 || id !in st.actions then Q.Commit(Q.CompareAndSet(st, id, to))
    else Q.FinishResolve(Q.Commit(Q.CompareAndSet(st, id, to)), id, to)
  }

  /** The id is pending in memory and in the table, under this key. */
  predicate Open(st: Q.Store, id: Q.ActionId, key: Q.DedupKey) {
    Q.IsPending(st.actions, id) && st.actions[id].key == key && Q.IsPending(st.working, id)
  }

  lemma {:induction false} BeginDecision(st: Q.Store, id: Q.ActionId, to: Q.PendingStatus, d: Gate, key: Q.DedupKey)
    requires Open(st, id, key) && (to == Q.Approved || to == Q.Rejected) && Decided(st, id, to, 0, d)
    ensures Decided(st, id, to, 1, Next(d, Queue(R.StartResolve(id, to)), key))
  {
  }

  lemma {:induction false} CommitDecision(st: Q.Store, id: Q.ActionId, to: Q.PendingStatus, n: nat, d: Gate, key: Q.DedupKey)
    requires Open(st, id, key) && (n == 1 || n == 2) && Decided(st, id, to, n, d)
    ensures Decided(st, id, to, n + 1, Next(d, Queue(if n == 1 then R.UpdateTask(0) else R.CommitTask(0)), key))
  {
    assert |d.queue.tasks| == 1;
  }

  lemma {:induction false} EndDecision(st: Q.Store, id: Q.ActionId, to: Q.PendingStatus, d: Gate, key: Q.DedupKey)
    requires Open(st, id, key) && (to == Q.Approved || to == Q.Rejected) && Decided(st, id, to, 3, d)
    ensures Decided(st, id, to, 4, Next(d, Queue(R.FinishTask(0)), key))
  {
    assert |d.queue.tasks| == 1;
  }

  lemma {:induction false} DecidedNext(st: Q.Store, id: Q.ActionId, to: Q.PendingStatus, n: nat, d: Gate, key: Q.DedupKey)
    requires Open(st, id, key) && (to == Q.Approved || to == Q.Rejected) && n < 5 && Decided(st, id, to, n, d)
    ensures Decided(st, id, to, n + 1, Next(d, Decide(id, to)[n], key))
  {
    if n == 0 {
      BeginDecision(st, id, to, d, key);
    } else if n < 3 {
      CommitDecision(st, id, to, n, d, key);
    } else if n == 3 {
      EndDecision(st, id, to, d, key);
    }
  }

  lemma {:induction false} DecidedAfter(s: Gate, id: Q.ActionId, to: Q.PendingStatus, n: nat, key: Q.DedupKey)
    requires Open(s.queue.store, id, key) && (to == Q.Approved || to == Q.Rejected) && n <= 5 && Decided(s.queue.store, id, to, 0, s)
    ensures Decided(s.queue.store, id, to, n, Run(s, Decide(id, to)[..n], key))
  {
    if n > 0 {
      var d := Run(s, Decide(id, to)[..n - 1], key);
      DecidedAfter(s, id, to, n - 1, key);
      DecidedNext(s.queue.store, id, to, n - 1, d, key);
      RunAdd(s, Decide(id, to)[..n - 1], Decide(id, to)[n - 1], key);
      assert Decide(id, to)[..n] == Decide(id, to)[..n - 1] + [Decide(id, to)[n - 1]];
    }
  }

  lemma {:induction false} AwaitingIsOpen(s: Gate, id: Q.ActionId, to: Q.PendingStatus, key: Q.DedupKey)
    requires Awaiting(s, id, key)
    ensures Open(s.queue.store, id, key) && Decided(s.queue.store, id, to, 0, s)
  {
    assert !R.Claimed(s.queue, id);
  }

  lemma {:induction false} RunAdd(s: Gate, events: seq<Event>, e: Event, key: Q.DedupKey)
    ensures Run(s, events + [e], key) == Next(Run(s, events, key), e, key)
    decreases |events|
  {
    if events == [] {
      assert Run(Next(s, e, key), [], key) == Next(s, e, key);
      assert [] + [e] == [e] && [e][1..] == [];
    } else {
      assert (events + [e])[1..] == events[1..] + [e];
      RunAdd(Next(s, events[0], key), events[1..], e, key);
    }
  }

  /** After the restart, is there an entry with the key to decide about? */
  ghost predicate Survives(durable: Q.Table, key: Q.DedupKey, at: int) {
    exists id :: Q.IsPending(durable, id) && durable[id].key == key && durable[id].expiresAt > at
  }

  /**
   A crash, at any moment of any interleaving, leaves the plan pending forever if and only if the
   plan is still saved as pending and the committed table has no pending entry of it that outlives
   the restart: the entry was decided but the plan not yet saved, or was not yet committed, or is due.
  */
  lemma {:induction false} StuckAfterCrashIff(s: Gate, key: Q.DedupKey, at: int)
    requires R.Inv(s.queue)
    ensures Stuck(Next(s, Queue(R.Crash(at)), key), key) <==> s.saved == PendingApproval && !Survives(s.queue.store.durable, key, at)
  {
    var r := Next(s, Queue(R.Crash(at)), key);
    R.NextKeeps(s.queue, R.Crash(at));
    assert Run(r, [], key) == r && Adds([], key) == 0;
    if s.saved == PendingApproval {
      if Survives(s.queue.store.durable, key, at) {
        var id :| Q.IsPending(s.queue.store.durable, id) && s.queue.store.durable[id].key == key && s.queue.store.durable[id].expiresAt > at;
        NotStuck(r, id, key);
      } else {
        StuckIfNothing(r, key);
      }
    }
  }

  lemma {:induction false} NotStuck(s: Gate, id: Q.ActionId, key: Q.DedupKey)
    requires Awaiting(s, id, key)
    ensures !Stuck(s, key)
  {
    var events := Decide(id, Q.Approved);
    DecideAddsNothing(id, Q.Approved, 0, key);
    AwaitingIsOpen(s, id, Q.Approved, key);
    DecidedAfter(s, id, Q.Approved, 5, key);
    assert events[0..] == events && events[..5] == events;
    assert Run(s, events, key).saved != PendingApproval;
  }

  lemma {:induction false} StuckIfNothing(s: Gate, key: Q.DedupKey)
    requires R.Inv(s.queue) && NothingToDecide(s.queue, key) && s.waiting == [] && s.saved == PendingApproval
    ensures Stuck(s, key)
  {
    forall events | Adds(events, key) == 0
      ensures Run(s, events, key).saved == PendingApproval
    {
      NothingHappens(s, events, key);
    }
  }

  /** From the start on. */
  lemma {:induction false} StuckPlans(events: seq<Event>, key: Q.DedupKey, at: int)
    ensures
      var s := Run(Start(), events, key);
      Stuck(Next(s, Queue(R.Crash(at)), key), key) <==> s.saved == PendingApproval && !Survives(s.queue.store.durable, key, at)
  {
    RunKeepsQueue(Start(), events, key);
    StuckAfterCrashIff(Run(Start(), events, key), key, at);
  }

  /**
   Of the five stretches of a decision, a crash after the n-th leaves the plan pending forever if
   and only if the queue had committed and the plan was not saved, or the entry is due at the restart.
  */
  lemma {:induction false} CrashInDecision(s: Gate, id: Q.ActionId, to: Q.PendingStatus, n: nat, key: Q.DedupKey, at: int)
    requires Awaiting(s, id, key) && Q.IsPending(s.queue.store.durable, id) && (to == Q.Approved || to == Q.Rejected) && n <= 5
    ensures Stuck(Next(Run(s, Decide(id, to)[..n], key), Queue(R.Crash(at)), key), key)
       <==> n == 3 || n == 4 || (n < 3 && s.queue.store.actions[id].expiresAt <= at)
  {
    var d := Run(s, Decide(id, to)[..n], key);
    AwaitingIsOpen(s, id, to, key);
    DecidedAfter(s, id, to, n, key);
    RunKeepsQueue(s, Decide(id, to)[..n], key);
    StuckAfterCrashIff(d, key, at);
    OnlyEntry(s, id, key);
    assert R.SameRow(s.queue.store.durable[id], s.queue.store.actions[id]);
  }

  /** No other entry with the key is pending, in the table or as committed. */
  lemma {:induction false} OnlyEntry(s: Gate, id: Q.ActionId, key: Q.DedupKey)
    requires Awaiting(s, id, key)
    ensures forall other :: Q.IsPending(s.queue.store.working, other) && s.queue.store.working[other].key == key ==> other == id
    ensures forall other :: Q.IsPending(s.queue.store.durable, other) && s.queue.store.durable[other].key == key ==> other == id
  {
  }
}
