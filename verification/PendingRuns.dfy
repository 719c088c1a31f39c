/**
 Runs of the approval queue: any number of approvals and rejections in flight at once, the main
 loop adding or expiring one at a time, and crashes anywhere.
*/
module PendingRuns {
  import opened Wrappers
  import opened PendingQueue

  /** An approve or reject call, by the last await it got past. */
  datatype Task =
    | Checked(id: ActionId, to: PendingStatus)
    | Updated(id: ActionId, to: PendingStatus)
    | Committed(id: ActionId, to: PendingStatus)
    | Finished

  /** The main loop: idle, inside `add`, or inside `expire_stale`. */
  datatype Main =
    | Free
    | Preparing(p: PendingAction)
    | Inserted(p: PendingAction)
    | AddCommitted(p: PendingAction)
    | ExpireUpdated(ids: set<ActionId>)
    | ExpireCommitted(ids: set<ActionId>)

  /** `resolved` lists the ids that some call has returned as approved, rejected or expired, in order. */
  datatype State = State(store: Store, tasks: seq<Task>, main: Main, resolved: seq<ActionId>)

  datatype Event =
    | StartResolve(rid: ActionId, to: PendingStatus)
    | UpdateTask(t: nat)
    | CommitTask(t: nat)
    | FinishTask(t: nat)
    | StartAdd(newId: ActionId, key: Option<DedupKey>, expiresAt: int)
    | InsertAdd
    | CommitAdd
    | EndAdd
    | StartExpire(now: int)
    | CommitExpire
    | EndExpire(order: seq<ActionId>)
    | Crash(at: int)

  /** A fresh id was never used before. */
  predicate Unused(s: State, id: ActionId) {
    id !in s.store.actions && id !in s.store.working && id !in s.store.durable && id !in s.resolved
  }

  /** Is `order` a listing of the ids that expire_stale returns? */
  ghost predicate Lists(order: seq<ActionId>, ids: set<ActionId>) {
    && (forall id :: id in order <==> id in ids)
    && (forall i, j :: 0 <= i < j < |order| ==> order[i] != order[j])
  }

  /** One stretch of one call; events that do not apply change nothing. */
  ghost function Next(s: State, e: Event): State {
    match e
    case StartResolve(id, to) =>
      if (to == Approved || to == Rejected) && IsPending(s.store.actions, id)
      then s.(tasks := s.tasks + [Checked(id, to)]) else s
    case UpdateTask(t) =>
      if t < |s.tasks| && s.tasks[t].Checked? then
        var c := s.tasks[t];
        s.(store := CompareAndSet(s.store, c.id, c.to),
           tasks := s.tasks[t := if IsPending(s.store.working, c.id) then Updated(c.id, c.to) else Finished])
      else s
    case CommitTask(t) =>
      if t < |s.tasks| && s.tasks[t].Updated?
      then s.(store := Commit(s.store), tasks := s.tasks[t := Committed(s.tasks[t].id, s.tasks[t].to)]) else s
    case FinishTask(t) =>
      if t < |s.tasks| && s.tasks[t].Committed? && s.tasks[t].id in s.store.actions then
        var c := s.tasks[t];
        s.(store := FinishResolve(s.store, c.id, c.to), tasks := s.tasks[t := Finished], resolved := s.resolved + [c.id])
      else s
    case StartAdd(id, key, expiresAt) =>
      if s.main == Free && Unused(s, id) && key.Some? && key.value !in s.store.keys
      then s.(main := Preparing(PendingAction(id, key.value, expiresAt, Pending))) else s
    case InsertAdd =>
      if s.main.Preparing? then s.(store := InsertRow(s.store, s.main.p), main := Inserted(s.main.p)) else s
    case CommitAdd =>
      if s.main.Inserted? then s.(store := Commit(s.store), main := AddCommitted(s.main.p)) else s
    case EndAdd =>
      if s.main.AddCommitted? then s.(store := FinishAdd(s.store, s.main.p), main := Free) else s
    case StartExpire(now) =>
      if s.main == Free
      then s.(store := ExpireDue(s.store, now), main := ExpireUpdated(DueIds(s.store.working, now))) else s
    case CommitExpire =>
      if s.main.ExpireUpdated? && s.main.ids != {} then s.(store := Commit(s.store), main := ExpireCommitted(s.main.ids)) else s
    case EndExpire(order) =>
      if (s.main.ExpireCommitted? || s.main == ExpireUpdated({})) && Lists(order, s.main.ids * s.store.actions.Keys)
      then s.(store := FinishExpire(s.store, s.main.ids), main := Free, resolved := s.resolved + order) else s
    case Crash(at) =>
      State(Restart(s.store, at), [], Free, s.resolved)
  }

  // ----- The invariant -----

  ghost predicate InFlight(t: Task) {
    t.Updated? || t.Committed?
  }

  /** Some call has already changed the row of `id` and will finish by changing memory. */
  ghost predicate Claimed(s: State, id: ActionId) {
    || (exists t :: 0 <= t < |s.tasks| && InFlight(s.tasks[t]) && s.tasks[t].id == id)
    || (s.main.ExpireUpdated? && id in s.main.ids)
    || (s.main.ExpireCommitted? && id in s.main.ids)
  }

  /** The row of `id` is in the table but not yet in memory. */
  ghost predicate BeingAdded(s: State, id: ActionId) {
    (s.main.Inserted? || s.main.AddCommitted?) && s.main.p.id == id
  }

  ghost predicate SameRow(a: PendingAction, b: PendingAction) {
    a.key == b.key && a.expiresAt == b.expiresAt
  }

  ghost predicate MemoryOk(s: State) {
    var st := s.store;
    && (forall id :: id in st.actions ==> id in st.working && SameRow(st.actions[id], st.working[id]))
    && (forall id :: id in st.actions && st.actions[id].status != Pending ==> id in st.durable && st.durable[id].status != Pending)
    && (forall id :: IsPending(st.actions, id) ==> IsPending(st.working, id) || Claimed(s, id))
  }

  ghost predicate TableOk(s: State) {
    var st := s.store;
    && (forall id :: IsPending(st.working, id) ==> IsPending(st.actions, id) || BeingAdded(s, id))
    && (forall id :: id in st.durable ==> id in st.working && SameRow(st.durable[id], st.working[id]))
    && (forall id :: id in st.durable ==> st.durable[id].status == Pending || st.durable[id].status == st.working[id].status)
    && (forall id :: IsPending(st.durable, id) ==> IsPending(st.actions, id) || BeingAdded(s, id))
  }

  /** A call in flight owns its id: memory still pending, the row already resolved its way, committed if it got that far. */
  ghost predicate OwnsRow(s: State, id: ActionId, to: PendingStatus, committed: bool) {
    && IsPending(s.store.actions, id)
    && id in s.store.working && s.store.working[id].status == to
    && (committed ==> id in s.store.durable && s.store.durable[id].status == to)
    && id !in s.resolved
  }

  ghost predicate TasksOk(s: State) {
    && (forall t :: 0 <= t < |s.tasks| && !s.tasks[t].Finished? ==>
          s.tasks[t].id in s.store.actions && (s.tasks[t].to == Approved || s.tasks[t].to == Rejected))
    && (forall t :: 0 <= t < |s.tasks| && InFlight(s.tasks[t]) ==> OwnsRow(s, s.tasks[t].id, s.tasks[t].to, s.tasks[t].Committed?))
    && (forall t, u :: 0 <= t < u < |s.tasks| && InFlight(s.tasks[t]) && InFlight(s.tasks[u]) ==> s.tasks[t].id != s.tasks[u].id)
  }

  ghost predicate MainOk(s: State) {
    match s.main
    case Free => true
    case Preparing(p) => Unused(s, p.id) && p.key !in s.store.keys && p.status == Pending
    case Inserted(p) => AddOk(s, p)
    case AddCommitted(p) => AddOk(s, p) && p.id in s.store.durable
    case ExpireUpdated(ids) => forall id :: id in ids ==> OwnsRow(s, id, Expired, false)
    case ExpireCommitted(ids) => forall id :: id in ids ==> OwnsRow(s, id, Expired, true)
  }

  ghost predicate AddOk(s: State, p: PendingAction) {
    && p.id !in s.store.actions && p.id !in s.resolved
    && p.id in s.store.working && s.store.working[p.id] == p && p.status == Pending
    && p.key !in s.store.keys
  }

  ghost predicate ResolvedOk(s: State) {
    && (forall i, j :: 0 <= i < j < |s.resolved| ==> s.resolved[i] != s.resolved[j])
    && (forall id :: id in s.resolved ==> id in s.store.durable && s.store.durable[id].status != Pending)
  }

  ghost predicate Inv(s: State) {
    KeysExact(s.store) && MemoryOk(s) && TableOk(s) && TasksOk(s) && MainOk(s) && ResolvedOk(s)
  }

  function Start(): State {
    State(Store(map[], {}, map[], map[]), [], Free, [])
  }

  // ----- Every stretch keeps the invariant -----

  lemma {:induction false} StartResolveKeeps(s: State, id: ActionId, to: PendingStatus)
    requires Inv(s)
    ensures Inv(Next(s, StartResolve(id, to)))
  {
    var r := Next(s, StartResolve(id, to));
    if r != s {
      ClaimsKept(s, r);
    }
  }

  /** Claims survive when no call in flight leaves and the main loop stays put. */
  lemma {:induction false} ClaimsKept(s: State, r: State)
    requires |s.tasks| <= |r.tasks| && s.main == r.main
    requires forall t :: 0 <= t < |s.tasks| && InFlight(s.tasks[t]) ==> InFlight(r.tasks[t]) && r.tasks[t].id == s.tasks[t].id
    ensures forall id :: Claimed(s, id) ==> Claimed(r, id)
  {
    forall id | Claimed(s, id)
      ensures Claimed(r, id)
    {
      if t :| 0 <= t < |s.tasks| && InFlight(s.tasks[t]) && s.tasks[t].id == id {
        assert InFlight(r.tasks[t]) && r.tasks[t].id == id;
      }
    }
  }

  lemma {:induction false} UpdateTaskKeeps(s: State, t: nat)
    requires Inv(s) && t < |s.tasks| && s.tasks[t].Checked?
    ensures Inv(Next(s, UpdateTask(t)))
  {
    var r := Next(s, UpdateTask(t));
    var c := s.tasks[t];
    if IsPending(s.store.working, c.id) {
      UpdateTaskKeepsOwners(s, t);
      UpdateTaskKeepsTables(s, t);
    } else {
      ClaimsKept(s, r);
    }
  }

  lemma {:induction false} UpdateTaskKeepsTables(s: State, t: nat)
    requires Inv(s) && t < |s.tasks| && s.tasks[t].Checked? && IsPending(s.store.working, s.tasks[t].id)
    ensures MemoryOk(Next(s, UpdateTask(t))) && TableOk(Next(s, UpdateTask(t)))
  {
    var r := Next(s, UpdateTask(t));
    var c := s.tasks[t];
    ClaimsKept(s, r);
    assert InFlight(r.tasks[t]) && r.tasks[t].id == c.id;
    assert Claimed(r, c.id);
    NotResolved(s, c.id);
  }

  lemma {:induction false} UpdateTaskKeepsOwners(s: State, t: nat)
    requires Inv(s) && t < |s.tasks| && s.tasks[t].Checked? && IsPending(s.store.working, s.tasks[t].id)
    ensures TasksOk(Next(s, UpdateTask(t))) && MainOk(Next(s, UpdateTask(t))) && ResolvedOk(Next(s, UpdateTask(t)))
  {
    var r := Next(s, UpdateTask(t));
    var c := s.tasks[t];
    NotResolved(s, c.id);
    forall u | 0 <= u < |r.tasks| && InFlight(r.tasks[u])
      ensures OwnsRow(r, r.tasks[u].id, r.tasks[u].to, r.tasks[u].Committed?)
    {
      if u != t {
        assert OwnsRow(s, s.tasks[u].id, s.tasks[u].to, s.tasks[u].Committed?);
        assert s.tasks[u].id != c.id;
      }
    }
    assert MainOk(r);
  }

  /** A row that is pending in the table has not been resolved by anyone. */
  lemma {:induction false} NotResolved(s: State, id: ActionId)
    requires Inv(s) && IsPending(s.store.working, id)
    ensures id !in s.resolved
    ensures id in s.store.durable ==> s.store.durable[id].status == Pending
  {
  }

  lemma {:induction false} CommitTaskKeeps(s: State, t: nat)
    requires Inv(s) && t < |s.tasks| && s.tasks[t].Updated?
    ensures Inv(Next(s, CommitTask(t)))
  {
    var r := Next(s, CommitTask(t));
    ClaimsKept(s, r);
    assert OwnsRow(s, s.tasks[t].id, s.tasks[t].to, false);
  }

  lemma {:induction false} FinishTaskKeeps(s: State, t: nat)
    requires Inv(s) && t < |s.tasks| && s.tasks[t].Committed?
    ensures Inv(Next(s, FinishTask(t)))
  {
    var c := s.tasks[t];
    assert OwnsRow(s, c.id, c.to, true);
    KeyLeaves(s.store, c.id, c.to);
    FinishTaskKeepsTables(s, t);
    FinishTaskKeepsOwners(s, t);
  }

  lemma {:induction false} FinishTaskKeepsTables(s: State, t: nat)
    requires Inv(s) && t < |s.tasks| && s.tasks[t].Committed?
    ensures MemoryOk(Next(s, FinishTask(t))) && TableOk(Next(s, FinishTask(t)))
  {
    var r := Next(s, FinishTask(t));
    var c := s.tasks[t];
    assert OwnsRow(s, c.id, c.to, true);
    forall id | Claimed(s, id) && id != c.id
      ensures Claimed(r, id)
    {
      if u :| 0 <= u < |s.tasks| && InFlight(s.tasks[u]) && s.tasks[u].id == id {
        assert InFlight(r.tasks[u]) && r.tasks[u].id == id;
      }
    }
  }

  lemma {:induction false} FinishTaskKeepsOwners(s: State, t: nat)
    requires Inv(s) && t < |s.tasks| && s.tasks[t].Committed?
    ensures TasksOk(Next(s, FinishTask(t))) && MainOk(Next(s, FinishTask(t))) && ResolvedOk(Next(s, FinishTask(t)))
  {
    var r := Next(s, FinishTask(t));
    var c := s.tasks[t];
    assert OwnsRow(s, c.id, c.to, true);
    forall u | 0 <= u < |r.tasks| && InFlight(r.tasks[u])
      ensures OwnsRow(r, r.tasks[u].id, r.tasks[u].to, r.tasks[u].Committed?)
    {
      assert OwnsRow(s, s.tasks[u].id, s.tasks[u].to, s.tasks[u].Committed?);
      assert s.tasks[u].id != c.id;
    }
    assert MainOk(r);
  }

  lemma {:induction false} SameTasksSameClaims(s: State, r: State)
    requires s.tasks == r.tasks && !s.main.ExpireUpdated? && !s.main.ExpireCommitted?
    ensures forall id :: Claimed(s, id) ==> Claimed(r, id)
  {
  }

  lemma {:induction false} AddKeeps(s: State, e: Event)
    requires Inv(s) && (e.StartAdd? || e.InsertAdd? || e.CommitAdd?)
    ensures Inv(Next(s, e))
  {
    var r := Next(s, e);
    if r != s {
      SameTasksSameClaims(s, r);
    }
  }

  lemma {:induction false} EndAddKeeps(s: State)
    requires Inv(s) && s.main.AddCommitted?
    ensures Inv(Next(s, EndAdd))
  {
    var r := Next(s, EndAdd);
    SameTasksSameClaims(s, r);
    KeyEnters(s.store, s.main.p);
    assert forall id :: IsPending(s.store.actions, id) ==> IsPending(r.store.actions, id);
  }

  lemma {:induction false} StartExpireKeeps(s: State, now: int)
    requires Inv(s) && s.main == Free
    ensures Inv(Next(s, StartExpire(now)))
  {
    var r := Next(s, StartExpire(now));
    var ids := DueIds(s.store.working, now);
    SameTasksSameClaims(s, r);
    forall id | id in ids
      ensures OwnsRow(r, id, Expired, false)
    {
      assert IsPending(s.store.working, id);
      NotResolved(s, id);
    }
    assert forall id :: id in ids ==> Claimed(r, id);
    assert TasksOk(r);
  }

  lemma {:induction false} CommitExpireKeeps(s: State)
    requires Inv(s) && s.main.ExpireUpdated? && s.main.ids != {}
    ensures Inv(Next(s, CommitExpire))
  {
    var r := Next(s, CommitExpire);
    forall id | Claimed(s, id)
      ensures Claimed(r, id)
    {
    }
    assert forall id :: id in s.main.ids ==> OwnsRow(s, id, Expired, false);
  }

  lemma {:induction false} EndExpireKeeps(s: State, order: seq<ActionId>)
    requires Inv(s) && (s.main.ExpireCommitted? || s.main == ExpireUpdated({})) && Lists(order, s.main.ids * s.store.actions.Keys)
    ensures Inv(Next(s, EndExpire(order)))
  {
    var r := Next(s, EndExpire(order));
    var ids := s.main.ids;
    assert forall id :: id in ids ==> OwnsRow(s, id, Expired, true);
    assert ids * s.store.actions.Keys == ids;
    assert forall id :: IsPending(r.store.actions, id) <==> IsPending(s.store.actions, id) && id !in ids;
    assert MemoryOk(r) by {
      forall id | Claimed(s, id) && id !in ids
        ensures Claimed(r, id)
      {
      }
    }
    assert TableOk(r);
    EndExpireKeepsOwners(s, order);
  }

  lemma {:induction false} EndExpireKeepsOwners(s: State, order: seq<ActionId>)
    requires Inv(s) && (s.main.ExpireCommitted? || s.main == ExpireUpdated({})) && Lists(order, s.main.ids)
    requires s.main.ids * s.store.actions.Keys == s.main.ids
    ensures TasksOk(Next(s, EndExpire(order))) && ResolvedOk(Next(s, EndExpire(order)))
  {
    var r := Next(s, EndExpire(order));
    var ids := s.main.ids;
    assert forall id :: id in order ==> OwnsRow(s, id, Expired, true);
    forall u | 0 <= u < |r.tasks| && InFlight(r.tasks[u])
      ensures OwnsRow(r, r.tasks[u].id, r.tasks[u].to, r.tasks[u].Committed?)
    {
      assert OwnsRow(s, s.tasks[u].id, s.tasks[u].to, s.tasks[u].Committed?);
      assert s.tasks[u].id !in ids;
    }
    forall i, j | 0 <= i < j < |r.resolved|
      ensures r.resolved[i] != r.resolved[j]
    {
      if i < |s.resolved| <= j {
        assert r.resolved[j] in order && r.resolved[i] in s.resolved;
      }
    }
  }

  lemma {:induction false} CrashKeeps(s: State, at: int)
    requires Inv(s)
    ensures Inv(Next(s, Crash(at)))
  {
    var r := Next(s, Crash(at));
    forall a, b | IsPending(r.store.actions, a) && IsPending(r.store.actions, b) && a != b
      ensures r.store.actions[a].key != r.store.actions[b].key
    {
      assert IsPending(s.store.durable, a) && IsPending(s.store.durable, b);
      DurableKeysDistinct(s, a, b);
    }
  }

  /** What is pending in the committed table also has distinct keys. */
  lemma {:induction false} DurableKeysDistinct(s: State, a: ActionId, b: ActionId)
    requires Inv(s) && IsPending(s.store.durable, a) && IsPending(s.store.durable, b) && a != b
    ensures s.store.durable[a].key != s.store.durable[b].key
  {
    var st := s.store;
    assert IsPending(st.actions, a) ==> st.actions[a].key in KeysOf(st.actions);
    assert IsPending(st.actions, b) ==> st.actions[b].key in KeysOf(st.actions);
  }

  lemma {:induction false} NextKeeps(s: State, e: Event)
    requires Inv(s)
    ensures Inv(Next(s, e))
  {
    if Next(s, e) != s {
      match e
      case StartResolve(id, to) => StartResolveKeeps(s, id, to);
      case UpdateTask(t) => UpdateTaskKeeps(s, t);
      case CommitTask(t) => CommitTaskKeeps(s, t);
      case FinishTask(t) => FinishTaskKeeps(s, t);
      case StartAdd(_, _, _) => AddKeeps(s, e);
      case InsertAdd => AddKeeps(s, e);
      case CommitAdd => AddKeeps(s, e);
      case EndAdd => EndAddKeeps(s);
      case StartExpire(now) => StartExpireKeeps(s, now);
      case CommitExpire => CommitExpireKeeps(s);
      case EndExpire(order) => EndExpireKeeps(s, order);
      case Crash(at) => CrashKeeps(s, at);
    }
  }

  // ----- Whole runs -----

  ghost function Run(s: State, events: seq<Event>): State
    decreases |events|
  {
    if events == [] then s else Run(Next(s, events[0]), events[1..])
  }

  lemma {:induction false} RunKeeps(s: State, events: seq<Event>)
    requires Inv(s)
    ensures Inv(Run(s, events))
    decreases |events|
  {
    if events != [] {
      NextKeeps(s, events[0]);
      RunKeeps(Next(s, events[0]), events[1..]);
    }
  }

  /** In every interleaving, with crashes, the key set is exactly that of the pending actions and no two of them share a key. */
  lemma {:induction false} KeysAlwaysExact(events: seq<Event>)
    ensures KeysExact(Run(Start(), events).store)
  {
    RunKeeps(Start(), events);
  }

  /**
   In every interleaving, with crashes, no id is ever returned twice as approved, rejected or
   expired, and one that was returned is never offered as pending again.
  */
  lemma {:induction false} ResolvedAtMostOnce(events: seq<Event>)
    ensures
      var s := Run(Start(), events);
      && (forall i, j :: 0 <= i < j < |s.resolved| ==> s.resolved[i] != s.resolved[j])
      && (forall id :: id in s.resolved ==> !IsPending(s.store.actions, id))
  {
    RunKeeps(Start(), events);
    var s := Run(Start(), events);
    forall id | id in s.resolved
      ensures !IsPending(s.store.actions, id)
    {
      assert !Claimed(s, id);
      assert !IsPending(s.store.working, id);
    }
  }

  // ----- Undisturbed calls are runs -----

  /** The state between calls. */
  predicate Quiet(s: State) {
    s.tasks == [] && s.main == Free
  }

  /** An undisturbed approve or reject is its stretches in a row. */
  lemma {:induction false} ResolveIsRun(s: State, id: ActionId, to: PendingStatus)
    requires Quiet(s) && (to == Approved || to == Rejected)
    ensures Run(s, [StartResolve(id, to), UpdateTask(0), CommitTask(0), FinishTask(0)]).store == Resolved(s.store, id, to)
  {
    var started := Next(s, StartResolve(id, to));
    var updated := Next(started, UpdateTask(0));
    var committed := Next(updated, CommitTask(0));
    RunFour(s, StartResolve(id, to), UpdateTask(0), CommitTask(0), FinishTask(0));
  }

  lemma {:induction false} AddIsRun(s: State, id: ActionId, key: Option<DedupKey>, expiresAt: int)
    requires Quiet(s) && Unused(s, id)
    ensures Run(s, [StartAdd(id, key, expiresAt), InsertAdd, CommitAdd, EndAdd]).store == Added(s.store, id, key, expiresAt)
  {
    RunFour(s, StartAdd(id, key, expiresAt), InsertAdd, CommitAdd, EndAdd);
  }

  lemma {:induction false} ExpireIsRun(s: State, now: int, order: seq<ActionId>)
    requires Quiet(s) && Lists(order, DueIds(s.store.working, now) * s.store.actions.Keys)
    ensures Run(s, [StartExpire(now), CommitExpire, EndExpire(order)]).store == Swept(s.store, now)
  {
    var ids := DueIds(s.store.working, now);
    var a := Next(s, StartExpire(now));
    RunThree(s, StartExpire(now), CommitExpire, EndExpire(order));
    if ids == {} {
      assert ExpireAll(s.store.working, {}) == s.store.working;
      assert Next(a, CommitExpire) == a && a.store == s.store;
    }
  }

  lemma {:induction false} RunThree(s: State, a: Event, b: Event, c: Event)
    ensures Run(s, [a, b, c]) == Next(Next(Next(s, a), b), c)
  {
    RunTwo(Next(s, a), b, c);
    assert [a, b, c][1..] == [b, c];
  }

  lemma {:induction false} RunTwo(s: State, a: Event, b: Event)
    ensures Run(s, [a, b]) == Next(Next(s, a), b)
  {
    assert [a, b][1..] == [b] && [b][1..] == [];
    assert Run(Next(s, a), [b]) == Run(Next(Next(s, a), b), []);
  }

  lemma {:induction false} RunFour(s: State, a: Event, b: Event, c: Event, d: Event)
    ensures Run(s, [a, b, c, d]) == Next(Next(Next(Next(s, a), b), c), d)
  {
    RunThree(Next(s, a), b, c, d);
    assert [a, b, c, d][1..] == [b, c, d];
  }

  // ----- A key that is added once is resolved at most once -----

  /** How often an add is begun for this key. */
  function Adds(events: seq<Event>, key: DedupKey): nat
    decreases |events|
  {
    if events == [] then 0 else (if events[0].StartAdd? && events[0].key == Some(key) then 1 else 0) + Adds(events[1..], key)
  }

  /** No row has the key but possibly one. */
  ghost predicate OnlyRow(s: State, key: DedupKey, only: Option<ActionId>) {
    && (forall id :: id in s.store.working && s.store.working[id].key == key ==> only == Some(id))
    && (s.main.Preparing? && s.main.p.key == key ==> only == Some(s.main.p.id))
  }

  lemma {:induction false} OnlyRowStays(s: State, e: Event, key: DedupKey, only: Option<ActionId>)
    requires Inv(s) && OnlyRow(s, key, only) && !(e.StartAdd? && e.key == Some(key))
    ensures OnlyRow(Next(s, e), key, only)
  {
  }

  lemma {:induction false} OnlyRowStaysOn(s: State, events: seq<Event>, key: DedupKey, only: Option<ActionId>)
    requires Inv(s) && OnlyRow(s, key, only) && Adds(events, key) == 0
    ensures OnlyRow(Run(s, events), key, only)
    decreases |events|
  {
    if events != [] {
      NextKeeps(s, events[0]);
      OnlyRowStays(s, events[0], key, only);
      OnlyRowStaysOn(Next(s, events[0]), events[1..], key, only);
    }
  }

  lemma {:induction false} AddedOnceIsOneRow(s: State, events: seq<Event>, key: DedupKey) returns (only: Option<ActionId>)
    requires Inv(s) && OnlyRow(s, key, None) && Adds(events, key) <= 1
    ensures OnlyRow(Run(s, events), key, only)
    decreases |events|
  {
    if events == [] {
      only := None;
    } else {
      var e := events[0];
      NextKeeps(s, e);
      if e.StartAdd? && e.key == Some(key) {
        only := Some(e.newId);
        OnlyRowStaysOn(Next(s, e), events[1..], key, only);
      } else {
        OnlyRowStays(s, e, key, None);
        only := AddedOnceIsOneRow(Next(s, e), events[1..], key);
      }
    }
  }

  predicate Keyed(rows: Table, id: ActionId, key: DedupKey) {
    id in rows && rows[id].key == key
  }

  /** At most one of the ids has the key. */
  ghost predicate AtMostOneKeyed(ids: seq<ActionId>, rows: Table, key: DedupKey) {
    forall i, j :: 0 <= i < j < |ids| ==> !(Keyed(rows, ids[i], key) && Keyed(rows, ids[j], key))
  }

  /** In every interleaving, with crashes: if a key is added at most once, at most one resolution of it is ever returned. */
  lemma {:induction false} AddedOnceResolvedOnce(events: seq<Event>, key: DedupKey)
    requires Adds(events, key) <= 1
    ensures
      var s := Run(Start(), events);
      && (forall id :: id in s.resolved ==> id in s.store.durable && s.store.durable[id].status != Pending)
      && AtMostOneKeyed(s.resolved, s.store.durable, key)
  {
    var s := Run(Start(), events);
    RunKeeps(Start(), events);
    var only := AddedOnceIsOneRow(Start(), events, key);
    forall id | Keyed(s.store.durable, id, key)
      ensures only == Some(id)
    {
      assert id in s.store.working && s.store.working[id].key == key;
    }
  }
}
