/**
 The pending approval queue: an SQLite table, whose uncommitted changes a crash undoes, and the
 in-memory dictionary and key set kept beside it.  `Approve`, `Reject`, `Add` and `ExpireStale`
 are the source's methods as they run undisturbed, made of the stretches between two awaits;
 PendingRuns.dfy lets the stretches interleave.
*/
module PendingQueue {
  import opened Wrappers
  import opened Collections

  type ActionId(==, !new)

  /** What `_make_key` builds from handler, operation and target, or the plan id with its prefix. */
  type DedupKey(==, !new)

  datatype PendingStatus = Pending | Approved | Rejected | Expired

  datatype PendingAction = PendingAction(id: ActionId, key: DedupKey, expiresAt: int, status: PendingStatus)

  type Table = map<ActionId, PendingAction>

  /** The queue's memory and the table: as this process sees it, and as committed. */
  datatype Store = Store(actions: Table, keys: set<DedupKey>, working: Table, durable: Table)

  predicate IsPending(t: Table, id: ActionId) {
    id in t && t[id].status == Pending
  }

  function SetStatus(t: Table, id: ActionId, status: PendingStatus): Table
    requires id in t
  {
    t[id := t[id].(status := status)]
  }

  /** Several rows at once. */
  function ExpireAll(t: Table, ids: set<ActionId>): Table {
    map id | id in t :: if id in ids then t[id].(status := Expired) else t[id]
  }

  /** `_pending_keys` as a rebuild computes it. */
  function KeysOf(t: Table): set<DedupKey> {
    set id | id in t && t[id].status == Pending :: t[id].key
  }

  function DueIds(t: Table, now: int): set<ActionId> {
    set id | id in t && t[id].status == Pending && t[id].expiresAt <= now
  }

  // ----- The stretches between awaits, as functions -----

  function Commit(s: Store): Store {
    s.(durable := s.working)
  }

  /** The conditional UPDATE: does nothing unless the row is pending. */
  function CompareAndSet(s: Store, id: ActionId, to: PendingStatus): Store {
    if IsPending(s.working, id) then s.(working := SetStatus(s.working, id, to)) else s
  }

  function FinishResolve(s: Store, id: ActionId, to: PendingStatus): Store
    requires id in s.actions
  {
    s.(actions := SetStatus(s.actions, id, to), keys := s.keys - {s.actions[id].key})
  }

  function InsertRow(s: Store, p: PendingAction): Store {
    s.(working := s.working[p.id := p])
  }

  function FinishAdd(s: Store, p: PendingAction): Store {
    s.(actions := s.actions[p.id := p], keys := s.keys + {p.key})
  }

  function ExpireDue(s: Store, now: int): Store {
    s.(working := ExpireAll(s.working, DueIds(s.working, now)))
  }

  function FinishExpire(s: Store, ids: set<ActionId>): Store {
    var actions := ExpireAll(s.actions, ids);
    s.(actions := actions, keys := KeysOf(actions))
  }

  // ----- Whole calls, undisturbed -----

  predicate Resolvable(s: Store, id: ActionId) {
    IsPending(s.actions, id) && IsPending(s.working, id)
  }

  function Resolved(s: Store, id: ActionId, to: PendingStatus): Store {
    if Resolvable(s, id) then FinishResolve(Commit(CompareAndSet(s, id, to)), id, to) else s
  }

  function Added(s: Store, id: ActionId, key: Option<DedupKey>, expiresAt: int): Store {
    if key.None? || key.value in s.keys then s
    else
      var p := PendingAction(id, key.value, expiresAt, Pending);
      FinishAdd(Commit(InsertRow(s, p)), p)
  }

  function Swept(s: Store, now: int): Store {
    var ids := DueIds(s.working, now);
    FinishExpire(if ids == {} then s else Commit(ExpireDue(s, now)), ids)
  }

  /** A new process: uncommitted changes are gone, due rows are swept, the pending rest is loaded. */
  function Restart(s: Store, now: int): Store {
    var swept := ExpireAll(s.durable, DueIds(s.durable, now));
    var loaded := map id | id in swept && swept[id].status == Pending :: swept[id];
    Store(loaded, KeysOf(loaded), swept, swept)
  }

  /** The promise: the key set is that of the pending actions, and no two of those share a key. */
  ghost predicate KeysExact(st: Store) {
    && st.keys == KeysOf(st.actions)
    && forall a, b :: IsPending(st.actions, a) && IsPending(st.actions, b) && a != b ==> st.actions[a].key != st.actions[b].key
  }

  /** Taking one action out of pending removes exactly its key, because no other pending action has it. */
  lemma {:induction false} KeyLeaves(st: Store, id: ActionId, to: PendingStatus)
    requires KeysExact(st) && IsPending(st.actions, id) && to != Pending
    ensures KeysExact(FinishResolve(st, id, to))
  {
    var r := FinishResolve(st, id, to);
    forall k
      ensures k in r.keys <==> k in KeysOf(r.actions)
    {
      if k in r.keys {
        var x :| x in st.actions && st.actions[x].status == Pending && st.actions[x].key == k;
        assert r.actions[x] == st.actions[x];
      }
      if k in KeysOf(r.actions) {
        var x :| x in r.actions && r.actions[x].status == Pending && r.actions[x].key == k;
        assert IsPending(st.actions, x) && x != id;
      }
    }
    assert forall x :: IsPending(r.actions, x) ==> IsPending(st.actions, x) && r.actions[x] == st.actions[x];
  }

  lemma {:induction false} KeyEnters(st: Store, p: PendingAction)
    requires KeysExact(st) && p.id !in st.actions && p.key !in st.keys && p.status == Pending
    ensures KeysExact(FinishAdd(st, p))
  {
    var r := FinishAdd(st, p);
    KeysOfMore(st.actions, p.id, p);
    forall a, b | IsPending(r.actions, a) && IsPending(r.actions, b) && a != b
      ensures r.actions[a].key != r.actions[b].key
    {
      assert a != p.id ==> st.actions[a].key in KeysOf(st.actions);
      assert b != p.id ==> st.actions[b].key in KeysOf(st.actions);
    }
  }

  /** The rebuild needs no keys to start from, only that pending actions do not share one. */
  lemma {:induction false} KeysSurviveExpiry(st: Store, ids: set<ActionId>)
    requires KeysExact(st)
    ensures KeysExact(FinishExpire(st, ids))
  {
    var r := FinishExpire(st, ids);
    assert forall x :: IsPending(r.actions, x) ==> IsPending(st.actions, x) && r.actions[x] == st.actions[x];
  }

  class PendingQueue {
    var actions: Table
    var pendingKeys: set<DedupKey>
    var working: Table
    var durable: Table

    function View(): Store
      reads this
    {
      Store(actions, pendingKeys, working, durable)
    }

    /** from_db on a database that `previous` left behind. */
    constructor FromDb(previous: Store, now: int)
      ensures View() == Restart(previous, now)
    {
      var due := DueIds(previous.durable, now);
      var swept := ExpireAll(previous.durable, due);
      var loaded := LoadPending(swept);
      actions := loaded;
      var keys := RebuiltKeys(loaded);
      pendingKeys := keys;
      working := swept;
      durable := swept;
    }

    /** The synchronous start of approve and reject: is there anything to resolve? */
    method CheckPending(id: ActionId) returns (ok: bool)
      ensures ok <==> IsPending(actions, id)
    {
      ok := id in actions && actions[id].status == Pending;
    }

    /** The UPDATE with its row count. */
    method UpdateStatus(id: ActionId, to: PendingStatus) returns (rowcount: nat)
      requires to != Pending
      modifies this`working
      ensures View() == CompareAndSet(old(View()), id, to)
      ensures rowcount == if IsPending(old(working), id) then 1 else 0
    {
      if id in working && working[id].status == Pending {
        working := working[id := working[id].(status := to)];
        rowcount := 1;
      } else {
        rowcount := 0;
      }
    }

    method CommitChanges()
      modifies this`durable
      ensures View() == Commit(old(View()))
    {
      durable := working;
    }

    /** The synchronous end of approve and reject. */
    method CompleteResolve(id: ActionId, to: PendingStatus)
      requires id in actions
      modifies this`actions, this`pendingKeys
      ensures View() == FinishResolve(old(View()), id, to)
    {
      actions := actions[id := actions[id].(status := to)];
      pendingKeys := pendingKeys - {actions[id].key};
    }

    /** The synchronous start of add: None for no subject or a key already pending. */
    method PrepareAdd(id: ActionId, key: Option<DedupKey>, expiresAt: int) returns (pending: Option<PendingAction>)
      ensures pending == if key.None? || key.value in pendingKeys then None
                         else Some(PendingAction(id, key.value, expiresAt, Pending))
    {
      if key == None {
        return None;
      }
      if key.value in pendingKeys {
        return None;
      }
      pending := Some(PendingAction(id, key.value, expiresAt, Pending));
    }

    method InsertPending(p: PendingAction)
      modifies this`working
      ensures View() == InsertRow(old(View()), p)
    {
      working := working[p.id := p];
    }

    /** The synchronous end of add. */
    method CompleteAdd(p: PendingAction)
      modifies this`actions, this`pendingKeys
      ensures View() == FinishAdd(old(View()), p)
    {
      actions := actions[p.id := p];
      pendingKeys := pendingKeys + {p.key};
    }

    /** The UPDATE ... RETURNING of expire_stale. */
    method UpdateExpired(now: int) returns (ids: set<ActionId>)
      modifies this`working
      ensures ids == DueIds(old(working), now) && View() == ExpireDue(old(View()), now)
    {
      ids := DueIds(working, now);
      working := ExpireAll(working, ids);
    }

    /** The synchronous end of expire_stale: mark, collect, and rebuild the keys. */
    method CompleteExpire(expired: set<ActionId>) returns (notified: seq<ActionId>)
      modifies this`actions, this`pendingKeys
      ensures View() == FinishExpire(old(View()), expired)
      ensures Enumerates(notified, expired * old(actions).Keys)
    {
      notified := [];
      var ids := Enumerate(expired);
      ghost var done: set<ActionId> := {};
      for i := 0 to |ids|
        invariant working == old(working) && durable == old(durable) && pendingKeys == old(pendingKeys)
        invariant forall id :: id in done <==> id in ids[..i]
        invariant actions == ExpireAll(old(actions), done)
        invariant Enumerates(notified, done * old(actions).Keys)
      {
        var id := ids[i];
        if id in actions {
          EnumeratesMore(notified, done * old(actions).Keys, id);
          actions := actions[id := actions[id].(status := Expired)];
          notified := notified + [id];
        }
        ghost var more := done + {id};
        assert more * old(actions).Keys == done * old(actions).Keys + ({id} * old(actions).Keys);
        assert actions == ExpireAll(old(actions), more);
        done := more;
      }
      assert ids[..|ids|] == ids;
      assert done == expired;
      pendingKeys := RebuiltKeys(actions);
    }

    /**
     What approve and reject have in common.  The action is returned exactly if memory and table
     both have it pending; then both have it resolved, durably, its key is free, and nothing else
     has changed.  Otherwise nothing changes.
    */
    method Resolve(id: ActionId, to: PendingStatus) returns (resolved: Option<PendingAction>)
      requires to == Approved || to == Rejected
      modifies this
      ensures View() == Resolved(old(View()), id, to)
      ensures resolved.Some? <==> Resolvable(old(View()), id)
      ensures resolved.Some? ==>
        && resolved.value == old(actions)[id].(status := to)
        && actions == old(actions)[id := resolved.value]
        && pendingKeys == old(pendingKeys) - {resolved.value.key}
        && working == old(working)[id := old(working)[id].(status := to)] && durable == working
      ensures resolved.None? ==> View() == old(View())
      ensures KeysExact(old(View())) ==> KeysExact(View())
    {
      var pending := CheckPending(id);
      if !pending {
        return None;
      }
      var rowcount := UpdateStatus(id, to);
      if rowcount == 0 {
        return None;
      }
      CommitChanges();
      ghost var before := View();
      CompleteResolve(id, to);
      if KeysExact(old(View())) {
        assert before.actions == old(actions) && before.keys == old(pendingKeys);
        KeyLeaves(before, id, to);
      }
      resolved := Some(actions[id]);
    }

    method Approve(id: ActionId) returns (approved: Option<PendingAction>)
      modifies this
      ensures View() == Resolved(old(View()), id, Approved)
      ensures approved == if Resolvable(old(View()), id) then Some(old(actions)[id].(status := Approved)) else None
      ensures approved.Some? ==> id in durable && durable[id].status == Approved
      ensures KeysExact(old(View())) ==> KeysExact(View())
    {
      approved := Resolve(id, Approved);
    }

    method Reject(id: ActionId) returns (rejected: Option<PendingAction>)
      modifies this
      ensures View() == Resolved(old(View()), id, Rejected)
      ensures rejected == if Resolvable(old(View()), id) then Some(old(actions)[id].(status := Rejected)) else None
      ensures rejected.Some? ==> id in durable && durable[id].status == Rejected
      ensures KeysExact(old(View())) ==> KeysExact(View())
    {
      rejected := Resolve(id, Rejected);
    }

    /**
     An action is added exactly if it has a subject whose key is not pending; then memory, the
     committed table and the key set all have it, and nothing else has changed.
    */
    method Add(id: ActionId, key: Option<DedupKey>, expiresAt: int) returns (added: Option<PendingAction>)
      requires id !in actions
      modifies this
      ensures View() == Added(old(View()), id, key, expiresAt)
      ensures added.Some? <==> key.Some? && key.value !in old(pendingKeys)
      ensures added.Some? ==>
        && added.value == PendingAction(id, key.value, expiresAt, Pending)
        && actions == old(actions)[id := added.value] && pendingKeys == old(pendingKeys) + {key.value}
        && working == old(working)[id := added.value] && durable == working
      ensures added.None? ==> View() == old(View())
      ensures KeysExact(old(View())) ==> KeysExact(View())
    {
      added := PrepareAdd(id, key, expiresAt);
      if added.None? {
        return;
      }
      InsertPending(added.value);
      CommitChanges();
      ghost var before := View();
      CompleteAdd(added.value);
      if KeysExact(old(View())) {
        KeyEnters(before, added.value);
      }
    }

    /**
     Afterwards no row is both pending and due, the rows that were are expired, durably, in memory
     too where it had them, and exactly those memory had are returned, each once.  The key set is
     right whatever it was before.
    */
    method ExpireStale(now: int) returns (expired: seq<ActionId>)
      modifies this
      ensures View() == Swept(old(View()), now)
      ensures DueIds(working, now) == {}
      ensures forall id :: id in old(working) && IsPending(old(working), id) && old(working)[id].expiresAt <= now ==>
        id in durable && durable[id].status == Expired && (id in old(actions) ==> actions[id].status == Expired)
      ensures forall id :: id in old(working) && !(old(working)[id].status == Pending && old(working)[id].expiresAt <= now) ==>
        id in working && working[id] == old(working)[id] && (id in old(actions) ==> id in actions && actions[id] == old(actions)[id])
      ensures Enumerates(expired, DueIds(old(working), now) * old(actions).Keys)
      ensures pendingKeys == KeysOf(actions)
      ensures KeysExact(old(View())) ==> KeysExact(View())
    {
      var ids := UpdateExpired(now);
      if ids != {} {
        CommitChanges();
      } else {
        assert working == old(working);
      }
      ghost var before := View();
      expired := CompleteExpire(ids);
      if KeysExact(old(View())) {
        assert before.actions == old(actions) && before.keys == old(pendingKeys);
        KeysSurviveExpiry(before, ids);
      }
    }
  }

  method LoadPending(rows: Table) returns (loaded: Table)
    ensures loaded == map id | id in rows && rows[id].status == Pending :: rows[id]
  {
    loaded := map[];
    var ids := Enumerate(rows.Keys);
    for i := 0 to |ids|
      invariant forall id :: id in loaded <==> id in ids[..i] && rows[id].status == Pending
      invariant forall id :: id in loaded ==> loaded[id] == rows[id]
    {
      if rows[ids[i]].status == Pending {
        loaded := loaded[ids[i] := rows[ids[i]]];
      }
    }
    assert ids[..|ids|] == ids;
  }

  /** The loop that rebuilds the key set from the pending actions. */
  method RebuiltKeys(actions: Table) returns (keys: set<DedupKey>)
    ensures keys == KeysOf(actions)
  {
    keys := {};
    var ids := Enumerate(actions.Keys);
    ghost var seen: Table := map[];
    for i := 0 to |ids|
      invariant forall id :: id in seen <==> id in ids[..i]
      invariant forall id :: id in seen ==> seen[id] == actions[id]
      invariant keys == KeysOf(seen)
    {
      KeysOfMore(seen, ids[i], actions[ids[i]]);
      if actions[ids[i]].status == Pending {
        keys := keys + {actions[ids[i]].key};
      }
      seen := seen[ids[i] := actions[ids[i]]];
    }
    assert ids[..|ids|] == ids;
    assert seen == actions;
  }

  lemma {:induction false} KeysOfMore(t: Table, id: ActionId, p: PendingAction)
    requires id !in t
    ensures KeysOf(t[id := p]) == if p.status == Pending then KeysOf(t) + {p.key} else KeysOf(t)
  {
    var r := t[id := p];
    forall k | k in KeysOf(t)
      ensures k in KeysOf(r)
    {
      var x :| x in t && t[x].status == Pending && t[x].key == k;
      assert r[x] == t[x];
    }
    if p.status == Pending {
      assert r[id] == p;
    }
  }
}
