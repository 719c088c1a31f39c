/**
 The tracker that suppresses repeats: one counter per entity and event type, kept in step with
 the length of the run of identical events the entity is in.
*/
module Suppression {
  import opened Wrappers

  type EntityName(==, !new)

  datatype Event = Event(entity: EntityName, eventType: string)

  datatype Key = Key(entity: EntityName, eventType: string)

  const RECOVERY_SUFFIXES: seq<string> := ["_recovered", "_reconnected", "_renewed"]

  predicate EndsWith(s: string, suffix: string) {
    |suffix| <= |s| && s[|s| - |suffix|..] == suffix
  }

  predicate IsRecovery(eventType: string) {
    exists i :: 0 <= i < |RECOVERY_SUFFIXES| && EndsWith(eventType, RECOVERY_SUFFIXES[i])
  }

  /** Event types that end in one of the three suffixes are recoveries, and no others. */
  lemma {:induction false} RecoveryIff(eventType: string)
    ensures IsRecovery(eventType) <==>
      exists stem :: eventType == stem + "_recovered" || eventType == stem + "_reconnected" || eventType == stem + "_renewed"
  {
    if IsRecovery(eventType) {
      var i :| 0 <= i < |RECOVERY_SUFFIXES| && EndsWith(eventType, RECOVERY_SUFFIXES[i]);
      var stem := eventType[..|eventType| - |RECOVERY_SUFFIXES[i]|];
      assert eventType == stem + RECOVERY_SUFFIXES[i];
      assert i == 0 || i == 1 || i == 2;
    }
    if stem :| eventType == stem + "_recovered" || eventType == stem + "_reconnected" || eventType == stem + "_renewed" {
      var i := if eventType == stem + "_recovered" then 0 else if eventType == stem + "_reconnected" then 1 else 2;
      assert eventType == stem + RECOVERY_SUFFIXES[i];
      assert EndsWith(eventType, RECOVERY_SUFFIXES[i]);
    }
  }

  type Counts = map<Key, int>

  /** All counters of the entity gone, except possibly one. */
  function ResetEntityIn(counts: Counts, entity: EntityName, keep: Option<Key>): Counts {
    map k | k in counts && (k.entity != entity || keep == Some(k)) :: counts[k]
  }

  function Check(threshold: int, counts: Counts, e: Event): (Counts, int) {
    var key := Key(e.entity, e.eventType);
    if IsRecovery(e.eventType) then (ResetEntityIn(counts, e.entity, None), 0)
    else
      var kept := ResetEntityIn(counts, e.entity, Some(key));
      var count := (if key in kept then kept[key] else 0) + 1;
      (kept[key := count], if count > threshold then count else 0)
  }

  class EventSuppressionTracker {
    const threshold: int
    var counts: Counts

    constructor (threshold: int)
      ensures this.threshold == threshold && counts == map[]
    {
      this.threshold := threshold;
      counts := map[];
    }

    method ResetEntity(entity: EntityName, keep: Option<Key>)
      modifies this
      ensures counts == ResetEntityIn(old(counts), entity, keep)
    {
      var toRemove := set k | k in counts && k.entity == entity && keep != Some(k);
      counts := counts - toRemove;
    }

    method CheckEvent(e: Event) returns (suppressed: int)
      modifies this
      ensures (counts, suppressed) == Check(threshold, old(counts), e)
    {
      var key := Key(e.entity, e.eventType);
      if IsRecovery(e.eventType) {
        ResetEntity(e.entity, None);
        return 0;
      }
      ResetEntity(e.entity, Some(key));
      var count := (if key in counts then counts[key] else 0) + 1;
      counts := counts[key := count];
      if count > threshold {
        return count;
      }
      return 0;
    }
  }

  // ----- What the counters mean -----

  function CountsAfter(threshold: int, history: seq<Event>): Counts {
    if history == [] then map[]
    else Check(threshold, CountsAfter(threshold, history[..|history| - 1]), history[|history| - 1]).0
  }

  /** The event types of one entity, in order. */
  function TypesOf(history: seq<Event>, entity: EntityName): seq<string> {
    if history == [] then []
    else
      var e := history[|history| - 1];
      TypesOf(history[..|history| - 1], entity) + if e.entity == entity then [e.eventType] else []
  }

  /** How many equal elements the sequence ends with. */
  function TrailingRun(types: seq<string>): nat {
    var n := |types|;
    if n == 0 then 0
    else if n >= 2 && types[n - 2] == types[n - 1] then TrailingRun(types[..n - 1]) + 1
    else 1
  }

  /** The counter that the types an entity went through leave behind, if any. */
  ghost predicate CounterMatches(counts: Counts, entity: EntityName, types: seq<string>) {
    forall t :: if types != [] && t == types[|types| - 1] && !IsRecovery(t)
      then Key(entity, t) in counts && counts[Key(entity, t)] == TrailingRun(types)
      else Key(entity, t) !in counts
  }

  lemma {:induction false} CheckMatches(threshold: int, counts: Counts, e: Event, types: seq<string>)
    requires CounterMatches(counts, e.entity, types)
    ensures CounterMatches(Check(threshold, counts, e).0, e.entity, types + [e.eventType])
  {
    var more := types + [e.eventType];
    assert more[..|types|] == types;
    if types != [] {
      assert more[|more| - 2] == types[|types| - 1];
    }
  }

  /**
   After any history there is, for each entity, exactly one counter if its last event was not a
   recovery, under that event's type and equal to the length of the run it ends; otherwise none.
  */
  lemma {:induction false} CountersAreRuns(threshold: int, history: seq<Event>, entity: EntityName)
    ensures CounterMatches(CountsAfter(threshold, history), entity, TypesOf(history, entity))
  {
    if history != [] {
      var before, e := history[..|history| - 1], history[|history| - 1];
      CountersAreRuns(threshold, before, entity);
      if e.entity == entity {
        CheckMatches(threshold, CountsAfter(threshold, before), e, TypesOf(before, entity));
      } else {
        assert TypesOf(before, entity) + [] == TypesOf(before, entity);
        OtherEntitiesKeep(threshold, CountsAfter(threshold, before), e, entity);
      }
    }
  }

  lemma {:induction false} OtherEntitiesKeep(threshold: int, counts: Counts, e: Event, entity: EntityName)
    requires e.entity != entity
    ensures
      var after := Check(threshold, counts, e).0;
      forall t :: (Key(entity, t) in after <==> Key(entity, t) in counts)
               && (Key(entity, t) in counts ==> after[Key(entity, t)] == counts[Key(entity, t)])
  {
  }

  // ----- Which events pass -----

  /** What the tracker answers to the last event of a history. */
  function Answer(threshold: int, history: seq<Event>): int
    requires history != []
  {
    Check(threshold, CountsAfter(threshold, history[..|history| - 1]), history[|history| - 1]).1
  }

  /** An event passes iff it is a recovery or comes no later than `threshold` in its run; otherwise the answer is its place. */
  lemma {:induction false} AnswerIsPlaceInRun(threshold: int, history: seq<Event>)
    requires history != []
    ensures
      var e := history[|history| - 1];
      var place := TrailingRun(TypesOf(history, e.entity));
      Answer(threshold, history) == if !IsRecovery(e.eventType) && place > threshold then place else 0
  {
    var before, e := history[..|history| - 1], history[|history| - 1];
    CountersAreRuns(threshold, before, e.entity);
    CountersAreRuns(threshold, history, e.entity);
    assert TypesOf(history, e.entity) == TypesOf(before, e.entity) + [e.eventType];
  }

  /** The entity's events from a position on. */
  function EventsFrom(history: seq<Event>, entity: EntityName, from: nat): nat
    requires from <= |history|
  {
    if |history| == from then 0
    else EventsFrom(history[..|history| - 1], entity, from) + if history[|history| - 1].entity == entity then 1 else 0
  }

  /** Those of them that the tracker let pass when they came. */
  function PassedFrom(threshold: int, history: seq<Event>, entity: EntityName, from: nat): nat
    requires from <= |history|
  {
    if |history| == from then 0
    else
      PassedFrom(threshold, history[..|history| - 1], entity, from) +
      if history[|history| - 1].entity == entity && Answer(threshold, history) == 0 then 1 else 0
  }

  /** From a position on the entity has only events of type t, and its last one before, if any, was another. */
  ghost predicate RunFrom(history: seq<Event>, entity: EntityName, t: string, from: nat)
    requires from <= |history|
  {
    && (forall i :: from <= i < |history| && history[i].entity == entity ==> history[i].eventType == t)
    && (var before := TypesOf(history[..from], entity); before == [] || before[|before| - 1] != t)
  }

  lemma {:induction false} RunGrows(history: seq<Event>, entity: EntityName, t: string, from: nat)
    requires from <= |history| && RunFrom(history, entity, t, from)
    ensures
      var types, n := TypesOf(history, entity), EventsFrom(history, entity, from);
      if n == 0 then types == TypesOf(history[..from], entity)
      else types != [] && types[|types| - 1] == t && TrailingRun(types) == n
  {
    if |history| == from {
      assert history[..from] == history;
    } else {
      var last := |history| - 1;
      var before := history[..last];
      assert before[..from] == history[..from];
      RunGrows(before, entity, t, from);
      var types := TypesOf(before, entity);
      assert (types + [t])[..|types|] == types && types + [] == types;
    }
  }

  /**
   Of a run of n identical events of an entity, however interleaved with those of others, the
   tracker lets exactly min(n, threshold) pass, none if the threshold is negative, and all n of a
   recovery event.
  */
  lemma {:induction false} RunPassesUpToThreshold(threshold: int, history: seq<Event>, entity: EntityName, t: string, from: nat)
    requires from <= |history| && RunFrom(history, entity, t, from)
    ensures
      var n := EventsFrom(history, entity, from);
      PassedFrom(threshold, history, entity, from) == if IsRecovery(t) || n <= threshold then n else if threshold > 0 then threshold else 0
  {
    if |history| > from {
      var last := |history| - 1;
      assert history[..last][..from] == history[..from];
      RunPassesUpToThreshold(threshold, history[..last], entity, t, from);
      if history[last].entity == entity {
        RunGrows(history, entity, t, from);
        AnswerIsPlaceInRun(threshold, history);
      }
    }
  }
}
