/**
 The circuit breaker: a list of attempts pruned at every check, a cooldown per entity, and a
 global pause.  It is compared with a breaker that never forgets an attempt, and that one is
 what a client that obeys its answers is measured against.
*/
module CircuitBreaker {
  import opened Wrappers

  type EntityName(==, !new)

  /** Durations are in clock units; the failure rate threshold is the fraction rateNum / rateDen. */
  datatype Config = Config(maxAttempts: int, window: int, cooldown: int, rateNum: int, rateDen: int, pause: int)

  const MIN_GLOBAL_ATTEMPTS := 5

  datatype Attempt = Attempt(entity: EntityName, at: int, success: bool)

  /** The four outcomes of a check. */
  datatype Verdict = Allowed | GlobalTripped | EntityTripped | EntityCooldown

  /** The clock as one check reads it: to prune, for the global pause, for the cooldown. */
  datatype Readings = Readings(pruneAt: int, globalAt: int, cooldownAt: int)

  datatype Breaker = Breaker(attempts: seq<Attempt>, trippedAt: Option<int>)

  // ----- The check as a function -----

  /** The attempts at or after the cutoff. */
  function Prune(attempts: seq<Attempt>, cutoff: int): seq<Attempt> {
    if attempts == [] then []
    else
      var a := attempts[|attempts| - 1];
      Prune(attempts[..|attempts| - 1], cutoff) + if a.at >= cutoff then [a] else []
  }

  /** The attempts of one entity. */
  function Of(attempts: seq<Attempt>, entity: EntityName): seq<Attempt> {
    if attempts == [] then []
    else
      var a := attempts[|attempts| - 1];
      Of(attempts[..|attempts| - 1], entity) + if a.entity == entity then [a] else []
  }

  function Without(attempts: seq<Attempt>, entity: EntityName): seq<Attempt> {
    if attempts == [] then []
    else
      var a := attempts[|attempts| - 1];
      Without(attempts[..|attempts| - 1], entity) + if a.entity != entity then [a] else []
  }

  function Failures(attempts: seq<Attempt>): nat {
    if attempts == [] then 0
    else Failures(attempts[..|attempts| - 1]) + if attempts[|attempts| - 1].success then 0 else 1
  }

  /** Enough attempts, and failures / total at or above the threshold. */
  predicate RateTrips(c: Config, attempts: seq<Attempt>) {
    |attempts| >= MIN_GLOBAL_ATTEMPTS && Failures(attempts) * c.rateDen >= c.rateNum * |attempts|
  }

  /** What `_is_global_tripped` leaves in `_global_tripped_at`, given the attempts in the window. */
  function GlobalTrip(c: Config, trippedAt: Option<int>, attempts: seq<Attempt>, now: int): Option<int> {
    if trippedAt.Some? && now - trippedAt.value < c.pause then trippedAt
    else if RateTrips(c, attempts) then Some(now)
    else None
  }

  /** The verdict on one entity, given the attempts in the window and whether the global pause is on. */
  function Judge(c: Config, attempts: seq<Attempt>, tripped: bool, entity: EntityName, now: int): Verdict {
    var own := Of(attempts, entity);
    if tripped then GlobalTripped
    else if |own| >= c.maxAttempts then EntityTripped
    else if own != [] && now - own[|own| - 1].at < c.cooldown then EntityCooldown
    else Allowed
  }

  function CheckOf(c: Config, b: Breaker, entity: EntityName, r: Readings): (Breaker, Verdict) {
    var kept := Prune(b.attempts, r.pruneAt - c.window);
    var trip := GlobalTrip(c, b.trippedAt, kept, r.globalAt);
    (Breaker(kept, trip), Judge(c, kept, trip.Some?, entity, r.cooldownAt))
  }

  // ----- The class -----

  class CircuitBreaker {
    const config: Config
    var attempts: seq<Attempt>
    var trippedAt: Option<int>

    function View(): Breaker
      reads this
    {
      Breaker(attempts, trippedAt)
    }

    constructor (config: Config)
      ensures this.config == config && View() == Breaker([], None)
    {
      this.config := config;
      attempts, trippedAt := [], None;
    }

    method PruneAttempts(now: int)
      modifies this`attempts
      ensures attempts == Prune(old(attempts), now - config.window)
    {
      var cutoff := now - config.window;
      var kept: seq<Attempt> := [];
      for i := 0 to |attempts|
        invariant attempts == old(attempts) && kept == Prune(attempts[..i], cutoff)
      {
        assert attempts[..i + 1][..i] == attempts[..i];
        if attempts[i].at >= cutoff {
          kept := kept + [attempts[i]];
        }
      }
      assert attempts[..|attempts|] == attempts;
      attempts := kept;
    }

    method IsGlobalTripped(now: int) returns (tripped: bool)
      modifies this`trippedAt
      ensures trippedAt == GlobalTrip(config, old(trippedAt), attempts, now) && tripped == trippedAt.Some?
    {
      if trippedAt.Some? {
        if now - trippedAt.value < config.pause {
          return true;
        }
        trippedAt := None;
      }
      var total := |attempts|;
      if total < MIN_GLOBAL_ATTEMPTS {
        return false;
      }
      var failures := 0;
      for i := 0 to total
        invariant failures == Failures(attempts[..i])
      {
        assert attempts[..i + 1][..i] == attempts[..i];
        if !attempts[i].success {
          failures := failures + 1;
        }
      }
      assert attempts[..total] == attempts;
      if failures * config.rateDen >= config.rateNum * total {
        trippedAt := Some(now);
        return true;
      }
      return false;
    }

    method Check(entity: EntityName, r: Readings) returns (verdict: Verdict)
      modifies this
      ensures (View(), verdict) == CheckOf(config, old(View()), entity, r)
    {
      PruneAttempts(r.pruneAt);
      var tripped := IsGlobalTripped(r.globalAt);
      if tripped {
        return GlobalTripped;
      }
      var own := OwnAttempts(entity);
      if |own| >= config.maxAttempts {
        return EntityTripped;
      }
      if own != [] {
        var elapsed := r.cooldownAt - own[|own| - 1].at;
        if elapsed < config.cooldown {
          return EntityCooldown;
        }
      }
      return Allowed;
    }

    method OwnAttempts(entity: EntityName) returns (own: seq<Attempt>)
      ensures own == Of(attempts, entity)
    {
      own := [];
      for i := 0 to |attempts|
        invariant own == Of(attempts[..i], entity)
      {
        assert attempts[..i + 1][..i] == attempts[..i];
        if attempts[i].entity == entity {
          own := own + [attempts[i]];
        }
      }
      assert attempts[..|attempts|] == attempts;
    }

    /** `recordedAt` is the reading the attempt is stamped with, before the check's own readings. */
    method RecordAttempt(entity: EntityName, success: bool, recordedAt: int, r: Readings) returns (verdict: Verdict)
      modifies this
      ensures (View(), verdict)
           == CheckOf(config, Breaker(old(attempts) + [Attempt(entity, recordedAt, success)], old(trippedAt)), entity, r)
    {
      attempts := attempts + [Attempt(entity, recordedAt, success)];
      verdict := Check(entity, r);
    }

    method Reset(entity: Option<EntityName>)
      modifies this
      ensures View() == if entity.None? then Breaker([], None) else Breaker(Without(old(attempts), entity.value), old(trippedAt))
    {
      if entity.None? {
        attempts, trippedAt := [], None;
      } else {
        var kept: seq<Attempt> := [];
        for i := 0 to |attempts|
          invariant attempts == old(attempts) && trippedAt == old(trippedAt)
          invariant kept == Without(attempts[..i], entity.value)
        {
          assert attempts[..i + 1][..i] == attempts[..i];
          if attempts[i].entity != entity.value {
            kept := kept + [attempts[i]];
          }
        }
        assert attempts[..|attempts|] == attempts;
        attempts := kept;
      }
    }
  }

  // ----- Runs, forgetful and not -----

  datatype Op =
    | RecordOp(entity: EntityName, success: bool, recordedAt: int, readings: Readings)
    | CheckOp(entity: EntityName, readings: Readings)
    | ResetOp(which: Option<EntityName>)

  function Answered(r: (Breaker, Verdict)): (Breaker, Option<Verdict>) {
    (r.0, Some(r.1))
  }

  /** The pruning breaker: its next state, and the verdict if the operation gives one. */
  function Step(c: Config, b: Breaker, op: Op): (Breaker, Option<Verdict>) {
    match op
    case RecordOp(e, ok, t, r) =>
      Answered(CheckOf(c, b.(attempts := b.attempts + [Attempt(e, t, ok)]), e, r))
    case CheckOp(e, r) => Answered(CheckOf(c, b, e, r))
    case ResetOp(None) => (Breaker([], None), None)
    case ResetOp(Some(e)) => (b.(attempts := Without(b.attempts, e)), None)
  }

  /** A check that recounts the window from the whole history and forgets nothing. */
  function Recount(c: Config, b: Breaker, entity: EntityName, r: Readings): (Breaker, Verdict) {
    var window := Prune(b.attempts, r.pruneAt - c.window);
    var trip := GlobalTrip(c, b.trippedAt, window, r.globalAt);
    (b.(trippedAt := trip), Judge(c, window, trip.Some?, entity, r.cooldownAt))
  }

  /** The breaker with the whole history. */
  function FullStep(c: Config, b: Breaker, op: Op): (Breaker, Option<Verdict>) {
    match op
    case RecordOp(e, ok, t, r) =>
      Answered(Recount(c, b.(attempts := b.attempts + [Attempt(e, t, ok)]), e, r))
    case CheckOp(e, r) => Answered(Recount(c, b, e, r))
    case ResetOp(None) => (Breaker([], None), None)
    case ResetOp(Some(e)) => (b.(attempts := Without(b.attempts, e)), None)
  }

  function Verdicts(c: Config, b: Breaker, ops: seq<Op>): seq<Option<Verdict>>
    decreases |ops|
  {
    if ops == [] then [] else [Step(c, b, ops[0]).1] + Verdicts(c, Step(c, b, ops[0]).0, ops[1..])
  }

  function FullVerdicts(c: Config, b: Breaker, ops: seq<Op>): seq<Option<Verdict>>
    decreases |ops|
  {
    if ops == [] then [] else [FullStep(c, b, ops[0]).1] + FullVerdicts(c, FullStep(c, b, ops[0]).0, ops[1..])
  }

  predicate Ordered(r: Readings, since: int) {
    since <= r.pruneAt <= r.globalAt <= r.cooldownAt
  }

  /** Does the operation read the clock in order, from `since` on? */
  predicate InOrder(op: Op, since: int) {
    match op
    case RecordOp(_, _, t, r) => since <= t && Ordered(r, t)
    case CheckOp(_, r) => Ordered(r, since)
    case ResetOp(_) => true
  }

  function LastReading(op: Op, since: int): int {
    if op.ResetOp? then since else op.readings.cooldownAt
  }

  /** A monotonic clock over the whole run. */
  predicate Monotonic(ops: seq<Op>, since: int) {
    ops == [] || (InOrder(ops[0], since) && Monotonic(ops[1..], LastReading(ops[0], since)))
  }

  lemma {:induction false} PruneTwice(attempts: seq<Attempt>, early: int, late: int)
    requires early <= late
    ensures Prune(Prune(attempts, early), late) == Prune(attempts, late)
  {
    if attempts != [] {
      var n := |attempts| - 1;
      PruneTwice(attempts[..n], early, late);
      var p := Prune(attempts[..n], early);
      assert (p + [attempts[n]])[..|p|] == p;
      assert p + [] == p;
    }
  }

  lemma {:induction false} PruneWithout(attempts: seq<Attempt>, cutoff: int, entity: EntityName)
    ensures Without(Prune(attempts, cutoff), entity) == Prune(Without(attempts, entity), cutoff)
  {
    if attempts != [] {
      var n := |attempts| - 1;
      PruneWithout(attempts[..n], cutoff, entity);
      var p, w := Prune(attempts[..n], cutoff), Without(attempts[..n], entity);
      assert (p + [attempts[n]])[..|p|] == p && (w + [attempts[n]])[..|w|] == w;
      assert p + [] == p && w + [] == w;
    }
  }

  lemma {:induction false} PruneAppend(attempts: seq<Attempt>, a: Attempt, cutoff: int)
    ensures Prune(attempts + [a], cutoff) == Prune(attempts, cutoff) + if a.at >= cutoff then [a] else []
  {
    assert (attempts + [a])[..|attempts|] == attempts;
  }

  /** The pruning breaker holds the history from some cutoff no later than the window's start. */
  ghost predicate Forgets(c: Config, b: Breaker, full: Breaker, cutoff: int) {
    b.trippedAt == full.trippedAt && b.attempts == Prune(full.attempts, cutoff)
  }

  lemma {:induction false} CheckAgrees(c: Config, b: Breaker, full: Breaker, cutoff: int, entity: EntityName, r: Readings)
    requires Forgets(c, b, full, cutoff) && cutoff <= r.pruneAt - c.window
    ensures CheckOf(c, b, entity, r).1 == Recount(c, full, entity, r).1
    ensures Forgets(c, CheckOf(c, b, entity, r).0, Recount(c, full, entity, r).0, r.pruneAt - c.window)
  {
    PruneTwice(full.attempts, cutoff, r.pruneAt - c.window);
  }

  lemma {:induction false} RecordForgets(c: Config, b: Breaker, full: Breaker, cutoff: int, a: Attempt)
    requires Forgets(c, b, full, cutoff) && cutoff <= a.at
    ensures Forgets(c, b.(attempts := b.attempts + [a]), full.(attempts := full.attempts + [a]), cutoff)
  {
    PruneAppend(full.attempts, a, cutoff);
  }

  /** The cutoff after an operation. */
  function NextCutoff(c: Config, cutoff: int, op: Op): int {
    if op.ResetOp? then cutoff else op.readings.pruneAt - c.window
  }

  lemma {:induction false} StepAgrees(c: Config, b: Breaker, full: Breaker, cutoff: int, since: int, op: Op) returns (next: int)
    requires c.window >= 0 && Forgets(c, b, full, cutoff) && cutoff <= since - c.window && InOrder(op, since)
    ensures Step(c, b, op).1 == FullStep(c, full, op).1
    ensures next <= LastReading(op, since) - c.window
    ensures Forgets(c, Step(c, b, op).0, FullStep(c, full, op).0, next)
  {
    next := NextCutoff(c, cutoff, op);
    match op
    case RecordOp(e, ok, t, r) =>
      var a := Attempt(e, t, ok);
      RecordForgets(c, b, full, cutoff, a);
      CheckAgrees(c, b.(attempts := b.attempts + [a]), full.(attempts := full.attempts + [a]), cutoff, e, r);
    case CheckOp(e, r) =>
      CheckAgrees(c, b, full, cutoff, e, r);
    case ResetOp(which) =>
      if which.Some? {
        PruneWithout(full.attempts, cutoff, which.value);
      }
  }

  lemma {:induction false} VerdictsAgree(c: Config, b: Breaker, full: Breaker, cutoff: int, since: int, ops: seq<Op>)
    requires c.window >= 0 && Forgets(c, b, full, cutoff) && cutoff <= since - c.window && Monotonic(ops, since)
    ensures Verdicts(c, b, ops) == FullVerdicts(c, full, ops)
    decreases |ops|
  {
    if ops != [] {
      var next := StepAgrees(c, b, full, cutoff, since, ops[0]);
      VerdictsAgree(c, Step(c, b, ops[0]).0, FullStep(c, full, ops[0]).0, next, LastReading(ops[0], since), ops[1..]);
    }
  }

  /** Pruning never changes an answer: on every run of a monotonic clock the two breakers say the same. */
  lemma {:induction false} PruningIsInvisible(c: Config, since: int, ops: seq<Op>)
    requires c.window >= 0 && Monotonic(ops, since)
    ensures Verdicts(c, New(), ops) == FullVerdicts(c, New(), ops)
  {
    VerdictsAgree(c, New(), New(), since - c.window, since, ops);
  }

  /** The state after a run, and that of the breaker with the whole history. */
  function After(c: Config, b: Breaker, ops: seq<Op>): Breaker
    decreases |ops|
  {
    if ops == [] then b else After(c, Step(c, b, ops[0]).0, ops[1..])
  }

  function FullAfter(c: Config, b: Breaker, ops: seq<Op>): Breaker
    decreases |ops|
  {
    if ops == [] then b else FullAfter(c, FullStep(c, b, ops[0]).0, ops[1..])
  }

  function New(): Breaker {
    Breaker([], None)
  }

  /** The history is in order of time, up to a reading. */
  ghost predicate InTime(attempts: seq<Attempt>, until: int) {
    && Chronological(attempts, until)
    && forall i, j :: 0 <= i < j < |attempts| ==> attempts[i].at <= attempts[j].at
  }

  /** A history without one entity is still in order of time. */
  lemma {:induction false} WithoutInTime(attempts: seq<Attempt>, entity: EntityName, until: int)
    requires InTime(attempts, until)
    ensures InTime(Without(attempts, entity), until)
  {
    if attempts != [] {
      var n := |attempts| - 1;
      var a := attempts[n];
      WithoutInTime(attempts[..n], entity, a.at);
      if a.entity != entity {
        InTimeAppend(Without(attempts[..n], entity), a, until);
      } else {
        assert Without(attempts, entity) == Without(attempts[..n], entity);
      }
    }
  }

  lemma {:induction false} InTimeAppend(attempts: seq<Attempt>, a: Attempt, until: int)
    requires InTime(attempts, a.at) && a.at <= until
    ensures InTime(attempts + [a], until)
  {
  }

  lemma {:induction false} StepInTime(c: Config, full: Breaker, op: Op, since: int)
    requires InTime(full.attempts, since) && InOrder(op, since)
    ensures InTime(FullStep(c, full, op).0.attempts, LastReading(op, since))
  {
    match op
    case RecordOp(e, ok, t, r) => InTimeAppend(full.attempts, Attempt(e, t, ok), r.cooldownAt);
    case CheckOp(_, _) =>
    case ResetOp(which) =>
      if which.Some? {
        WithoutInTime(full.attempts, which.value, since);
      }
  }

  lemma {:induction false} AfterFirst(c: Config, b: Breaker, ops: seq<Op>, k: nat)
    requires 0 < k <= |ops|
    ensures After(c, b, ops[..k]) == After(c, Step(c, b, ops[0]).0, ops[1..][..k - 1])
    ensures FullAfter(c, b, ops[..k]) == FullAfter(c, FullStep(c, b, ops[0]).0, ops[1..][..k - 1])
  {
    assert ops[..k][1..] == ops[1..][..k - 1];
  }

  /**
   Up to any operation of a run: the pruning breaker holds the recent part of the history, enough
   for what the operation will look at, and the history is in order of time.
  */
  lemma {:induction false} UpToOperation(c: Config, b: Breaker, full: Breaker, cutoff: int, since: int, ops: seq<Op>, k: nat)
      returns (next: int, now: int)
    requires c.window >= 0 && Forgets(c, b, full, cutoff) && cutoff <= since - c.window && InTime(full.attempts, since)
    requires k < |ops| && Monotonic(ops, since)
    ensures Forgets(c, After(c, b, ops[..k]), FullAfter(c, full, ops[..k]), next)
    ensures next <= now - c.window && InOrder(ops[k], now) && InTime(FullAfter(c, full, ops[..k]).attempts, now)
    decreases k
  {
    if k == 0 {
      next, now := cutoff, since;
    } else {
      next := StepAgrees(c, b, full, cutoff, since, ops[0]);
      StepInTime(c, full, ops[0], since);
      next, now := UpToOperation(c, Step(c, b, ops[0]).0, FullStep(c, full, ops[0]).0, next, LastReading(ops[0], since), ops[1..], k - 1);
      AfterFirst(c, b, ops, k);
      AfterFirst(c, full, ops, k);
    }
  }

  // ----- The global pause -----

  /** Once tripped at `at`, every check refuses until the pause is over or everything is reset. */
  lemma {:induction false} PauseHolds(c: Config, b: Breaker, at: int, ops: seq<Op>, i: nat)
    requires b.trippedAt == Some(at) && i < |ops|
    requires forall op :: op in ops ==> op != ResetOp(None) && (!op.ResetOp? ==> op.readings.globalAt - at < c.pause)
    ensures |Verdicts(c, b, ops)| == |ops|
    ensures Verdicts(c, b, ops)[i] == if ops[i].ResetOp? then None else Some(GlobalTripped)
    decreases |ops|
  {
    var op := ops[0];
    assert op in ops && forall o :: o in ops[1..] ==> o in ops;
    var next := Step(c, b, op).0;
    assert next.trippedAt == Some(at);
    if |ops| > 1 {
      PauseHolds(c, next, at, ops[1..], if i > 0 then i - 1 else 0);
    }
  }

  /** The attempts in the window that an operation's check sees. */
  function WindowOf(c: Config, b: Breaker, op: Op): seq<Attempt>
    requires !op.ResetOp?
  {
    var seen := if op.RecordOp? then b.attempts + [Attempt(op.entity, op.recordedAt, op.success)] else b.attempts;
    Prune(seen, op.readings.pruneAt - c.window)
  }

  lemma {:induction false} TripWasSeen(c: Config, b: Breaker, ops: seq<Op>, at: int) returns (k: nat)
    requires b.trippedAt != Some(at) && After(c, b, ops).trippedAt == Some(at)
    ensures k < |ops| && !ops[k].ResetOp? && ops[k].readings.globalAt == at
    ensures RateTrips(c, WindowOf(c, After(c, b, ops[..k]), ops[k]))
    decreases |ops|
  {
    var next := Step(c, b, ops[0]).0;
    if next.trippedAt == Some(at) {
      k := 0;
    } else {
      k := TripWasSeen(c, next, ops[1..], at);
      k := k + 1;
      assert ops[..k][1..] == ops[1..][..k - 1];
    }
  }

  /**
   The breaker is tripped only because some check, at that reading, found the failure rate of its
   window too high; and on a monotonic clock that window is the one recounted from the whole history.
  */
  lemma {:induction false} EveryTripIsEarned(c: Config, since: int, ops: seq<Op>, at: int) returns (k: nat)
    requires After(c, New(), ops).trippedAt == Some(at)
    ensures k < |ops| && !ops[k].ResetOp? && ops[k].readings.globalAt == at
    ensures RateTrips(c, WindowOf(c, After(c, New(), ops[..k]), ops[k]))
    ensures c.window >= 0 && Monotonic(ops, since) ==> RateTrips(c, WindowOf(c, FullAfter(c, New(), ops[..k]), ops[k]))
  {
    k := TripWasSeen(c, New(), ops, at);
    if c.window >= 0 && Monotonic(ops, since) {
      var next, now := UpToOperation(c, New(), New(), since - c.window, since, ops, k);
      WindowsAgree(c, After(c, New(), ops[..k]), FullAfter(c, New(), ops[..k]), next, ops[k]);
    }
  }

  lemma {:induction false} WindowsAgree(c: Config, b: Breaker, full: Breaker, cutoff: int, op: Op)
    requires Forgets(c, b, full, cutoff) && !op.ResetOp? && cutoff <= op.readings.pruneAt - c.window
    ensures WindowOf(c, b, op) == WindowOf(c, full, op)
  {
    var late := op.readings.pruneAt - c.window;
    PruneTwice(full.attempts, cutoff, late);
    if op.RecordOp? {
      var a := Attempt(op.entity, op.recordedAt, op.success);
      PruneAppend(full.attempts, a, late);
      PruneAppend(b.attempts, a, late);
    }
  }

  // ----- A client that obeys -----

  /** The attempts of `entity` stamped between `from` and `to`, inclusive. */
  function CountIn(attempts: seq<Attempt>, entity: EntityName, from: int, to: int): nat {
    if attempts == [] then 0
    else
      var a := attempts[|attempts| - 1];
      CountIn(attempts[..|attempts| - 1], entity, from, to) + if a.entity == entity && from <= a.at <= to then 1 else 0
  }

  /** The breaker, every attempt ever recorded, and for each entity the readings of an allowed check not yet used up by an attempt. */
  datatype Client = Client(breaker: Breaker, history: seq<Attempt>, permits: map<EntityName, Readings>)

  function ClientStep(c: Config, s: Client, op: Op): Client {
    var (b, v) := Step(c, s.breaker, op);
    match op
    case CheckOp(e, r) => Client(b, s.history, if v == Some(Allowed) then s.permits[e := r] else s.permits)
    case RecordOp(e, ok, t, _) => Client(b, s.history + [Attempt(e, t, ok)], s.permits - {e})
    case ResetOp(_) => Client(b, s.history, s.permits)
  }

  function ClientRun(c: Config, s: Client, ops: seq<Op>): Client
    decreases |ops|
  {
    if ops == [] then s else ClientRun(c, ClientStep(c, s, ops[0]), ops[1..])
  }

  /** It records an attempt only on an entity it has an unused permit for, and never resets. */
  predicate Obeys(c: Config, s: Client, ops: seq<Op>)
    decreases |ops|
  {
    ops == [] ||
    (&& !ops[0].ResetOp?
     && (ops[0].RecordOp? ==> ops[0].entity in s.permits)
     && Obeys(c, ClientStep(c, s, ops[0]), ops[1..]))
  }

  /** No interval as long as the window, or shorter, holds more attempts of an entity than allowed. */
  ghost predicate Bounded(c: Config, attempts: seq<Attempt>) {
    forall e, from, to :: to - from <= c.window ==> CountIn(attempts, e, from, to) <= c.maxAttempts
  }

  /** Attempts of one entity are at least the cooldown, or the window if that is shorter, apart. */
  ghost predicate Spaced(c: Config, attempts: seq<Attempt>) {
    forall i, j :: 0 <= i < j < |attempts| && attempts[i].entity == attempts[j].entity
      ==> attempts[j].at - attempts[i].at >= if c.cooldown < c.window then c.cooldown else c.window
  }

  ghost predicate Chronological(attempts: seq<Attempt>, until: int) {
    forall i :: 0 <= i < |attempts| ==> attempts[i].at <= until
  }

  /** What an unused permit says about the attempts so far. */
  ghost predicate Permits(c: Config, attempts: seq<Attempt>, entity: EntityName, r: Readings, now: int) {
    && r.pruneAt <= r.cooldownAt <= now
    && |Of(Prune(attempts, r.pruneAt - c.window), entity)| < c.maxAttempts
    && forall i :: 0 <= i < |attempts| && attempts[i].entity == entity
         ==> r.cooldownAt - attempts[i].at >= (if c.cooldown < c.window then c.cooldown else c.window)
  }

  ghost predicate ClientInv(c: Config, s: Client, now: int) {
    && Bounded(c, s.history)
    && Spaced(c, s.history)
    && Chronological(s.history, now)
    && forall e :: e in s.permits ==> Permits(c, s.history, e, s.permits[e], now)
  }

  /** What the breaker would be had it kept the client's whole history. */
  function Whole(s: Client): Breaker {
    Breaker(s.history, s.breaker.trippedAt)
  }

  /** The attempts in a closed interval ending no earlier than all of them are among those a pruned count sees. */
  lemma {:induction false} CountedByPrune(attempts: seq<Attempt>, entity: EntityName, from: int, to: int, cutoff: int)
    requires cutoff <= from
    ensures CountIn(attempts, entity, from, to) <= |Of(Prune(attempts, cutoff), entity)|
  {
    if attempts != [] {
      var n := |attempts| - 1;
      CountedByPrune(attempts[..n], entity, from, to, cutoff);
      var p := Prune(attempts[..n], cutoff);
      assert (p + [attempts[n]])[..|p|] == p;
      assert p + [] == p;
    }
  }

  /** An allowed check has the entity's last attempt, if still in the window, at least a cooldown back; all others are further back. */
  lemma {:induction false} LastOfIsLatest(attempts: seq<Attempt>, entity: EntityName, cutoff: int, i: nat)
    requires i < |attempts| && attempts[i].entity == entity && attempts[i].at >= cutoff
    requires forall k, l :: 0 <= k < l < |attempts| && attempts[k].entity == attempts[l].entity ==> attempts[k].at <= attempts[l].at
    ensures var own := Of(Prune(attempts, cutoff), entity); own != [] && attempts[i].at <= own[|own| - 1].at
  {
    var n := |attempts| - 1;
    var p := Prune(attempts[..n], cutoff);
    assert (p + [attempts[n]])[..|p|] == p && p + [] == p;
    if i < n {
      assert attempts[..n][i] == attempts[i];
      LastOfIsLatest(attempts[..n], entity, cutoff, i);
    }
  }

  lemma {:induction false} AllowedPermits(c: Config, b: Breaker, entity: EntityName, r: Readings, now: int)
    requires c.window >= 0 && c.cooldown >= 0 && Spaced(c, b.attempts) && Chronological(b.attempts, now) && Ordered(r, now)
    requires Recount(c, b, entity, r).1 == Allowed
    ensures Permits(c, b.attempts, entity, r, r.cooldownAt)
  {
    var cutoff := r.pruneAt - c.window;
    forall i | 0 <= i < |b.attempts| && b.attempts[i].entity == entity
      ensures r.cooldownAt - b.attempts[i].at >= if c.cooldown < c.window then c.cooldown else c.window
    {
      if b.attempts[i].at >= cutoff {
        LastOfIsLatest(b.attempts, entity, cutoff, i);
      }
    }
  }

  lemma {:induction false} CountAppend(attempts: seq<Attempt>, a: Attempt, entity: EntityName, from: int, to: int)
    ensures CountIn(attempts + [a], entity, from, to)
         == CountIn(attempts, entity, from, to) + if a.entity == entity && from <= a.at <= to then 1 else 0
  {
    assert (attempts + [a])[..|attempts|] == attempts;
  }

  /** A permitted attempt keeps the bounds. */
  lemma {:induction false} PermittedKeeps(c: Config, attempts: seq<Attempt>, a: Attempt, r: Readings, now: int)
    requires Bounded(c, attempts) && Spaced(c, attempts) && Chronological(attempts, now) && now <= a.at
    requires Permits(c, attempts, a.entity, r, now)
    ensures Bounded(c, attempts + [a]) && Spaced(c, attempts + [a])
  {
    forall e, from, to | to - from <= c.window
      ensures CountIn(attempts + [a], e, from, to) <= c.maxAttempts
    {
      CountAppend(attempts, a, e, from, to);
      if e == a.entity && from <= a.at <= to {
        CountedByPrune(attempts, e, from, to, r.pruneAt - c.window);
      }
    }
  }

  lemma {:induction false} ClientStepKeeps(c: Config, s: Client, cutoff: int, op: Op, now: int) returns (next: int)
    requires c.window >= 0 && c.cooldown >= 0
    requires Forgets(c, s.breaker, Whole(s), cutoff) && cutoff <= now - c.window
    requires ClientInv(c, s, now) && InOrder(op, now) && !op.ResetOp? && (op.RecordOp? ==> op.entity in s.permits)
    ensures ClientInv(c, ClientStep(c, s, op), LastReading(op, now))
    ensures next <= LastReading(op, now) - c.window
    ensures Forgets(c, ClientStep(c, s, op).breaker, Whole(ClientStep(c, s, op)), next)
  {
    next := StepAgrees(c, s.breaker, Whole(s), cutoff, now, op);
    match op
    case CheckOp(e, r) =>
      if Step(c, s.breaker, op).1 == Some(Allowed) {
        AllowedPermits(c, Whole(s), e, r, now);
      }
    case RecordOp(e, ok, t, r) =>
      RecordKeeps(c, s, e, ok, t, r, now);
  }

  lemma {:induction false} RecordKeeps(c: Config, s: Client, e: EntityName, ok: bool, t: int, r: Readings, now: int)
    requires ClientInv(c, s, now) && InOrder(RecordOp(e, ok, t, r), now) && e in s.permits
    ensures ClientInv(c, ClientStep(c, s, RecordOp(e, ok, t, r)), r.cooldownAt)
  {
    var a := Attempt(e, t, ok);
    PermittedKeeps(c, s.history, a, s.permits[e], now);
    forall f | f in s.permits && f != e
      ensures Permits(c, s.history + [a], f, s.permits[f], r.cooldownAt)
    {
      OthersKeepPermit(c, s.history, a, f, s.permits[f], now, r.cooldownAt);
    }
  }

  lemma {:induction false} OthersKeepPermit(c: Config, attempts: seq<Attempt>, a: Attempt, entity: EntityName, r: Readings, now: int, later: int)
    requires Permits(c, attempts, entity, r, now) && a.entity != entity && now <= later
    ensures Permits(c, attempts + [a], entity, r, later)
  {
    var p := Prune(attempts, r.pruneAt - c.window);
    PruneAppend(attempts, a, r.pruneAt - c.window);
    assert (p + [a])[..|p|] == p && p + [] == p;
  }

  lemma {:induction false} ClientRunKeeps(c: Config, s: Client, cutoff: int, ops: seq<Op>, now: int)
    requires c.window >= 0 && c.cooldown >= 0
    requires Forgets(c, s.breaker, Whole(s), cutoff) && cutoff <= now - c.window
    requires ClientInv(c, s, now) && Monotonic(ops, now) && Obeys(c, s, ops)
    ensures Bounded(c, ClientRun(c, s, ops).history) && Spaced(c, ClientRun(c, s, ops).history)
    decreases |ops|
  {
    if ops != [] {
      var next := ClientStepKeeps(c, s, cutoff, ops[0], now);
      ClientRunKeeps(c, ClientStep(c, s, ops[0]), next, ops[1..], LastReading(ops[0], now));
    }
  }

  /**
   A client of the pruning breaker that attempts an entity only after an allowed check of it,
   unused since, keeps every entity to `maxAttempts` attempts in any interval of the window's
   length, and successive ones at least min(cooldown, window) apart.
  */
  lemma {:induction false} ObedientClientIsLimited(c: Config, ops: seq<Op>, since: int)
    requires c.window >= 0 && c.cooldown >= 0 && c.maxAttempts >= 0
    requires Monotonic(ops, since) && Obeys(c, Client(New(), [], map[]), ops)
    ensures
      var history := ClientRun(c, Client(New(), [], map[]), ops).history;
      Bounded(c, history) && Spaced(c, history)
  {
    ClientRunKeeps(c, Client(New(), [], map[]), since - c.window, ops, since);
  }

  // ----- The last attempt in the window -----

  lemma {:induction false} OwnAreRecent(attempts: seq<Attempt>, entity: EntityName, cutoff: int, a: Attempt)
    requires a in Of(Prune(attempts, cutoff), entity)
    ensures a in attempts && a.entity == entity && a.at >= cutoff
  {
    var n := |attempts| - 1;
    var p := Prune(attempts[..n], cutoff);
    assert (p + [attempts[n]])[..|p|] == p && p + [] == p;
    if a in Of(p, entity) {
      OwnAreRecent(attempts[..n], entity, cutoff, a);
    }
  }

  /** The last of an entity's attempts in the window is a cooldown back exactly if all of them are. */
  lemma {:induction false} LastDecides(history: seq<Attempt>, entity: EntityName, cutoff: int, now: int, cooldown: int)
    requires forall i, j :: 0 <= i < j < |history| ==> history[i].at <= history[j].at
    ensures
      var own := Of(Prune(history, cutoff), entity);
      (own == [] || now - own[|own| - 1].at >= cooldown)
      <==> forall i :: 0 <= i < |history| && history[i].entity == entity && history[i].at >= cutoff ==> now - history[i].at >= cooldown
  {
    var own := Of(Prune(history, cutoff), entity);
    forall i | 0 <= i < |history| && history[i].entity == entity && history[i].at >= cutoff
      ensures own != [] && history[i].at <= own[|own| - 1].at
    {
      LastOfIsLatest(history, entity, cutoff, i);
    }
    if own != [] {
      OwnAreRecent(history, entity, cutoff, own[|own| - 1]);
    }
  }
}
