/**
 The event queue's `put_nowait` and `get`: deduplication against a map of keys that is pruned
 now and then, a bound on the size, and the warning flag with its hysteresis.
*/
module EventQueue {
  import opened Wrappers

  type EventId(==, !new)
  type DedupKey(==, !new)

  /** An empty dedup key is None: such events are never duplicates. */
  datatype Event = Event(id: EventId, key: Option<DedupKey>)

  const PRUNE_INTERVAL := 60

  datatype Answer = Enqueued | Deduplicated | QueueFull

  /** The clock as one put reads it: to prune, to compare, to record. */
  datatype Readings = Readings(pruneAt: int, compareAt: int, recordAt: int)

  datatype Config = Config(maxSize: int, window: int)

  datatype Queue = Queue(events: seq<Event>, seen: map<DedupKey, int>, lastPrune: int, warned: bool)

  predicate Dedups(c: Config, e: Event) {
    c.window > 0 && e.key.Some?
  }

  function PruneSeen(c: Config, seen: map<DedupKey, int>, now: int): map<DedupKey, int> {
    map k | k in seen && seen[k] >= now - c.window :: seen[k]
  }

  /** The dedup state after the prune that comes first, if one is due. */
  function MaybePrune(c: Config, q: Queue, now: int): Queue {
    if now - q.lastPrune < PRUNE_INTERVAL then q
    else q.(seen := PruneSeen(c, q.seen, now), lastPrune := now)
  }

  predicate SeenRecently(c: Config, seen: map<DedupKey, int>, key: DedupKey, now: int) {
    key in seen && now - seen[key] < c.window
  }

  predicate AboveHighMark(c: Config, size: nat) {
    10 * size >= 8 * c.maxSize
  }

  predicate BelowLowMark(c: Config, size: nat) {
    2 * size <= c.maxSize
  }

  /** What happens once the prune is behind. */
  function Accept(c: Config, q: Queue, e: Event, r: Readings): (Queue, Answer) {
    if Dedups(c, e) && SeenRecently(c, q.seen, e.key.value, r.compareAt) then (q, Deduplicated)
    else if |q.events| >= c.maxSize then (q, QueueFull)
    else
      var events := q.events + [e];
      (Queue(events,
             if Dedups(c, e) then q.seen[e.key.value := r.recordAt] else q.seen,
             q.lastPrune,
             q.warned || AboveHighMark(c, |events|)),
       Enqueued)
  }

  function Put(c: Config, q: Queue, e: Event, r: Readings): (Queue, Answer) {
    Accept(c, if Dedups(c, e) then MaybePrune(c, q, r.pruneAt) else q, e, r)
  }

  /** None while there is nothing to dequeue: `get` waits. */
  function Get(c: Config, q: Queue): (Queue, Option<Event>) {
    if q.events == [] then (q, None)
    else
      var rest := q.events[1..];
      (q.(events := rest, warned := q.warned && !BelowLowMark(c, |rest|)), Some(q.events[0]))
  }

  class EventQueue {
    const config: Config
    var queue: seq<Event>
    var seen: map<DedupKey, int>
    var lastPrune: int
    var capacityWarningActive: bool

    function View(): Queue
      reads this
    {
      Queue(queue, seen, lastPrune, capacityWarningActive)
    }

    constructor (config: Config, now: int)
      ensures this.config == config && View() == Queue([], map[], now, false)
    {
      this.config := config;
      queue, seen, lastPrune, capacityWarningActive := [], map[], now, false;
    }

    method MaybePruneSeen(now: int)
      modifies this`seen, this`lastPrune
      ensures View() == MaybePrune(config, old(View()), now)
    {
      if now - lastPrune < PRUNE_INTERVAL {
        return;
      }
      lastPrune := now;
      var cutoff := now - config.window;
      var expired := set k | k in seen && seen[k] < cutoff;
      seen := seen - expired;
    }

    method IsDuplicate(e: Event, r: Readings) returns (duplicate: bool)
      modifies this`seen, this`lastPrune
      ensures View() == if Dedups(config, e) then MaybePrune(config, old(View()), r.pruneAt) else old(View())
      ensures duplicate == (Dedups(config, e) && SeenRecently(config, seen, e.key.value, r.compareAt))
    {
      if config.window <= 0 {
        return false;
      }
      if e.key == None {
        return false;
      }
      MaybePruneSeen(r.pruneAt);
      if e.key.value !in seen {
        return false;
      }
      duplicate := r.compareAt - seen[e.key.value] < config.window;
    }

    method PutNowait(e: Event, r: Readings) returns (answer: Answer)
      modifies this
      ensures (View(), answer) == Put(config, old(View()), e, r)
    {
      var duplicate := IsDuplicate(e, r);
      if duplicate {
        return Deduplicated;
      }
      if |queue| >= config.maxSize {
        return QueueFull;
      }
      queue := queue + [e];
      if config.window > 0 && e.key.Some? {
        seen := seen[e.key.value := r.recordAt];
      }
      if !capacityWarningActive && 10 * |queue| >= 8 * config.maxSize {
        capacityWarningActive := true;
      }
      answer := Enqueued;
    }

    method GetNext() returns (event: Option<Event>)
      modifies this
      ensures (View(), event) == Get(config, old(View()))
    {
      if queue == [] {
        return None;
      }
      event := Some(queue[0]);
      queue := queue[1..];
      if capacityWarningActive && 2 * |queue| <= config.maxSize {
        capacityWarningActive := false;
      }
    }
  }

  // ----- Runs -----

  datatype Op = PutOp(event: Event, readings: Readings) | GetOp

  /** A queue together with what it accepted, what it gave out and what it answered, oldest first. */
  datatype Trace = Trace(queue: Queue, accepted: seq<Event>, dequeued: seq<Event>, puts: seq<Done>)

  /** One put that was accepted or dropped as a duplicate. */
  datatype Done = Done(event: Event, readings: Readings, answer: Answer)

  /** `prunes` chooses between the queue and one whose seen map is never pruned. */
  function Step(c: Config, prunes: bool, t: Trace, op: Op): Trace {
    match op
    case PutOp(e, r) =>
      var (q, answer) := if prunes then Put(c, t.queue, e, r) else Accept(c, t.queue, e, r);
      Trace(q, if answer == Enqueued then t.accepted + [e] else t.accepted, t.dequeued, t.puts + [Done(e, r, answer)])
    case GetOp =>
      var (q, event) := Get(c, t.queue);
      Trace(q, t.accepted, if event.Some? then t.dequeued + [event.value] else t.dequeued, t.puts)
  }

  function Run(c: Config, prunes: bool, t: Trace, ops: seq<Op>): Trace {
    if ops == [] then t else Step(c, prunes, Run(c, prunes, t, ops[..|ops| - 1]), ops[|ops| - 1])
  }

  function Empty(now: int): Trace {
    Trace(Queue([], map[], now, false), [], [], [])
  }

  predicate InOrder(op: Op, since: int) {
    op.PutOp? ==> since <= op.readings.pruneAt <= op.readings.compareAt <= op.readings.recordAt
  }

  function ClockAfter(start: int, ops: seq<Op>): int {
    if ops == [] then start
    else
      var last := ops[|ops| - 1];
      if last.PutOp? then last.readings.recordAt else ClockAfter(start, ops[..|ops| - 1])
  }

  predicate Monotonic(start: int, ops: seq<Op>) {
    ops == [] || (Monotonic(start, ops[..|ops| - 1]) && InOrder(ops[|ops| - 1], ClockAfter(start, ops[..|ops| - 1])))
  }

  // ----- Conservation, bound and hysteresis -----

  ghost predicate FlagSound(c: Config, q: Queue) {
    (!q.warned ==> !AboveHighMark(c, |q.events|)) && (q.warned ==> !BelowLowMark(c, |q.events|))
  }

  ghost predicate Conserves(c: Config, t: Trace) {
    t.accepted == t.dequeued + t.queue.events && |t.queue.events| <= c.maxSize && FlagSound(c, t.queue)
  }

  lemma {:induction false} StepConserves(c: Config, prunes: bool, t: Trace, op: Op)
    requires c.maxSize >= 1 && Conserves(c, t)
    ensures Conserves(c, Step(c, prunes, t, op))
  {
    var n := Step(c, prunes, t, op);
    match op
    case PutOp(e, r) =>
      if n.queue.events == t.queue.events + [e] {
        assert t.dequeued + n.queue.events == t.accepted + [e];
      }
    case GetOp =>
      if t.queue.events != [] {
        assert t.queue.events == [t.queue.events[0]] + n.queue.events;
        assert n.dequeued + n.queue.events == t.dequeued + ([t.queue.events[0]] + n.queue.events);
      }
  }

  /** Nothing is lost, reordered or invented; the size stays within its bound; the flag tells which side of the marks it is on. */
  lemma {:induction false} QueueConserves(c: Config, prunes: bool, start: int, ops: seq<Op>)
    requires c.maxSize >= 1
    ensures
      var t := Run(c, prunes, Empty(start), ops);
      t.accepted == t.dequeued + t.queue.events && |t.queue.events| <= c.maxSize && FlagSound(c, t.queue)
  {
    if ops != [] {
      var before := ops[..|ops| - 1];
      QueueConserves(c, prunes, start, before);
      StepConserves(c, prunes, Run(c, prunes, Empty(start), before), ops[|ops| - 1]);
    }
  }

  // ----- Pruning is invisible -----

  /** The pruned map lacks only entries too old to matter from `now` on. */
  ghost predicate Agrees(c: Config, pruned: Queue, full: Queue, now: int) {
    && pruned.events == full.events && pruned.warned == full.warned
    && (forall k :: k in pruned.seen ==> k in full.seen && full.seen[k] == pruned.seen[k])
    && (forall k :: k in full.seen && k !in pruned.seen ==> now - full.seen[k] > c.window)
  }

  lemma {:induction false} PutAgrees(c: Config, pruned: Queue, full: Queue, now: int, e: Event, r: Readings)
    requires Agrees(c, pruned, full, now) && now <= r.pruneAt <= r.compareAt <= r.recordAt
    ensures Put(c, pruned, e, r).1 == Accept(c, full, e, r).1
    ensures Agrees(c, Put(c, pruned, e, r).0, Accept(c, full, e, r).0, r.recordAt)
  {
    assert Agrees(c, MaybePrune(c, pruned, r.pruneAt), full, r.pruneAt);
  }

  lemma {:induction false} PruningIsInvisible(c: Config, start: int, ops: seq<Op>)
    requires Monotonic(start, ops)
    ensures
      var pruned := Run(c, true, Empty(start), ops);
      var full := Run(c, false, Empty(start), ops);
      pruned.puts == full.puts && Agrees(c, pruned.queue, full.queue, ClockAfter(start, ops))
  {
    if ops != [] {
      var before := ops[..|ops| - 1];
      PruningIsInvisible(c, start, before);
      var op := ops[|ops| - 1];
      if op.PutOp? {
        PutAgrees(c, Run(c, true, Empty(start), before).queue, Run(c, false, Empty(start), before).queue,
          ClockAfter(start, before), op.event, op.readings);
      }
    }
  }

  // ----- What deduplication means -----

  ghost predicate AcceptedWith(d: Done, key: DedupKey) {
    d.answer == Enqueued && d.event.key == Some(key)
  }

  /** Some put that accepted the key was recorded at this time. */
  ghost predicate AcceptedAt(puts: seq<Done>, key: DedupKey, at: int) {
    exists i :: 0 <= i < |puts| && AcceptedWith(puts[i], key) && puts[i].readings.recordAt == at
  }

  /** `seen` records when each key was last accepted. */
  ghost predicate SeenIsLast(c: Config, t: Trace, now: int) {
    && (forall k :: k in t.queue.seen ==> t.queue.seen[k] <= now && AcceptedAt(t.puts, k, t.queue.seen[k]))
    && (forall i, k :: 0 <= i < |t.puts| && AcceptedWith(t.puts[i], k) ==>
          k in t.queue.seen && t.puts[i].readings.recordAt <= t.queue.seen[k])
  }

  /** Accepted events with one key are at least the window apart. */
  ghost predicate AcceptedApart(c: Config, puts: seq<Done>) {
    forall i, j, k :: 0 <= i < j < |puts| && AcceptedWith(puts[i], k) && AcceptedWith(puts[j], k) ==>
      puts[j].readings.recordAt - puts[i].readings.recordAt >= c.window
  }

  /** The i-th put accepted the key of the j-th less than the window before the j-th compared. */
  ghost predicate Shadows(c: Config, puts: seq<Done>, i: nat, j: nat)
    requires i < j < |puts|
  {
    && puts[j].event.key.Some?
    && AcceptedWith(puts[i], puts[j].event.key.value)
    && puts[j].readings.compareAt - puts[i].readings.recordAt < c.window
  }

  /** An event is dropped exactly if an earlier accepted one shadows it. */
  ghost predicate DroppedIffShadowed(c: Config, puts: seq<Done>, j: nat)
    requires j < |puts|
  {
    puts[j].answer == Deduplicated <==> exists i :: 0 <= i < j && Shadows(c, puts, i, j)
  }

  lemma {:induction false} DedupStays(c: Config, t: Trace, now: int, e: Event, r: Readings, j: nat)
    requires c.window > 0 && SeenIsLast(c, t, now) && j <= |t.puts|
    requires j < |t.puts| ==> DroppedIffShadowed(c, t.puts, j)
    ensures DroppedIffShadowed(c, Step(c, false, t, PutOp(e, r)).puts, j)
  {
    if j < |t.puts| {
      ShadowedStays(c, t.puts, Step(c, false, t, PutOp(e, r)).puts[|t.puts|], j);
    } else {
      LastDroppedIffShadowed(c, t, now, e, r);
    }
  }

  ghost predicate Dedupped(c: Config, t: Trace, now: int) {
    && SeenIsLast(c, t, now)
    && AcceptedApart(c, t.puts)
    && forall j :: 0 <= j < |t.puts| ==> DroppedIffShadowed(c, t.puts, j)
  }

  lemma {:induction false} PutKeepsDedupped(c: Config, t: Trace, now: int, e: Event, r: Readings)
    requires c.window > 0 && now <= r.pruneAt <= r.compareAt <= r.recordAt && Dedupped(c, t, now)
    ensures Dedupped(c, Step(c, false, t, PutOp(e, r)), r.recordAt)
  {
    assert SeenIsLast(c, Step(c, false, t, PutOp(e, r)), r.recordAt) by { SeenStaysLast(c, t, now, e, r); }
    assert AcceptedApart(c, Step(c, false, t, PutOp(e, r)).puts) by { ApartStays(c, t, now, e, r); }
    forall j | 0 <= j < |Step(c, false, t, PutOp(e, r)).puts|
      ensures DroppedIffShadowed(c, Step(c, false, t, PutOp(e, r)).puts, j)
    {
      DedupStays(c, t, now, e, r, j);
    }
  }

  lemma {:induction false} FullDedup(c: Config, start: int, ops: seq<Op>)
    requires c.window > 0 && Monotonic(start, ops)
    ensures Dedupped(c, Run(c, false, Empty(start), ops), ClockAfter(start, ops))
  {
    if ops != [] {
      var before := ops[..|ops| - 1];
      FullDedup(c, start, before);
      var op := ops[|ops| - 1];
      if op.PutOp? {
        PutKeepsDedupped(c, Run(c, false, Empty(start), before), ClockAfter(start, before), op.event, op.readings);
      }
    }
  }

  lemma {:induction false} SeenStaysLast(c: Config, t: Trace, now: int, e: Event, r: Readings)
    requires c.window > 0 && now <= r.pruneAt <= r.compareAt <= r.recordAt && SeenIsLast(c, t, now)
    ensures SeenIsLast(c, Step(c, false, t, PutOp(e, r)), r.recordAt)
  {
    var n := Step(c, false, t, PutOp(e, r));
    var last := |t.puts|;
    forall k | k in n.queue.seen
      ensures n.queue.seen[k] <= r.recordAt && AcceptedAt(n.puts, k, n.queue.seen[k])
    {
      if n.puts[last].answer == Enqueued && e.key == Some(k) {
        assert AcceptedWith(n.puts[last], k);
      } else {
        StillAccepted(t.puts, n.puts[last], k, t.queue.seen[k]);
      }
    }
    forall i, k | 0 <= i < |n.puts| && AcceptedWith(n.puts[i], k)
      ensures k in n.queue.seen && n.puts[i].readings.recordAt <= n.queue.seen[k]
    {
      if i < last {
        assert AcceptedWith(t.puts[i], k);
      }
    }
  }

  lemma {:induction false} StillAccepted(puts: seq<Done>, d: Done, key: DedupKey, at: int)
    requires AcceptedAt(puts, key, at)
    ensures AcceptedAt(puts + [d], key, at)
  {
    var i :| 0 <= i < |puts| && AcceptedWith(puts[i], key) && puts[i].readings.recordAt == at;
    assert AcceptedWith((puts + [d])[i], key);
  }

  lemma {:induction false} ApartStays(c: Config, t: Trace, now: int, e: Event, r: Readings)
    requires c.window > 0 && now <= r.pruneAt <= r.compareAt <= r.recordAt && SeenIsLast(c, t, now) && AcceptedApart(c, t.puts)
    ensures AcceptedApart(c, Step(c, false, t, PutOp(e, r)).puts)
  {
    var n := Step(c, false, t, PutOp(e, r));
    forall i, j, k | 0 <= i < j < |n.puts| && AcceptedWith(n.puts[i], k) && AcceptedWith(n.puts[j], k)
      ensures n.puts[j].readings.recordAt - n.puts[i].readings.recordAt >= c.window
    {
      assert AcceptedWith(t.puts[i], k);
      if j < |t.puts| {
        assert AcceptedWith(t.puts[j], k);
      }
    }
  }

  lemma {:induction false} ShadowedStays(c: Config, puts: seq<Done>, d: Done, j: nat)
    requires j < |puts| && DroppedIffShadowed(c, puts, j)
    ensures DroppedIffShadowed(c, puts + [d], j)
  {
    assert forall i :: 0 <= i < j ==> (Shadows(c, puts + [d], i, j) <==> Shadows(c, puts, i, j));
  }

  lemma {:induction false} LastDroppedIffShadowed(c: Config, t: Trace, now: int, e: Event, r: Readings)
    requires c.window > 0 && SeenIsLast(c, t, now)
    ensures DroppedIffShadowed(c, Step(c, false, t, PutOp(e, r)).puts, |t.puts|)
  {
    var puts := Step(c, false, t, PutOp(e, r)).puts;
    var j := |t.puts|;
    if puts[j].answer == Deduplicated {
      var k := e.key.value;
      var i :| 0 <= i < |t.puts| && AcceptedWith(t.puts[i], k) && t.puts[i].readings.recordAt == t.queue.seen[k];
      assert Shadows(c, puts, i, j);
    }
    if i :| 0 <= i < j && Shadows(c, puts, i, j) {
      assert AcceptedWith(t.puts[i], e.key.value);
    }
  }

  /**
   The promise of the dedup window, for the queue as it is, pruning included: an event is dropped
   exactly if one with its key was accepted less than the window before, so accepted events with
   one key are at least the window apart.
  */
  lemma {:induction false} DedupWindowHolds(c: Config, start: int, ops: seq<Op>)
    requires c.window > 0 && Monotonic(start, ops)
    ensures
      var puts := Run(c, true, Empty(start), ops).puts;
      AcceptedApart(c, puts) && forall j :: 0 <= j < |puts| ==> DroppedIffShadowed(c, puts, j)
  {
    PruningIsInvisible(c, start, ops);
    FullDedup(c, start, ops);
  }

  // ----- Every answer -----

  lemma {:induction false} MoreMonotonic(start: int, ops: seq<Op>, op: Op)
    requires Monotonic(start, ops) && InOrder(op, ClockAfter(start, ops))
    ensures Monotonic(start, ops + [op])
  {
    assert (ops + [op])[..|ops|] == ops;
  }

  lemma {:induction false} RunMore(c: Config, prunes: bool, t: Trace, ops: seq<Op>, op: Op)
    ensures Run(c, prunes, t, ops + [op]) == Step(c, prunes, Run(c, prunes, t, ops), op)
  {
    assert (ops + [op])[..|ops|] == ops;
  }

  /** An event with the key of this one was accepted less than the window before this one is compared. */
  ghost predicate Shadowed(c: Config, puts: seq<Done>, e: Event, r: Readings) {
    c.window > 0 && exists i :: 0 <= i < |puts| && e.key.Some? && AcceptedWith(puts[i], e.key.value) && r.compareAt - puts[i].readings.recordAt < c.window
  }

  lemma {:induction false} ShadowedIsDropped(c: Config, start: int, ops: seq<Op>, e: Event, r: Readings)
    requires c.window > 0 && Monotonic(start, ops) && InOrder(PutOp(e, r), ClockAfter(start, ops))
    ensures var t := Run(c, true, Empty(start), ops); Put(c, t.queue, e, r).1 == Deduplicated <==> Shadowed(c, t.puts, e, r)
  {
    var t := Run(c, true, Empty(start), ops);
    var j, answer := |t.puts|, Put(c, t.queue, e, r).1;
    var puts := t.puts + [Done(e, r, answer)];
    MoreMonotonic(start, ops, PutOp(e, r));
    RunMore(c, true, Empty(start), ops, PutOp(e, r));
    DedupWindowHolds(c, start, ops + [PutOp(e, r)]);
    assert DroppedIffShadowed(c, puts, j);
    if i :| 0 <= i < j && Shadows(c, puts, i, j) {
      assert AcceptedWith(t.puts[i], e.key.value);
    }
    if i :| 0 <= i < j && e.key.Some? && AcceptedWith(t.puts[i], e.key.value) && r.compareAt - t.puts[i].readings.recordAt < c.window {
      assert Shadows(c, puts, i, j);
    }
  }

  /**
   After any run, and for any window: a put is answered Deduplicated exactly if it is shadowed, else
   QueueFull exactly if the queue holds its maximum, and else the event joins the queue at its end.
  */
  lemma {:induction false} AnswersAre(c: Config, start: int, ops: seq<Op>, e: Event, r: Readings)
    requires Monotonic(start, ops) && InOrder(PutOp(e, r), ClockAfter(start, ops))
    ensures
      var t := Run(c, true, Empty(start), ops);
      var (q, answer) := Put(c, t.queue, e, r);
      && (answer == Deduplicated <==> Shadowed(c, t.puts, e, r))
      && (answer == QueueFull <==> !Shadowed(c, t.puts, e, r) && |t.queue.events| >= c.maxSize)
      && q.events == t.queue.events + if answer == Enqueued then [e] else []
  {
    if c.window > 0 {
      ShadowedIsDropped(c, start, ops, e, r);
    }
  }

  // ----- The warning -----

  /** The size of the queue at the start and after each operation. */
  function Sizes(c: Config, prunes: bool, start: int, ops: seq<Op>): seq<nat> {
    if ops == [] then [0]
    else Sizes(c, prunes, start, ops[..|ops| - 1]) + [|Run(c, prunes, Empty(start), ops).queue.events|]
  }

  /** Some time ago the size was at four fifths of the maximum or more, and since then never at half or less. */
  ghost predicate Crowded(maxSize: int, sizes: seq<nat>) {
    exists i :: 0 <= i < |sizes| && 5 * sizes[i] >= 4 * maxSize && forall j :: i <= j < |sizes| ==> 2 * sizes[j] > maxSize
  }

  lemma {:induction false} CrowdedMore(maxSize: int, sizes: seq<nat>, size: nat)
    requires maxSize >= 1
    ensures Crowded(maxSize, sizes + [size]) <==> 2 * size > maxSize && (Crowded(maxSize, sizes) || 5 * size >= 4 * maxSize)
  {
    var more := sizes + [size];
    assert forall i :: 0 <= i < |sizes| ==> more[i] == sizes[i];
    assert more[|sizes|] == size;
    if i :| 0 <= i < |more| && 5 * more[i] >= 4 * maxSize && forall j :: i <= j < |more| ==> 2 * more[j] > maxSize {
      assert i < |sizes| ==> 5 * sizes[i] >= 4 * maxSize;
    }
    if 2 * size > maxSize && Crowded(maxSize, sizes) {
      var i :| 0 <= i < |sizes| && 5 * sizes[i] >= 4 * maxSize && forall j :: i <= j < |sizes| ==> 2 * sizes[j] > maxSize;
      assert 5 * more[i] >= 4 * maxSize;
    }
  }

  /** The warning is on exactly while the queue, once at four fifths, has not been at half or less again. */
  lemma {:induction false} WarnedIffCrowded(c: Config, prunes: bool, start: int, ops: seq<Op>)
    requires c.maxSize >= 1
    ensures Run(c, prunes, Empty(start), ops).queue.warned <==> Crowded(c.maxSize, Sizes(c, prunes, start, ops))
  {
    if ops != [] {
      var before := ops[..|ops| - 1];
      WarnedIffCrowded(c, prunes, start, before);
      CrowdedMore(c.maxSize, Sizes(c, prunes, start, before), |Run(c, prunes, Empty(start), ops).queue.events|);
      QueueConserves(c, prunes, start, before);
      WarnedStep(c, prunes, Run(c, prunes, Empty(start), before), ops[|ops| - 1]);
    }
  }

  lemma {:induction false} WarnedStep(c: Config, prunes: bool, t: Trace, op: Op)
    requires c.maxSize >= 1 && FlagSound(c, t.queue)
    ensures
      var n := Step(c, prunes, t, op);
      n.queue.warned <==> 2 * |n.queue.events| > c.maxSize && (t.queue.warned || 5 * |n.queue.events| >= 4 * c.maxSize)
  {
  }

  // ----- What the prune leaves -----

  /** The pruned map is the full one without what was too old at the last prune. */
  ghost predicate KeptExactly(c: Config, pruned: Queue, full: Queue, now: int) {
    && pruned.lastPrune <= now
    && (forall k :: k in full.seen ==> full.seen[k] <= now)
    && (forall k :: k in pruned.seen <==> k in full.seen && full.seen[k] >= pruned.lastPrune - c.window)
    && (forall k :: k in pruned.seen ==> pruned.seen[k] == full.seen[k])
  }

  lemma {:induction false} PutKeepsExactly(c: Config, pruned: Queue, full: Queue, now: int, e: Event, r: Readings)
    requires KeptExactly(c, pruned, full, now) && Agrees(c, pruned, full, now) && now <= r.pruneAt <= r.compareAt <= r.recordAt
    ensures KeptExactly(c, Put(c, pruned, e, r).0, Accept(c, full, e, r).0, r.recordAt)
    ensures
      var last := Put(c, pruned, e, r).0.lastPrune;
      && (last == pruned.lastPrune || (last == r.pruneAt && last - pruned.lastPrune >= 60))
      && (c.window > 0 && e.key.Some? ==> r.pruneAt - last < 60)
  {
    PutAgrees(c, pruned, full, now, e, r);
    var q := MaybePrune(c, pruned, r.pruneAt);
    if Dedups(c, e) {
      assert KeptExactly(c, q, full, r.pruneAt);
    }
  }

  /**
   After any run the keys kept are exactly those last accepted no longer than the window before the
   last prune, and a put with a key leaves the last prune less than a minute behind it.
  */
  lemma {:induction false} PruneKeepsExactly(c: Config, start: int, ops: seq<Op>)
    requires Monotonic(start, ops)
    ensures
      var pruned, full := Run(c, true, Empty(start), ops).queue, Run(c, false, Empty(start), ops).queue;
      && KeptExactly(c, pruned, full, ClockAfter(start, ops))
      && (ops != [] && ops[|ops| - 1].PutOp? && ops[|ops| - 1].event.key.Some? && c.window > 0 ==>
            ops[|ops| - 1].readings.pruneAt - pruned.lastPrune < 60)
  {
    if ops != [] {
      var before, op := ops[..|ops| - 1], ops[|ops| - 1];
      PruneKeepsExactly(c, start, before);
      PruningIsInvisible(c, start, before);
      if op.PutOp? {
        PutKeepsExactly(c, Run(c, true, Empty(start), before).queue, Run(c, false, Empty(start), before).queue,
          ClockAfter(start, before), op.event, op.readings);
      }
    }
  }
}
