/**
 The audit writer's retry buffer: points that could not be written wait in a bounded queue and
 are flushed after the next success.
*/
module AuditBuffer {
  type Point(==, !new)

  const BUFFER_MAX := 1000
  const MAX_RETRIES := 2

  /** How one call to the server ends: written, or failed in a way that is worth retrying or not. */
  datatype Outcome = Written | Transient | Permanent

  /** The server's answers, numbered by call. */
  type Network = nat -> Outcome

  /**
   The buffer and the number of calls made; what the server has; what was evicted; and, for the
   order of things, everything ever put into the buffer and everything ever taken out of it.
  */
  datatype Audit = Audit(
    buffer: seq<Point>,
    calls: nat,
    written: seq<Point>,
    evicted: seq<Point>,
    arrived: seq<Point>,
    removed: seq<Point>)

  // ----- The write path as functions -----

  /** From the given attempt on: did the point get through, and how many calls were made in all? */
  function TryWrite(net: Network, calls: nat, attempt: nat): (bool, nat)
    requires attempt <= MAX_RETRIES
    decreases MAX_RETRIES - attempt
  {
    match net(calls)
    case Written => (true, calls + 1)
    case Transient => if attempt < MAX_RETRIES then TryWrite(net, calls + 1, attempt + 1) else (false, calls + 1)
    case Permanent => (false, calls + 1)
  }

  /** A deque with a maximal length drops its oldest element to take a new one. */
  function Enqueue(s: Audit, p: Point): Audit {
    if |s.buffer| >= BUFFER_MAX then
      s.(buffer := s.buffer[1..] + [p],
         evicted := s.evicted + [s.buffer[0]],
         arrived := s.arrived + [p],
         removed := s.removed + [s.buffer[0]])
    else s.(buffer := s.buffer + [p], arrived := s.arrived + [p])
  }

  /** Flush from the front until the buffer is empty or a write fails. */
  function Drain(net: Network, s: Audit): Audit
    decreases |s.buffer|
  {
    if s.buffer == [] then s
    else if net(s.calls) != Written then s.(calls := s.calls + 1)
    else
      Drain(net, s.(buffer := s.buffer[1..],
                    calls := s.calls + 1,
                    written := s.written + [s.buffer[0]],
                    removed := s.removed + [s.buffer[0]]))
  }

  function Write(net: Network, s: Audit, p: Point): Audit {
    var (ok, calls) := TryWrite(net, s.calls, 0);
    if ok then Drain(net, s.(calls := calls, written := s.written + [p]))
    else Enqueue(s.(calls := calls), p)
  }

  class AuditWriter {
    const net: Network
    var buffer: seq<Point>
    var calls: nat
    ghost var written: seq<Point>
    ghost var evicted: seq<Point>
    ghost var arrived: seq<Point>
    ghost var removed: seq<Point>

    ghost function View(): Audit
      reads this
    {
      Audit(buffer, calls, written, evicted, arrived, removed)
    }

    constructor (net: Network)
      ensures this.net == net && View() == Audit([], 0, [], [], [], [])
    {
      this.net := net;
      buffer, calls := [], 0;
      written, evicted, arrived, removed := [], [], [], [];
    }

    method TryWritePoint() returns (ok: bool)
      modifies this`calls
      ensures (ok, calls) == TryWrite(net, old(calls), 0)
    {
      var attempt := 0;
      while attempt <= MAX_RETRIES
        invariant attempt <= MAX_RETRIES
        invariant TryWrite(net, calls, attempt) == TryWrite(net, old(calls), 0)
        decreases MAX_RETRIES - attempt
      {
        var outcome := net(calls);
        calls := calls + 1;
        if outcome == Written {
          return true;
        }
        if attempt < MAX_RETRIES && outcome == Transient {
          attempt := attempt + 1;
        } else {
          return false;
        }
      }
    }

    method EnqueuePoint(p: Point)
      modifies this`buffer, this`evicted, this`arrived, this`removed
      ensures View() == Enqueue(old(View()), p)
    {
      if |buffer| >= BUFFER_MAX {
        evicted, removed := evicted + [buffer[0]], removed + [buffer[0]];
        buffer := buffer[1..];
      }
      buffer := buffer + [p];
      arrived := arrived + [p];
    }

    method DrainBuffer()
      modifies this`buffer, this`calls, this`written, this`removed
      ensures View() == Drain(net, old(View()))
    {
      while buffer != []
        invariant Drain(net, View()) == Drain(net, old(View()))
        decreases |buffer|
      {
        var point := buffer[0];
        var outcome := net(calls);
        if outcome != Written {
          calls := calls + 1;
          break;
        }
        calls := calls + 1;
        written := written + [point];
        buffer := buffer[1..];
        removed := removed + [point];
      }
    }

    method WritePoint(p: Point)
      modifies this
      ensures View() == Write(net, old(View()), p)
    {
      var ok := TryWritePoint();
      if ok {
        written := written + [p];
        DrainBuffer();
      } else {
        EnqueuePoint(p);
      }
    }
  }

  // ----- Conservation over any run -----

  function Start(): Audit {
    Audit([], 0, [], [], [], [])
  }

  function WriteAll(net: Network, s: Audit, points: seq<Point>): Audit {
    if points == [] then s else Write(net, WriteAll(net, s, points[..|points| - 1]), points[|points| - 1])
  }

  /** Each submitted point is in exactly one place, first in is first out, and the bound holds. */
  ghost predicate Conserved(s: Audit, submitted: seq<Point>) {
    && multiset(submitted) == multiset(s.written) + multiset(s.buffer) + multiset(s.evicted)
    && s.arrived == s.removed + s.buffer
    && |s.buffer| <= BUFFER_MAX
  }

  lemma {:induction false} DrainConserves(net: Network, s: Audit, submitted: seq<Point>)
    requires Conserved(s, submitted)
    ensures Conserved(Drain(net, s), submitted) && Drain(net, s).evicted == s.evicted && Drain(net, s).arrived == s.arrived
    decreases |s.buffer|
  {
    if s.buffer != [] && net(s.calls) == Written {
      var next := s.(buffer := s.buffer[1..],
                     calls := s.calls + 1,
                     written := s.written + [s.buffer[0]],
                     removed := s.removed + [s.buffer[0]]);
      assert s.buffer == [s.buffer[0]] + next.buffer;
      DrainConserves(net, next, submitted);
    }
  }

  lemma {:induction false} SentConserves(s: Audit, p: Point, submitted: seq<Point>)
    requires Conserved(s, submitted)
    ensures Conserved(s.(written := s.written + [p]), submitted + [p])
  {
  }

  lemma {:induction false} BufferedConserves(s: Audit, p: Point, submitted: seq<Point>)
    requires Conserved(s, submitted) && |s.buffer| < BUFFER_MAX
    ensures Conserved(Enqueue(s, p), submitted + [p])
  {
    assert (s.removed + s.buffer) + [p] == s.removed + (s.buffer + [p]);
  }

  lemma {:induction false} EvictedConserves(s: Audit, p: Point, submitted: seq<Point>)
    requires Conserved(s, submitted) && |s.buffer| == BUFFER_MAX
    ensures Conserved(Enqueue(s, p), submitted + [p])
  {
    var oldest, rest := s.buffer[0], s.buffer[1..];
    assert s.buffer == [oldest] + rest;
    assert (s.removed + ([oldest] + rest)) + [p] == (s.removed + [oldest]) + (rest + [p]);
  }

  lemma {:induction false} WriteConserves(net: Network, s: Audit, p: Point, submitted: seq<Point>)
    requires Conserved(s, submitted)
    ensures Conserved(Write(net, s, p), submitted + [p])
  {
    var (ok, calls) := TryWrite(net, s.calls, 0);
    var called := s.(calls := calls);
    assert Conserved(called, submitted);
    if ok {
      SentConserves(called, p, submitted);
      DrainConserves(net, called.(written := s.written + [p]), submitted + [p]);
    } else if |s.buffer| >= BUFFER_MAX {
      EvictedConserves(called, p, submitted);
    } else {
      BufferedConserves(called, p, submitted);
    }
  }

  /** For every pattern of failures. */
  lemma {:induction false} NothingIsLost(net: Network, points: seq<Point>)
    ensures Conserved(WriteAll(net, Start(), points), points)
  {
    if points != [] {
      var n := |points| - 1;
      NothingIsLost(net, points[..n]);
      WriteConserves(net, WriteAll(net, Start(), points[..n]), points[n], points[..n]);
      assert points == points[..n] + [points[n]];
    }
  }

  // ----- What the server's answers make of a write -----

  /** Call `calls + k` writes the point, after k that failed in a way worth retrying. */
  predicate DeliveredAt(net: Network, calls: nat, k: nat) {
    net(calls + k) == Written && forall i :: calls <= i < calls + k ==> net(i) == Transient
  }

  /** A point's own attempts: at most three calls, each after one worth retrying, to the first that is not. */
  ghost predicate Attempts(net: Network, calls: nat, tries: nat) {
    && 1 <= tries <= 3
    && (forall i :: calls <= i < calls + tries - 1 ==> net(i) == Transient)
    && (tries < 3 ==> net(calls + tries - 1) != Transient)
  }

  lemma {:induction false} TryWriteIs(net: Network, calls: nat) returns (tries: nat)
    ensures Attempts(net, calls, tries)
    ensures TryWrite(net, calls, 0) == (net(calls + tries - 1) == Written, calls + tries)
  {
    tries := if net(calls) != Transient then 1 else if net(calls + 1) != Transient then 2 else 3;
    assert TryWrite(net, calls + 2, 2) == (net(calls + 2) == Written, calls + 3);
  }

  /** A point is delivered by its own attempts exactly if one of the first three calls writes it and those before it are worth retrying. */
  lemma {:induction false} DeliveredIff(net: Network, calls: nat)
    ensures TryWrite(net, calls, 0).0 <==> exists k: nat :: k <= 2 && DeliveredAt(net, calls, k)
  {
    var tries := TryWriteIs(net, calls);
    if net(calls + tries - 1) == Written {
      assert DeliveredAt(net, calls, tries - 1);
    }
    if k: nat :| k <= 2 && DeliveredAt(net, calls, k) {
      assert tries == k + 1;
    }
  }

  /** The drain makes one call for each point it writes, from the front, and one more exactly if it stops before the end. */
  ghost predicate Drained(net: Network, s: Audit, r: Audit, n: nat) {
    && n <= |s.buffer|
    && (forall i :: s.calls <= i < s.calls + n ==> net(i) == Written)
    && (n < |s.buffer| ==> net(s.calls + n) != Written)
    && r.calls == s.calls + n + (if n < |s.buffer| then 1 else 0)
    && r.written == s.written + s.buffer[..n] && r.buffer == s.buffer[n..] && r.evicted == s.evicted
  }

  lemma {:induction false} DrainIs(net: Network, s: Audit) returns (n: nat)
    ensures Drained(net, s, Drain(net, s), n)
    decreases |s.buffer|
  {
    if s.buffer == [] || net(s.calls) != Written {
      n := 0;
    } else {
      var next := s.(buffer := s.buffer[1..], calls := s.calls + 1,
                     written := s.written + [s.buffer[0]], removed := s.removed + [s.buffer[0]]);
      var m := DrainIs(net, next);
      n := m + 1;
      DrainedOneMore(net, s, next, Drain(net, s), m);
    }
  }

  lemma {:induction false} DrainedOneMore(net: Network, s: Audit, next: Audit, r: Audit, m: nat)
    requires s.buffer != [] && net(s.calls) == Written && Drained(net, next, r, m)
    requires next.buffer == s.buffer[1..] && next.calls == s.calls + 1 && next.written == s.written + [s.buffer[0]] && next.evicted == s.evicted
    ensures Drained(net, s, r, m + 1)
  {
    assert s.buffer[..m + 1] == [s.buffer[0]] + s.buffer[1..][..m];
    assert s.buffer[m + 1..] == s.buffer[1..][m..];
  }

  /**
   A write, told by the server's answers: after its own attempts the point is written, and then the
   front of the backlog to the first failure; or else it is buffered, for the oldest if the buffer is full.
  */
  lemma {:induction false} WriteIs(net: Network, s: Audit, p: Point) returns (tries: nat, n: nat)
    ensures Attempts(net, s.calls, tries)
    ensures
      var r := Write(net, s, p);
      if net(s.calls + tries - 1) == Written then
        Drained(net, s.(calls := s.calls + tries, written := s.written + [p]), r, n)
      else
        && r.calls == s.calls + tries && r.written == s.written
        && if |s.buffer| >= 1000 then r.buffer == s.buffer[1..] + [p] && r.evicted == s.evicted + [s.buffer[0]]
           else r.buffer == s.buffer + [p] && r.evicted == s.evicted
  {
    tries := TryWriteIs(net, s.calls);
    n := 0;
    if net(s.calls + tries - 1) == Written {
      n := DrainIs(net, s.(calls := s.calls + tries, written := s.written + [p]));
    }
  }

  // ----- What the server has is what it answered to have written -----

  /** The calls so far that were answered with a success. */
  ghost function Successes(net: Network, calls: nat): set<int> {
    set i | 0 <= i < calls && net(i) == Written
  }

  lemma {:induction false} SuccessesMore(net: Network, calls: nat)
    ensures |Successes(net, calls + 1)| == |Successes(net, calls)| + if net(calls) == Written then 1 else 0
  {
    assert Successes(net, calls + 1) == Successes(net, calls) + if net(calls) == Written then {calls as int} else {};
  }

  lemma {:induction false} NoSuccesses(net: Network, calls: nat, n: nat)
    requires forall i :: calls <= i < calls + n ==> net(i) != Written
    ensures |Successes(net, calls + n)| == |Successes(net, calls)|
  {
    if n > 0 {
      NoSuccesses(net, calls, n - 1);
      SuccessesMore(net, calls + n - 1);
    }
  }

  lemma {:induction false} AllSuccesses(net: Network, calls: nat, n: nat)
    requires forall i :: calls <= i < calls + n ==> net(i) == Written
    ensures |Successes(net, calls + n)| == |Successes(net, calls)| + n
  {
    if n > 0 {
      AllSuccesses(net, calls, n - 1);
      SuccessesMore(net, calls + n - 1);
    }
  }

  lemma {:induction false} WriteAnswered(net: Network, s: Audit, p: Point)
    requires |s.written| == |Successes(net, s.calls)|
    ensures |Write(net, s, p).written| == |Successes(net, Write(net, s, p).calls)|
  {
    var tries, n := WriteIs(net, s, p);
    NoSuccesses(net, s.calls, tries - 1);
    SuccessesMore(net, s.calls + tries - 1);
    if net(s.calls + tries - 1) == Written {
      AllSuccesses(net, s.calls + tries, n);
      SuccessesMore(net, s.calls + tries + n);
    }
  }

  /** After any writes the server has exactly as many points as calls were answered with a success, drains included. */
  lemma {:induction false} WrittenIsAnswered(net: Network, points: seq<Point>)
    ensures var s := WriteAll(net, Start(), points); |s.written| == |Successes(net, s.calls)|
  {
    if points == [] {
      assert Successes(net, 0) == {};
    } else {
      WrittenIsAnswered(net, points[..|points| - 1]);
      WriteAnswered(net, WriteAll(net, Start(), points[..|points| - 1]), points[|points| - 1]);
    }
  }

  /** A point is evicted only as the oldest of a full buffer, and only when a new one could not be written. */
  lemma {:induction false} EvictionIsOldestOfFull(net: Network, s: Audit, p: Point)
    requires |s.buffer| <= BUFFER_MAX
    ensures
      var r := Write(net, s, p);
      if |s.buffer| == BUFFER_MAX && !(exists k: nat :: k <= 2 && DeliveredAt(net, s.calls, k))
      then r.evicted == s.evicted + [s.buffer[0]] && r.buffer == s.buffer[1..] + [p]
      else r.evicted == s.evicted
  {
    var (ok, calls) := TryWrite(net, s.calls, 0);
    DeliveredIff(net, s.calls);
    if ok {
      DrainNeverEvicts(net, s.(calls := calls, written := s.written + [p]));
    }
  }

  lemma {:induction false} DrainNeverEvicts(net: Network, s: Audit)
    ensures Drain(net, s).evicted == s.evicted
    decreases |s.buffer|
  {
    if s.buffer != [] && net(s.calls) == Written {
      DrainNeverEvicts(net, s.(buffer := s.buffer[1..], calls := s.calls + 1,
                               written := s.written + [s.buffer[0]], removed := s.removed + [s.buffer[0]]));
    }
  }

  lemma {:induction false} DrainDelivers(net: Network, s: Audit)
    requires forall i :: i >= s.calls ==> net(i) == Written
    ensures Drain(net, s).buffer == [] && Drain(net, s).written == s.written + s.buffer
    decreases |s.buffer|
  {
    if s.buffer != [] {
      var next := s.(buffer := s.buffer[1..], calls := s.calls + 1,
                     written := s.written + [s.buffer[0]], removed := s.removed + [s.buffer[0]]);
      DrainDelivers(net, next);
      assert s.written + s.buffer == next.written + next.buffer;
    }
  }

  /** Once the server answers again, the next write delivers its own point and then the whole backlog, oldest first. */
  lemma {:induction false} RecoveryDeliversBacklog(net: Network, s: Audit, p: Point)
    requires forall i :: i >= s.calls ==> net(i) == Written
    ensures Write(net, s, p).buffer == [] && Write(net, s, p).written == s.written + [p] + s.buffer
  {
    DrainDelivers(net, s.(calls := s.calls + 1, written := s.written + [p]));
  }
}
