/**
 The round-robin order in which container statistics are polled: synchronised with the eligible
 set, rotated by what the last cycle polled, and polled from the front until time runs out.
*/
module PollRotation {
  import opened Collections

  type Container(==, !new)

  /** `k` places round a circle of `n`. */
  function Around(k: nat, n: nat): (r: nat)
    requires n > 0
    ensures r < n && (k < n ==> r == k) && (k == n ==> r == 0)
  {
    if k < n then k else Around(k - n, n)
  }

  /** The order starting from position p. */
  function From<T>(s: seq<T>, p: nat): seq<T>
    requires p <= |s|
  {
    s[p..] + s[..p]
  }

  /** `deque.rotate(-k)`. */
  function RotateLeft<T>(s: seq<T>, k: nat): seq<T> {
    if s == [] then s else From(s, Around(k, |s|))
  }

  function KeepEligible(order: seq<Container>, eligible: set<Container>): seq<Container> {
    if order == [] then []
    else KeepEligible(order[..|order| - 1], eligible) + if order[|order| - 1] in eligible then [order[|order| - 1]] else []
  }

  function Successes(attempted: seq<Container>, ok: Container -> bool): seq<Container> {
    if attempted == [] then []
    else Successes(attempted[..|attempted| - 1], ok) + if ok(attempted[|attempted| - 1]) then [attempted[|attempted| - 1]] else []
  }

  function Members<T>(s: seq<T>): set<T> {
    set x | x in s
  }

  class Poller {
    var pollOrder: seq<Container>
    var lastPolledCount: nat

    constructor ()
      ensures pollOrder == [] && lastPolledCount == 0
    {
      pollOrder, lastPolledCount := [], 0;
    }

    /**
     One cycle: time allows the first `reach` containers of the rotated order to be fetched, of
     which `ok` answer.  The new containers join at the end in an order left open.
    */
    method PollCycle(eligible: set<Container>, reach: nat, ok: Container -> bool) returns (results: seq<Container>)
      modifies this
      ensures exists added ::
        && Enumerates(added, eligible - Members(old(pollOrder)))
        && pollOrder == RotateLeft(KeepEligible(old(pollOrder), eligible) + added, old(lastPolledCount))
        && results == Successes(if reach < |pollOrder| then pollOrder[..reach] else pollOrder, ok)
      ensures lastPolledCount == |results|
    {
      var kept := Eligible(pollOrder, eligible);
      KeptAreEligible(pollOrder, eligible);
      assert eligible - Members(kept) == eligible - Members(pollOrder);
      var added := Enumerate(eligible - Members(kept));
      ghost var last := lastPolledCount;
      pollOrder := kept + added;
      if lastPolledCount > 0 {
        pollOrder := RotateLeft(pollOrder, lastPolledCount);
      }
      RotateByZero(kept + added);
      assert pollOrder == RotateLeft(kept + added, last);
      results := Fetch(if reach < |pollOrder| then pollOrder[..reach] else pollOrder, ok);
      lastPolledCount := |results|;
    }
  }

  lemma {:induction false} RotateByZero<T>(s: seq<T>)
    ensures RotateLeft(s, 0) == s
  {
  }

  method Eligible(order: seq<Container>, eligible: set<Container>) returns (kept: seq<Container>)
    ensures kept == KeepEligible(order, eligible)
  {
    kept := [];
    for i := 0 to |order|
      invariant kept == KeepEligible(order[..i], eligible)
    {
      assert order[..i + 1][..i] == order[..i];
      if order[i] in eligible {
        kept := kept + [order[i]];
      }
    }
    assert order[..|order|] == order;
  }

  method Fetch(attempted: seq<Container>, ok: Container -> bool) returns (results: seq<Container>)
    ensures results == Successes(attempted, ok)
  {
    results := [];
    for i := 0 to |attempted|
      invariant results == Successes(attempted[..i], ok)
    {
      assert attempted[..i + 1][..i] == attempted[..i];
      if ok(attempted[i]) {
        results := results + [attempted[i]];
      }
    }
    assert attempted[..|attempted|] == attempted;
  }

  lemma {:induction false} KeptAreEligible(order: seq<Container>, eligible: set<Container>)
    ensures Members(KeepEligible(order, eligible)) == Members(order) * eligible
  {
    if order != [] {
      var n := |order| - 1;
      KeptAreEligible(order[..n], eligible);
      assert order == order[..n] + [order[n]];
      MembersAppend(order[..n], order[n]);
      var k := KeepEligible(order[..n], eligible);
      MembersAppend(k, order[n]);
      assert k + [] == k;
    }
  }

  lemma {:induction false} MembersAppend<T>(s: seq<T>, x: T)
    ensures Members(s + [x]) == Members(s) + {x}
  {
  }

  lemma {:induction false} KeepAll(order: seq<Container>, eligible: set<Container>)
    requires forall i :: 0 <= i < |order| ==> order[i] in eligible
    ensures KeepEligible(order, eligible) == order
  {
    if order != [] {
      var n := |order| - 1;
      KeepAll(order[..n], eligible);
      assert order[..n] + [order[n]] == order;
    }
  }

  /** With a stable eligible set a cycle only rotates. */
  lemma {:induction false} StableOnlyRotates(order: seq<Container>, eligible: set<Container>, added: seq<Container>)
    requires Members(order) == eligible && Enumerates(added, eligible - Members(order))
    ensures KeepEligible(order, eligible) + added == order
  {
    forall i | 0 <= i < |order|
      ensures order[i] in eligible
    {
      assert order[i] in Members(order);
    }
    KeepAll(order, eligible);
    EmptyIffNothing(added, eligible - Members(order));
    assert order + [] == order;
  }

  // ----- What synchronising, rotating and fetching do -----

  lemma {:induction false} AroundIsRest(k: nat, n: nat) returns (turns: nat)
    requires n > 0
    ensures k == turns * n + Around(k, n)
    decreases k
  {
    turns := 0;
    if k >= n {
      var fewer := AroundIsRest(k - n, n);
      turns := fewer + 1;
    }
  }

  /** A rotation by k takes off the full turns and moves every element by the rest towards the front, round the circle. */
  lemma {:induction false} RotationMoves<T>(s: seq<T>, k: nat, i: nat) returns (turns: nat)
    requires i < |s|
    ensures turns * |s| <= k < turns * |s| + |s| && |RotateLeft(s, k)| == |s|
    ensures var r := k - turns * |s|; RotateLeft(s, k)[i] == s[if i + r < |s| then i + r else i + r - |s|]
  {
    turns := AroundIsRest(k, |s|);
  }

  ghost function EligibleAt(order: seq<Container>, eligible: set<Container>): set<int> {
    set i | 0 <= i < |order| && order[i] in eligible
  }

  /** Synchronising keeps exactly the eligible, in their order. */
  lemma {:induction false} EligibleAreKept(order: seq<Container>, eligible: set<Container>) returns (at: seq<nat>)
    ensures Selects(at, |order|, EligibleAt(order, eligible)) && PickedAt(KeepEligible(order, eligible), order, at)
  {
    if order == [] {
      at := [];
    } else {
      var n := |order| - 1;
      at := EligibleAreKept(order[..n], eligible);
      var list := KeepEligible(order[..n], eligible);
      assert list + [] == list;
      at := PickNext(list, order, n, at, EligibleAt(order[..n], eligible), EligibleAt(order, eligible));
    }
  }

  ghost function AnsweringAt(attempted: seq<Container>, ok: Container -> bool): set<int> {
    set i | 0 <= i < |attempted| && ok(attempted[i])
  }

  lemma {:induction false} AnsweringMore(attempted: seq<Container>, ok: Container -> bool)
    requires attempted != []
    ensures forall i :: i != |attempted| - 1 ==> (i in AnsweringAt(attempted, ok) <==> i in AnsweringAt(attempted[..|attempted| - 1], ok))
  {
  }

  /** The results are exactly those that answered, in the order they were attempted. */
  lemma {:induction false} AnsweringAreResults(attempted: seq<Container>, ok: Container -> bool) returns (at: seq<nat>)
    ensures Selects(at, |attempted|, AnsweringAt(attempted, ok)) && PickedAt(Successes(attempted, ok), attempted, at)
  {
    if attempted == [] {
      at := [];
    } else {
      var n := |attempted| - 1;
      at := AnsweringAreResults(attempted[..n], ok);
      var list := Successes(attempted[..n], ok);
      assert list + [] == list;
      AnsweringMore(attempted, ok);
      at := PickNext(list, attempted, n, at, AnsweringAt(attempted[..n], ok), AnsweringAt(attempted, ok));
    }
  }

  // ----- Runs with a stable eligible set -----

  /** The order before the next rotation, the last count, and everything polled so far. */
  datatype Poll = Poll(order: seq<Container>, last: nat, polled: seq<Container>)

  /** One cycle that reaches the first `reach` containers, all or some of which answer. */
  function Cycle(s: Poll, reach: nat, ok: Container -> bool): Poll {
    var order := RotateLeft(s.order, s.last);
    var results := Successes(if reach < |order| then order[..reach] else order, ok);
    Poll(order, |results|, s.polled + results)
  }

  function Cycles(s: Poll, reaches: seq<nat>, ok: Container -> bool): Poll {
    if reaches == [] then s else Cycle(Cycles(s, reaches[..|reaches| - 1], ok), reaches[|reaches| - 1], ok)
  }

  lemma {:induction false} AllSucceed(attempted: seq<Container>, ok: Container -> bool)
    requires forall i :: 0 <= i < |attempted| ==> ok(attempted[i])
    ensures Successes(attempted, ok) == attempted
  {
    if attempted != [] {
      AllSucceed(attempted[..|attempted| - 1], ok);
    }
  }

  ghost predicate Distinct<T(!new)>(s: seq<T>) {
    forall i, j :: 0 <= i < j < |s| ==> s[i] != s[j]
  }

  /** `rounds` full rounds are polled, and the containers before position p once more. */
  ghost predicate Polled(base: seq<Container>, polled: seq<Container>, rounds: nat, p: nat) {
    && p < |base|
    && (rounds == 0 ==> |polled| == p)
    && (forall x :: 0 <= x < |base| ==> multiset(polled)[base[x]] == rounds + if x < p then 1 else 0)
  }

  /** Where the next rotation leads, and what has been polled. */
  ghost predicate OnTurn(base: seq<Container>, s: Poll, rounds: nat, p: nat) {
    && Polled(base, s.polled, rounds, p)
    && RotateLeft(s.order, s.last) == From(base, p)
  }

  lemma {:induction false} FromJoined<T>(a: seq<T>, b: seq<T>)
    ensures From(a + b, |a|) == b + a
  {
  }

  /** Rotating a circle cut in three by one part, and then by the next. */
  lemma {:induction false} FromTwice<T>(x: seq<T>, y: seq<T>, z: seq<T>)
    ensures From(From((x + y) + z, |x|), |y|) == From((x + y) + z, |x + y|)
  {
    assert (x + y) + z == x + (y + z);
    FromJoined(x, y + z);
    assert (y + z) + x == y + (z + x);
    FromJoined(y, z + x);
    FromJoined(x + y, z);
    assert (z + x) + y == z + (x + y);
  }

  /** The same when the second rotation goes past the end. */
  lemma {:induction false} FromWrapped<T>(x: seq<T>, y: seq<T>, z: seq<T>)
    ensures From(From((x + y) + z, |x + y|), |z + x|) == From((x + y) + z, |x|)
  {
    FromJoined(x + y, z);
    assert z + (x + y) == (z + x) + y;
    FromJoined(z + x, y);
    assert (x + y) + z == x + (y + z);
    FromJoined(x, y + z);
    assert y + (z + x) == (y + z) + x;
  }

  lemma {:induction false} RotateFrom(base: seq<Container>, p: nat, k: nat)
    requires p < |base| && k <= |base|
    ensures RotateLeft(From(base, p), k) == From(base, if p + k < |base| then p + k else p + k - |base|)
  {
    var n := |base|;
    if k == n {
      RotateWhole(From(base, p));
    } else if p + k < n {
      assert base == (base[..p] + base[p..p + k]) + base[p + k..];
      FromTwice(base[..p], base[p..p + k], base[p + k..]);
    } else {
      var q := p + k - n;
      assert base == (base[..q] + base[q..p]) + base[p..];
      FromWrapped(base[..q], base[q..p], base[p..]);
    }
  }

  lemma {:induction false} RotateWhole<T>(s: seq<T>)
    ensures RotateLeft(s, |s|) == s
  {
  }

  lemma {:induction false} OnceInPrefix(s: seq<Container>, x: nat, k: nat)
    requires Distinct(s) && x < |s| && k <= |s|
    ensures multiset(s[..k])[s[x]] == if x < k then 1 else 0
  {
    if k > 0 {
      OnceInPrefix(s, x, k - 1);
      assert s[..k] == s[..k - 1] + [s[k - 1]];
    }
  }

  lemma {:induction false} FromDistinct(base: seq<Container>, p: nat)
    requires Distinct(base) && p < |base|
    ensures Distinct(From(base, p))
    ensures forall x :: 0 <= x < |base| ==> From(base, p)[if x >= p then x - p else x + |base| - p] == base[x]
  {
  }

  /** In an order that starts at p, the first k hold exactly those at p, p + 1, ..., round the circle. */
  lemma {:induction false} OnceInTurn(base: seq<Container>, p: nat, k: nat, x: nat)
    requires Distinct(base) && p < |base| && k <= |base| && x < |base|
    ensures multiset(From(base, p)[..k])[base[x]] == if (x >= p && x - p < k) || (x < p && x + |base| - p < k) then 1 else 0
  {
    FromDistinct(base, p);
    OnceInPrefix(From(base, p), if x >= p then x - p else x + |base| - p, k);
  }

  /** Polling the next k in turn keeps the account. */
  lemma {:induction false} PolledGrows(base: seq<Container>, polled: seq<Container>, rounds: nat, p: nat, k: nat)
    requires Distinct(base) && Polled(base, polled, rounds, p) && k <= |base|
    ensures
      var n := |base|;
      if p + k < n then Polled(base, polled + From(base, p)[..k], rounds, p + k)
      else Polled(base, polled + From(base, p)[..k], rounds + 1, p + k - n)
  {
    var n := |base|;
    var now := From(base, p)[..k];
    forall x | 0 <= x < n
      ensures multiset(polled + now)[base[x]] == multiset(polled)[base[x]] + if (x >= p && x - p < k) || (x < p && x + n - p < k) then 1 else 0
    {
      OnceInTurn(base, p, k, x);
    }
  }

  /** A cycle in which everything answers polls the first containers of the rotated order. */
  lemma {:induction false} CyclePolls(s: Poll, reach: nat, ok: Container -> bool)
    requires var order := RotateLeft(s.order, s.last); forall i :: 0 <= i < |order| ==> ok(order[i])
    ensures
      var order := RotateLeft(s.order, s.last);
      var k := if reach < |order| then reach else |order|;
      Cycle(s, reach, ok) == Poll(order, k, s.polled + order[..k])
  {
    var order := RotateLeft(s.order, s.last);
    var k := if reach < |order| then reach else |order|;
    assert order[..|order|] == order;
    AllSucceed(order[..k], ok);
  }

  /** Polling k from an order that starts at p, and rotating by k, keeps everything on turn. */
  lemma {:induction false} TurnMoves(base: seq<Container>, polled: seq<Container>, rounds: nat, p: nat, k: nat) returns (rounds': nat, p': nat)
    requires Distinct(base) && Polled(base, polled, rounds, p) && k <= |base|
    ensures OnTurn(base, Poll(From(base, p), k, polled + From(base, p)[..k]), rounds', p')
  {
    RotateFrom(base, p, k);
    PolledGrows(base, polled, rounds, p, k);
    if p + k < |base| {
      rounds', p' := rounds, p + k;
    } else {
      rounds', p' := rounds + 1, p + k - |base|;
    }
  }

  lemma {:induction false} CycleKeepsTurn(base: seq<Container>, s: Poll, reach: nat, ok: Container -> bool, rounds: nat, p: nat) returns (rounds': nat, p': nat)
    requires forall i :: 0 <= i < |base| ==> ok(base[i])
    requires Distinct(base) && OnTurn(base, s, rounds, p)
    ensures OnTurn(base, Cycle(s, reach, ok), rounds', p')
  {
    assert forall i :: 0 <= i < |base| ==> From(base, p)[i] == base[if i + p < |base| then i + p else i + p - |base|];
    CyclePolls(s, reach, ok);
    rounds', p' := TurnMoves(base, s.polled, rounds, p, if reach < |base| then reach else |base|);
  }

  lemma {:induction false} RunKeepsTurn(base: seq<Container>, reaches: seq<nat>, ok: Container -> bool) returns (rounds: nat, p: nat)
    requires Distinct(base) && base != [] && forall i :: 0 <= i < |base| ==> ok(base[i])
    ensures OnTurn(base, Cycles(Poll(base, 0, []), reaches, ok), rounds, p)
  {
    if reaches == [] {
      rounds, p := 0, 0;
    } else {
      var before := reaches[..|reaches| - 1];
      rounds, p := RunKeepsTurn(base, before, ok);
      rounds, p := CycleKeepsTurn(base, Cycles(Poll(base, 0, []), before, ok), reaches[|reaches| - 1], ok, rounds, p);
    }
  }

  /**
   When every fetch succeeds: after any number of cycles of any reach, the poll counts of any two
   containers differ by at most one, and once as many polls were made as there are containers,
   each has been polled.
  */
  lemma {:induction false} RoundRobinIsFair(base: seq<Container>, reaches: seq<nat>, ok: Container -> bool, a: Container, b: Container)
    requires Distinct(base) && a in base && b in base && forall x :: x in base ==> ok(x)
    ensures
      var polled := Cycles(Poll(base, 0, []), reaches, ok).polled;
      && multiset(polled)[a] <= multiset(polled)[b] + 1
      && (|polled| >= |base| ==> multiset(polled)[a] >= 1)
  {
    var rounds, p := RunKeepsTurn(base, reaches, ok);
    var polled := Cycles(Poll(base, 0, []), reaches, ok).polled;
    var x :| 0 <= x < |base| && base[x] == a;
    var y :| 0 <= y < |base| && base[y] == b;
  }

  // ----- Fetches that fail -----

  lemma {:induction false} SuccessesAre(attempted: seq<Container>, ok: Container -> bool, x: Container)
    ensures x in Successes(attempted, ok) <==> x in attempted && ok(x)
  {
    if attempted != [] {
      var n := |attempted| - 1;
      SuccessesAre(attempted[..n], ok, x);
      assert attempted == attempted[..n] + [attempted[n]];
    }
  }

  /** All attempted fetches succeeded exactly if as many succeeded as were attempted, none exactly if none did. */
  lemma {:induction false} SuccessCount(attempted: seq<Container>, ok: Container -> bool)
    ensures |Successes(attempted, ok)| <= |attempted|
    ensures |Successes(attempted, ok)| == |attempted| <==> forall x :: x in attempted ==> ok(x)
    ensures |Successes(attempted, ok)| == 0 <==> forall x :: x in attempted ==> !ok(x)
  {
    if attempted != [] {
      var n := |attempted| - 1;
      SuccessCount(attempted[..n], ok);
      assert attempted == attempted[..n] + [attempted[n]];
    }
  }

  lemma {:induction false} RotationsDiffer(order: seq<Container>, i: nat, j: nat)
    requires Distinct(order) && i <= j <= |order| && order != []
    ensures RotateLeft(order, i) == RotateLeft(order, j) <==> i == j || (i == 0 && j == |order|)
  {
    assert RotateLeft(order, i)[0] == order[Around(i, |order|)];
    assert RotateLeft(order, j)[0] == order[Around(j, |order|)];
  }

  /** What a cycle attempts. */
  function Attempted(s: Poll, reach: nat): seq<Container> {
    var order := RotateLeft(s.order, s.last);
    if reach < |order| then order[..reach] else order
  }

  /**
   The rotation goes by the fetches that succeeded.  After a cycle the next one starts where it
   stopped, that is, after everything it attempted, if and only if every attempted fetch
   succeeded, or it attempted everything and every fetch failed.
  */
  lemma {:induction false} ResumesIffNoneFailed(s: Poll, reach: nat, ok: Container -> bool)
    requires Distinct(RotateLeft(s.order, s.last)) && s.order != []
    ensures
      var attempted, after := Attempted(s, reach), Cycle(s, reach, ok);
      RotateLeft(after.order, after.last) == RotateLeft(after.order, |attempted|)
      <==> (forall x :: x in attempted ==> ok(x)) || (|attempted| == |s.order| && forall x :: x in attempted ==> !ok(x))
  {
    var order := RotateLeft(s.order, s.last);
    var attempted := Attempted(s, reach);
    SuccessCount(attempted, ok);
    RotationsDiffer(order, |Successes(attempted, ok)|, |attempted|);
  }

  /** The poll counts of any two containers stay within one of each other, however far the cycles reach. */
  ghost predicate AlwaysFair(base: seq<Container>, ok: Container -> bool) {
    forall reaches, a, b {:trigger PollCount(base, reaches, ok, a), PollCount(base, reaches, ok, b)} ::
      a in base && b in base ==> PollCount(base, reaches, ok, a) <= PollCount(base, reaches, ok, b) + 1
  }

  /** How often a container was polled. */
  function PollCount(base: seq<Container>, reaches: seq<nat>, ok: Container -> bool, x: Container): nat {
    multiset(Cycles(Poll(base, 0, []), reaches, ok).polled)[x]
  }

  lemma {:induction false} NeverPolled(base: seq<Container>, reaches: seq<nat>, ok: Container -> bool, x: Container)
    requires !ok(x)
    ensures PollCount(base, reaches, ok, x) == 0
  {
    if reaches != [] {
      var before := reaches[..|reaches| - 1];
      NeverPolled(base, before, ok, x);
      SuccessesAre(Attempted(Cycles(Poll(base, 0, []), before, ok), reaches[|reaches| - 1]), ok, x);
    }
  }

  lemma {:induction false} RotatedHasSame<T>(s: seq<T>, k: nat, x: T)
    ensures |RotateLeft(s, k)| == |s| && (x in RotateLeft(s, k) <==> x in s)
  {
    if s != [] {
      var p := Around(k, |s|);
      assert s == s[..p] + s[p..];
    }
  }

  lemma {:induction false} FullRoundPolls(s: Poll, ok: Container -> bool, x: Container)
    requires x in s.order && ok(x)
    ensures
      var after := Cycle(s, |s.order|, ok);
      |after.order| == |s.order| && x in after.order && multiset(after.polled)[x] >= multiset(s.polled)[x] + 1
  {
    RotatedHasSame(s.order, s.last, x);
    var results := Successes(Attempted(s, |s.order|), ok);
    SuccessesAre(Attempted(s, |s.order|), ok, x);
    assert multiset(results)[x] >= 1;
  }

  /** A container that answers is polled in every full round. */
  lemma {:induction false} FullRoundsPoll(base: seq<Container>, reaches: seq<nat>, ok: Container -> bool, x: Container)
    requires x in base && ok(x) && forall i :: 0 <= i < |reaches| ==> reaches[i] == |base|
    ensures
      var s := Cycles(Poll(base, 0, []), reaches, ok);
      |s.order| == |base| && x in s.order && multiset(s.polled)[x] >= |reaches|
  {
    if reaches != [] {
      var before := reaches[..|reaches| - 1];
      FullRoundsPoll(base, before, ok, x);
      FullRoundPolls(Cycles(Poll(base, 0, []), before, ok), ok, x);
    }
  }

  /**
   The promise of equal polling, exactly: poll counts always stay within one of each other if and
   only if every container answers, or none does.
  */
  lemma {:induction false} FairIffAllOrNoneAnswer(base: seq<Container>, ok: Container -> bool)
    requires Distinct(base)
    ensures AlwaysFair(base, ok) <==> (forall x :: x in base ==> ok(x)) || (forall x :: x in base ==> !ok(x))
  {
    if forall x :: x in base ==> ok(x) {
      forall reaches, a, b | a in base && b in base
        ensures PollCount(base, reaches, ok, a) <= PollCount(base, reaches, ok, b) + 1
      {
        RoundRobinIsFair(base, reaches, ok, a, b);
      }
    } else if forall x :: x in base ==> !ok(x) {
      forall reaches, a, b | a in base && b in base
        ensures PollCount(base, reaches, ok, a) <= PollCount(base, reaches, ok, b) + 1
      {
        NeverPolled(base, reaches, ok, a);
      }
    } else {
      var a :| a in base && ok(a);
      var b :| b in base && !ok(b);
      FullRoundsPoll(base, [|base|, |base|], ok, a);
      assert PollCount(base, [|base|, |base|], ok, a) >= 2;
      NeverPolled(base, [|base|, |base|], ok, b);
    }
  }

  function FailingCycles(s: Poll, count: nat, ok: Container -> bool): Poll {
    if count == 0 then s else Cycle(FailingCycles(s, count - 1, ok), 1, ok)
  }

  lemma {:induction false} FailingCycle(base: seq<Container>, ok: Container -> bool)
    requires base != [] && !ok(base[0])
    ensures Cycle(Poll(base, 0, []), 1, ok) == Poll(base, 0, [])
  {
    RotateByZero(base);
    var attempted := if 1 < |base| then base[..1] else base;
    assert attempted == [base[0]] && attempted[..0] == [];
    assert Successes(attempted, ok) == [];
  }

  /** With time for one fetch a cycle and a failing first container, no other is ever polled. */
  lemma {:induction false} OneFailureStarvesTheRest(base: seq<Container>, count: nat, ok: Container -> bool)
    requires base != [] && !ok(base[0])
    ensures FailingCycles(Poll(base, 0, []), count, ok) == Poll(base, 0, [])
  {
    if count > 0 {
      OneFailureStarvesTheRest(base, count - 1, ok);
      FailingCycle(base, ok);
    }
  }
}
