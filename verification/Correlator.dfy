/**
 The same-system correlator: one group per system, begun by a leader and joined by whatever
 comes within the window, pruned at every check.
*/
module Correlator {
  import opened Wrappers

  /** Event ids and correlation ids, which share a space: with correlation off an event is its own group. */
  type Id(==, !new)
  type System(==, !new)

  datatype Event = Event(id: Id, system: System)

  datatype Group = Group(leaderId: Id, correlationId: Id, windowStart: int, count: int)

  type Groups = map<System, Group>

  /** `leaderId` is None for a leader. */
  datatype Answer = Answer(leaderId: Option<Id>, correlationId: Id)

  /** The clock as one check reads it, and the id drawn for a new group should there be one. */
  datatype Draw = Draw(pruneAt: int, now: int, freshId: Id)

  function PruneGroups(window: int, groups: Groups, now: int): Groups {
    if window <= 0 then groups
    else map s | s in groups && now - groups[s].windowStart <= window :: groups[s]
  }

  /** What happens once the prune is behind. */
  function Join(window: int, groups: Groups, e: Event, d: Draw): (Groups, Answer) {
    if window <= 0 then (groups, Answer(None, e.id))
    else if e.system !in groups || d.now - groups[e.system].windowStart > window then
      (groups[e.system := Group(e.id, d.freshId, d.now, 1)], Answer(None, d.freshId))
    else
      var g := groups[e.system];
      (groups[e.system := g.(count := g.count + 1)], Answer(Some(g.leaderId), g.correlationId))
  }

  function Check(window: int, groups: Groups, e: Event, d: Draw): (Groups, Answer) {
    Join(window, PruneGroups(window, groups, d.pruneAt), e, d)
  }

  class EventCorrelator {
    const window: int
    var groups: Groups

    constructor (window: int)
      ensures this.window == window && groups == map[]
    {
      this.window := window;
      groups := map[];
    }

    method PruneExpired(now: int)
      modifies this
      ensures groups == PruneGroups(window, old(groups), now)
    {
      if window <= 0 {
        return;
      }
      var expired := set s | s in groups && now - groups[s].windowStart > window;
      groups := groups - expired;
    }

    method CheckEvent(e: Event, d: Draw) returns (answer: Answer)
      modifies this
      ensures (groups, answer) == Check(window, old(groups), e, d)
    {
      PruneExpired(d.pruneAt);
      if window <= 0 {
        return Answer(None, e.id);
      }
      if e.system !in groups || d.now - groups[e.system].windowStart > window {
        groups := groups[e.system := Group(e.id, d.freshId, d.now, 1)];
        return Answer(None, d.freshId);
      }
      var g := groups[e.system];
      groups := groups[e.system := Group(g.leaderId, g.correlationId, g.windowStart, g.count + 1)];
      answer := Answer(Some(g.leaderId), g.correlationId);
    }
  }

  // ----- Runs -----

  datatype Checked = Checked(event: Event, draw: Draw, answer: Answer)

  datatype Input = Input(event: Event, draw: Draw)

  datatype Trace = Trace(groups: Groups, log: seq<Checked>)

  function Step(window: int, prunes: bool, t: Trace, i: Input): Trace {
    var (g, a) := if prunes then Check(window, t.groups, i.event, i.draw) else Join(window, t.groups, i.event, i.draw);
    Trace(g, t.log + [Checked(i.event, i.draw, a)])
  }

  function Run(window: int, prunes: bool, inputs: seq<Input>): Trace {
    if inputs == [] then Trace(map[], [])
    else Step(window, prunes, Run(window, prunes, inputs[..|inputs| - 1]), inputs[|inputs| - 1])
  }

  function ClockAfter(start: int, inputs: seq<Input>): int {
    if inputs == [] then start else inputs[|inputs| - 1].draw.now
  }

  predicate Monotonic(start: int, inputs: seq<Input>) {
    inputs == [] ||
    (&& Monotonic(start, inputs[..|inputs| - 1])
     && ClockAfter(start, inputs[..|inputs| - 1]) <= inputs[|inputs| - 1].draw.pruneAt <= inputs[|inputs| - 1].draw.now)
  }

  // ----- Pruning is invisible -----

  ghost predicate Agrees(window: int, pruned: Groups, full: Groups, now: int) {
    && (forall s :: s in pruned ==> s in full && full[s] == pruned[s])
    && (forall s :: s in full && s !in pruned ==> now - full[s].windowStart > window)
  }

  lemma {:induction false} CheckAgrees(window: int, pruned: Groups, full: Groups, now: int, e: Event, d: Draw)
    requires Agrees(window, pruned, full, now) && now <= d.pruneAt <= d.now
    ensures Check(window, pruned, e, d).1 == Join(window, full, e, d).1
    ensures Agrees(window, Check(window, pruned, e, d).0, Join(window, full, e, d).0, d.now)
  {
    assert Agrees(window, PruneGroups(window, pruned, d.pruneAt), full, d.pruneAt);
  }

  /** The correlator answers as if it never pruned. */
  lemma {:induction false} PruningIsInvisible(window: int, start: int, inputs: seq<Input>)
    requires Monotonic(start, inputs)
    ensures
      var pruned, full := Run(window, true, inputs), Run(window, false, inputs);
      pruned.log == full.log && Agrees(window, pruned.groups, full.groups, ClockAfter(start, inputs))
  {
    if inputs != [] {
      var before, i := inputs[..|inputs| - 1], inputs[|inputs| - 1];
      PruningIsInvisible(window, start, before);
      CheckAgrees(window, Run(window, true, before).groups, Run(window, false, before).groups,
        ClockAfter(start, before), i.event, i.draw);
    }
  }

  // ----- What the answers mean -----

  /** The i-th check made a leader for its system. */
  ghost predicate Leads(log: seq<Checked>, i: nat, system: System)
    requires i < |log|
  {
    log[i].answer.leaderId == None && log[i].event.system == system
  }

  /** The j-th check came within the window of the i-th, which led the same system. */
  ghost predicate Covers(window: int, log: seq<Checked>, i: nat, j: nat)
    requires i < j < |log|
  {
    Leads(log, i, log[j].event.system) && log[j].draw.now - log[i].draw.now <= window
  }

  /**
   An event is correlated exactly if some earlier leader of its system covers it, and then it
   names one that does, with that one's correlation id.
  */
  ghost predicate CorrelatedIffCovered(window: int, log: seq<Checked>, j: nat)
    requires j < |log|
  {
    && (log[j].answer.leaderId.Some? <==> exists i :: 0 <= i < j && Covers(window, log, i, j))
    && (log[j].answer.leaderId.Some? ==> exists i :: 0 <= i < j && Covers(window, log, i, j) && Names(log, i, j))
  }

  ghost predicate Names(log: seq<Checked>, i: nat, j: nat)
    requires i < j < |log|
  {
    log[j].answer == Answer(Some(log[i].event.id), log[i].answer.correlationId)
  }

  /** Two leaders of one system are more than the window apart. */
  ghost predicate LeadersApart(window: int, log: seq<Checked>) {
    forall i, j, s :: 0 <= i < j < |log| && Leads(log, i, s) && Leads(log, j, s) ==> log[j].draw.now - log[i].draw.now > window
  }

  /** How many events were given this correlation id. */
  function Given(log: seq<Checked>, id: Id): nat {
    if log == [] then 0
    else Given(log[..|log| - 1], id) + if log[|log| - 1].answer.correlationId == id then 1 else 0
  }

  /** Every group kept is the one begun by the latest leader of its system. */
  ghost predicate GroupIsLatest(groups: Groups, log: seq<Checked>, now: int, s: System)
    requires s in groups
  {
    && groups[s].windowStart <= now
    && (exists i :: 0 <= i < |log| && Leads(log, i, s) && IsGroupOf(groups[s], log[i]))
    && (forall i :: 0 <= i < |log| && Leads(log, i, s) ==> log[i].draw.now <= groups[s].windowStart)
  }

  ghost predicate IsGroupOf(g: Group, c: Checked) {
    g.leaderId == c.event.id && g.correlationId == c.answer.correlationId && g.windowStart == c.draw.now
  }

  ghost predicate GroupsAreLatest(t: Trace, now: int) {
    && (forall s :: s in t.groups ==> GroupIsLatest(t.groups, t.log, now, s))
    && (forall i :: 0 <= i < |t.log| && t.log[i].answer.leaderId == None ==> t.log[i].event.system in t.groups)
  }

  lemma {:induction false} LatestStays(window: int, t: Trace, now: int, i: Input)
    requires window > 0 && now <= i.draw.now && GroupsAreLatest(t, now)
    ensures GroupsAreLatest(Step(window, false, t, i), i.draw.now)
  {
    var n := Step(window, false, t, i);
    var last := |t.log|;
    forall s | s in n.groups
      ensures GroupIsLatest(n.groups, n.log, i.draw.now, s)
    {
      if s == i.event.system && n.log[last].answer.leaderId == None {
        assert Leads(n.log, last, s) && IsGroupOf(n.groups[s], n.log[last]);
        assert forall k :: 0 <= k < last && Leads(n.log, k, s) ==> Leads(t.log, k, s);
        if s in t.groups {
          assert GroupIsLatest(t.groups, t.log, now, s);
        }
      } else {
        assert GroupIsLatest(t.groups, t.log, now, s);
        var k :| 0 <= k < |t.log| && Leads(t.log, k, s) && IsGroupOf(t.groups[s], t.log[k]);
        assert Leads(n.log, k, s) && IsGroupOf(n.groups[s], n.log[k]);
        assert forall l :: 0 <= l < last && Leads(n.log, l, s) ==> Leads(t.log, l, s);
      }
    }
  }

  lemma {:induction false} LastIsCorrelatedIffCovered(window: int, t: Trace, now: int, i: Input)
    requires window > 0 && now <= i.draw.now && GroupsAreLatest(t, now)
    ensures CorrelatedIffCovered(window, Step(window, false, t, i).log, |t.log|)
  {
    var n := Step(window, false, t, i);
    var j, s := |t.log|, i.event.system;
    if s in t.groups {
      assert GroupIsLatest(t.groups, t.log, now, s);
      var k :| 0 <= k < |t.log| && Leads(t.log, k, s) && IsGroupOf(t.groups[s], t.log[k]);
      assert Leads(n.log, k, s);
      if n.log[j].answer.leaderId.Some? {
        assert Covers(window, n.log, k, j) && Names(n.log, k, j);
      }
    }
    if k :| 0 <= k < j && Covers(window, n.log, k, j) {
      assert Leads(t.log, k, s);
    }
  }

  lemma {:induction false} ApartStays(window: int, t: Trace, now: int, i: Input)
    requires window > 0 && now <= i.draw.now && GroupsAreLatest(t, now) && LeadersApart(window, t.log)
    ensures LeadersApart(window, Step(window, false, t, i).log)
  {
    var n := Step(window, false, t, i);
    forall k, l, s | 0 <= k < l < |n.log| && Leads(n.log, k, s) && Leads(n.log, l, s)
      ensures n.log[l].draw.now - n.log[k].draw.now > window
    {
      assert Leads(t.log, k, s);
      if l < |t.log| {
        assert Leads(t.log, l, s);
      }
    }
  }

  lemma {:induction false} EarlierStays(window: int, log: seq<Checked>, c: Checked, j: nat)
    requires j < |log| && CorrelatedIffCovered(window, log, j)
    ensures CorrelatedIffCovered(window, log + [c], j)
  {
    var n := log + [c];
    assert forall i :: 0 <= i < j ==> (Covers(window, n, i, j) <==> Covers(window, log, i, j));
    assert forall i :: 0 <= i < j ==> (Names(n, i, j) <==> Names(log, i, j));
  }

  ghost predicate Correlates(window: int, t: Trace, now: int) {
    && GroupsAreLatest(t, now)
    && LeadersApart(window, t.log)
    && forall j :: 0 <= j < |t.log| ==> CorrelatedIffCovered(window, t.log, j)
  }

  lemma {:induction false} AllStayCorrelated(window: int, t: Trace, now: int, i: Input, j: nat)
    requires window > 0 && now <= i.draw.now && GroupsAreLatest(t, now) && j <= |t.log|
    requires j < |t.log| ==> CorrelatedIffCovered(window, t.log, j)
    ensures CorrelatedIffCovered(window, Step(window, false, t, i).log, j)
  {
    if j < |t.log| {
      EarlierStays(window, t.log, Step(window, false, t, i).log[|t.log|], j);
    } else {
      LastIsCorrelatedIffCovered(window, t, now, i);
    }
  }

  lemma {:induction false} StepCorrelates(window: int, t: Trace, now: int, i: Input)
    requires window > 0 && now <= i.draw.now && Correlates(window, t, now)
    ensures Correlates(window, Step(window, false, t, i), i.draw.now)
  {
    assert GroupsAreLatest(Step(window, false, t, i), i.draw.now) by { LatestStays(window, t, now, i); }
    assert LeadersApart(window, Step(window, false, t, i).log) by { ApartStays(window, t, now, i); }
    forall j | 0 <= j < |Step(window, false, t, i).log|
      ensures CorrelatedIffCovered(window, Step(window, false, t, i).log, j)
    {
      AllStayCorrelated(window, t, now, i, j);
    }
  }

  lemma {:induction false} FullCorrelation(window: int, start: int, inputs: seq<Input>)
    requires window > 0 && Monotonic(start, inputs)
    ensures Correlates(window, Run(window, false, inputs), ClockAfter(start, inputs))
  {
    if inputs != [] {
      var before := inputs[..|inputs| - 1];
      FullCorrelation(window, start, before);
      StepCorrelates(window, Run(window, false, before), ClockAfter(start, before), inputs[|inputs| - 1]);
    }
  }

  /** The promise of the correlation window, for the correlator as it is, pruning included. */
  lemma {:induction false} CorrelationWindowHolds(window: int, start: int, inputs: seq<Input>)
    requires window > 0 && Monotonic(start, inputs)
    ensures
      var log := Run(window, true, inputs).log;
      LeadersApart(window, log) && forall j :: 0 <= j < |log| ==> CorrelatedIffCovered(window, log, j)
  {
    PruningIsInvisible(window, start, inputs);
    FullCorrelation(window, start, inputs);
  }

  // ----- Counts -----

  /** The ids drawn for groups, used or not. */
  function Drawn(inputs: seq<Input>): set<Id> {
    if inputs == [] then {} else Drawn(inputs[..|inputs| - 1]) + {inputs[|inputs| - 1].draw.freshId}
  }

  /** They are new each time. */
  predicate FreshIds(inputs: seq<Input>) {
    inputs == [] || (FreshIds(inputs[..|inputs| - 1]) && inputs[|inputs| - 1].draw.freshId !in Drawn(inputs[..|inputs| - 1]))
  }

  /** Each group's count is the number of events given its id, and groups have ids of their own, drawn earlier. */
  ghost predicate CountsExact(t: Trace, drawn: set<Id>) {
    && (forall s :: s in t.groups ==> t.groups[s].count == Given(t.log, t.groups[s].correlationId))
    && (forall s :: s in t.groups ==> t.groups[s].correlationId in drawn)
    && (forall s, u :: s in t.groups && u in t.groups && s != u ==> t.groups[s].correlationId != t.groups[u].correlationId)
    && (forall id :: id !in drawn ==> Given(t.log, id) == 0)
  }

  lemma {:induction false} StepKeepsCounts(window: int, prunes: bool, t: Trace, i: Input, drawn: set<Id>)
    requires window > 0 && CountsExact(t, drawn) && i.draw.freshId !in drawn
    ensures CountsExact(Step(window, prunes, t, i), drawn + {i.draw.freshId})
  {
    var n := Step(window, prunes, t, i);
    assert n.log[..|t.log|] == t.log;
    forall id
      ensures Given(n.log, id) == Given(t.log, id) + if n.log[|t.log|].answer.correlationId == id then 1 else 0
    {
    }
  }

  lemma {:induction false} CountsAreGiven(window: int, prunes: bool, inputs: seq<Input>)
    requires window > 0 && FreshIds(inputs)
    ensures CountsExact(Run(window, prunes, inputs), Drawn(inputs))
  {
    if inputs != [] {
      var before := inputs[..|inputs| - 1];
      CountsAreGiven(window, prunes, before);
      StepKeepsCounts(window, prunes, Run(window, prunes, before), inputs[|inputs| - 1], Drawn(before));
    }
  }

  // ----- Leaders and the prune -----

  /** The log has the inputs in order; with a window a leader's group has the id drawn for it, and without one every event is alone under its own. */
  lemma {:induction false} LeadersDraw(window: int, prunes: bool, inputs: seq<Input>)
    ensures
      var log := Run(window, prunes, inputs).log;
      && |log| == |inputs|
      && (forall j :: 0 <= j < |log| ==> log[j].event == inputs[j].event && log[j].draw == inputs[j].draw)
      && (forall j :: 0 <= j < |log| && window > 0 && log[j].answer.leaderId == None ==> log[j].answer.correlationId == inputs[j].draw.freshId)
      && (forall j :: 0 <= j < |log| && window <= 0 ==> log[j].answer == Answer(None, inputs[j].event.id))
  {
    if inputs != [] {
      LeadersDraw(window, prunes, inputs[..|inputs| - 1]);
    }
  }

  /** The groups kept are those of a correlator that never prunes, without the ones past the window at the last check, its own system's apart. */
  ghost predicate KeptExactly(window: int, pruned: Groups, full: Groups, last: Input) {
    forall s :: s in pruned <==> s in full && (s == last.event.system || last.draw.pruneAt - full[s].windowStart <= window)
  }

  lemma {:induction false} CheckKeepsExactly(window: int, pruned: Groups, full: Groups, last: Option<Input>, now: int, i: Input)
    requires window > 0 && Agrees(window, pruned, full, now) && now <= i.draw.pruneAt <= i.draw.now
    requires if last.None? then full == map[] else KeptExactly(window, pruned, full, last.value) && last.value.draw.pruneAt <= now
    ensures KeptExactly(window, Check(window, pruned, i.event, i.draw).0, Join(window, full, i.event, i.draw).0, i)
  {
    var kept := PruneGroups(window, pruned, i.draw.pruneAt);
    forall s
      ensures s in kept <==> s in full && i.draw.pruneAt - full[s].windowStart <= window
    {
    }
  }

  lemma {:induction false} PruneKeepsExactly(window: int, start: int, inputs: seq<Input>)
    requires window > 0 && Monotonic(start, inputs) && inputs != []
    ensures KeptExactly(window, Run(window, true, inputs).groups, Run(window, false, inputs).groups, inputs[|inputs| - 1])
  {
    var before, i := inputs[..|inputs| - 1], inputs[|inputs| - 1];
    PruningIsInvisible(window, start, before);
    if before != [] {
      PruneKeepsExactly(window, start, before);
    }
    CheckKeepsExactly(window, Run(window, true, before).groups, Run(window, false, before).groups,
      if before == [] then None else Some(before[|before| - 1]), ClockAfter(start, before), i);
  }
}
