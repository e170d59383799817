/** Interleaved assigners, heartbeats and health checks: every lookup and every increment is a step of
    its own, so other steps may come between an assigner's lookup and its increment. */
module MatchmakerRuns {
  import opened Options
  import opened RegistryModel

  /** pending[a] is the node assigner a has looked up and not yet counted. */
  datatype State = State(nodes: Nodes, pending: seq<Option<string>>, now: int, lastCheck: int)

  datatype Event =
    | Operate(op: Operation)
    | Pick(assigner: nat, id: string)
    | Commit(assigner: nat)
    | Abandon(assigner: nat)
    | Wait(duration: int)

  /** interval is the period of the health check; a node times out after three of them. */
  ghost predicate Possible(s: State, e: Event, interval: int)
  {
    match e
    case Operate(op) => (op.Register? ==> op.capacity > 0) && (op.Check? ==> op.timeout == 3 * interval)
    case Pick(a, id) => a < |s.pending| && s.pending[a].None? && IsBest(s.nodes, id)
    case Commit(a) => a < |s.pending| && s.pending[a].Some?
    case Abandon(a) => a < |s.pending| && s.pending[a].Some?
    case Wait(duration) => duration >= 0 && s.now + duration <= s.lastCheck + interval
  }

  ghost function After(s: State, e: Event, interval: int): State
    requires Possible(s, e, interval)
  {
    match e
    case Operate(op) => s.(nodes := Operated(s.nodes, op, s.now), lastCheck := if op.Check? then s.now else s.lastCheck)
    case Pick(a, id) => s.(pending := s.pending[a := Some(id)])
    case Commit(a) => s.(nodes := Loaded(s.nodes, s.pending[a].value), pending := s.pending[a := None])
    case Abandon(a) => s.(pending := s.pending[a := None])
    case Wait(duration) => s.(now := s.now + duration)
  }

  ghost predicate IsStart(s: State)
  {
    s.nodes == map[] && (forall a :: 0 <= a < |s.pending| ==> s.pending[a] == None) && s.now == s.lastCheck
  }

  ghost predicate IsRun(states: seq<State>, events: seq<Event>, interval: int)
  {
    && |states| == |events| + 1
    && IsStart(states[0])
    && forall i :: 0 <= i < |events| ==>
      Possible(states[i], events[i], interval) && states[i + 1] == After(states[i], events[i], interval)
  }

  // ---- Over-assignment -----------------------------------------------------------------------

  /** The assigners that hold a lookup of the node. */
  ghost function Holders(pending: seq<Option<string>>, id: string): set<nat>
  {
    set a: nat | a < |pending| && pending[a] == Some(id)
  }

  lemma {:induction false} HoldersAreFew(pending: seq<Option<string>>, id: string)
    ensures |Holders(pending, id)| <= |pending|
  {
    if pending == [] {
      assert Holders(pending, id) == {};
    } else {
      var last := |pending| - 1;
      HoldersAreFew(pending[..last], id);
      assert Holders(pending, id) <= Holders(pending[..last], id) + {last};
      SubsetCard(Holders(pending, id), Holders(pending[..last], id) + {last});
    }
  }

  lemma SubsetCard(a: set<nat>, b: set<nat>)
    requires a <= b
    ensures |a| <= |b|
  {
    assert b == a + (b - a);
  }

  lemma HoldersAfterPick(pending: seq<Option<string>>, a: nat, id: string, k: string)
    requires a < |pending| && pending[a].None?
    ensures |Holders(pending[a := Some(id)], k)| == |Holders(pending, k)| + if k == id then 1 else 0
  {
    if k == id {
      assert Holders(pending[a := Some(id)], k) == Holders(pending, k) + {a};
    } else {
      assert Holders(pending[a := Some(id)], k) == Holders(pending, k);
    }
  }

  lemma HoldersAfterRelease(pending: seq<Option<string>>, a: nat, k: string)
    requires a < |pending| && pending[a].Some?
    ensures |Holders(pending[a := None], k)| == |Holders(pending, k)| - if pending[a].value == k then 1 else 0
  {
    if pending[a].value == k {
      assert Holders(pending[a := None], k) == Holders(pending, k) - {a};
    } else {
      assert Holders(pending[a := None], k) == Holders(pending, k);
    }
  }

  /** Load and looked-up places together exceed the capacity by at most slack. */
  ghost predicate WithinSlack(s: State, slack: int)
  {
    forall id :: id in s.nodes ==>
      s.nodes[id].capacity > 0 && s.nodes[id].currentLoad + |Holders(s.pending, id)| <= s.nodes[id].capacity + slack
  }

  predicate Beats(e: Event)
  {
    e.Operate? && e.op.Beat?
  }

  /** A heartbeat of a known node reports at most m players more than it has places. */
  predicate ReportsWithin(s: State, e: Event, m: int)
  {
    Beats(e) && e.op.id in s.nodes ==> e.op.load <= s.nodes[e.op.id].capacity + m
  }

  lemma EventKeepsSlack(s: State, e: Event, interval: int, slack: int)
    requires Possible(s, e, interval) && WithinSlack(s, slack)
    requires slack >= |s.pending| - 1 && ReportsWithin(s, e, slack - |s.pending|)
    requires |s.pending| > 0
    ensures WithinSlack(After(s, e, interval), slack) && |After(s, e, interval).pending| == |s.pending|
  {
    hide Holders;
    var t := After(s, e, interval);
    forall id | id in t.nodes
      ensures t.nodes[id].capacity > 0
      ensures t.nodes[id].currentLoad + |Holders(t.pending, id)| <= t.nodes[id].capacity + slack
    {
      HoldersAreFew(t.pending, id);
      match e
      case Pick(a, picked) => HoldersAfterPick(s.pending, a, picked, id);
      case Commit(a) => HoldersAfterRelease(s.pending, a, id);
      case Abandon(a) => HoldersAfterRelease(s.pending, a, id);
      case _ =>
    }
  }

  /** With K assigners in flight and no heartbeat reporting more than m players above capacity, no node
      is ever over-assigned by more than m + K, counting the lookups not yet added. Where there are no
      heartbeats at all, m is -1. */
  lemma {:induction false} OverAssignmentIsBounded(
      states: seq<State>, events: seq<Event>, interval: int, m: int, n: nat)
    requires IsRun(states, events, interval) && n < |states| && |states[0].pending| > 0 && m >= -1
    requires forall i :: 0 <= i < |events| ==> ReportsWithin(states[i], events[i], m)
    ensures |states[n].pending| == |states[0].pending|
    ensures WithinSlack(states[n], m + |states[0].pending|)
  {
    hide WithinSlack, After, Possible;
    if n == 0 {
      NothingRegistered(states[0], m + |states[0].pending|);
    } else {
      OverAssignmentIsBounded(states, events, interval, m, n - 1);
      EventKeepsSlack(states[n - 1], events[n - 1], interval, m + |states[0].pending|);
    }
  }

  lemma NothingRegistered(s: State, slack: int)
    requires s.nodes == map[]
    ensures WithinSlack(s, slack)
  {
  }

  /** k assigners, the first m of them with the one value and the rest with the other. */
  function Split(k: nat, m: nat, first: Option<string>, rest: Option<string>): seq<Option<string>>
  {
    seq(k, a => if a < m then first else rest)
  }

  lemma RunGrows(states: seq<State>, events: seq<Event>, interval: int, e: Event)
    requires IsRun(states, events, interval) && Possible(states[|events|], e, interval)
    ensures IsRun(states + [After(states[|events|], e, interval)], events + [e], interval)
  {
  }

  lemma AllLookUp(interval: int, k: nat) returns (states: seq<State>, events: seq<Event>)
    ensures IsRun(states, events, interval)
    ensures states[0].pending == Split(k, k, None, None)
    ensures states[|events|] == State(OneNode(0, 0), Split(k, k, Some("n"), None), 0, 0)
    ensures forall i :: 0 <= i < |events| ==> !Beats(events[i])
  {
    hide IsRun;
    var start := State(map[], Split(k, k, None, None), 0, 0);
    states, events := [start], [];
    assert IsRun(states, events, interval) by {
      EmptyRun(start, interval);
    }
    var e := Operate(Register("n", "host", 1));
    RunGrows(states, events, interval, e);
    states, events := states + [After(start, e, interval)], events + [e];
    for m := 0 to k
      invariant IsRun(states, events, interval) && |states| == |events| + 1
      invariant states[0].pending == Split(k, k, None, None)
      invariant states[|events|] == State(OneNode(0, 0), Split(k, m, Some("n"), None), 0, 0)
      invariant forall i :: 0 <= i < |events| ==> !Beats(events[i])
    {
      var s := states[|events|];
      e := Pick(m, "n");
      RunGrows(states, events, interval, e);
      states, events := states + [After(s, e, interval)], events + [e];
    }
  }

  lemma EmptyRun(start: State, interval: int)
    requires IsStart(start)
    ensures IsRun([start], [], interval)
  {
  }

  lemma AllCommit(states0: seq<State>, events0: seq<Event>, interval: int, k: nat, load: int)
    returns (states: seq<State>, events: seq<Event>)
    requires IsRun(states0, events0, interval)
    requires states0[|events0|] == State(OneNode(load, 0), Split(k, k, Some("n"), None), 0, 0)
    ensures IsRun(states, events, interval) && states0 <= states && events0 <= events
    ensures states[|events|].nodes == OneNode(load + k, 0)
    ensures forall i :: |events0| <= i < |events| ==> !Beats(events[i])
  {
    hide IsRun;
    states, events := states0, events0;
    LengthOfRun(states, events, interval);
    assert Split(k, 0, None, Some("n")) == Split(k, k, Some("n"), None);
    for m := 0 to k
      invariant IsRun(states, events, interval) && |states| == |events| + 1
      invariant states0 <= states && events0 <= events
      invariant states[|events|] == State(OneNode(load + m, 0), Split(k, m, None, Some("n")), 0, 0)
      invariant forall i :: |events0| <= i < |events| ==> !Beats(events[i])
    {
      var s := states[|events|];
      var e := Commit(m);
      RunGrows(states, events, interval, e);
      states, events := states + [After(s, e, interval)], events + [e];
    }
  }

  lemma LengthOfRun(states: seq<State>, events: seq<Event>, interval: int)
    requires IsRun(states, events, interval)
    ensures |states| == |events| + 1
  {
  }

  /** The bound is reached for every m and K: all look up the last free place before any of them counts
      it, and in between a heartbeat reports m players above capacity, or nobody reports if m is -1. */
  lemma OverAssignmentIsReached(interval: int, k: nat, m: int) returns (states: seq<State>, events: seq<Event>)
    requires k > 0 && m >= -1
    ensures IsRun(states, events, interval) && |states[0].pending| == k
    ensures forall i :: 0 <= i < |events| ==> ReportsWithin(states[i], events[i], m) && (Beats(events[i]) ==> m >= 0)
    ensures
      var n := states[|events|].nodes;
      "n" in n && n["n"].currentLoad == n["n"].capacity + m + k
  {
    hide IsRun;
    states, events := AllLookUp(interval, k);
    LengthOfRun(states, events, interval);
    if m >= 0 {
      var e := Operate(Beat("n", 1 + m));
      RunGrows(states, events, interval, e);
      states, events := states + [After(states[|events|], e, interval)], events + [e];
    }
    states, events := AllCommit(states, events, interval, k, 1 + m);
  }

  // ---- Freshness -----------------------------------------------------------------------------

  /** The last check is at most one interval ago, and healthy nodes had not timed out by then. */
  ghost predicate Fresh(s: State, interval: int)
  {
    && s.lastCheck <= s.now <= s.lastCheck + interval
    && forall id :: id in s.nodes ==>
      s.nodes[id].lastSeen <= s.now &&
      (s.nodes[id].healthy ==> s.lastCheck - s.nodes[id].lastSeen <= 3 * interval)
  }

  lemma EventKeepsFresh(s: State, e: Event, interval: int)
    requires interval >= 0 && Possible(s, e, interval) && Fresh(s, interval)
    ensures Fresh(After(s, e, interval), interval)
  {
  }

  lemma {:induction false} EveryStateIsFresh(states: seq<State>, events: seq<Event>, interval: int, n: nat)
    requires interval >= 0 && IsRun(states, events, interval) && n < |states|
    ensures Fresh(states[n], interval)
  {
    hide After, Possible;
    if n > 0 {
      EveryStateIsFresh(states, events, interval, n - 1);
      EventKeepsFresh(states[n - 1], events[n - 1], interval);
    }
  }

  /** No lookup in any run returns a node that has been silent for more than four intervals. */
  lemma PicksAreFresh(states: seq<State>, events: seq<Event>, interval: int, n: nat)
    requires interval >= 0 && IsRun(states, events, interval) && n < |events| && events[n].Pick?
    ensures
      var s, id := states[n], events[n].id;
      id in s.nodes && s.now - s.nodes[id].lastSeen <= 4 * interval
  {
    EveryStateIsFresh(states, events, interval, n);
    assert Possible(states[n], events[n], interval);
  }

  /** The bound is exact: a node heard of only once can still be picked four intervals later. */
  lemma SilenceOfFourIntervalsIsReached(interval: int) returns (states: seq<State>, events: seq<Event>)
    requires interval > 0
    ensures IsRun(states, events, interval) && |events| > 0
    ensures
      var last := |events| - 1;
      && events[last] == Pick(0, "n")
      && "n" in states[last].nodes && states[last].now - states[last].nodes["n"].lastSeen == 4 * interval
  {
    hide IsRun;
    var start := State(map[], [None], 0, 0);
    EmptyRun(start, interval);
    states, events := [start], [];
    var e := Operate(Register("n", "host", 1));
    RunGrows(states, events, interval, e);
    states, events := states + [After(start, e, interval)], events + [e];
    for i := 0 to 3
      invariant IsRun(states, events, interval) && |states| == |events| + 1
      invariant states[|events|] == State(OneNode(0, 0), [None], i * interval, i * interval)
    {
      var s := states[|events|];
      e := Wait(interval);
      RunGrows(states, events, interval, e);
      var waited := After(s, e, interval);
      states, events := states + [waited], events + [e];
      var check := Check(3 * interval);
      assert CheckedNode(OneNode(0, 0)["n"], waited.now, 3 * interval) == OneNode(0, 0)["n"];
      RunGrows(states, events, interval, Operate(check));
      states, events := states + [After(waited, Operate(check), interval)], events + [Operate(check)];
    }
    var s := states[|events|];
    e := Wait(interval);
    RunGrows(states, events, interval, e);
    states, events := states + [After(s, e, interval)], events + [e];
    s := states[|events|];
    RunGrows(states, events, interval, Pick(0, "n"));
    states, events := states + [After(s, Pick(0, "n"), interval)], events + [Pick(0, "n")];
  }

  predicate Drains(e: Event, id: string)
  {
    e.Operate? && e.op == Drain(id)
  }

  predicate Registers(e: Event, id: string)
  {
    e.Operate? && e.op.Register? && e.op.id == id
  }

  /** Once told to drain, a node is not looked up again before it re-registers, heartbeats or not. */
  lemma {:induction false} DrainingIsNeverPicked(
      states: seq<State>, events: seq<Event>, interval: int, m: nat, n: nat, id: string)
    requires IsRun(states, events, interval) && m < n < |states| && Drains(events[m], id)
    requires forall i :: m < i < n ==> !Registers(events[i], id)
    ensures id !in states[n].nodes || states[n].nodes[id].draining
    ensures n < |events| ==> !(events[n].Pick? && events[n].id == id)
    decreases n - m
  {
    if m < n - 1 {
      DrainingIsNeverPicked(states, events, interval, m, n - 1, id);
    }
    assert Possible(states[n - 1], events[n - 1], interval);
    assert states[n] == After(states[n - 1], events[n - 1], interval);
    if n < |events| {
      assert Possible(states[n], events[n], interval);
    }
  }

  // ---- Revival -------------------------------------------------------------------------------------

  /** In any run a heartbeat of a known node leaves it fit for a lookup exactly if it is not draining and
      reports room, however long it was silent before. */
  lemma HeartbeatRevivesInRuns(states: seq<State>, events: seq<Event>, interval: int, n: nat)
    requires IsRun(states, events, interval) && n < |events| && Beats(events[n]) && events[n].op.id in states[n].nodes
    ensures
      var id, before := events[n].op.id, states[n].nodes;
      && id in states[n + 1].nodes
      && (Suitable(states[n + 1].nodes[id]) <==> !before[id].draining && events[n].op.load < before[id].capacity)
      && states[n + 1].nodes[id].lastSeen == states[n].now
  {
    HeartbeatRevives(states[n].nodes, events[n].op.id, events[n].op.load, states[n].now);
    assert Possible(states[n], events[n], interval);
  }

  /** A run in which a node falls silent, is found unhealthy, so that no lookup is possible, reports again
      and is picked. */
  lemma SilentNodeIsPickedAgain(interval: int) returns (states: seq<State>, events: seq<Event>)
    requires interval > 0
    ensures IsRun(states, events, interval) && |events| > 2
    ensures
      var last := |events| - 1;
      && events[last - 1] == Operate(Beat("n", 0)) && events[last] == Pick(0, "n")
      && "n" in states[last - 1].nodes && !states[last - 1].nodes["n"].healthy
      && !Possible(states[last - 1], Pick(0, "n"), interval)
  {
    hide IsRun;
    var start := State(map[], [None], 0, 0);
    EmptyRun(start, interval);
    states, events := [start], [];
    var e := Operate(Register("n", "host", 1));
    RunGrows(states, events, interval, e);
    states, events := states + [After(start, e, interval)], events + [e];
    var check := Operate(Check(3 * interval));
    for i := 0 to 4
      invariant IsRun(states, events, interval) && |states| == |events| + 1 > 1
      invariant states[|events|].pending == [None] && states[|events|].now == states[|events|].lastCheck == i * interval
      invariant states[|events|].nodes == OneNode(0, 0)["n" := OneNode(0, 0)["n"].(healthy := i < 4)]
    {
      var s := states[|events|];
      e := Wait(interval);
      RunGrows(states, events, interval, e);
      var waited := After(s, e, interval);
      states, events := states + [waited], events + [e];
      RunGrows(states, events, interval, check);
      states, events := states + [After(waited, check, interval)], events + [check];
    }
    var s := states[|events|];
    e := Operate(Beat("n", 0));
    RunGrows(states, events, interval, e);
    states, events := states + [After(s, e, interval)], events + [e];
    s := states[|events|];
    RunGrows(states, events, interval, Pick(0, "n"));
    states, events := states + [After(s, Pick(0, "n"), interval)], events + [Pick(0, "n")];
  }
}
