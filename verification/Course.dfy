/** Where snakes are headed over whole runs: which ticks turn a snake back over its own last step. */
module Course {
  import opened Geometry
  import opened SnakeModel
  import opened SnakeInvariant
  import opened FoodModel
  import opened Elimination
  import opened GameModel
  import opened Steering

  /** Bodies, directions, flags and recorded moves are the same, and nobody comes to life. */
  ghost predicate SameCourse(s: Roster, t: Roster)
  {
    && t.Keys == s.Keys
    && forall id :: id in s ==>
      && t[id].segments == s[id].segments && t[id].direction == s[id].direction
      && t[id].boosting == s[id].boosting && t[id].past.boosted == s[id].past.boosted
      && t[id].past.moves == s[id].past.moves
      && (t[id].alive ==> s[id].alive)
  }

  lemma {:induction false} EatingKeepsCourse(t: Table, order: seq<string>)
    requires forall i :: 0 <= i < |order| ==> order[i] in t.snakes
    ensures SameCourse(t.snakes, EatAll(t, order).snakes)
  {
    hide Gain, Consumed;
    if order != [] {
      EatingKeepsCourse(t, order[..|order| - 1]);
    }
  }

  lemma CheckingKeepsCourse(snakes: Roster, w: real, h: real)
    ensures SameCourse(snakes, CheckAll(snakes, w, h))
  {
    hide HitsWall, HitsSelf;
  }

  lemma RowKeepsCourse(snakes: Roster, ids: seq<string>, n: nat)
    requires Listed(snakes, ids) && n < |ids|
    ensures SameCourse(snakes, RowAfter(snakes, ids, n, |ids|))
  {
    hide Collides, Killer;
  }

  lemma {:induction false} ScanKeepsCourse(snakes: Roster, ids: seq<string>, n: nat)
    requires Listed(snakes, ids) && n <= |ids|
    ensures SameCourse(snakes, Rows(snakes, ids, n))
  {
    hide RowAfter;
    if n > 0 {
      ScanKeepsCourse(snakes, ids, n - 1);
      RowKeepsCourse(Rows(snakes, ids, n - 1), ids, n - 1);
    }
  }

  lemma TickKeepsCourse(g: GameState, c: Choices)
    requires Fits(g, c)
    ensures SameCourse(Moved(g), Ticked(g, c).snakes)
  {
    hide Moved, EatAll, CheckAll, Rows, Littered, SpawnedAll;
    EatingKeepsCourse(Table(Moved(g), g.food), c.eating);
    CheckingKeepsCourse(AfterMeal(g, c).snakes, g.arenaW, g.arenaH);
    ScanKeepsCourse(Checked(g, c), c.scanning, |c.scanning|);
  }

  // ---- Directions between ticks ----------------------------------------------------------------

  ghost predicate AllFacing(snakes: Roster)
  {
    forall id :: id in snakes && snakes[id].alive ==> Facing(snakes[id])
  }

  /** What a tick does to a living snake's direction and record, and that the dead stay dead. */
  lemma StepIsRecorded(g: GameState, id: string)
    requires id in g.snakes
    ensures Moved(g)[id].alive == g.snakes[id].alive
    ensures
      var s, t := g.snakes[id], Moved(g)[id];
      s.alive ==>
        && t.direction == SteerAll(g.snakes, g.inputs)[id].direction
        && |t.past.moves| == |s.past.moves| + 1 && t.past.moves[1..] == s.past.moves
        && t.past.moves[0].dir == t.direction
  {
    InputProjection(g.snakes, g.inputs, id);
    SteeringIsOnlySteering(g.snakes[id], Own(g.inputs, id));
    hide SteerAll, NextHead, NextMove;
    OneStepIsRecorded(SteerAll(g.snakes, g.inputs)[id]);
  }

  lemma OneStepIsRecorded(s: SnakeState)
    ensures Advanced(s).alive == s.alive
    ensures s.alive ==>
      && Advanced(s).direction == s.direction
      && |Advanced(s).past.moves| == |s.past.moves| + 1 && Advanced(s).past.moves[1..] == s.past.moves
      && Advanced(s).past.moves[0].dir == s.direction
  {
  }

  lemma TickKeepsFacing(g: GameState, c: Choices)
    requires Fits(g, c) && AllFacing(g.snakes)
    ensures AllFacing(Ticked(g, c).snakes)
  {
    hide Moved, Ticked, Fits, SteerAll, LastHeading, DetourAndBack;
    TickKeepsCourse(g, c);
    forall id | id in g.snakes && g.snakes[id].alive
      ensures Facing(Moved(g)[id])
    {
      StepIsRecorded(g, id);
      TickReversesExactlyByDetour(g.snakes, g.inputs, id);
    }
    forall id | id in g.snakes && Ticked(g, c).snakes[id].alive
      ensures Facing(Ticked(g, c).snakes[id])
    {
      StepIsRecorded(g, id);
    }
  }

  lemma EventKeepsFacing(g: GameState, e: Event)
    requires Possible(g, e) && AllFacing(g.snakes)
    ensures AllFacing(After(g, e).snakes)
  {
    hide Ticked, Fits, RandomSpot;
    if e.Tick? {
      TickKeepsFacing(g, e.choices);
    }
  }

  lemma {:induction false} EveryoneFaces(states: seq<GameState>, events: seq<Event>, n: nat)
    requires IsRun(states, events) && IsStart(states[0]) && n < |states|
    ensures AllFacing(states[n].snakes)
  {
    hide Possible, After, AllFacing;
    if n == 0 {
      NobodyFaces(states[0].snakes);
    } else {
      EveryoneFaces(states, events, n - 1);
      EventKeepsFacing(states[n - 1], events[n - 1]);
    }
  }

  lemma NobodyFaces(snakes: Roster)
    requires snakes == map[]
    ensures AllFacing(snakes)
  {
  }

  // ---- Turning back ------------------------------------------------------------------------------

  /** The newest move goes against the last one before it that went anywhere. */
  predicate TurnsBack(moves: seq<Move>)
  {
    moves != [] && IsOpposite(LastHeading(moves[1..]), moves[0].dir)
  }

  lemma TickTurnsBackExactly(g: GameState, c: Choices, id: string)
    requires Fits(g, c) && id in g.snakes && g.snakes[id].alive && Facing(g.snakes[id])
    ensures id in Ticked(g, c).snakes
    ensures
      var s, t := g.snakes[id], Ticked(g, c).snakes[id];
      && |t.past.moves| == |s.past.moves| + 1 && t.past.moves[1..] == s.past.moves
      && (TurnsBack(t.past.moves) <==>
            DetourAndBack(LastHeading(s.past.moves), [s.direction] + Wanted(Own(g.inputs, id))))
  {
    hide Moved, Ticked, Fits, SteerAll, LastHeading, DetourAndBack, Facing, Own, Wanted;
    TickKeepsCourse(g, c);
    StepIsRecorded(g, id);
    TickReversesExactlyByDetour(g.snakes, g.inputs, id);
  }

  /** In any tick of any run a living snake goes back against its last real step exactly when the direction
      it has and its own inputs of that tick, in this order, make a detour and come back; and the direction
      it has is that of its newest move, which may have stood still. */
  lemma TurnsBackExactlyByDetour(states: seq<GameState>, events: seq<Event>, n: nat, id: string)
    requires IsRun(states, events) && IsStart(states[0]) && n < |events| && events[n].Tick?
    requires id in states[n].snakes && states[n].snakes[id].alive
    ensures id in states[n + 1].snakes && Facing(states[n].snakes[id])
    ensures
      var s, t := states[n].snakes[id], states[n + 1].snakes[id];
      && |t.past.moves| == |s.past.moves| + 1 && t.past.moves[1..] == s.past.moves
      && (TurnsBack(t.past.moves) <==>
            DetourAndBack(LastHeading(s.past.moves), [s.direction] + Wanted(Own(states[n].inputs, id))))
  {
    hide IsStart, Ticked, Fits, LastHeading, DetourAndBack, Facing, TurnsBack, Own, Wanted;
    EveryoneFaces(states, events, n);
    assert Possible(states[n], events[n]);
    TickTurnsBackExactly(states[n], events[n].choices, id);
  }
}
