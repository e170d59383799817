/** The arena's promises, stated over whole runs. */
module GameTheorems {
  import opened Geometry
  import opened MapTotals
  import opened SnakeModel
  import opened SnakeInvariant
  import opened FoodIds
  import opened FoodModel
  import opened ScoreFlow
  import opened GameModel
  import opened Eating
  import opened Phases
  import opened Safety
  import opened GameRuns

  const MAX_INT32 := 0x7fff_ffff

  /** No score, of a living or a dead snake, and no living total ever exceeds 400 points per tick, so
      the engine's 32-bit scores cannot overflow during the first 5,368,709 ticks. */
  lemma ScoresAreBounded(states: seq<GameState>, events: seq<Event>, n: nat)
    requires IsRun(states, events) && IsStart(states[0]) && n < |states|
    ensures 0 <= LivingTotal(states[n].snakes) <= 400 * states[n].tick
    ensures forall id :: id in states[n].snakes ==> 0 <= states[n].snakes[id].score <= 400 * states[n].tick
    ensures states[n].tick <= 5_368_709 ==>
      forall id :: id in states[n].snakes ==> states[n].snakes[id].score <= MAX_INT32
  {
    hide IsRun, IsStart, Sound, Stocked;
    EveryStateIsGood(states, events, n);
    TotalNonNegative(LivingScores(states[n].snakes));
  }

  /** Every point of food ever placed is on the map, or was eaten by a snake still listed or one gone;
      and for every listed snake, length, pending growth and score agree with what it ate and earned. */
  lemma FoodIsConserved(states: seq<GameState>, events: seq<Event>, n: nat)
    requires IsRun(states, events) && IsStart(states[0]) && n < |states|
    ensures
      var g := states[n];
      && g.food.spawned == Worth(g.food.items) + MealTotal(g.snakes) + g.departed
      && forall id :: id in g.snakes ==>
        var s := g.snakes[id];
        && |s.segments| + s.growPending == INITIAL_SEGMENTS + s.past.eaten
        && s.score == s.past.eaten + s.past.awarded - s.past.boosted
        && s.score >= 0
  {
    hide IsRun, IsStart;
    EveryStateIsGood(states, events, n);
  }

  /** The map always holds between 100 and 200 items, each filed under its own id, all ids issued. */
  lemma FoodMapIsSound(states: seq<GameState>, events: seq<Event>, n: nat)
    requires IsRun(states, events) && IsStart(states[0]) && n < |states|
    ensures
      var f := states[n].food;
      && 100 <= |f.items| <= 200
      && forall id :: id in f.items ==> f.items[id].id == id && id in Issued(f.nextID)
  {
    hide IsRun, IsStart;
    EveryStateIsGood(states, events, n);
  }

  /** The body of a living snake lies in the arena; of a dead one at most the head is outside, by at
      most 10. Natural food keeps 50 from the walls, dropped food is at most 10 outside. */
  lemma EverythingIsInPlace(states: seq<GameState>, events: seq<Event>, n: nat)
    requires IsRun(states, events) && IsStart(states[0]) && n < |states|
    requires states[0].arenaW >= 200.0 && states[0].arenaH >= 200.0
    ensures
      var g := states[n];
      && (forall id, k :: id in g.snakes && 0 <= k < |g.snakes[id].segments| && (k > 0 || g.snakes[id].alive) ==>
            Inside(g.snakes[id].segments[k], g.arenaW, g.arenaH, 0.0))
      && (forall id :: id in g.snakes ==> Inside(Head(g.snakes[id]), g.arenaW, g.arenaH, 10.0))
      && (forall item :: item in g.food.items && g.food.items[item].value == FOOD_VALUE ==>
            Inside(g.food.items[item].position, g.arenaW, g.arenaH, -50.0))
      && (forall item :: item in g.food.items ==> Inside(g.food.items[item].position, g.arenaW, g.arenaH, 10.0))
  {
    hide IsRun, IsStart;
    EveryStateIsGood(states, events, n);
    var g := states[n];
    assert forall id :: id in g.snakes ==> Sound(g.snakes[id]) && Housed(g.snakes[id], g.arenaW, g.arenaH);
  }

  // ---- From one moment to a later one ------------------------------------------------------------

  ghost predicate NotReplaced(events: seq<Event>, from: nat, to: nat, id: string)
    requires from <= to <= |events|
  {
    forall i :: from <= i < to ==> !(events[i].Join? && events[i].id == id) && !(events[i].Leave? && events[i].id == id)
  }

  lemma EventKeepsSnake(g: GameState, e: Event, id: string)
    requires Accounted(g) && Possible(g, e) && id in g.snakes
    requires !(e.Join? && e.id == id) && !(e.Leave? && e.id == id)
    ensures id in After(g, e).snakes && Later(g.snakes[id], After(g, e).snakes[id])
  {
    hide Sound, Later, Stocked, Capped, Ticked, Fits;
    if e.Tick? {
      TickKeepsAccounts(g, e.choices);
    } else {
      NothingIsLater(g.snakes);
    }
  }

  /** As long as its player neither leaves nor joins again, a snake only grows its trail and its
      account, keeps a positive score positive, and once dead never changes in any way. */
  lemma {:induction false} SnakesOnlyGrowOlder(states: seq<GameState>, events: seq<Event>, m: nat, n: nat, id: string)
    requires IsRun(states, events) && IsStart(states[0]) && m <= n < |states|
    requires id in states[m].snakes && NotReplaced(events, m, n, id)
    ensures id in states[n].snakes && Later(states[m].snakes[id], states[n].snakes[id])
    decreases n - m
  {
    hide IsStart, Accounted, Later, Possible, After;
    if m == n {
      EveryStateIsGood(states, events, m);
      AccountedIsLater(states[m], id);
    } else {
      SnakesOnlyGrowOlder(states, events, m, n - 1, id);
      EveryStateIsGood(states, events, n - 1);
      EventKeepsSnake(states[n - 1], events[n - 1], id);
      LaterIsTransitive(states[m].snakes[id], states[n - 1].snakes[id], states[n].snakes[id]);
    }
  }

  lemma AccountedIsLater(g: GameState, id: string)
    requires Accounted(g) && id in g.snakes
    ensures Later(g.snakes[id], g.snakes[id])
  {
    hide Sound, Later, Stocked, Capped;
    NothingIsLater(g.snakes);
  }

  /** The number of items after a tick: what the meal left and one for every spot of every dead snake, but
      at most 200 and at least 100, in whatever order they are visited. */
  lemma TickCountsFoodExactly(g: GameState, c: Choices)
    requires Accounted(g) && Fits(g, c)
    ensures
      var littered := UpToCap(|AfterMeal(g, c).food.items| + Total(AllLitter(Fought(g, c))));
      |Ticked(g, c).food.items| == if littered < INITIAL_FOOD then INITIAL_FOOD else littered
  {
    hide AllSound, AllLater, Stocked, FoodLater, Checked, Fought, AfterMeal, Capped, DropAll, SpawnedAll, Fractions,
      ListsLiving, Litter, AllLitter;
    CheckedKeeps(g, c);
    WholeWalkIsAllLitter(Fought(g, c), c.dropping);
    DroppingCountsExactly(AfterMeal(g, c).food, Fought(g, c), c.dropping);
    DropAllKeepsStock(AfterMeal(g, c).food, Fought(g, c), c.dropping);
    SpawningKeepsStock(Littered(g, c), c.draws);
  }

  /** The snake drops something, and its turn adds nothing exactly if the map is full by then. */
  predicate DropsUntilFull(food: FoodState, snakes: Roster, order: seq<string>, turn: nat)
    requires (forall i :: 0 <= i < |order| ==> order[i] in snakes) && turn < |order|
  {
    var s, before := snakes[order[turn]], DropAll(food, snakes, order[..turn]);
    DropSpots(s) != [] && (DropOne(before, s) == before <==> |before.items| == MAX_FOOD)
  }

  lemma TickHasRoomForTheDead(g: GameState, c: Choices, id: string)
    requires Accounted(g) && Fits(g, c) && id in g.snakes && !Fought(g, c)[id].alive
    ensures |Ticked(g, c).food.items| >= UpToCap(|AfterMeal(g, c).food.items| + |DropSpots(Fought(g, c)[id])|)
  {
    hide Accounted, Checked, Fought, AfterMeal, DropSpots, Ticked, UpToCap, AllLitter, Total, ListsLiving, Fractions,
      Littered, Shortage;
    var eaten, fought := |AfterMeal(g, c).food.items|, Fought(g, c);
    TickCountsFoodExactly(g, c);
    LitterCoversEach(fought, id);
    MoreUpToCap(eaten + |DropSpots(fought[id])|, eaten + Total(AllLitter(fought)));
  }

  lemma TurnDropsForTheDead(g: GameState, c: Choices, turn: nat)
    requires Accounted(g) && Fits(g, c)
    requires turn < |c.dropping| && !Fought(g, c)[c.dropping[turn]].alive
    ensures DropsUntilFull(AfterMeal(g, c).food, Fought(g, c), c.dropping, turn)
  {
    hide AllSound, AllLater, Stocked, FoodLater, Checked, Fought, AfterMeal, Capped, DropAll, DropOne, DropSpots,
      ListsLiving, Fractions, Shortage, Littered;
    CheckedKeeps(g, c);
    FoughtKeeps(g, c);
    var food, fought, order := AfterMeal(g, c).food, Fought(g, c), c.dropping;
    HasBody(fought, order[turn]);
    DropAllKeepsStock(food, fought, order[..turn]);
    DropsUnlessFull(DropAll(food, fought, order[..turn]), fought[order[turn]]);
  }

  /** The tick leaves room for all of the snake's food or a full map, and its turn drops until the map is full. */
  ghost predicate DropsInTick(g: GameState, c: Choices, turn: nat)
    requires Fits(g, c) && turn < |c.dropping|
  {
    && |Ticked(g, c).food.items| >= UpToCap(|AfterMeal(g, c).food.items| + |DropSpots(Fought(g, c)[c.dropping[turn]])|)
    && DropsUntilFull(AfterMeal(g, c).food, Fought(g, c), c.dropping, turn)
  }

  lemma DeadSnakeDropsInTick(g: GameState, c: Choices, turn: nat)
    requires Accounted(g) && Fits(g, c)
    requires turn < |c.dropping| && !Fought(g, c)[c.dropping[turn]].alive
    ensures DropsInTick(g, c, turn)
  {
    hide Accounted, Checked, Fought, AfterMeal, DropsUntilFull, DropSpots, Ticked, UpToCap, ListsLiving, Fractions,
      Littered, Shortage;
    TickHasRoomForTheDead(g, c, c.dropping[turn]);
    TurnDropsForTheDead(g, c, turn);
  }

  /** Who is dead and still listed drops the same food again in every later tick: the tick leaves room for
      all of it or a full map, and the snake's turn adds nothing if and only if the map is full by then. */
  lemma TheDeadDropEveryTick(states: seq<GameState>, events: seq<Event>, m: nat, n: nat, id: string, turn: nat)
    requires IsRun(states, events) && IsStart(states[0]) && m <= n < |events| && events[n].Tick?
    requires id in states[m].snakes && !states[m].snakes[id].alive && NotReplaced(events, m, n, id)
    requires turn < |events[n].choices.dropping| && events[n].choices.dropping[turn] == id
    ensures
      var g, c := states[n], events[n].choices;
      && Fits(g, c) && states[n + 1] == Ticked(g, c)
      && id in Fought(g, c) && Fought(g, c)[id] == states[m].snakes[id]
      && DropsInTick(g, c, turn)
  {
    var g, c := states[n], events[n].choices;
    assert Possible(g, events[n]) && states[n + 1] == Ticked(g, c);
    hide IsRun, IsStart, Accounted, Fought, Ticked, Fits, DropsInTick, AllSound, Capped, Possible, After;
    EveryStateIsGood(states, events, n);
    SnakesOnlyGrowOlder(states, events, m, n, id);
    FoughtKeeps(g, c);
    assert Later(g.snakes[id], Fought(g, c)[id]);
    DeadSnakeDropsInTick(g, c, turn);
  }

  lemma MoreUpToCap(a: int, b: int)
    requires a <= b
    ensures UpToCap(a) <= UpToCap(b)
  {
  }

  lemma HasBody(snakes: Roster, id: string)
    requires AllSound(snakes) && id in snakes
    ensures snakes[id].segments != []
  {
  }

  lemma LitterCoversEach(snakes: Roster, id: string)
    requires id in snakes && !snakes[id].alive
    ensures |DropSpots(snakes[id])| <= Total(AllLitter(snakes))
  {
    hide DropSpots;
    TermAtMostTotal(AllLitter(snakes), id);
  }

  lemma EventKeepsFood(g: GameState, e: Event)
    requires Accounted(g) && Possible(g, e)
    ensures FoodLater(g.food, After(g, e).food)
  {
    hide AllSound, Stocked, Capped, Ticked, Fits;
    if e.Tick? {
      TickKeepsAccounts(g, e.choices);
    }
  }

  /** An id that was issued and is no longer on the map never comes back, and an item that is still
      on the map has not changed. */
  lemma {:induction false} FoodNeverReturns(states: seq<GameState>, events: seq<Event>, m: nat, n: nat)
    requires IsRun(states, events) && IsStart(states[0]) && m <= n < |states|
    ensures FoodLater(states[m].food, states[n].food)
    ensures forall id :: id in Issued(states[m].food.nextID) && id !in states[m].food.items ==>
      id !in states[n].food.items
    decreases n - m
  {
    hide IsStart, Accounted, Possible, After, Issued;
    if m < n {
      FoodNeverReturns(states, events, m, n - 1);
      EveryStateIsGood(states, events, n - 1);
      EventKeepsFood(states[n - 1], events[n - 1]);
      FoodLaterIsTransitive(states[m].food, states[n - 1].food, states[n].food);
    }
  }

  /** In every tick of every run the self check comes down to the fifth segment for a snake whose body
      holds no two opposite headings, and spares it if its newest four moves did not stand still. */
  lemma NoReversalNoSelfKill(states: seq<GameState>, events: seq<Event>, n: nat, id: string)
    requires IsRun(states, events) && IsStart(states[0]) && n < |events| && events[n].Tick?
    requires id in states[n].snakes
    ensures
      var g, c := states[n], events[n].choices;
      && Visits(c.eating, g.snakes.Keys)
      && var s := AfterMeal(g, c).snakes[id];
      var w := WallChecked(s, g.arenaW, g.arenaH);
      && Sound(s)
      && (NoReversal(BodyMoves(s)) ==>
            Checked(g, c)[id] ==
            if w.alive && |s.segments| > 4 && Touches(Head(s), s.segments[4]) then Killed(w) else w)
      && (NoReversal(BodyMoves(s)) && KeepsMoving(BodyMoves(s)) ==> Checked(g, c)[id] == w)
  {
    var g, c := states[n], events[n].choices;
    assert Possible(states[n], events[n]);
    hide IsRun, IsStart, Sound, Accounted, NoReversal, KeepsMoving, EatAll, HitsSelf, WallChecked, Touches;
    EveryStateIsGood(states, events, n);
    var s := AfterMeal(g, c).snakes[id];
    FedIsSoundInTick(g, c);
    if NoReversal(BodyMoves(s)) {
      SelfCheckIsFifthSegment(s);
      if KeepsMoving(BodyMoves(s)) {
        SkipSuffices(s);
      }
      WallCheckKeepsBody(s, g.arenaW, g.arenaH);
    }
  }

  lemma WallCheckKeepsBody(s: SnakeState, w: real, h: real)
    ensures HitsSelf(WallChecked(s, w, h)) == HitsSelf(s)
  {
    hide Touches, HitsWall;
  }

  lemma FedIsSoundInTick(g: GameState, c: Choices)
    requires Accounted(g) && Visits(c.eating, g.snakes.Keys)
    ensures AllSound(AfterMeal(g, c).snakes)
  {
    hide Sound, Stocked, Capped, Moved, EatAll, Visits, AllLater;
    MovedKeeps(g);
    EatingRaisesCap(Table(Moved(g), g.food), c.eating, POINTS_PER_TICK * g.tick);
  }
}
