/** What holds in every state of every run of the arena. */
module GameRuns {
  import opened MapTotals
  import opened SnakeModel
  import opened SnakeInvariant
  import opened FoodModel
  import opened Elimination
  import opened ScoreFlow
  import opened GameModel
  import opened Eating
  import opened Phases
  import opened Safety

  /** The most points one tick can hand out. */
  const POINTS_PER_TICK := 2 * MAX_FOOD

  /** The accounts of every snake and of the food balance, and scores stay under the cap. */
  ghost predicate Accounted(g: GameState)
  {
    && AllSound(g.snakes)
    && Stocked(g.food)
    && |g.food.items| >= INITIAL_FOOD
    && Capped(g.snakes, POINTS_PER_TICK * g.tick)
    && g.food.eaten == MealTotal(g.snakes) + g.departed
    && |g.inputs| <= INPUT_BUFFER
  }

  /** Snakes and food are where the arena allows them; claimed for arenas of at least 200 by 200. */
  ghost predicate Contained(g: GameState)
  {
    && g.arenaW >= 200.0 && g.arenaH >= 200.0
    && g.food.arenaW == g.arenaW && g.food.arenaH == g.arenaH
    && AllHoused(g.snakes, g.arenaW, g.arenaH)
    && Placed(g.food)
  }

  // ---- The tick --------------------------------------------------------------------------------

  lemma MovedKeeps(g: GameState)
    requires Accounted(g)
    ensures AllSound(Moved(g)) && AllLater(g.snakes, Moved(g))
    ensures Meals(Moved(g)) == Meals(g.snakes) && Capped(Moved(g), POINTS_PER_TICK * g.tick)
  {
    hide Sound, Later, SteerAll, MoveAll;
    var steered := SteerAll(g.snakes, g.inputs);
    SteeringKeeps(g.snakes, g.inputs);
    MovingKeeps(steered, POINTS_PER_TICK * g.tick);
    AllLaterIsTransitive(g.snakes, steered, Moved(g));
  }

  lemma CheckedKeeps(g: GameState, c: Choices)
    requires Accounted(g) && Visits(c.eating, g.snakes.Keys)
    ensures AllSound(Checked(g, c)) && AllLater(g.snakes, Checked(g, c))
    ensures Capped(Checked(g, c), POINTS_PER_TICK * (g.tick + 1))
    ensures Stocked(AfterMeal(g, c).food) && FoodLater(g.food, AfterMeal(g, c).food)
    ensures AfterMeal(g, c).food.eaten == MealTotal(Checked(g, c)) + g.departed
  {
    hide AllSound, AllLater, Later, Sound, Stocked, FoodLater, Visits, EatAll, CheckAll, Capped, Moved;
    MovedKeeps(g);
    var t := Table(Moved(g), g.food);
    SoundScores(t.snakes);
    EatingRaisesCap(t, c.eating, POINTS_PER_TICK * g.tick);
    EatingMovesPoints(t, c.eating);
    CheckingKeeps(AfterMeal(g, c).snakes, g.arenaW, g.arenaH, POINTS_PER_TICK * (g.tick + 1));
    AllLaterIsTransitive(g.snakes, t.snakes, AfterMeal(g, c).snakes);
    AllLaterIsTransitive(g.snakes, AfterMeal(g, c).snakes, Checked(g, c));
  }

  lemma FoughtKeeps(g: GameState, c: Choices)
    requires Accounted(g) && Fits(g, c)
    ensures AllSound(Fought(g, c)) && AllLater(g.snakes, Fought(g, c))
    ensures Capped(Fought(g, c), POINTS_PER_TICK * (g.tick + 1))
    ensures MealTotal(Fought(g, c)) == MealTotal(Checked(g, c))
  {
    hide AllSound, AllLater, Later, Sound, Stocked, FoodLater, Visits, Checked, Capped, Rows, IsTrace;
    CheckedKeeps(g, c);
    var states := TraceOfRows(Checked(g, c), c.scanning);
    ScanKeeps(states, c.scanning, |c.scanning|);
    ScanIsBalanced(states, c.scanning, |c.scanning|, POINTS_PER_TICK * (g.tick + 1));
    AllLaterIsTransitive(g.snakes, Checked(g, c), Fought(g, c));
  }

  lemma LitteringKeepsFood(g: GameState, c: Choices)
    requires Accounted(g)
    requires Visits(c.eating, g.snakes.Keys) && ListsLiving(c.scanning, Checked(g, c))
    requires Visits(c.dropping, g.snakes.Keys)
    ensures
      var f := Littered(g, c);
      Stocked(f) && FoodLater(g.food, f) && f.eaten == MealTotal(Checked(g, c)) + g.departed
  {
    hide AllSound, Stocked, FoodLater, Checked, Fought, AfterMeal, Capped, DropAll, ListsLiving;
    CheckedKeeps(g, c);
    var eaten := AfterMeal(g, c).food;
    DropAllKeepsStock(eaten, Fought(g, c), c.dropping);
    FoodLaterIsTransitive(g.food, eaten, Littered(g, c));
  }

  lemma TickKeepsFood(g: GameState, c: Choices)
    requires Accounted(g) && Fits(g, c)
    ensures
      var f := Ticked(g, c).food;
      && Stocked(f) && FoodLater(g.food, f) && |f.items| >= INITIAL_FOOD
      && f.eaten == MealTotal(Checked(g, c)) + g.departed
  {
    hide AllSound, Stocked, FoodLater, Checked, Fought, AfterMeal, Littered, Capped, SpawnedAll, Fractions, ListsLiving;
    LitteringKeepsFood(g, c);
    var littered := Littered(g, c);
    StockIsCapped(littered);
    SpawningKeepsStock(littered, c.draws);
    FoodLaterIsTransitive(g.food, littered, Ticked(g, c).food);
  }

  lemma TickKeepsAccounts(g: GameState, c: Choices)
    requires Accounted(g) && Fits(g, c)
    ensures Accounted(Ticked(g, c)) && AllLater(g.snakes, Ticked(g, c).snakes) && FoodLater(g.food, Ticked(g, c).food)
  {
    hide AllSound, AllLater, Stocked, FoodLater, Checked, Fought, Littered, Capped, SpawnedAll, Fits, MealTotal;
    FoughtKeeps(g, c);
    TickKeepsFood(g, c);
  }

  lemma TickKeepsContainment(g: GameState, c: Choices)
    requires Accounted(g) && Contained(g) && Fits(g, c)
    ensures Contained(Ticked(g, c))
  {
    hide Housed, Loose, Placed, CheckAll, Sound, Stocked, Capped, EatAll, DropAll, SpawnedAll, Scanned,
      Rows, MoveAll, SteerAll;
    var w, h := g.arenaW, g.arenaH;
    var steered := SteerAll(g.snakes, g.inputs);
    SteeringKeepsHouse(g.snakes, g.inputs, w, h);
    SteeringKeeps(g.snakes, g.inputs);
    SoundBodies(steered);
    MovingLoosens(steered, w, h);
    var t := Table(Moved(g), g.food);
    EatingLeavesUnclaimed(t, c.eating);
    SamePlacesStayLoose(t.snakes, AfterMeal(g, c).snakes, w, h);
    EatingKeepsPlaces(t, c.eating);
    CheckingHouses(AfterMeal(g, c).snakes, w, h);
    var fought := SequentialElimination(Checked(g, c), c.scanning);
    ScannedFacts(Checked(g, c), fought, c.scanning);
    ScanningKeepsHouse(Checked(g, c), fought, w, h);
    HousedIsLoose(fought, w, h);
    DropAllKeepsPlaces(AfterMeal(g, c).food, fought, c.dropping);
    SpawningKeepsPlaces(Littered(g, c), c.draws);
  }

  lemma SoundBodies(snakes: Roster)
    requires AllSound(snakes)
    ensures forall id :: id in snakes ==> snakes[id].segments != [] && snakes[id].speed == BASE_SPEED
  {
  }

  lemma HousedIsLoose(snakes: Roster, w: real, h: real)
    requires AllHoused(snakes, w, h)
    ensures AllLoose(snakes, w, h)
  {
    hide Loose;
  }

  // ---- Calls between ticks -----------------------------------------------------------------------

  lemma LivingScoreIsCovered(snakes: Roster, id: string)
    requires id in snakes && NoDebts(snakes)
    ensures LivingTotal(snakes - {id}) <= LivingTotal(snakes)
    ensures MealTotal(snakes - {id}) == MealTotal(snakes) - snakes[id].past.eaten
  {
    TotalWithout(LivingScores(snakes), id);
    assert LivingScores(snakes - {id}) == LivingScores(snakes) - {id};
    TotalWithout(Meals(snakes), id);
    assert Meals(snakes - {id}) == Meals(snakes) - {id};
  }

  lemma LeavingKeepsAccounts(g: GameState, id: string)
    requires Accounted(g)
    ensures Accounted(Removed(g, id))
  {
    hide Sound, Stocked;
    SoundScores(g.snakes);
    if id in g.snakes {
      LivingScoreIsCovered(g.snakes, id);
    } else {
      assert g.snakes - {id} == g.snakes;
    }
  }

  lemma NewcomerAddsNothing(snakes: Roster, id: string, s: SnakeState)
    requires id !in snakes && s.score == 0 && s.past.eaten == 0
    ensures LivingTotal(snakes[id := s]) == LivingTotal(snakes) && MealTotal(snakes[id := s]) == MealTotal(snakes)
  {
    assert LivingScores(snakes[id := s]) == LivingScores(snakes)[id := 0];
    TotalUpdate(LivingScores(snakes), id, 0);
    assert Meals(snakes[id := s]) == Meals(snakes)[id := 0];
    TotalUpdate(Meals(snakes), id, 0);
  }

  lemma JoiningKeepsAccounts(g: GameState, id: string, name: string, d: Draw)
    requires Accounted(g)
    ensures Accounted(Joined(g, id, name, d))
  {
    hide Sound, Stocked, RandomSpot, LivingTotal, MealTotal;
    var s := Spawned(id, name, RandomSpot(g.arenaW, g.arenaH, SPAWN_PADDING, d));
    LeavingKeepsAccounts(g, id);
    SpawnedIsSound(id, name, RandomSpot(g.arenaW, g.arenaH, SPAWN_PADDING, d));
    var rest := g.snakes - {id};
    NewcomerAddsNothing(rest, id, s);
    assert g.snakes[id := s] == rest[id := s];
  }

  // ---- Every state of every run --------------------------------------------------------------------

  lemma EmptyIsGood(w: real, h: real)
    ensures Stocked(EmptyFood(w, h)) && Placed(EmptyFood(w, h))
    ensures AllSound(map[]) && Capped(map[], 0) && MealTotal(map[]) == 0
  {
  }

  lemma StartKeeps(g: GameState)
    requires IsStart(g)
    ensures Accounted(g)
    ensures g.arenaW >= 200.0 && g.arenaH >= 200.0 ==> Contained(g)
  {
    hide Stocked, Placed, AllSound, Capped, MealTotal, SpawnedAll;
    var draws :| |draws| == INITIAL_FOOD && Fractions(draws) && g == NewGame(g.arenaW, g.arenaH, draws);
    EmptyIsGood(g.arenaW, g.arenaH);
    SpawningKeepsStock(EmptyFood(g.arenaW, g.arenaH), draws);
    if g.arenaW >= 200.0 && g.arenaH >= 200.0 {
      SpawningKeepsPlaces(EmptyFood(g.arenaW, g.arenaH), draws);
    }
  }

  lemma EventKeeps(g: GameState, e: Event)
    requires Accounted(g) && Possible(g, e)
    ensures Accounted(After(g, e))
    ensures Contained(g) ==> Contained(After(g, e))
  {
    hide Stocked, Capped, AllSound, Fits, Ticked, MealTotal, Housed, Placed, Spawned;
    match e
    case Join(id, name, at) =>
      JoiningKeepsAccounts(g, id, name, at);
      if Contained(g) {
        SpawnedIsHoused(id, name, g.arenaW, g.arenaH, at);
      }
    case Leave(id) =>
      LeavingKeepsAccounts(g, id);
    case Submit(input) =>
    case Tick(choices) =>
      TickKeepsAccounts(g, choices);
      if Contained(g) {
        TickKeepsContainment(g, choices);
      }
  }

  /** Accounts and containment hold in every state of every run from a new game. */
  lemma {:induction false} EveryStateIsGood(states: seq<GameState>, events: seq<Event>, n: nat)
    requires IsRun(states, events) && IsStart(states[0]) && n < |states|
    ensures Accounted(states[n])
    ensures states[0].arenaW >= 200.0 && states[0].arenaH >= 200.0 ==> Contained(states[n])
  {
    hide Accounted, Contained, IsStart, Possible, After;
    if n == 0 {
      StartKeeps(states[0]);
    } else {
      EveryStateIsGood(states, events, n - 1);
      EventKeeps(states[n - 1], events[n - 1]);
    }
  }
}
