/** What a tick does to every snake and every item, read off coordinates, scores and inputs alone. */
module TickEffects {
  import opened Geometry
  import opened MapTotals
  import opened SnakeModel
  import opened SnakeInvariant
  import opened FoodIds
  import opened FoodModel
  import opened Elimination
  import opened ScoreFlow
  import opened GameModel
  import opened Steering
  import opened Eating
  import opened Phases
  import opened Safety
  import opened GameRuns
  import opened Course

  // ---- Steps -------------------------------------------------------------------------------------

  /** The boost flag after a player's inputs: that of the last one. */
  function FlagAfter(flag: bool, own: seq<PlayerInput>): bool
  {
    if own == [] then flag else own[|own| - 1].boost
  }

  lemma {:induction false} LastFlagCounts(s: SnakeState, own: seq<PlayerInput>)
    requires s.alive
    ensures SteeredBy(s, own).boosting == FlagAfter(s.boosting, own)
  {
  }

  /** From s to t a living snake turned as its own inputs say and made one step. With its flag set and a
      score above one that step is 10 long and costs a point, otherwise it is 5 long and costs nothing;
      an unrecognized direction leads nowhere. The body follows and grows by one while growth is pending.
      Besides the cost, only what it ate and was awarded changed its score. */
  ghost predicate Stepped(s: SnakeState, t: SnakeState, own: seq<PlayerInput>)
    requires s.segments != [] && t.segments != []
  {
    var flag, dir := FlagAfter(s.boosting, own), HeadingAfter(s.direction, Wanted(own));
    var boosts := flag && s.score > 1;
    && t.boosting == flag && t.direction == dir
    && t.segments[0] == Ahead(s.segments[0], dir, if boosts then 10.0 else 5.0)
    && |t.segments| == |s.segments| + (if s.growPending > 0 then 1 else 0) && t.segments[1..] <= s.segments
    && t.past.boosted == s.past.boosted + (if boosts then 1 else 0)
    && t.score == s.score - (if boosts then 1 else 0)
                  + (t.past.eaten - s.past.eaten) + (t.past.awarded - s.past.awarded)
  }

  lemma OneStep(s: SnakeState, own: seq<PlayerInput>)
    requires s.alive && Sound(s)
    ensures s.segments != [] && Advanced(SteeredBy(s, own)).segments != []
    ensures Stepped(s, Advanced(SteeredBy(s, own)), own)
    ensures Advanced(SteeredBy(s, own)).alive
  {
    SteeringIsOnlySteering(s, own);
    SteeredHeading(s, own);
    LastFlagCounts(s, own);
    var u := SteeredBy(s, own);
    hide Ahead;
    AdvancedExactly(u);
  }

  lemma OneStepInTick(g: GameState, id: string)
    requires Accounted(g) && id in g.snakes && g.snakes[id].alive
    ensures g.snakes[id].segments != [] && Moved(g)[id].segments != [] && Moved(g)[id].alive
    ensures Stepped(g.snakes[id], Moved(g)[id], Own(g.inputs, id))
  {
    InputProjection(g.snakes, g.inputs, id);
    SteeringIsOnlySteering(g.snakes[id], Own(g.inputs, id));
    OneStep(g.snakes[id], Own(g.inputs, id));
  }

  lemma SameStep(s: SnakeState, t: SnakeState, u: SnakeState, own: seq<PlayerInput>)
    requires s.segments != [] && t.segments != [] && Stepped(s, t, own)
    requires Sound(s) && Sound(u)
    requires u.segments == t.segments && u.direction == t.direction && u.boosting == t.boosting
    requires u.past.boosted == t.past.boosted
    ensures Stepped(s, u, own)
  {
    hide Ahead;
  }

  /** In every tick of every run every living snake makes exactly one step as its own inputs say. */
  lemma EverySnakeSteps(states: seq<GameState>, events: seq<Event>, n: nat, id: string)
    requires IsRun(states, events) && IsStart(states[0]) && n < |events| && events[n].Tick?
    requires id in states[n].snakes && states[n].snakes[id].alive
    ensures id in states[n + 1].snakes
    ensures states[n].snakes[id].segments != [] && states[n + 1].snakes[id].segments != []
    ensures Stepped(states[n].snakes[id], states[n + 1].snakes[id], Own(states[n].inputs, id))
  {
    hide IsStart, Accounted, Stepped, Ticked, Fits, Own, Moved, Sound;
    EveryStateIsGood(states, events, n);
    EveryStateIsGood(states, events, n + 1);
    var g, c := states[n], events[n].choices;
    assert Possible(g, events[n]) && states[n + 1] == Ticked(g, c);
    TickKeepsCourse(g, c);
    OneStepInTick(g, id);
    EverybodyIsSound(g);
    EverybodyIsSound(states[n + 1]);
    SameStep(g.snakes[id], Moved(g)[id], states[n + 1].snakes[id], Own(g.inputs, id));
  }

  lemma EverybodyIsSound(g: GameState)
    requires Accounted(g)
    ensures forall id :: id in g.snakes ==> Sound(g.snakes[id])
  {
  }

  // ---- Deaths ------------------------------------------------------------------------------------

  /** The head is inside the arena and at least 14 from the snake's own segments from the fifth on. */
  ghost predicate StaysClear(s: SnakeState, w: real, h: real)
    requires s.segments != []
  {
    && 0.0 <= s.segments[0].x <= w && 0.0 <= s.segments[0].y <= h
    && forall k :: 4 <= k < |s.segments| ==> DistSquared(s.segments[0], s.segments[k]) >= 196.0
  }

  lemma ChecksExactly(s: SnakeState, w: real, h: real)
    requires s.segments != []
    ensures SelfChecked(WallChecked(s, w, h)).alive <==> s.alive && StaysClear(s, w, h)
  {
    hide HitsWall, HitsSelf, DistSquared;
    WallHitExactly(s, w, h);
    SelfHitExactly(WallChecked(s, w, h));
  }

  lemma {:induction false} FallingDependsOnBodies(s: Roster, t: Roster, ids: seq<string>, i: nat)
    requires Listed(s, ids) && Listed(t, ids) && i < |ids|
    requires forall id :: id in s && id in t ==> s[id].segments == t[id].segments
    ensures Falls(s, ids, i) == Falls(t, ids, i)
    decreases i
  {
    forall j | 0 <= j < |ids|
      ensures Overlaps(s, ids, i, j) == Overlaps(t, ids, i, j)
    {
    }
    hide Overlaps;
    forall j | 0 <= j < i
      ensures Falls(s, ids, j) == Falls(t, ids, j)
    {
      FallingDependsOnBodies(s, t, ids, j);
    }
  }

  ghost predicate HaveBodies(snakes: Roster)
  {
    forall id :: id in snakes ==> snakes[id].segments != []
  }

  /** Who dies in a tick, told from where the bodies are at its end. The scan lists exactly the living that
      stay clear of the walls and of themselves; of these exactly the ones die that run into a later one of
      the list or into an earlier one that does not fall; everybody else who was alive dies too. */
  ghost predicate DeathsAreExact(s: Roster, t: Roster, scanning: seq<string>, w: real, h: real)
    requires HaveBodies(t)
  {
    && t.Keys == s.Keys && Listed(t, scanning)
    && (forall id :: id in t ==>
          (id in scanning <==> s[id].alive && StaysClear(t[id], w, h)) && (id !in scanning ==> !t[id].alive))
    && (forall i: nat :: i < |scanning| ==> (t[scanning[i]].alive <==> !Falls(t, scanning, i)))
  }

  lemma ListedExactly(g: GameState, c: Choices, id: string)
    requires Fits(g, c) && id in g.snakes && Moved(g)[id].segments != []
    ensures id in c.scanning <==> g.snakes[id].alive && StaysClear(Moved(g)[id], g.arenaW, g.arenaH)
    ensures id !in c.scanning ==> !Fought(g, c)[id].alive
  {
    hide Moved, EatAll, Rows, StaysClear, Littered, Shortage, Fractions, SelfChecked, WallChecked;
    EatingKeepsCourse(Table(Moved(g), g.food), c.eating);
    EatingLeavesUnclaimed(Table(Moved(g), g.food), c.eating);
    ScanKeepsCourse(Checked(g, c), c.scanning, |c.scanning|);
    StepIsRecorded(g, id);
    var s := AfterMeal(g, c).snakes[id];
    ChecksExactly(s, g.arenaW, g.arenaH);
    ClearByBody(s, Moved(g)[id], g.arenaW, g.arenaH);
  }

  lemma ClearByBody(s: SnakeState, t: SnakeState, w: real, h: real)
    requires s.segments == t.segments != []
    ensures StaysClear(s, w, h) == StaysClear(t, w, h)
  {
  }

  lemma FatesExactly(g: GameState, c: Choices, i: nat)
    requires Fits(g, c) && i < |c.scanning|
    ensures Listed(Fought(g, c), c.scanning)
    ensures Fought(g, c)[c.scanning[i]].alive <==> !Falls(Fought(g, c), c.scanning, i)
  {
    hide Checked, Rows, Falls, Littered, Shortage, Fractions, Visits;
    FatesAreForeseen(Checked(g, c), c.scanning, i);
    ScanKeepsCourse(Checked(g, c), c.scanning, |c.scanning|);
    FallingDependsOnBodies(Checked(g, c), Fought(g, c), c.scanning, i);
  }

  lemma FoughtIsListed(g: GameState, c: Choices)
    requires Fits(g, c)
    ensures Ticked(g, c).snakes == Fought(g, c) && Listed(Fought(g, c), c.scanning)
    ensures forall i: nat :: i < |c.scanning| ==> c.scanning[i] in Fought(g, c)
  {
    hide Checked, Rows, Littered, Shortage, Fractions, Visits;
  }

  /** In every tick of every run deaths are exact. */
  lemma EveryDeathIsExact(states: seq<GameState>, events: seq<Event>, n: nat)
    requires IsRun(states, events) && IsStart(states[0]) && n < |events| && events[n].Tick?
    ensures HaveBodies(states[n + 1].snakes)
    ensures
      var g := states[n];
      DeathsAreExact(g.snakes, states[n + 1].snakes, events[n].choices.scanning, g.arenaW, g.arenaH)
  {
    hide IsStart, Accounted, Moved, Fits, Ticked, Sound, StaysClear, Falls;
    EveryStateIsGood(states, events, n + 1);
    var g, c := states[n], events[n].choices;
    assert Possible(g, events[n]) && states[n + 1] == Ticked(g, c);
    EverybodyIsSound(states[n + 1]);
    BodiesAreThere(states[n + 1].snakes);
    TickKillsExactly(g, c);
  }

  lemma BodiesAreThere(snakes: Roster)
    requires forall id :: id in snakes ==> Sound(snakes[id])
    ensures HaveBodies(snakes)
  {
  }

  lemma TickKillsExactly(g: GameState, c: Choices)
    requires Fits(g, c)
    requires HaveBodies(Ticked(g, c).snakes)
    ensures DeathsAreExact(g.snakes, Ticked(g, c).snakes, c.scanning, g.arenaW, g.arenaH)
  {
    hide Moved, Ticked, Fits, Fought, Checked, StaysClear, Falls, Listed;
    FoughtIsListed(g, c);
    TickKeepsCourse(g, c);
    var t, ids := Ticked(g, c).snakes, c.scanning;
    forall id | id in t
      ensures id in ids <==> g.snakes[id].alive && StaysClear(t[id], g.arenaW, g.arenaH)
      ensures id !in ids ==> !t[id].alive
    {
      ListedExactly(g, c, id);
      ClearByBody(t[id], Moved(g)[id], g.arenaW, g.arenaH);
    }
    forall i: nat | i < |ids|
      ensures t[ids[i]].alive <==> !Falls(t, ids, i)
    {
      FatesExactly(g, c, i);
    }
  }

  // ---- Meals -------------------------------------------------------------------------------------

  lemma ChecksKeepMeals(snakes: Roster, w: real, h: real)
    ensures Meals(CheckAll(snakes, w, h)) == Meals(snakes)
  {
    hide HitsWall, HitsSelf;
  }

  lemma {:induction false} ScanKeepsMeals(snakes: Roster, ids: seq<string>, n: nat)
    requires Listed(snakes, ids) && n <= |ids|
    ensures Meals(Rows(snakes, ids, n)) == Meals(snakes)
  {
    hide Struck, Meals;
    if n > 0 {
      ScanKeepsMeals(snakes, ids, n - 1);
      var s := Rows(snakes, ids, n - 1);
      var k := Killer(s, ids, n - 1, |ids|);
      if k < |ids| {
        StrikeIsNoMeal(s, ids[n - 1], ids[k]);
      }
    }
  }

  /** What the k-th of the order gets to eat, told from who was alive before the tick and where the heads
      are after it. */
  ghost function MealOf(s: Roster, t: Roster, order: seq<string>, k: nat, items: map<string, FoodItem>)
    : map<string, FoodItem>
    requires k < |order|
    requires forall i :: 0 <= i < |order| ==> order[i] in s && order[i] in t
  {
    map item | item in items
            && DistSquared(Head(t[order[k]]), items[item].position) < 196.0
            && (forall j :: 0 <= j < k && s[order[j]].alive ==>
                  DistSquared(Head(t[order[j]]), items[item].position) >= 196.0)
      :: items[item]
  }

  lemma ShareByBody(s: Roster, m: Roster, t: Roster, order: seq<string>, k: nat, items: map<string, FoodItem>)
    requires k < |order| && forall i :: 0 <= i < |order| ==> order[i] in s && order[i] in m && order[i] in t
    requires forall i :: 0 <= i < |order| ==>
      Head(m[order[i]]) == Head(t[order[i]]) && m[order[i]].alive == s[order[i]].alive
    ensures Share(m, order, k, items) == MealOf(s, t, order, k, items)
  {
    hide DistSquared, Head;
  }

  lemma TickFeedsExactly(g: GameState, c: Choices, k: nat)
    requires Accounted(g) && Fits(g, c) && k < |c.eating|
    ensures
      var id, t := c.eating[k], Ticked(g, c).snakes;
      t[id].past.eaten == g.snakes[id].past.eaten +
        if g.snakes[id].alive then Worth(MealOf(g.snakes, t, c.eating, k, g.food.items)) else 0
  {
    hide Moved, EatAll, Rows, Littered, Shortage, Fractions, CheckAll, Worth, Share, Stocked, Sound, Capped;
    var m, order, t := Moved(g), c.eating, Ticked(g, c).snakes;
    MovedKeeps(g);
    SoundScores(m);
    EachEatsItsShare(Table(m, g.food), order, k);
    ChecksKeepMeals(AfterMeal(g, c).snakes, g.arenaW, g.arenaH);
    ScanKeepsMeals(Checked(g, c), c.scanning, |c.scanning|);
    TickKeepsCourse(g, c);
    forall i | 0 <= i < |order|
      ensures Head(m[order[i]]) == Head(t[order[i]]) && m[order[i]].alive == g.snakes[order[i]].alive
    {
      StepIsRecorded(g, order[i]);
    }
    ShareByBody(g.snakes, m, t, order, k, g.food.items);
    assert Meals(t)[order[k]] == Meals(AfterMeal(g, c).snakes)[order[k]];
    assert Meals(m)[order[k]] == Meals(g.snakes)[order[k]];
  }

  /** In every tick of every run each snake eats exactly its meal; the dead eat nothing. */
  lemma EverySnakeEatsItsMeal(states: seq<GameState>, events: seq<Event>, n: nat, k: nat)
    requires IsRun(states, events) && IsStart(states[0]) && n < |events| && events[n].Tick?
    requires k < |events[n].choices.eating|
    ensures Visits(events[n].choices.eating, states[n].snakes.Keys)
    ensures states[n + 1].snakes.Keys == states[n].snakes.Keys
    ensures
      var order, s, t := events[n].choices.eating, states[n].snakes, states[n + 1].snakes;
      t[order[k]].past.eaten == s[order[k]].past.eaten +
        if s[order[k]].alive then Worth(MealOf(s, t, order, k, states[n].food.items)) else 0
  {
    hide IsStart, Accounted, Ticked, Checked, ListsLiving, Littered, Shortage, Fractions, MealOf, Worth;
    EveryStateIsGood(states, events, n);
    assert Possible(states[n], events[n]) && states[n + 1] == Ticked(states[n], events[n].choices);
    TickKeepsCourse(states[n], events[n].choices);
    TickFeedsExactly(states[n], events[n].choices, k);
  }

  // ---- Food ----------------------------------------------------------------------------------------

  /** Some living snake's head is within 14 of the position, told from who was alive before the tick and
      where the heads are after it. */
  ghost predicate IsReached(s: Roster, t: Roster, position: Vec2)
    requires t.Keys == s.Keys
  {
    exists id :: id in s && s[id].alive && DistSquared(Head(t[id]), position) < 196.0
  }

  lemma {:induction false} DroppingAllLeavesAlone(food: FoodState, snakes: Roster, order: seq<string>, n: nat)
    requires forall i :: 0 <= i < |order| ==> order[i] in snakes
    requires Filed(food) && n <= |order|
    ensures Filed(DropAll(food, snakes, order[..n])) && Filed(DropAll(food, snakes, order))
    ensures StillThere(food, DropAll(food, snakes, order))
    ensures StillThere(DropAll(food, snakes, order[..n]), DropAll(food, snakes, order))
  {
    hide Filed, Dropped, DropSpots;
    if order != [] {
      var most := order[..|order| - 1];
      DroppingAllLeavesAlone(food, snakes, most, if n <= |most| then n else |most|);
      DroppingLeavesAlone(DropAll(food, snakes, most), DropSpots(snakes[order[|order| - 1]]));
      if n <= |most| {
        assert most[..n] == order[..n];
      } else {
        assert order[..n] == order;
      }
    }
  }

  lemma MealsLeaveExactly(g: GameState, c: Choices, item: string)
    requires Fits(g, c) && item in g.food.items
    ensures item in AfterMeal(g, c).food.items <==>
      !IsReached(g.snakes, Ticked(g, c).snakes, g.food.items[item].position)
    ensures item in AfterMeal(g, c).food.items ==> AfterMeal(g, c).food.items[item] == g.food.items[item]
  {
    hide Moved, EatAll, Rows, Littered, Shortage, Fractions, CheckAll, Ticked;
    var m, t, position := Moved(g), Ticked(g, c).snakes, g.food.items[item].position;
    EatingLeavesUnclaimed(Table(m, g.food), c.eating);
    TickKeepsCourse(g, c);
    forall id | id in m
      ensures Claims(m, id, position) <==> g.snakes[id].alive && DistSquared(Head(t[id]), position) < 196.0
    {
      StepIsRecorded(g, id);
      NearIsNear(Head(m[id]), position);
    }
  }

  /** A tick takes an item off the map exactly if a living head is within 14 of it; otherwise it stays as
      it is, whatever is dropped and spawned. */
  lemma TickEatsExactly(g: GameState, c: Choices, item: string)
    requires Accounted(g) && Fits(g, c) && item in g.food.items
    ensures item in Ticked(g, c).food.items <==>
      !IsReached(g.snakes, Ticked(g, c).snakes, g.food.items[item].position)
    ensures item in Ticked(g, c).food.items ==> Ticked(g, c).food.items[item] == g.food.items[item]
  {
    hide Moved, EatAll, Rows, CheckAll, AllSound, Capped, IsReached, DropAll, SpawnedAll, Fractions;
    MealsLeaveExactly(g, c, item);
    CheckedKeeps(g, c);
    var eaten, littered := AfterMeal(g, c).food, Littered(g, c);
    DroppingAllLeavesAlone(eaten, Fought(g, c), c.dropping, 0);
    SpawningLeavesAlone(littered, c.draws);
    DropAllKeepsStock(eaten, Fought(g, c), c.dropping);
    StockIsCapped(littered);
    SpawningKeepsStock(littered, c.draws);
    FoodLaterIsTransitive(eaten, littered, Ticked(g, c).food);
  }

  /** In every tick of every run exactly the items near a living head are eaten. */
  lemma ExactlyTheReachedIsEaten(states: seq<GameState>, events: seq<Event>, n: nat, item: string)
    requires IsRun(states, events) && IsStart(states[0]) && n < |events| && events[n].Tick?
    requires item in states[n].food.items
    ensures states[n + 1].snakes.Keys == states[n].snakes.Keys
    ensures
      var f, g := states[n].food, states[n + 1].food;
      && (item in g.items <==> !IsReached(states[n].snakes, states[n + 1].snakes, f.items[item].position))
      && (item in g.items ==> g.items[item] == f.items[item])
  {
    hide IsStart, Accounted, Ticked, Fits, IsReached;
    EveryStateIsGood(states, events, n);
    assert Possible(states[n], events[n]) && states[n + 1] == Ticked(states[n], events[n].choices);
    TickKeepsCourse(states[n], events[n].choices);
    TickEatsExactly(states[n], events[n].choices, item);
  }

  /** The food on the map when the dead are visited up to the given turn. */
  ghost function FoodAtTurn(g: GameState, c: Choices, turn: nat): FoodState
    requires Fits(g, c) && turn <= |c.dropping|
  {
    DropAll(AfterMeal(g, c).food, Fought(g, c), c.dropping[..turn])
  }

  /** The i-th item dropped onto the map of f, if it came from body s. */
  predicate IsLeft(f: FoodState, s: SnakeState, i: nat, g: FoodState)
  {
    var id := FoodId(f.nextID + 1 + i);
    2 * i < |s.segments| && id in g.items && g.items[id].position == s.segments[2 * i] && g.items[id].value == 2
  }

  lemma DropAllLeavesEverySecondSegment(food: FoodState, snakes: Roster, order: seq<string>, turn: nat, i: nat)
    requires Filed(food) && forall k :: 0 <= k < |order| ==> order[k] in snakes
    requires turn < |order| && !snakes[order[turn]].alive
    requires i < PlacesLeft(DropAll(food, snakes, order[..turn]), (|snakes[order[turn]].segments| + 1) / 2)
    ensures IsLeft(DropAll(food, snakes, order[..turn]), snakes[order[turn]], i, DropAll(food, snakes, order))
  {
    hide Filed, FoodId, Dropped;
    var s, before := snakes[order[turn]], DropAll(food, snakes, order[..turn]);
    DroppingAllLeavesAlone(food, snakes, order, turn);
    DroppingAllLeavesAlone(food, snakes, order, turn + 1);
    assert order[..turn + 1][..turn] == order[..turn];
    assert DropAll(food, snakes, order[..turn + 1]) == DropOne(before, s);
    DroppedExactly(before, DropSpots(s), i);
  }

  /** A dead snake leaves two points of food at its head and at every second segment behind it, in this
      order, as far as there is room at its turn; and at the end of the tick it lies there. */
  lemma TheDeadLeaveEverySecondSegment(g: GameState, c: Choices, turn: nat, i: nat)
    requires Accounted(g) && Fits(g, c) && turn < |c.dropping|
    requires !Ticked(g, c).snakes[c.dropping[turn]].alive
    requires i < PlacesLeft(FoodAtTurn(g, c, turn), (|Ticked(g, c).snakes[c.dropping[turn]].segments| + 1) / 2)
    ensures IsLeft(FoodAtTurn(g, c, turn), Ticked(g, c).snakes[c.dropping[turn]], i, Ticked(g, c).food)
  {
    hide AllSound, AllLater, Capped, Checked, Fought, AfterMeal, DropAll, SpawnedAll, Fractions, FoodId, ListsLiving,
      Filed, Shortage, Later, FoodLater, IsLeft, StillThere, PlacesLeft, Littered;
    CheckedKeeps(g, c);
    FiledFirst(AfterMeal(g, c).food);
    var order, eaten, fought := c.dropping, AfterMeal(g, c).food, Fought(g, c);
    DropAllLeavesEverySecondSegment(eaten, fought, order, turn, i);
    DroppingAllLeavesAlone(eaten, fought, order, 0);
    SpawningLeavesAlone(DropAll(eaten, fought, order), c.draws);
    TickEndsWithSpawning(g, c);
    LeftStays(FoodAtTurn(g, c, turn), fought[order[turn]], i, DropAll(eaten, fought, order), Ticked(g, c).food);
  }

  lemma FiledFirst(f: FoodState)
    requires Stocked(f)
    ensures Filed(f)
  {
  }

  lemma TickEndsWithSpawning(g: GameState, c: Choices)
    requires Fits(g, c)
    ensures Ticked(g, c).snakes == Fought(g, c)
    ensures Ticked(g, c).food == SpawnedAll(DropAll(AfterMeal(g, c).food, Fought(g, c), c.dropping), c.draws)
  {
    hide Checked, Fought, AfterMeal, SpawnedAll, DropAll, Shortage, Fractions;
  }

  lemma LeftStays(f: FoodState, s: SnakeState, i: nat, g: FoodState, h: FoodState)
    requires IsLeft(f, s, i, g) && StillThere(g, h)
    ensures IsLeft(f, s, i, h)
  {
    hide FoodId;
  }

  // ---- Calls between ticks ---------------------------------------------------------------------------

  /** A joining player, known or not, is given a living snake of three segments that scores nothing, heads
      right and lies where the draw says, 100 from the walls. Nothing else changes. */
  lemma JoiningGivesANewSnake(g: GameState, id: string, name: string, d: Draw)
    ensures
      var h := Joined(g, id, name, d);
      var x, y := 100.0 + d.u * (g.arenaW - 200.0), 100.0 + d.v * (g.arenaH - 200.0);
      && id in h.snakes && h.snakes[id].alive && h.snakes[id].score == 0 && h.snakes[id].growPending == 0
      && h.snakes[id].playerID == id && h.snakes[id].name == name
      && h.snakes[id].direction == Right && !h.snakes[id].boosting && h.snakes[id].speed == 5.0
      && h.snakes[id].segments == [Vec2(x, y), Vec2(x - 10.0, y), Vec2(x - 20.0, y)]
      && (forall k :: k != id ==> (k in h.snakes <==> k in g.snakes) && (k in g.snakes ==> h.snakes[k] == g.snakes[k]))
      && h.food == g.food && h.tick == g.tick && h.inputs == g.inputs
  {
    var x, y := 100.0 + d.u * (g.arenaW - 200.0), 100.0 + d.v * (g.arenaH - 200.0);
    assert RandomSpot(g.arenaW, g.arenaH, SPAWN_PADDING, d) == Vec2(x, y);
    assert SpawnBody(Vec2(x, y)) == [Vec2(x, y), Vec2(x - 10.0, y), Vec2(x - 20.0, y)];
  }

  /** A leaving player has no snake any more, and nothing else changes. */
  lemma LeavingTakesTheSnake(g: GameState, id: string)
    ensures
      var h := Removed(g, id);
      && id !in h.snakes
      && (forall k :: k != id ==> (k in h.snakes <==> k in g.snakes) && (k in g.snakes ==> h.snakes[k] == g.snakes[k]))
      && h.food == g.food && h.tick == g.tick && h.inputs == g.inputs
  {
  }

  /** The inputs submitted among the first n events and after the last tick of them. */
  function SubmittedSince(events: seq<Event>, n: nat): seq<PlayerInput>
    requires n <= |events|
  {
    if n == 0 || events[n - 1].Tick? then []
    else SubmittedSince(events, n - 1) + if events[n - 1].Submit? then [events[n - 1].input] else []
  }

  function FirstOf(inputs: seq<PlayerInput>, n: nat): seq<PlayerInput>
  {
    if |inputs| <= n then inputs else inputs[..n]
  }

  /** In every state of every run exactly the first 1024 inputs since the last tick are waiting, in order. */
  lemma {:induction false} TheFirstInputsWait(states: seq<GameState>, events: seq<Event>, n: nat)
    requires IsRun(states, events) && IsStart(states[0]) && n < |states|
    ensures states[n].inputs == FirstOf(SubmittedSince(events, n), 1024)
  {
    hide IsStart, Fits, Fought, Littered, SpawnedAll, RandomSpot, Spawned;
    if n == 0 {
      NobodySubmitted(states[0]);
    } else {
      TheFirstInputsWait(states, events, n - 1);
      assert Possible(states[n - 1], events[n - 1]) && states[n] == After(states[n - 1], events[n - 1]);
    }
  }

  lemma NobodySubmitted(g: GameState)
    requires IsStart(g)
    ensures g.inputs == []
  {
  }
}
