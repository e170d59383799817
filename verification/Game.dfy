/** The mutable game room: a map of snake objects, the food manager and the input buffer. */
module Games {
  import opened SnakeModel
  import opened FoodModel
  import opened Elimination
  import opened GameModel
  import opened Snakes
  import opened Foods
  import opened ScoreFlow
  import opened Eating
  import opened Phases
  import opened Safety
  import opened GameRuns

  class Game {
    var snakes: map<string, Snake>
    const food: FoodManager
    const arenaW: real
    const arenaH: real
    var tick: nat
    var inputCh: seq<PlayerInput>
    ghost var departed: int

    /** Each player has the snake object that carries their id, so no two players share one. */
    ghost predicate Valid()
      reads this`snakes, snakes.Values
    {
      && (forall id :: id in snakes ==> snakes[id].Valid() && snakes[id].playerID == id)
      && food.arenaW == arenaW && food.arenaH == arenaH
    }

    /** The snakes as values. */
    ghost function Look(): Roster
      requires Valid()
      reads this`snakes, snakes.Values
    {
      map id | id in snakes :: snakes[id].View()
    }

    ghost function View(): GameState
      requires Valid()
      reads this, food, snakes.Values
    {
      GameState(Look(), food.View(), arenaW, arenaH, tick, inputCh, departed)
    }

    lemma LookNamesEveryPlayer()
      requires Valid()
      ensures Look().Keys == snakes.Keys
    {
    }

    /** When only the snake of one player changed, so did only that entry of the roster. */
    twostate lemma OneChanged(id: string)
      requires old(Valid()) && snakes == old(snakes) && id in snakes
      requires snakes[id].Valid()
      requires forall k :: k in snakes && k != id ==> unchanged(snakes[k])
      ensures Valid() && Look() == old(Look())[id := snakes[id].View()]
    {
      hide Snake.View;
    }

    constructor (arenaW: real, arenaH: real)
      ensures Valid() && fresh(food) && IsStart(View()) && Accounted(View())
    {
      this.arenaW, this.arenaH := arenaW, arenaH;
      snakes, tick, inputCh, departed := map[], 0, [], 0;
      food := new FoodManager(arenaW, arenaH);
      new;
      assert Look() == map[];
      assert IsStart(View());
      StartKeeps(View());
    }

    // ---- Calls between ticks -------------------------------------------------------------------

    /** The spawn point is an arbitrary choice of two fractions. */
    method AddPlayer(playerID: string, name: string) returns (ghost at: Draw)
      requires Valid()
      modifies this
      ensures Valid() && IsFraction(at)
      ensures View() == Joined(old(View()), playerID, name, at)
      ensures old(Accounted(View())) ==> Accounted(View())
    {
      hide Snake.View, FoodManager.View, Spawned, RandomSpot, Accounted;
      ghost var g := View();
      var d: Draw :| IsFraction(d) by {
        assert IsFraction(Draw(0.0, 0.0));
      }
      at := d;
      departed := departed + EatenBy(Look(), playerID);
      var snake := new Snake(playerID, name, RandomSpot(arenaW, arenaH, SPAWN_PADDING, d));
      snakes := snakes[playerID := snake];
      assert Look() == old(Look())[playerID := snake.View()];
      if Accounted(g) {
        JoiningKeepsAccounts(g, playerID, name, at);
      }
    }

    method RemovePlayer(playerID: string)
      requires Valid()
      modifies this
      ensures Valid()
      ensures View() == Removed(old(View()), playerID)
      ensures old(Accounted(View())) ==> Accounted(View())
    {
      hide Snake.View, FoodManager.View, Accounted;
      ghost var g := View();
      departed := departed + EatenBy(Look(), playerID);
      snakes := snakes - {playerID};
      assert Look() == old(Look()) - {playerID};
      if Accounted(g) {
        LeavingKeepsAccounts(g, playerID);
      }
    }

    method SubmitInput(input: PlayerInput)
      requires Valid()
      modifies this`inputCh
      ensures Valid()
      ensures View() == Submitted(old(View()), input)
      ensures old(Accounted(View())) ==> Accounted(View())
    {
      hide Snake.View, FoodManager.View, AllSound, Capped, Stocked, MealTotal;
      if |inputCh| < INPUT_BUFFER {
        inputCh := inputCh + [input];
      }
    }

    // ---- The phases of a tick ------------------------------------------------------------------

    method ApplyInput(input: PlayerInput)
      requires Valid()
      modifies snakes.Values
      ensures Valid() && Look() == SteerOne(old(Look()), input)
    {
      if input.playerID in snakes && snakes[input.playerID].alive {
        snakes[input.playerID].SetInput(input.direction, input.boost);
        OneChanged(input.playerID);
      }
    }

    method DrainInputs()
      requires Valid()
      modifies this`inputCh, snakes.Values
      ensures Valid() && Look() == SteerAll(old(Look()), old(inputCh)) && inputCh == []
    {
      hide Snake.View, SteerOne, SteerAll;
      ghost var taken := [];
      SteerNone(Look());
      while inputCh != []
        invariant taken + inputCh == old(inputCh)
        invariant Valid()
        invariant Look() == SteerAll(old(Look()), taken)
        decreases |inputCh|
      {
        var input := inputCh[0];
        inputCh := inputCh[1..];
        ApplyInput(input);
        SteerAppend(old(Look()), taken, input);
        taken := taken + [input];
      }
      assert taken == old(inputCh);
    }

    method MoveSnakes()
      requires Valid()
      modifies snakes.Values
      ensures Valid() && Look() == MoveAll(old(Look()))
    {
      hide Advanced, Snake.View;
      var rest := snakes.Keys;
      while rest != {}
        invariant rest <= snakes.Keys
        invariant Valid()
        invariant forall id :: id in snakes ==>
          snakes[id].View() == if id in rest then old(snakes[id].View()) else Advanced(old(snakes[id].View()))
        decreases |rest|
      {
        var id :| id in rest;
        snakes[id].Tick();
        rest := rest - {id};
      }
    }

    method FeedSnake(id: string)
      requires Valid() && id in snakes
      modifies food, snakes[id]
      ensures Valid() && Table(Look(), food.View()) == EatOne(old(Table(Look(), food.View())), id)
    {
      hide Fed, FoodManager.View, Gain, Consumed;
      if !snakes[id].alive {
        return;
      }
      var score := food.CheckCollisions(snakes[id].segments[0]);
      snakes[id].Feed(score);
      OneChanged(id);
    }

    method FeedSnakes() returns (ghost order: seq<string>)
      requires Valid()
      modifies food, snakes.Values
      ensures Valid() && Visits(order, snakes.Keys)
      ensures Walked(order, snakes.Keys) && Table(Look(), food.View()) == EatAll(old(Table(Look(), food.View())), order)
    {
      hide Visits, Snake.View, FoodManager.View, EatOne, EatAll;
      order := [];
      ghost var table, done := Table(Look(), food.View()), {};
      var rest := snakes.Keys;
      EatNone(table);
      VisitNone();
      while rest != {}
        invariant done + rest == snakes.Keys && done !! rest
        invariant Visits(order, done) && Walked(order, snakes.Keys)
        invariant Valid()
        invariant Table(Look(), food.View()) == EatAll(table, order)
        decreases |rest|
      {
        var id :| id in rest;
        FeedSnake(id);
        VisitOneMore(order, done, id);
        EatAppend(table, order, id);
        PickOne(snakes.Keys, done, rest, id);
        order, done := order + [id], done + {id};
        rest := rest - {id};
      }
    }

    method CheckWallOf(id: string)
      requires Valid() && id in snakes
      modifies snakes[id]
      ensures snakes[id].Valid() && snakes[id].View() == WallChecked(old(snakes[id].View()), arenaW, arenaH)
    {
      hide HitsWall;
      if snakes[id].alive {
        snakes[id].CheckWallCollision(arenaW, arenaH);
      }
    }

    method CheckWalls()
      requires Valid()
      modifies snakes.Values
      ensures Valid()
      ensures forall id :: id in snakes ==> snakes[id].View() == WallChecked(old(snakes[id].View()), arenaW, arenaH)
    {
      hide WallChecked, Snake.View;
      var rest := snakes.Keys;
      while rest != {}
        invariant rest <= snakes.Keys
        invariant Valid()
        invariant forall id :: id in snakes ==>
          snakes[id].View() ==
          if id in rest then old(snakes[id].View()) else WallChecked(old(snakes[id].View()), arenaW, arenaH)
        decreases |rest|
      {
        var id :| id in rest;
        CheckWallOf(id);
        rest := rest - {id};
      }
    }

    method CheckSelfOf(id: string)
      requires Valid() && id in snakes
      modifies snakes[id]
      ensures snakes[id].Valid() && snakes[id].View() == SelfChecked(old(snakes[id].View()))
    {
      hide HitsSelf;
      if snakes[id].alive {
        snakes[id].CheckSelfCollision();
      }
    }

    method CheckSelves()
      requires Valid()
      modifies snakes.Values
      ensures Valid()
      ensures forall id :: id in snakes ==> snakes[id].View() == SelfChecked(old(snakes[id].View()))
    {
      hide SelfChecked, Snake.View;
      var rest := snakes.Keys;
      while rest != {}
        invariant rest <= snakes.Keys
        invariant Valid()
        invariant forall id :: id in snakes ==>
          snakes[id].View() == if id in rest then old(snakes[id].View()) else SelfChecked(old(snakes[id].View()))
        decreases |rest|
      {
        var id :| id in rest;
        CheckSelfOf(id);
        rest := rest - {id};
      }
    }

    method CheckBodies()
      requires Valid()
      modifies snakes.Values
      ensures Valid() && Look() == CheckAll(old(Look()), arenaW, arenaH)
    {
      hide Snake.View, WallChecked, SelfChecked;
      CheckWalls();
      CheckSelves();
    }

    /** list holds, in walking order, the snake objects of the ids. */
    ghost predicate Holds(list: seq<Snake>, ids: seq<string>)
      reads this`snakes
    {
      |list| == |ids| && forall k :: 0 <= k < |ids| ==> ids[k] in snakes && snakes[ids[k]] == list[k]
    }

    method CollectAlive() returns (list: seq<Snake>, ghost ids: seq<string>)
      requires Valid()
      ensures Holds(list, ids) && ListsLiving(ids, Look())
    {
      list, ids := [], [];
      var rest := snakes.Keys;
      while rest != {}
        invariant rest <= snakes.Keys
        invariant Holds(list, ids)
        invariant forall k :: 0 <= k < |ids| ==> ids[k] !in rest && snakes[ids[k]].alive
        invariant forall i, j :: 0 <= i < j < |ids| ==> ids[i] != ids[j]
        invariant forall id :: id in snakes && id !in rest && snakes[id].alive ==>
          exists k :: 0 <= k < |ids| && ids[k] == id
        decreases |rest|
      {
        var id :| id in rest;
        rest := rest - {id};
        if snakes[id].alive {
          ghost var before := ids;
          list, ids := list + [snakes[id]], ids + [id];
          assert ids[|before|] == id;
          assert forall k :: 0 <= k < |before| ==> ids[k] == before[k];
        }
      }
    }

    /** a runs into b: it dies, and b is paid half of its score. */
    method Strike(a: Snake, b: Snake)
      requires Valid() && a != b
      requires a.playerID in snakes && snakes[a.playerID] == a
      requires b.playerID in snakes && snakes[b.playerID] == b
      modifies a, b
      ensures Valid() && Look() == Struck(old(Look()), a.playerID, b.playerID)
    {
      a.alive := false;
      OneChanged(a.playerID);
      assert Look() == old(Look())[a.playerID := Killed(old(a.View()))];
      label Between:
      b.score := b.score + Half(a.score);
      b.past := b.past.(awarded := b.past.awarded + Half(a.score));
      OneChanged@Between(b.playerID);
      assert b.View() == Awarded(old(b.View()), Half(old(a.score)));
    }

    /** One comparison of the pairwise phase. */
    method TestPair(a: Snake, b: Snake)
      requires Valid() && a != b
      requires a.playerID in snakes && snakes[a.playerID] == a
      requires b.playerID in snakes && snakes[b.playerID] == b
      modifies a, b
      ensures Valid() && Look() == Tested(old(Look()), a.playerID, b.playerID)
    {
      hide Collides, Snake.View, Struck;
      var hit := a.CheckHeadCollision(b);
      if hit {
        Strike(a, b);
      }
    }

    /** The inner loop of the pairwise phase. */
    method ScanRow(list: seq<Snake>, i: nat, ghost ids: seq<string>)
      requires Valid() && Holds(list, ids) && i < |list|
      requires Listed(Look(), ids)
      modifies snakes.Values
      ensures Valid() && Look() == RowAfter(old(Look()), ids, i, |ids|)
    {
      hide Snake.View, Look, Tested, RowAfter;
      RowNone(Look(), ids, i);
      for j := 0 to |list|
        invariant Valid()
        invariant Look() == RowAfter(old(Look()), ids, i, j)
      {
        RowStep(old(Look()), ids, i, j);
        if i != j {
          assert ids[i] != ids[j];
          TestPair(list[i], list[j]);
        }
      }
    }

    method CheckInterSnakeCollisions() returns (ghost ids: seq<string>)
      requires Valid()
      modifies snakes.Values
      ensures Valid() && ListsLiving(ids, old(Look()))
      ensures Look() == Rows(old(Look()), ids, |ids|)
    {
      hide Snake.View, RowAfter, Rows;
      var list: seq<Snake>;
      list, ids := CollectAlive();
      RowsNone(Look(), ids);
      for i := 0 to |list|
        invariant Valid()
        invariant Look() == Rows(old(Look()), ids, i)
      {
        ScanRow(list, i, ids);
        RowsNext(old(Look()), ids, i);
      }
    }

    /** The body of one snake, if it is dead, becomes food. */
    method DropFoodOf(id: string)
      requires Valid() && id in snakes
      modifies food
      ensures Valid() && Look() == old(Look())
      ensures food.View() == DropOne(old(food.View()), Look()[id])
    {
      hide FoodManager.View, Dropped, DropSpots;
      if !snakes[id].alive {
        var positions := snakes[id].DropFood();
        food.SpawnAtPositions(positions, DEATH_FOOD_VALUE);
      }
    }

    method HandleDeaths() returns (ghost order: seq<string>)
      requires Valid()
      modifies food
      ensures Valid() && Visits(order, snakes.Keys)
      ensures Look() == old(Look())
      ensures Walked(order, snakes.Keys) && food.View() == DropAll(old(food.View()), Look(), order)
    {
      hide Visits, Snake.View, FoodManager.View, DropAll, DropOne;
      order := [];
      ghost var start, table, done := food.View(), Look(), {};
      var rest := snakes.Keys;
      DropNone(start, table);
      VisitNone();
      while rest != {}
        invariant done + rest == snakes.Keys && done !! rest
        invariant Visits(order, done) && Walked(order, snakes.Keys)
        invariant Valid() && Look() == table && food.View() == DropAll(start, table, order)
        decreases |rest|
      {
        var id :| id in rest;
        DropFoodOf(id);
        VisitOneMore(order, done, id);
        DropAppend(start, table, order, id);
        PickOne(snakes.Keys, done, rest, id);
        order, done := order + [id], done + {id};
        rest := rest - {id};
      }
    }

    /** g is the room as the current tick found it, but for the tick counter. */
    ghost predicate Began(g: GameState)
      requires Valid()
      reads this, food, snakes.Values
    {
      g == View().(tick := g.tick)
    }

    /** Phases 1 to 5: inputs, movement, food, walls and own bodies. */
    method MoveAndCheck(ghost g: GameState) returns (ghost c: Choices)
      requires Valid() && Began(g)
      modifies this`inputCh, food, snakes.Values
      ensures Valid() && inputCh == [] && g.snakes.Keys == snakes.Keys && Visits(c.eating, g.snakes.Keys)
      ensures Look() == Checked(g, c) && food.View() == AfterMeal(g, c).food
    {
      hide FoodManager.View, Look, Visits, SteerAll, MoveAll, EatAll, CheckAll;
      LookNamesEveryPlayer();
      DrainInputs();
      MoveSnakes();
      LookNamesEveryPlayer();
      assert food.View() == old(food.View());
      ghost var eating := FeedSnakes();
      c := Choices(eating, [], [], []);
      ghost var fed := food.View();
      CheckBodies();
      assert food.View() == fed;
    }

    /** Phases 6 and 7: the pairwise scan and the food that dead snakes become. */
    method FightAndDrop(ghost g: GameState, ghost c0: Choices) returns (ghost c: Choices)
      requires Valid() && g.snakes.Keys == snakes.Keys && Visits(c0.eating, g.snakes.Keys)
      requires Look() == Checked(g, c0) && food.View() == AfterMeal(g, c0).food
      modifies food, snakes.Values
      ensures Valid() && Visits(c.eating, g.snakes.Keys) && ListsLiving(c.scanning, Checked(g, c))
      ensures Visits(c.dropping, g.snakes.Keys)
      ensures Look() == Fought(g, c) && food.View() == Littered(g, c)
    {
      hide Snake.View, FoodManager.View, Visits, ListsLiving, AfterMeal, CheckAll, Rows, DropAll;
      ghost var fed := food.View();
      ghost var scanning := CheckInterSnakeCollisions();
      assert food.View() == fed;
      ghost var dropping := HandleDeaths();
      c := c0.(scanning := scanning, dropping := dropping);
      SameEating(g, c0, c);
    }

    method ReplenishFood() returns (ghost draws: seq<Draw>)
      requires Valid() && Stocked(food.View())
      modifies food
      ensures Valid() && Look() == old(Look())
      ensures |draws| == Shortage(old(food.View())) && Fractions(draws)
      ensures food.View() == SpawnedAll(old(food.View()), draws)
    {
      hide FoodManager.View, Snake.View, Stocked, Shortage, Fractions, SpawnedAll;
      draws := food.Replenish();
    }

    /** One simulation step. Everything the code leaves open is reported in c. */
    method ProcessTick() returns (ghost c: Choices)
      requires Valid() && Accounted(View())
      modifies this, food, snakes.Values
      ensures Valid() && Fits(old(View()), c) && View() == Ticked(old(View()), c)
      ensures Accounted(View()) && Safe(View())
    {
      hide Snake.View, FoodManager.View, Look, Accounted, Safe, Visits, ListsLiving, AfterMeal, Checked, Fought,
        Littered, SpawnedAll, Shortage, Fractions, Stocked;
      ghost var g := View();
      tick := tick + 1;
      ghost var c1 := MoveAndCheck(g);
      ghost var c2 := FightAndDrop(g, c1);
      LitteringKeepsFood(g, c2);
      ghost var draws := ReplenishFood();
      c := c2.(draws := draws);
      SameScan(g, c2, c);
      assert View() == Ticked(g, c);
      TickKeepsAccounts(g, c);
      TickIsSafe(g, c);
    }
  }

  lemma SameEating(g: GameState, c: Choices, d: Choices)
    requires d.eating == c.eating && Visits(c.eating, g.snakes.Keys)
    ensures AfterMeal(g, d) == AfterMeal(g, c) && Checked(g, d) == Checked(g, c)
  {
  }

  lemma SameScan(g: GameState, c: Choices, d: Choices)
    requires d.eating == c.eating && d.scanning == c.scanning && d.dropping == c.dropping
    requires Visits(c.eating, g.snakes.Keys) && ListsLiving(c.scanning, Checked(g, c))
    requires Visits(c.dropping, g.snakes.Keys)
    ensures ListsLiving(d.scanning, Checked(g, d))
    ensures Fought(g, d) == Fought(g, c) && Littered(g, d) == Littered(g, c)
  {
  }

  ghost predicate Walked(order: seq<string>, keys: set<string>)
  {
    forall i :: 0 <= i < |order| ==> order[i] in keys
  }

  lemma VisitNone()
    ensures Visits([], {})
  {
  }

  lemma SteerNone(snakes: Roster)
    ensures SteerAll(snakes, []) == snakes
  {
  }

  lemma SteerAppend(snakes: Roster, inputs: seq<PlayerInput>, input: PlayerInput)
    ensures SteerAll(snakes, inputs + [input]) == SteerOne(SteerAll(snakes, inputs), input)
  {
    assert (inputs + [input])[..|inputs|] == inputs;
  }

  lemma EatNone(t: Table)
    ensures EatAll(t, []) == t
  {
  }

  lemma EatAppend(t: Table, order: seq<string>, id: string)
    requires id in t.snakes && forall i :: 0 <= i < |order| ==> order[i] in t.snakes
    ensures EatAll(t, order + [id]) == EatOne(EatAll(t, order), id)
  {
    assert (order + [id])[..|order|] == order;
  }

  lemma VisitOneMore(order: seq<string>, keys: set<string>, id: string)
    requires Visits(order, keys) && id !in keys
    ensures Visits(order + [id], keys + {id})
  {
    forall k | k in keys + {id}
      ensures exists i :: 0 <= i < |order + [id]| && (order + [id])[i] == k
    {
      if k == id {
        assert (order + [id])[|order|] == k;
      } else {
        var i :| 0 <= i < |order| && order[i] == k;
        assert (order + [id])[i] == k;
      }
    }
  }

  lemma PickOne(keys: set<string>, done: set<string>, rest: set<string>, id: string)
    requires done + rest == keys && done !! rest && id in rest
    ensures (done + {id}) + (rest - {id}) == keys && (done + {id}) !! (rest - {id})
  {
  }

  lemma RowsNone(snakes: Roster, ids: seq<string>)
    requires Listed(snakes, ids)
    ensures Rows(snakes, ids, 0) == snakes
  {
  }

  lemma RowNone(snakes: Roster, ids: seq<string>, i: nat)
    requires Listed(snakes, ids) && i < |ids|
    ensures RowAfter(snakes, ids, i, 0) == snakes
  {
  }

  lemma RowsNext(snakes: Roster, ids: seq<string>, i: nat)
    requires Listed(snakes, ids) && i < |ids|
    ensures Rows(snakes, ids, i + 1) == RowAfter(Rows(snakes, ids, i), ids, i, |ids|)
  {
  }

  lemma DropNone(food: FoodState, snakes: Roster)
    ensures DropAll(food, snakes, []) == food
  {
  }

  lemma DropAppend(food: FoodState, snakes: Roster, order: seq<string>, id: string)
    requires id in snakes && Walked(order, snakes.Keys)
    ensures DropAll(food, snakes, order + [id]) == DropOne(DropAll(food, snakes, order), snakes[id])
  {
    assert (order + [id])[..|order|] == order;
  }
}
