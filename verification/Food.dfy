/** The mutable food manager of the engine. */
module Foods {
  import opened Geometry
  import opened FoodIds
  import opened FoodModel

  class FoodManager {
    var items: map<string, FoodItem>
    var nextID: nat
    const arenaW: real
    const arenaH: real
    ghost var spawned: int
    ghost var eaten: int

    ghost function View(): FoodState
      reads this
    {
      FoodState(items, nextID, arenaW, arenaH, spawned, eaten)
    }

    constructor (arenaW: real, arenaH: real)
      ensures this.arenaW == arenaW && this.arenaH == arenaH
      ensures exists draws :: |draws| == INITIAL_FOOD && Fractions(draws) &&
                              View() == SpawnedAll(EmptyFood(arenaW, arenaH), draws)
    {
      this.arenaW, this.arenaH := arenaW, arenaH;
      items, nextID := map[], 0;
      spawned, eaten := 0, 0;
      new;
      ghost var draws := [];
      for i := 0 to INITIAL_FOOD
        invariant |draws| == i && Fractions(draws)
        invariant View() == SpawnedAll(EmptyFood(arenaW, arenaH), draws)
      {
        ghost var d := SpawnOne(FOOD_VALUE);
        assert (draws + [d])[..|draws|] == draws;
        draws := draws + [d];
      }
    }

    /** The random source is an arbitrary choice of two fractions. */
    method SpawnOne(value: int) returns (ghost d: Draw)
      modifies this
      ensures IsFraction(d)
      ensures View() == Added(old(View()), RandomSpot(arenaW, arenaH, 50.0, d), value)
    {
      nextID := nextID + 1;
      var id := FoodId(nextID);
      var draw: Draw :| IsFraction(draw) by {
        assert IsFraction(Draw(0.0, 0.0));
      }
      d := draw;
      items := items[id := FoodItem(id, RandomSpot(arenaW, arenaH, 50.0, draw), value)];
      spawned := spawned + value;
    }

    method SpawnAtPositions(positions: seq<Vec2>, value: int)
      modifies this
      ensures View() == Dropped(old(View()), positions, value)
    {
      hide FoodId;
      for i := 0 to |positions|
        invariant Dropped(View(), positions[i..], value) == Dropped(old(View()), positions, value)
      {
        if |items| >= MAX_FOOD {
          return;
        }
        nextID := nextID + 1;
        var id := FoodId(nextID);
        items := items[id := FoodItem(id, positions[i], value)];
        spawned := spawned + value;
        assert positions[i..][1..] == positions[i + 1..];
      }
    }

    /** Fills up to INITIAL_FOOD, never beyond; ends because every new id enlarges the map. */
    method Replenish() returns (ghost draws: seq<Draw>)
      requires Stocked(View())
      modifies this
      ensures |draws| == Shortage(old(View())) && Fractions(draws)
      ensures View() == SpawnedAll(old(View()), draws)
      ensures |items| == if |old(items)| < INITIAL_FOOD then INITIAL_FOOD else |old(items)|
    {
      draws := [];
      while |items| < INITIAL_FOOD
        invariant Fractions(draws)
        invariant View() == SpawnedAll(old(View()), draws)
        invariant |draws| <= Shortage(old(View())) && |items| == |old(items)| + |draws|
        decreases INITIAL_FOOD - |items|
      {
        ghost var d := SpawnOne(FOOD_VALUE);
        assert (draws + [d])[..|draws|] == draws;
        draws := draws + [d];
        SpawningKeepsStock(old(View()), draws);
      }
    }

    /** Consumes everything within reach, in whatever order the map is walked. */
    method CheckCollisions(head: Vec2) returns (totalScore: int)
      modifies this
      ensures View() == Consumed(old(View()), head)
      ensures totalScore == Gain(old(View()), head)
    {
      totalScore := 0;
      ghost var before, gone := items, {};
      var rest := items.Keys;
      while rest != {}
        invariant rest <= before.Keys && gone !! rest
        invariant forall id :: id in before && id !in rest ==>
          (id in gone <==> Reaches(head, before[id].position))
        invariant gone <= before.Keys && items == before - gone
        invariant totalScore == Worth(Part(before, gone))
        invariant nextID == old(nextID) && spawned == old(spawned) && eaten == old(eaten)
        decreases |rest|
      {
        var id :| id in rest;
        rest := rest - {id};
        if Reaches(head, items[id].position) {
          PartGrows(before, gone, id);
          totalScore := totalScore + items[id].value;
          items := items - {id};
          gone := gone + {id};
        }
      }
      PartIsReached(before, gone, head);
      eaten := eaten + totalScore;
    }
  }

  ghost function Part(items: map<string, FoodItem>, ids: set<string>): map<string, FoodItem>
  {
    map id | id in items && id in ids :: items[id]
  }

  lemma PartGrows(items: map<string, FoodItem>, ids: set<string>, id: string)
    requires id in items && id !in ids
    ensures Worth(Part(items, ids + {id})) == Worth(Part(items, ids)) + items[id].value
    ensures items - (ids + {id}) == items - ids - {id}
  {
    assert Part(items, ids + {id}) == Part(items, ids)[id := items[id]];
    NewKeyAddsOne(Part(items, ids), id, items[id]);
  }

  lemma PartIsReached(items: map<string, FoodItem>, ids: set<string>, head: Vec2)
    requires ids <= items.Keys
    requires forall id :: id in items ==> (id in ids <==> Reaches(head, items[id].position))
    ensures Part(items, ids) == Reached(items, head)
    ensures items - ids == items - Reached(items, head).Keys
  {
    assert Reached(items, head).Keys == ids;
  }
}
