/** The food on the map and what spawning and eating make of it. */
module FoodModel {
  import opened Geometry
  import opened FoodIds
  import opened MapTotals

  const MAX_FOOD := 200
  const INITIAL_FOOD := 100
  const FOOD_VALUE := 1
  const DEATH_FOOD_VALUE := 2

  datatype FoodItem = FoodItem(id: string, position: Vec2, value: int)

  /** spawned and eaten account for every food value ever placed or consumed. */
  datatype FoodState = FoodState(
    items: map<string, FoodItem>, nextID: nat, arenaW: real, arenaH: real,
    spawned: int, eaten: int)

  /** A pair of random fractions, as drawn for each spawn. */
  datatype Draw = Draw(u: real, v: real)

  predicate IsFraction(d: Draw)
  {
    0.0 <= d.u < 1.0 && 0.0 <= d.v < 1.0
  }

  ghost predicate Fractions(draws: seq<Draw>)
  {
    forall i :: 0 <= i < |draws| ==> IsFraction(draws[i])
  }

  /** A random point of the arena, pad away from every wall. */
  function RandomSpot(w: real, h: real, pad: real, d: Draw): Vec2
  {
    Vec2(RandomCoordinate(w, pad, d.u), RandomCoordinate(h, pad, d.v))
  }

  function RandomCoordinate(size: real, pad: real, fraction: real): real
  {
    pad + fraction * (size - 2.0 * pad)
  }

  function Added(f: FoodState, pos: Vec2, value: int): FoodState
  {
    var id := FoodId(f.nextID + 1);
    f.(nextID := f.nextID + 1, items := f.items[id := FoodItem(id, pos, value)], spawned := f.spawned + value)
  }

  function SpawnedOne(f: FoodState, d: Draw): FoodState
  {
    Added(f, RandomSpot(f.arenaW, f.arenaH, 50.0, d), FOOD_VALUE)
  }

  function SpawnedAll(f: FoodState, draws: seq<Draw>): FoodState
  {
    if draws == [] then f else SpawnedOne(SpawnedAll(f, draws[..|draws| - 1]), draws[|draws| - 1])
  }

  function EmptyFood(arenaW: real, arenaH: real): FoodState
  {
    FoodState(map[], 0, arenaW, arenaH, 0, 0)
  }

  /** Places the positions in order and stops at the cap. */
  function Dropped(f: FoodState, positions: seq<Vec2>, value: int): FoodState
    decreases |positions|
  {
    if positions == [] || |f.items| >= MAX_FOOD then f
    else Dropped(Added(f, positions[0], value), positions[1..], value)
  }

  /** The map takes no more than its cap. */
  function UpToCap(n: int): int
  {
    if n <= MAX_FOOD then n else MAX_FOOD
  }

  /** How many items a replenishment adds. */
  function Shortage(f: FoodState): nat
  {
    if |f.items| < INITIAL_FOOD then INITIAL_FOOD - |f.items| else 0
  }

  function Reached(items: map<string, FoodItem>, head: Vec2): map<string, FoodItem>
  {
    map id | id in items && Reaches(head, items[id].position) :: items[id]
  }

  ghost function Worths(items: map<string, FoodItem>): map<string, int>
  {
    map id | id in items :: items[id].value
  }

  /** The total value of a set of items. */
  ghost function Worth(items: map<string, FoodItem>): int
  {
    Total(Worths(items))
  }

  ghost function Gain(f: FoodState, head: Vec2): int
  {
    Worth(Reached(f.items, head))
  }

  ghost function Consumed(f: FoodState, head: Vec2): FoodState
  {
    f.(items := f.items - Reached(f.items, head).Keys, eaten := f.eaten + Gain(f, head))
  }

  // ---- What every operation keeps ------------------------------------------------------------

  ghost predicate Filed(f: FoodState)
  {
    forall id :: id in f.items ==> f.items[id].id == id && id in Issued(f.nextID)
  }

  /** Keys are the items' own ids, all of them issued; the cap holds; the ledger balances. */
  ghost predicate Stocked(f: FoodState)
  {
    && Filed(f)
    && (forall id :: id in f.items ==> f.items[id].value == FOOD_VALUE || f.items[id].value == DEATH_FOOD_VALUE)
    && |f.items| <= MAX_FOOD
    && f.eaten >= 0
    && f.spawned == Worth(f.items) + f.eaten
  }

  /** Natural food keeps 50 from the walls; dropped food is at most 10 outside. */
  ghost predicate Placed(f: FoodState)
  {
    forall id :: id in f.items ==>
      Inside(f.items[id].position, f.arenaW, f.arenaH, if f.items[id].value == FOOD_VALUE then -50.0 else 10.0)
  }

  /** The counter only grows, and an item that is new to the map carries an id issued since. */
  ghost predicate FoodLater(f: FoodState, g: FoodState)
  {
    && f.nextID <= g.nextID
    && f.arenaW == g.arenaW && f.arenaH == g.arenaH
    && forall id :: id in g.items ==> (id in f.items && f.items[id] == g.items[id]) || id !in Issued(f.nextID)
  }

  lemma FoodLaterIsTransitive(a: FoodState, b: FoodState, c: FoodState)
    requires FoodLater(a, b) && FoodLater(b, c)
    ensures FoodLater(a, c)
  {
    IssuedGrows(a.nextID, b.nextID);
  }

  lemma AddingIsLater(f: FoodState, pos: Vec2, value: int)
    ensures FoodLater(f, Added(f, pos, value))
  {
    NextIdIsNew(f.nextID);
  }

  lemma NewKeyAddsOne(items: map<string, FoodItem>, id: string, item: FoodItem)
    requires id !in items
    ensures |items[id := item]| == |items| + 1
    ensures Worth(items[id := item]) == Worth(items) + item.value
  {
    assert items[id := item].Keys == items.Keys + {id};
    assert Worths(items[id := item]) == Worths(items)[id := item.value];
    TotalUpdate(Worths(items), id, item.value);
  }

  lemma AddingKeepsFiling(f: FoodState, pos: Vec2, value: int)
    requires Filed(f)
    ensures Filed(Added(f, pos, value))
  {
    NextIdIsNew(f.nextID);
  }

  lemma AddingKeepsStock(f: FoodState, pos: Vec2, value: int)
    requires Stocked(f) && |f.items| < MAX_FOOD
    requires value == FOOD_VALUE || value == DEATH_FOOD_VALUE
    ensures Stocked(Added(f, pos, value))
    ensures |Added(f, pos, value).items| == |f.items| + 1
  {
    var id := FoodId(f.nextID + 1);
    NextIdIsNew(f.nextID);
    assert id !in f.items;
    NewKeyAddsOne(f.items, id, FoodItem(id, pos, value));
    AddingKeepsFiling(f, pos, value);
  }

  lemma {:induction false} SpawningKeepsStock(f: FoodState, draws: seq<Draw>)
    requires Stocked(f) && |f.items| + |draws| <= MAX_FOOD
    ensures Stocked(SpawnedAll(f, draws)) && FoodLater(f, SpawnedAll(f, draws))
    ensures |SpawnedAll(f, draws).items| == |f.items| + |draws|
    ensures SpawnedAll(f, draws).eaten == f.eaten
  {
    if draws != [] {
      var most := draws[..|draws| - 1];
      SpawningKeepsStock(f, most);
      var before := SpawnedAll(f, most);
      AddingKeepsStock(before, RandomSpot(before.arenaW, before.arenaH, 50.0, draws[|draws| - 1]), FOOD_VALUE);
      AddingIsLater(before, RandomSpot(before.arenaW, before.arenaH, 50.0, draws[|draws| - 1]), FOOD_VALUE);
      FoodLaterIsTransitive(f, before, SpawnedAll(f, draws));
    }
  }

  lemma RandomSpotIsPadded(w: real, h: real, pad: real, d: Draw)
    requires IsFraction(d) && w >= 2.0 * pad && h >= 2.0 * pad
    ensures Inside(RandomSpot(w, h, pad, d), w, h, -pad)
  {
    CoordinateIsPadded(w, pad, d.u);
    CoordinateIsPadded(h, pad, d.v);
  }

  lemma CoordinateIsPadded(size: real, pad: real, fraction: real)
    requires 0.0 <= fraction < 1.0 && size >= 2.0 * pad
    ensures pad <= RandomCoordinate(size, pad, fraction) <= size - pad
  {
    var span := size - 2.0 * pad;
    ProductIsNonNegative(fraction, span);
    ProductIsNonNegative(1.0 - fraction, span);
    assert (1.0 - fraction) * span == span - fraction * span;
  }

  lemma {:induction false} SpawningKeepsPlaces(f: FoodState, draws: seq<Draw>)
    requires Placed(f) && f.arenaW >= 100.0 && f.arenaH >= 100.0
    requires Fractions(draws)
    ensures Placed(SpawnedAll(f, draws))
    ensures SpawnedAll(f, draws).arenaW == f.arenaW && SpawnedAll(f, draws).arenaH == f.arenaH
  {
    if draws != [] {
      SpawningKeepsPlaces(f, draws[..|draws| - 1]);
      RandomSpotIsPadded(f.arenaW, f.arenaH, 50.0, draws[|draws| - 1]);
    }
  }

  lemma {:induction false} DroppingKeepsStock(f: FoodState, positions: seq<Vec2>)
    requires Stocked(f)
    ensures Stocked(Dropped(f, positions, DEATH_FOOD_VALUE)) && FoodLater(f, Dropped(f, positions, DEATH_FOOD_VALUE))
    ensures |Dropped(f, positions, DEATH_FOOD_VALUE).items| >= |f.items|
    ensures Dropped(f, positions, DEATH_FOOD_VALUE).eaten == f.eaten
    decreases |positions|
  {
    if positions != [] && |f.items| < MAX_FOOD {
      var next := Added(f, positions[0], DEATH_FOOD_VALUE);
      AddingKeepsStock(f, positions[0], DEATH_FOOD_VALUE);
      AddingIsLater(f, positions[0], DEATH_FOOD_VALUE);
      DroppingKeepsStock(next, positions[1..]);
      FoodLaterIsTransitive(f, next, Dropped(f, positions, DEATH_FOOD_VALUE));
    }
  }

  /** Dropping places every position until the cap is reached. */
  lemma {:induction false} DroppingFillsUp(f: FoodState, positions: seq<Vec2>)
    requires Stocked(f)
    ensures |Dropped(f, positions, DEATH_FOOD_VALUE).items| == UpToCap(|f.items| + |positions|)
    decreases |positions|
  {
    if positions != [] && |f.items| < MAX_FOOD {
      AddingKeepsStock(f, positions[0], DEATH_FOOD_VALUE);
      DroppingFillsUp(Added(f, positions[0], DEATH_FOOD_VALUE), positions[1..]);
    }
  }

  /** Nothing on the map of f is gone or changed in g. */
  ghost predicate StillThere(f: FoodState, g: FoodState)
  {
    forall id :: id in f.items ==> id in g.items && g.items[id] == f.items[id]
  }

  lemma AddingLeavesAlone(f: FoodState, pos: Vec2, value: int)
    requires Filed(f)
    ensures Filed(Added(f, pos, value)) && StillThere(f, Added(f, pos, value))
    ensures FoodId(f.nextID + 1) !in f.items && |Added(f, pos, value).items| == |f.items| + 1
  {
    AddingKeepsFiling(f, pos, value);
    NextIdIsNew(f.nextID);
    NewKeyAddsOne(f.items, FoodId(f.nextID + 1), FoodItem(FoodId(f.nextID + 1), pos, value));
  }

  lemma {:induction false} SpawningLeavesAlone(f: FoodState, draws: seq<Draw>)
    requires Filed(f)
    ensures Filed(SpawnedAll(f, draws)) && StillThere(f, SpawnedAll(f, draws))
  {
    hide Filed, FoodId;
    if draws != [] {
      var before := SpawnedAll(f, draws[..|draws| - 1]);
      SpawningLeavesAlone(f, draws[..|draws| - 1]);
      AddingLeavesAlone(before, RandomSpot(before.arenaW, before.arenaH, 50.0, draws[|draws| - 1]), FOOD_VALUE);
    }
  }

  lemma {:induction false} SpawnedAtDraw(f: FoodState, draws: seq<Draw>, i: nat)
    requires Filed(f) && i < |draws|
    ensures
      var g, id := SpawnedAll(f, draws), FoodId(f.nextID + 1 + i);
      id in g.items && g.items[id].value == 1 && g.items[id].position == RandomSpot(f.arenaW, f.arenaH, 50.0, draws[i])
  {
    hide Filed, FoodId, RandomSpot;
    var most, last := draws[..|draws| - 1], draws[|draws| - 1];
    var before := SpawnedAll(f, most);
    SpawningLeavesAlone(f, most);
    SpawningKeepsCounting(f, most);
    AddingLeavesAlone(before, RandomSpot(before.arenaW, before.arenaH, 50.0, last), FOOD_VALUE);
    if i < |most| {
      SpawnedAtDraw(f, most, i);
    }
  }

  lemma SpotInCoordinates(w: real, h: real, d: Draw)
    ensures RandomSpot(w, h, 50.0, d) == Vec2(50.0 + d.u * (w - 100.0), 50.0 + d.v * (h - 100.0))
  {
    assert w - 2.0 * 50.0 == w - 100.0 && h - 2.0 * 50.0 == h - 100.0;
  }

  /** The i-th spawned item is one point at the drawn place, 50 from the walls, under the next ids in order. */
  lemma SpawnedExactly(f: FoodState, draws: seq<Draw>, i: nat)
    requires Filed(f) && i < |draws|
    ensures SpawnedAll(f, draws).nextID == f.nextID + |draws|
    ensures
      var g, id, d := SpawnedAll(f, draws), FoodId(f.nextID + 1 + i), draws[i];
      && id in g.items && g.items[id].value == 1
      && g.items[id].position == Vec2(50.0 + d.u * (f.arenaW - 100.0), 50.0 + d.v * (f.arenaH - 100.0))
  {
    hide Filed, FoodId, SpawnedAll, RandomSpot;
    SpawnedAtDraw(f, draws, i);
    SpawningKeepsCounting(f, draws);
    SpotInCoordinates(f.arenaW, f.arenaH, draws[i]);
  }

  lemma {:induction false} SpawningKeepsCounting(f: FoodState, draws: seq<Draw>)
    ensures
      var g := SpawnedAll(f, draws);
      g.nextID == f.nextID + |draws| && g.arenaW == f.arenaW && g.arenaH == f.arenaH
  {
    if draws != [] {
      SpawningKeepsCounting(f, draws[..|draws| - 1]);
    }
  }

  /** How many of count items find room. */
  function PlacesLeft(f: FoodState, count: nat): nat
  {
    if |f.items| >= 200 then 0 else if |f.items| + count <= 200 then count else 200 - |f.items|
  }

  lemma {:induction false} DroppingLeavesAlone(f: FoodState, positions: seq<Vec2>)
    requires Filed(f)
    ensures
      var g := Dropped(f, positions, DEATH_FOOD_VALUE);
      Filed(g) && StillThere(f, g) && g.nextID == f.nextID + PlacesLeft(f, |positions|)
    decreases |positions|
  {
    hide Filed, FoodId;
    if positions != [] && |f.items| < MAX_FOOD {
      AddingLeavesAlone(f, positions[0], DEATH_FOOD_VALUE);
      DroppingLeavesAlone(Added(f, positions[0], DEATH_FOOD_VALUE), positions[1..]);
    }
  }

  /** Dropped food is two points at each position, in their order, as far as there is room. */
  lemma {:induction false} DroppedExactly(f: FoodState, positions: seq<Vec2>, i: nat)
    requires Filed(f) && i < PlacesLeft(f, |positions|)
    ensures
      var g, id := Dropped(f, positions, DEATH_FOOD_VALUE), FoodId(f.nextID + 1 + i);
      id in g.items && id !in f.items && g.items[id].position == positions[i] && g.items[id].value == 2
    decreases |positions|
  {
    hide Filed, FoodId;
    var next := Added(f, positions[0], DEATH_FOOD_VALUE);
    AddingLeavesAlone(f, positions[0], DEATH_FOOD_VALUE);
    if i == 0 {
      DroppingLeavesAlone(next, positions[1..]);
    } else {
      assert f.nextID + 1 + i == next.nextID + 1 + (i - 1);
      DroppedExactly(next, positions[1..], i - 1);
    }
  }

  /** Every point between the pads, up to the far ones, is the outcome of some draw. */
  lemma EverySpotCanBeDrawn(w: real, h: real, pad: real, p: Vec2) returns (d: Draw)
    requires w > 2.0 * pad && h > 2.0 * pad && pad <= p.x < w - pad && pad <= p.y < h - pad
    ensures IsFraction(d) && RandomSpot(w, h, pad, d) == p
  {
    var u := EveryCoordinateCanBeDrawn(w, pad, p.x);
    var v := EveryCoordinateCanBeDrawn(h, pad, p.y);
    d := Draw(u, v);
  }

  lemma QuotientIsPositive(a: real, b: real)
    requires b > 0.0
    ensures a * b >= 0.0 ==> a >= 0.0
    ensures a * b > 0.0 ==> a > 0.0
  {
    if a < 0.0 {
      ProductIsPositive(-a, b);
      assert -a * b == -(a * b);
    }
  }

  lemma EveryCoordinateCanBeDrawn(size: real, pad: real, x: real) returns (u: real)
    requires size > 2.0 * pad && pad <= x < size - pad
    ensures 0.0 <= u < 1.0 && RandomCoordinate(size, pad, u) == x
  {
    var span := size - 2.0 * pad;
    u := (x - pad) / span;
    assert u * span == x - pad && (1.0 - u) * span == span - u * span;
    QuotientIsPositive(u, span);
    QuotientIsPositive(1.0 - u, span);
  }

  lemma {:induction false} DroppingKeepsPlaces(f: FoodState, positions: seq<Vec2>)
    requires Placed(f)
    requires forall i :: 0 <= i < |positions| ==> Inside(positions[i], f.arenaW, f.arenaH, 10.0)
    ensures Placed(Dropped(f, positions, DEATH_FOOD_VALUE))
    decreases |positions|
  {
    if positions != [] && |f.items| < MAX_FOOD {
      DroppingKeepsPlaces(Added(f, positions[0], DEATH_FOOD_VALUE), positions[1..]);
    }
  }

  lemma WorthSplits(items: map<string, FoodItem>, head: Vec2)
    ensures Worth(items) == Worth(Reached(items, head)) + Worth(items - Reached(items, head).Keys)
  {
    var part := Reached(items, head).Keys;
    TotalSplit(Worths(items), part);
    assert Worths(Reached(items, head)) == map k | k in Worths(items) && k in part :: Worths(items)[k];
    assert Worths(items - part) == Worths(items) - part;
  }

  /** Eating moves value from the map to the eaten account, all of it and nothing else. */
  lemma EatingKeepsStock(f: FoodState, head: Vec2)
    requires Stocked(f)
    ensures Stocked(Consumed(f, head)) && FoodLater(f, Consumed(f, head))
    ensures Worth(Consumed(f, head).items) + Gain(f, head) == Worth(f.items)
    ensures Gain(f, head) >= 0
  {
    WorthSplits(f.items, head);
    TotalNonNegative(Worths(Reached(f.items, head)));
    SubsetIsSmaller(Consumed(f, head).items.Keys, f.items.Keys);
  }

  lemma SubsetIsSmaller(a: set<string>, b: set<string>)
    requires a <= b
    ensures |a| <= |b|
  {
    assert b == a + (b - a);
  }

  /** The map never holds more than 400 points of food. */
  lemma WorthIsCapped(f: FoodState)
    requires Stocked(f)
    ensures 0 <= Worth(f.items) <= 2 * MAX_FOOD
  {
    TotalNonNegative(Worths(f.items));
    TotalAtMostTwice(Worths(f.items));
    assert Worths(f.items).Keys == f.items.Keys;
    assert |Worths(f.items)| == |f.items|;
  }
}
