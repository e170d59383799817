/** Where snakes and food can be, and what holds of the living at the end of every tick. */
module Safety {
  import opened Geometry
  import opened SnakeModel
  import opened FoodModel
  import opened Elimination
  import opened GameModel
  import opened Eating
  import opened Steering

  // ---- Safety at the end of a tick -----------------------------------------------------------

  /** A living snake has its head in the arena and at least 14 from its own segments from the fifth on. */
  ghost predicate SafeAlone(s: SnakeState, w: real, h: real)
  {
    s.alive && s.segments != [] ==>
      && 0.0 <= s.segments[0].x <= w && 0.0 <= s.segments[0].y <= h
      && forall k :: 4 <= k < |s.segments| ==> DistSquared(s.segments[0], s.segments[k]) >= 196.0
  }

  /** If both live, the head of one is at least 14 from every segment of the other. */
  ghost predicate Clear(s: SnakeState, other: SnakeState)
  {
    s.alive && other.alive && s.segments != [] ==>
      forall k :: 0 <= k < |other.segments| ==> DistSquared(s.segments[0], other.segments[k]) >= 196.0
  }

  ghost predicate Safe(g: GameState)
  {
    && (forall id :: id in g.snakes ==> SafeAlone(g.snakes[id], g.arenaW, g.arenaH))
    && (forall a, b :: a in g.snakes && b in g.snakes && a != b ==> Clear(g.snakes[a], g.snakes[b]))
  }

  lemma CheckedIsSafe(s: SnakeState, w: real, h: real)
    ensures SafeAlone(SelfChecked(WallChecked(s, w, h)), w, h)
  {
    SelfHitExactly(WallChecked(s, w, h));
    hide Touches, DistSquared;
  }

  lemma NoCollisionIsClear(s: SnakeState, other: SnakeState)
    requires !Collides(s, other)
    ensures Clear(s, other)
  {
    BodyHitExactly(Head(s), other.segments);
    hide DistSquared;
  }

  lemma CheckedAreSafe(snakes: Roster, w: real, h: real)
    ensures forall id :: id in snakes ==> SafeAlone(CheckAll(snakes, w, h)[id], w, h)
  {
    hide SafeAlone, SelfChecked, WallChecked;
    forall id | id in snakes
      ensures SafeAlone(CheckAll(snakes, w, h)[id], w, h)
    {
      CheckedIsSafe(snakes[id], w, h);
    }
  }

  /** Only the living can die of the scan, so a safe snake stays safe. */
  lemma ScannedIsSafe(s: SnakeState, t: SnakeState, w: real, h: real)
    requires SafeAlone(s, w, h) && t.segments == s.segments && (t.alive ==> s.alive)
    ensures SafeAlone(t, w, h)
  {
    hide Inside, Touches;
  }

  /** The end of every tick is safe, whatever the state it began in and however its choices fell. */
  lemma TickIsSafe(g: GameState, c: Choices)
    requires Fits(g, c)
    ensures Safe(Ticked(g, c))
  {
    hide SafeAlone, Clear, Collides, Scanned, AfterMeal, Rows, Littered, SpawnedAll;
    var ids, before := c.scanning, Checked(g, c);
    CheckedAreSafe(AfterMeal(g, c).snakes, g.arenaW, g.arenaH);
    var t := SequentialElimination(before, ids);
    ScannedFacts(before, t, ids);
    forall id | id in t
      ensures SafeAlone(t[id], g.arenaW, g.arenaH)
    {
      ScannedIsSafe(before[id], t[id], g.arenaW, g.arenaH);
    }
    forall a, b | a in t && b in t && a != b
      ensures Clear(t[a], t[b])
    {
      OnlyTheLivingCollide(t[a], t[b]);
      if t[a].alive && t[b].alive {
        var i :| 0 <= i < |ids| && ids[i] == a;
        var j :| 0 <= j < |ids| && ids[j] == b;
        SurvivorsKeepClear(before, t, ids, i, j);
      }
      NoCollisionIsClear(t[a], t[b]);
    }
  }

  lemma OnlyTheLivingCollide(s: SnakeState, t: SnakeState)
    ensures Collides(s, t) ==> s.alive && t.alive
  {
  }

  lemma ScannedFacts(snakes: Roster, t: Roster, ids: seq<string>)
    requires Listed(snakes, ids) && Scanned(snakes, t, ids, |ids|)
    ensures SamePlaces(snakes, t)
    ensures forall id :: id in snakes && t[id].alive ==> snakes[id].alive
  {
  }

  // ---- Containment ---------------------------------------------------------------------------

  /** Everything but the head is in the arena, and the head is at most 10 outside. */
  ghost predicate Loose(s: SnakeState, w: real, h: real)
  {
    && (forall k :: 1 <= k < |s.segments| ==> Inside(s.segments[k], w, h, 0.0))
    && (s.segments != [] ==> Inside(s.segments[0], w, h, 10.0))
  }

  /** Loose, and a living snake has its head inside too. */
  ghost predicate Housed(s: SnakeState, w: real, h: real)
  {
    Loose(s, w, h) && (s.alive ==> !HitsWall(s, w, h))
  }

  ghost predicate AllLoose(snakes: Roster, w: real, h: real)
  {
    forall id :: id in snakes ==> Loose(snakes[id], w, h)
  }

  ghost predicate AllHoused(snakes: Roster, w: real, h: real)
  {
    forall id :: id in snakes ==> Housed(snakes[id], w, h)
  }

  lemma SpawnedIsHoused(id: string, name: string, w: real, h: real, d: Draw)
    requires w >= 200.0 && h >= 200.0 && IsFraction(d)
    ensures Housed(Spawned(id, name, RandomSpot(w, h, SPAWN_PADDING, d)), w, h)
  {
    RandomSpotIsPadded(w, h, SPAWN_PADDING, d);
    hide RandomSpot;
  }

  lemma MoveLoosens(s: SnakeState, w: real, h: real)
    requires Housed(s, w, h) && s.segments != [] && s.speed == BASE_SPEED
    ensures Loose(Advanced(s), w, h)
  {
    if s.alive {
      var t := Advanced(s);
      assert Inside(s.segments[0], w, h, 0.0);
      forall k | 1 <= k < |t.segments|
        ensures Inside(t.segments[k], w, h, 0.0)
      {
        assert t.segments[k] == s.segments[k - 1];
      }
    }
  }

  lemma SteeringKeepsHouse(snakes: Roster, inputs: seq<PlayerInput>, w: real, h: real)
    requires AllHoused(snakes, w, h)
    ensures AllHoused(SteerAll(snakes, inputs), w, h)
  {
    hide Inside;
    forall id | id in snakes
      ensures Housed(SteerAll(snakes, inputs)[id], w, h)
    {
      InputProjection(snakes, inputs, id);
      SteeringIsOnlySteering(snakes[id], Own(inputs, id));
    }
  }

  lemma MovingLoosens(snakes: Roster, w: real, h: real)
    requires AllHoused(snakes, w, h)
    requires forall id :: id in snakes ==> snakes[id].segments != [] && snakes[id].speed == BASE_SPEED
    ensures AllLoose(MoveAll(snakes), w, h)
  {
    hide Housed, Loose, Advanced;
    forall id | id in snakes
      ensures Loose(Advanced(snakes[id]), w, h)
    {
      MoveLoosens(snakes[id], w, h);
    }
  }

  lemma SamePlacesStayLoose(s: Roster, t: Roster, w: real, h: real)
    requires AllLoose(s, w, h) && t.Keys == s.Keys
    requires forall id :: id in s ==> t[id].segments == s[id].segments
    ensures AllLoose(t, w, h)
  {
    hide Inside;
  }

  lemma CheckingHouses(snakes: Roster, w: real, h: real)
    requires AllLoose(snakes, w, h)
    ensures AllHoused(CheckAll(snakes, w, h), w, h)
  {
    hide Inside, Touches, HitsSelf;
    forall id | id in snakes
      ensures Housed(CheckAll(snakes, w, h)[id], w, h)
    {
      var t := CheckAll(snakes, w, h)[id];
      assert t == snakes[id] || t == Killed(snakes[id]);
    }
  }

  lemma ScanningKeepsHouse(s: Roster, t: Roster, w: real, h: real)
    requires AllHoused(s, w, h) && SamePlaces(s, t)
    requires forall id :: id in s && t[id].alive ==> s[id].alive
    ensures AllHoused(t, w, h)
  {
    hide Inside;
  }

  // ---- Food places ---------------------------------------------------------------------------

  lemma EatingKeepsPlaces(t: Table, order: seq<string>)
    requires Visits(order, t.snakes.Keys) && Placed(t.food)
    ensures
      var f := EatAll(t, order).food;
      Placed(f) && f.arenaW == t.food.arenaW && f.arenaH == t.food.arenaH
  {
    EatingLeavesUnclaimed(t, order);
    EatingKeepsArena(t, order);
    hide Inside, EatAll;
  }

  lemma {:induction false} EatingKeepsArena(t: Table, order: seq<string>)
    requires forall i :: 0 <= i < |order| ==> order[i] in t.snakes
    ensures EatAll(t, order).food.arenaW == t.food.arenaW && EatAll(t, order).food.arenaH == t.food.arenaH
  {
    hide Gain, Reached, Fed;
    if order != [] {
      EatingKeepsArena(t, order[..|order| - 1]);
    }
  }

  lemma {:induction false} DropAllKeepsPlaces(food: FoodState, snakes: Roster, order: seq<string>)
    requires forall i :: 0 <= i < |order| ==> order[i] in snakes
    requires Placed(food) && AllLoose(snakes, food.arenaW, food.arenaH)
    ensures
      var f := DropAll(food, snakes, order);
      Placed(f) && f.arenaW == food.arenaW && f.arenaH == food.arenaH
  {
    hide Placed, Dropped;
    if order != [] {
      var most := order[..|order| - 1];
      DropAllKeepsPlaces(food, snakes, most);
      OneDropKeepsPlaces(DropAll(food, snakes, most), snakes[order[|order| - 1]]);
    }
  }

  lemma OneDropKeepsPlaces(food: FoodState, s: SnakeState)
    requires Placed(food) && Loose(s, food.arenaW, food.arenaH)
    ensures
      var f := DropOne(food, s);
      Placed(f) && f.arenaW == food.arenaW && f.arenaH == food.arenaH
  {
    var spots := DropSpots(s);
    forall i | 0 <= i < |spots|
      ensures Inside(spots[i], food.arenaW, food.arenaH, 10.0)
    {
      assert spots[i] == s.segments[2 * i];
    }
    DroppingKeepsPlaces(food, spots);
    DroppingKeepsArena(food, spots);
  }

  lemma {:induction false} DroppingKeepsArena(food: FoodState, positions: seq<Vec2>)
    ensures
      var f := Dropped(food, positions, DEATH_FOOD_VALUE);
      f.arenaW == food.arenaW && f.arenaH == food.arenaH
    decreases |positions|
  {
    if positions != [] && |food.items| < MAX_FOOD {
      DroppingKeepsArena(Added(food, positions[0], DEATH_FOOD_VALUE), positions[1..]);
    }
  }
}
