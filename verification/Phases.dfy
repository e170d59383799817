/** What each phase of a tick keeps for every single snake, and what it does to the score totals. */
module Phases {
  import opened Geometry
  import opened MapTotals
  import opened SnakeModel
  import opened SnakeInvariant
  import opened FoodModel
  import opened Elimination
  import opened ScoreFlow
  import opened GameModel
  import opened Eating
  import opened Steering

  ghost predicate AllSound(snakes: Roster)
  {
    forall id :: id in snakes ==> Sound(snakes[id])
  }

  ghost predicate AllLater(s: Roster, t: Roster)
  {
    && t.Keys == s.Keys
    && forall id :: id in s ==> Later(s[id], t[id])
  }

  lemma AllLaterIsTransitive(a: Roster, b: Roster, c: Roster)
    requires AllLater(a, b) && AllLater(b, c)
    ensures AllLater(a, c)
  {
    hide Later;
    forall id | id in a
      ensures Later(a[id], c[id])
    {
      LaterIsTransitive(a[id], b[id], c[id]);
    }
  }

  // ---- Inputs and movement -------------------------------------------------------------------

  lemma OneIsSteered(s: SnakeState, inputs: seq<PlayerInput>)
    requires Sound(s)
    ensures
      var t := SteeredBy(s, inputs);
      Sound(t) && Later(s, t) && LivingScore(t) == LivingScore(s) && t.score == s.score && t.past.eaten == s.past.eaten
  {
    SteeringIsOnlySteering(s, inputs);
  }

  lemma SteeringKeeps(snakes: Roster, inputs: seq<PlayerInput>)
    requires AllSound(snakes)
    ensures
      var t := SteerAll(snakes, inputs);
      && AllSound(t) && AllLater(snakes, t) && Meals(t) == Meals(snakes)
      && LivingTotal(t) == LivingTotal(snakes)
      && forall id :: id in snakes ==> t[id].score == snakes[id].score
  {
    hide Sound, Later;
    var t := SteerAll(snakes, inputs);
    forall id | id in snakes
      ensures Sound(t[id]) && Later(snakes[id], t[id]) && LivingScore(t[id]) == LivingScore(snakes[id])
      ensures t[id].score == snakes[id].score && t[id].past.eaten == snakes[id].past.eaten
    {
      InputProjection(snakes, inputs, id);
      OneIsSteered(snakes[id], Own(inputs, id));
    }
    assert LivingScores(t) == LivingScores(snakes);
  }

  lemma OneIsMoved(s: SnakeState)
    requires Sound(s)
    ensures
      var t := Advanced(s);
      && Sound(t) && Later(s, t) && t.past.eaten == s.past.eaten
      && 0 <= t.score <= s.score && LivingScore(t) <= LivingScore(s)
  {
    hide Sound, Later, NextHead, NextMove;
    AdvancedIsSound(s);
    StepsAreLater(s, Right, false, 0);
  }

  lemma MovingKeeps(snakes: Roster, cap: int)
    requires AllSound(snakes) && Capped(snakes, cap)
    ensures
      var t := MoveAll(snakes);
      AllSound(t) && AllLater(snakes, t) && Meals(t) == Meals(snakes) && Capped(t, cap)
  {
    hide Sound, Later, Advanced, LivingScore;
    var t := MoveAll(snakes);
    forall id | id in snakes
      ensures Sound(t[id]) && Later(snakes[id], t[id]) && t[id].past.eaten == snakes[id].past.eaten
      ensures 0 <= t[id].score <= snakes[id].score && LivingScore(t[id]) <= LivingScore(snakes[id])
    {
      OneIsMoved(snakes[id]);
    }
    TotalAtMost(LivingScores(t), LivingScores(snakes));
  }

  // ---- Eating --------------------------------------------------------------------------------

  lemma OneIsFed(s: SnakeState, gain: int)
    requires Sound(s) && gain >= 0
    ensures Later(s, s)
    ensures s.alive ==> Sound(Fed(s, gain)) && Later(s, Fed(s, gain))
  {
    FedIsSound(s, gain);
    StepsAreLater(s, Right, false, gain);
  }

  lemma VisitKeeps(t: Table, id: string)
    requires AllSound(t.snakes) && Stocked(t.food) && id in t.snakes
    ensures AllSound(EatOne(t, id).snakes) && AllLater(t.snakes, EatOne(t, id).snakes) && Stocked(EatOne(t, id).food)
  {
    hide Sound, Later, Stocked, Gain, Consumed;
    var head := Head(t.snakes[id]);
    EatingKeepsStock(t.food, head);
    forall j | j in t.snakes
      ensures Later(t.snakes[j], t.snakes[j])
      ensures t.snakes[j].alive ==>
        Sound(Fed(t.snakes[j], Gain(t.food, head))) && Later(t.snakes[j], Fed(t.snakes[j], Gain(t.food, head)))
    {
      OneIsFed(t.snakes[j], Gain(t.food, head));
    }
  }

  lemma {:induction false} MealKeeps(tables: seq<Table>, order: seq<string>, n: nat)
    requires IsMeal(tables, order) && n <= |order|
    requires AllSound(tables[0].snakes) && Stocked(tables[0].food)
    ensures AllSound(tables[n].snakes) && Stocked(tables[n].food) && AllLater(tables[0].snakes, tables[n].snakes)
  {
    hide Sound, Later, Stocked, EatOne;
    if n == 0 {
      NothingIsLater(tables[0].snakes);
    } else {
      MealKeeps(tables, order, n - 1);
      VisitKeeps(tables[n - 1], order[n - 1]);
      AllLaterIsTransitive(tables[0].snakes, tables[n - 1].snakes, tables[n].snakes);
    }
  }

  lemma NothingIsLater(snakes: Roster)
    requires AllSound(snakes)
    ensures AllLater(snakes, snakes)
  {
    forall id | id in snakes
      ensures Later(snakes[id], snakes[id])
    {
      StepsAreLater(snakes[id], Right, false, 0);
    }
  }

  lemma SoundScores(snakes: Roster)
    requires AllSound(snakes)
    ensures NoDebts(snakes)
  {
  }

  /** Eating pays out at most what lay on the map. */
  lemma EatingRaisesCap(t: Table, order: seq<string>, cap: int)
    requires Visits(order, t.snakes.Keys) && Stocked(t.food) && AllSound(t.snakes) && Capped(t.snakes, cap)
    ensures
      var u := EatAll(t, order);
      AllSound(u.snakes) && AllLater(t.snakes, u.snakes) && Capped(u.snakes, cap + 2 * MAX_FOOD)
  {
    hide Sound, Stocked, EatAll, Worth, IsMeal;
    var tables := MealOfOrder(t, order);
    var u := EatAll(t, order);
    MealKeeps(tables, order, |order|);
    SoundScores(t.snakes);
    SoundScores(u.snakes);
    EatingMovesPoints(t, order);
    WorthIsCapped(t.food);
    WorthIsCapped(u.food);
    forall id | id in u.snakes
      ensures 0 <= u.snakes[id].score <= cap + 2 * MAX_FOOD
    {
      if u.snakes[id].alive {
        LivingScoreIsCapped(u.snakes, id);
      } else {
        EatingLeavesUnclaimed(t, order);
        assert u.snakes[id] == t.snakes[id];
      }
    }
  }

  // ---- Walls and own bodies --------------------------------------------------------------------

  lemma OneIsStruck(s: SnakeState, amount: int)
    requires Sound(s) && amount >= 0
    ensures Later(s, s) && s.score >= 0
    ensures s.alive ==>
      Sound(Killed(s)) && Later(s, Killed(s)) && Sound(Awarded(s, amount)) && Later(s, Awarded(s, amount))
  {
    AwardedIsSound(s, amount);
    StepsAreLater(s, Right, false, amount);
  }

  lemma OneIsChecked(s: SnakeState, w: real, h: real)
    requires Sound(s)
    ensures
      var t := SelfChecked(WallChecked(s, w, h));
      && Sound(t) && Later(s, t) && t.past.eaten == s.past.eaten
      && 0 <= t.score == s.score && LivingScore(t) <= LivingScore(s)
  {
    hide HitsWall, HitsSelf, Sound, Later;
    OneIsStruck(s, 0);
  }

  lemma CheckingKeeps(snakes: Roster, w: real, h: real, cap: int)
    requires AllSound(snakes) && Capped(snakes, cap)
    ensures
      var t := CheckAll(snakes, w, h);
      && AllSound(t) && AllLater(snakes, t) && Capped(t, cap) && Meals(t) == Meals(snakes)
  {
    hide Sound, Later, SelfChecked, WallChecked, LivingScore;
    var t := CheckAll(snakes, w, h);
    forall id | id in snakes
      ensures Sound(t[id]) && Later(snakes[id], t[id]) && t[id].past.eaten == snakes[id].past.eaten
      ensures t[id].score == snakes[id].score && LivingScore(t[id]) <= LivingScore(snakes[id])
    {
      OneIsChecked(snakes[id], w, h);
    }
    TotalAtMost(LivingScores(t), LivingScores(snakes));
  }

  // ---- The scan --------------------------------------------------------------------------------

  ghost predicate ScanKept(s: Roster, t: Roster)
  {
    AllSound(t) && AllLater(s, t) && Meals(t) == Meals(s)
  }

  lemma StrikeKeeps(s: Roster, a: string, b: string)
    requires AllSound(s) && a in s && b in s && a != b && s[a].alive && s[b].alive
    ensures ScanKept(s, Struck(s, a, b))
  {
    hide Sound, Later;
    SoundScores(s);
    var amount := Half(s[a].score);
    var t := Struck(s, a, b);
    assert t[a] == Killed(s[a]) && t[b] == Awarded(s[b], amount);
    forall id | id in s
      ensures Sound(t[id]) && Later(s[id], t[id])
    {
      OneIsStruck(s[id], amount);
      assert id == a || id == b || t[id] == s[id];
    }
    StrikeIsNoMeal(s, a, b);
  }

  lemma StrikeIsNoMeal(s: Roster, a: string, b: string)
    requires a in s && b in s && a != b
    ensures Meals(Struck(s, a, b)) == Meals(s)
  {
  }

  lemma RowKeeps(s: Roster, ids: seq<string>, n: nat)
    requires Listed(s, ids) && n < |ids| && AllSound(s)
    ensures ScanKept(s, RowAfter(s, ids, n, |ids|))
  {
    hide Sound, Later, Struck;
    var k := Killer(s, ids, n, |ids|);
    if k < |ids| {
      StrikeKeeps(s, ids[n], ids[k]);
    } else {
      NothingIsLater(s);
    }
  }

  lemma {:induction false} ScanKeeps(states: seq<Roster>, ids: seq<string>, n: nat)
    requires IsTrace(states, ids) && n <= |ids| && AllSound(states[0])
    ensures ScanKept(states[0], states[n])
  {
    hide Sound, Later, RowAfter;
    if n == 0 {
      NothingIsLater(states[0]);
    } else {
      ScanKeeps(states, ids, n - 1);
      RowKeeps(states[n - 1], ids, n - 1);
      AllLaterIsTransitive(states[0], states[n - 1], states[n]);
    }
  }

  // ---- Dropped food ----------------------------------------------------------------------------

  lemma {:induction false} DropAllKeepsStock(food: FoodState, snakes: Roster, order: seq<string>)
    requires forall i :: 0 <= i < |order| ==> order[i] in snakes
    requires Stocked(food)
    ensures
      var f := DropAll(food, snakes, order);
      Stocked(f) && FoodLater(food, f) && |f.items| >= |food.items| && f.eaten == food.eaten
  {
    if order != [] {
      var most := order[..|order| - 1];
      DropAllKeepsStock(food, snakes, most);
      var before := DropAll(food, snakes, most);
      DroppingKeepsStock(before, DropSpots(snakes[order[|order| - 1]]));
      FoodLaterIsTransitive(food, before, DropAll(food, snakes, order));
    }
  }

  /** How much food each dead snake among those visited has to drop. */
  ghost function Litter(snakes: Roster, order: seq<string>): map<string, int>
  {
    map id | id in snakes && id in order && !snakes[id].alive :: |DropSpots(snakes[id])|
  }

  /** How much food all dead snakes have to drop. */
  ghost function AllLitter(snakes: Roster): map<string, int>
  {
    map id | id in snakes && !snakes[id].alive :: |DropSpots(snakes[id])|
  }

  lemma WholeWalkIsAllLitter(snakes: Roster, order: seq<string>)
    requires Visits(order, snakes.Keys)
    ensures Litter(snakes, order) == AllLitter(snakes)
  {
    hide DropSpots;
  }

  lemma LitterGrows(snakes: Roster, most: seq<string>, last: string)
    requires last in snakes && last !in most
    ensures Total(Litter(snakes, most)) >= 0
    ensures Total(Litter(snakes, most + [last])) ==
      Total(Litter(snakes, most)) + if snakes[last].alive then 0 else |DropSpots(snakes[last])|
  {
    hide DropSpots;
    TotalNonNegative(Litter(snakes, most));
    if snakes[last].alive {
      assert Litter(snakes, most + [last]) == Litter(snakes, most);
    } else {
      assert Litter(snakes, most + [last]) == Litter(snakes, most)[last := |DropSpots(snakes[last])|];
      TotalUpdate(Litter(snakes, most), last, |DropSpots(snakes[last])|);
    }
  }

  lemma NobodyLitters(food: FoodState, snakes: Roster, order: seq<string>)
    requires Stocked(food) && order == []
    ensures |food.items| == UpToCap(|food.items| + Total(Litter(snakes, order)))
  {
    assert Litter(snakes, order) == map[];
  }

  lemma OneDropCounts(food: FoodState, s: SnakeState)
    requires Stocked(food)
    ensures |DropOne(food, s).items| == UpToCap(|food.items| + if s.alive then 0 else |DropSpots(s)|)
  {
    hide Stocked, DropSpots, Dropped;
    StockIsCapped(food);
    DroppingFillsUp(food, DropSpots(s));
  }

  lemma CappingTwice(a: int, b: int, c: int)
    requires b >= 0 && c >= 0
    ensures UpToCap(UpToCap(a + b) + c) == UpToCap(a + (b + c))
  {
  }

  /** All dead snakes together, each visited once, add one item per spot until the map is full. */
  lemma {:induction false} DroppingCountsExactly(food: FoodState, snakes: Roster, order: seq<string>)
    requires forall i :: 0 <= i < |order| ==> order[i] in snakes
    requires forall i, j :: 0 <= i < j < |order| ==> order[i] != order[j]
    requires Stocked(food)
    ensures |DropAll(food, snakes, order).items| == UpToCap(|food.items| + Total(Litter(snakes, order)))
  {
    hide Stocked, DropSpots, DropOne, Litter, UpToCap, Total;
    if order == [] {
      NobodyLitters(food, snakes, order);
      assert DropAll(food, snakes, order) == food;
    } else {
      var most, last := order[..|order| - 1], order[|order| - 1];
      DroppingCountsExactly(food, snakes, most);
      DropAllKeepsStock(food, snakes, most);
      LitterGrows(snakes, most, last);
      assert order == most + [last];
      OneDropCounts(DropAll(food, snakes, most), snakes[last]);
      var more := if snakes[last].alive then 0 else |DropSpots(snakes[last])|;
      CappingTwice(|food.items|, Total(Litter(snakes, most)), more);
      assert DropAll(food, snakes, order) == DropOne(DropAll(food, snakes, most), snakes[last]);
    }
  }

  /** At its turn a dead snake adds nothing if and only if the map is full. */
  lemma DropsUnlessFull(food: FoodState, s: SnakeState)
    requires Stocked(food) && !s.alive && s.segments != []
    ensures DropSpots(s) != []
    ensures DropOne(food, s) == food <==> |food.items| == MAX_FOOD
  {
    hide Stocked;
    StockIsCapped(food);
    DroppingFillsUp(food, DropSpots(s));
  }

  lemma StockIsCapped(f: FoodState)
    requires Stocked(f)
    ensures |f.items| <= MAX_FOOD
  {
  }
}
