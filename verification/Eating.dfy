/** The eating phase: what is left on the map does not depend on who eats first, and every point
    that leaves the map arrives in a living snake's score. */
module Eating {
  import opened Geometry
  import opened MapTotals
  import opened SnakeModel
  import opened FoodIds
  import opened FoodModel
  import opened ScoreFlow
  import opened GameModel

  ghost function Meals(snakes: Roster): map<string, int>
  {
    map id | id in snakes :: snakes[id].past.eaten
  }

  ghost function MealTotal(snakes: Roster): int
  {
    Total(Meals(snakes))
  }

  /** The tables before the first visit, between visits and after the last. */
  ghost predicate IsMeal(tables: seq<Table>, order: seq<string>)
  {
    && |tables| == |order| + 1
    && (forall n :: 0 <= n < |order| ==> order[n] in tables[n].snakes && tables[n + 1] == EatOne(tables[n], order[n]))
  }

  lemma MealOfOrder(t: Table, order: seq<string>) returns (tables: seq<Table>)
    requires forall i :: 0 <= i < |order| ==> order[i] in t.snakes
    ensures IsMeal(tables, order)
    ensures tables[0] == t && tables[|order|] == EatAll(t, order)
  {
    tables := seq(|order| + 1, n requires 0 <= n <= |order| => EatAll(t, order[..n]));
    forall n | 0 <= n < |order|
      ensures order[n] in tables[n].snakes && tables[n + 1] == EatOne(tables[n], order[n])
    {
      assert order[..n + 1][..n] == order[..n];
    }
    assert order[..|order|] == order;
  }

  /** Eating changes neither where snakes are nor who is alive. */
  ghost predicate SameStance(s: Roster, t: Roster)
  {
    && t.Keys == s.Keys
    && (forall id :: id in s ==> t[id].segments == s[id].segments && t[id].alive == s[id].alive)
  }

  /** A living snake of the table has the position within reach of its head. */
  ghost predicate Claims(snakes: Roster, id: string, position: Vec2)
    requires id in snakes
  {
    snakes[id].alive && Reaches(Head(snakes[id]), position)
  }

  ghost predicate ClaimedByFirst(snakes: Roster, order: seq<string>, n: nat, position: Vec2)
    requires n <= |order|
    requires forall i :: 0 <= i < |order| ==> order[i] in snakes
  {
    exists k :: 0 <= k < n && Claims(snakes, order[k], position)
  }

  lemma OneVisit(t: Table, id: string, item: string)
    requires id in t.snakes
    ensures SameStance(t.snakes, EatOne(t, id).snakes)
    ensures item in EatOne(t, id).food.items <==>
            item in t.food.items && !Claims(t.snakes, id, t.food.items[item].position)
    ensures item in EatOne(t, id).food.items ==> EatOne(t, id).food.items[item] == t.food.items[item]
  {
  }

  lemma {:induction false} LeftAfter(tables: seq<Table>, order: seq<string>, n: nat, item: string)
    requires IsMeal(tables, order) && n <= |order|
    requires forall i :: 0 <= i < |order| ==> order[i] in tables[0].snakes
    ensures SameStance(tables[0].snakes, tables[n].snakes)
    ensures item in tables[n].food.items <==>
            item in tables[0].food.items &&
            !ClaimedByFirst(tables[0].snakes, order, n, tables[0].food.items[item].position)
    ensures item in tables[n].food.items ==> tables[n].food.items[item] == tables[0].food.items[item]
  {
    if n > 0 {
      LeftAfter(tables, order, n - 1, item);
      OneVisit(tables[n - 1], order[n - 1], item);
      assert tables[n] == EatOne(tables[n - 1], order[n - 1]);
      if item in tables[n - 1].food.items {
        var position := tables[0].food.items[item].position;
        assert Claims(tables[n - 1].snakes, order[n - 1], position) <==>
               Claims(tables[0].snakes, order[n - 1], position);
        assert ClaimedByFirst(tables[0].snakes, order, n, position) <==>
               ClaimedByFirst(tables[0].snakes, order, n - 1, position) ||
               Claims(tables[0].snakes, order[n - 1], position);
      }
    }
  }

  /** Exactly the items out of reach of every living head. */
  ghost function Unclaimed(t: Table): map<string, FoodItem>
  {
    map item | item in t.food.items &&
               (forall id :: id in t.snakes ==> !Claims(t.snakes, id, t.food.items[item].position))
      :: t.food.items[item]
  }

  /** Whoever eats first, the food left is what no living head reaches, and nobody moves or dies. */
  lemma EatingLeavesUnclaimed(t: Table, order: seq<string>)
    requires Visits(order, t.snakes.Keys)
    ensures EatAll(t, order).food.items == Unclaimed(t)
    ensures SameStance(t.snakes, EatAll(t, order).snakes)
  {
    var tables := MealOfOrder(t, order);
    var left := EatAll(t, order).food.items;
    forall item
      ensures item in left <==> item in Unclaimed(t)
      ensures item in left ==> left[item] == t.food.items[item]
    {
      LeftAfter(tables, order, |order|, item);
      if item in t.food.items {
        VisitedClaim(t, order, t.food.items[item].position);
      }
    }
    LeftAfter(tables, order, |order|, "");
  }

  lemma VisitedClaim(t: Table, order: seq<string>, position: Vec2)
    requires Visits(order, t.snakes.Keys)
    ensures ClaimedByFirst(t.snakes, order, |order|, position) <==>
            exists id :: id in t.snakes && Claims(t.snakes, id, position)
  {
    forall id | id in t.snakes && Claims(t.snakes, id, position)
      ensures ClaimedByFirst(t.snakes, order, |order|, position)
    {
      var k :| 0 <= k < |order| && order[k] == id;
      assert Claims(t.snakes, order[k], position);
    }
  }

  // ---- The points --------------------------------------------------------------------------------

  ghost predicate NoDebts(snakes: Roster)
  {
    forall id :: id in snakes ==> snakes[id].score >= 0
  }

  /** From t to u points moved from the map to living snakes, each counted as eaten. */
  ghost predicate PointsMoved(t: Table, u: Table)
  {
    && Stocked(u.food) && FoodLater(t.food, u.food) && NoDebts(u.snakes)
    && LivingTotal(u.snakes) + Worth(u.food.items) == LivingTotal(t.snakes) + Worth(t.food.items)
    && MealTotal(u.snakes) - u.food.eaten == MealTotal(t.snakes) - t.food.eaten
    && u.food.eaten + Worth(u.food.items) == t.food.eaten + Worth(t.food.items)
    && u.food.nextID == t.food.nextID && u.food.spawned == t.food.spawned
  }

  lemma MealTotalUpdate(snakes: Roster, id: string, s: SnakeState)
    requires id in snakes
    ensures MealTotal(snakes[id := s]) == MealTotal(snakes) - snakes[id].past.eaten + s.past.eaten
  {
    assert Meals(snakes[id := s]) == Meals(snakes)[id := s.past.eaten];
    TotalUpdate(Meals(snakes), id, s.past.eaten);
  }

  lemma OneVisitMovesPoints(t: Table, id: string)
    requires id in t.snakes && Stocked(t.food) && NoDebts(t.snakes)
    ensures PointsMoved(t, EatOne(t, id))
  {
    if t.snakes[id].alive {
      var s := t.snakes[id];
      var head := Head(s);
      var gain := Gain(t.food, head);
      EatingKeepsStock(t.food, head);
      LivingTotalUpdate(t.snakes, id, Fed(s, gain));
      MealTotalUpdate(t.snakes, id, Fed(s, gain));
    }
  }

  lemma PointsMovedIsTransitive(a: Table, b: Table, c: Table)
    requires PointsMoved(a, b) && PointsMoved(b, c)
    ensures PointsMoved(a, c)
  {
    FoodLaterIsTransitive(a.food, b.food, c.food);
  }

  lemma {:induction false} MealMovesPoints(tables: seq<Table>, order: seq<string>, n: nat)
    requires IsMeal(tables, order) && n <= |order|
    requires Stocked(tables[0].food) && NoDebts(tables[0].snakes)
    ensures PointsMoved(tables[0], tables[n])
  {
    if n > 0 {
      MealMovesPoints(tables, order, n - 1);
      OneVisitMovesPoints(tables[n - 1], order[n - 1]);
      PointsMovedIsTransitive(tables[0], tables[n - 1], tables[n]);
    }
  }

  lemma EatingMovesPoints(t: Table, order: seq<string>)
    requires Visits(order, t.snakes.Keys) && Stocked(t.food) && NoDebts(t.snakes)
    ensures PointsMoved(t, EatAll(t, order))
  {
    var tables := MealOfOrder(t, order);
    MealMovesPoints(tables, order, |order|);
  }

  /** Two walks of the same table leave the same food and hand out the same number of points. */
  lemma EatingOrderDoesNotMatter(t: Table, one: seq<string>, two: seq<string>)
    requires Visits(one, t.snakes.Keys) && Visits(two, t.snakes.Keys)
    requires Stocked(t.food) && NoDebts(t.snakes)
    ensures
      var u, v := EatAll(t, one), EatAll(t, two);
      && u.food == v.food
      && SameStance(u.snakes, v.snakes)
      && LivingTotal(u.snakes) == LivingTotal(v.snakes)
      && MealTotal(u.snakes) == MealTotal(v.snakes)
  {
    hide EatAll, Visits, Unclaimed, Stocked, NoDebts, Worth, LivingTotal, MealTotal, Issued;
    EatingLeavesUnclaimed(t, one);
    EatingLeavesUnclaimed(t, two);
    EatingMovesPoints(t, one);
    EatingMovesPoints(t, two);
  }

  // ---- Who eats what -------------------------------------------------------------------------------

  /** The items within 14 of the k-th snake's head and of no living snake visited before it. */
  ghost function Share(snakes: Roster, order: seq<string>, k: nat, items: map<string, FoodItem>)
    : map<string, FoodItem>
    requires k < |order|
    requires forall i :: 0 <= i < |order| ==> order[i] in snakes
  {
    map item | item in items
            && DistSquared(Head(snakes[order[k]]), items[item].position) < 196.0
            && (forall j :: 0 <= j < k && snakes[order[j]].alive ==>
                  DistSquared(Head(snakes[order[j]]), items[item].position) >= 196.0)
      :: items[item]
  }

  lemma ReachIsShare(tables: seq<Table>, order: seq<string>, k: nat)
    requires IsMeal(tables, order) && k < |order|
    requires forall i :: 0 <= i < |order| ==> order[i] in tables[0].snakes
    ensures Reached(tables[k].food.items, Head(tables[k].snakes[order[k]])) ==
            Share(tables[0].snakes, order, k, tables[0].food.items)
  {
    var share := Share(tables[0].snakes, order, k, tables[0].food.items);
    var reached := Reached(tables[k].food.items, Head(tables[k].snakes[order[k]]));
    LeftAfter(tables, order, k, "");
    forall item
      ensures item in reached <==> item in share
      ensures item in reached ==> reached[item] == share[item]
    {
      LeftAfter(tables, order, k, item);
      if item in tables[0].food.items {
        forall j | 0 <= j <= k
          ensures Reaches(Head(tables[0].snakes[order[j]]), tables[0].food.items[item].position) <==>
                  DistSquared(Head(tables[0].snakes[order[j]]), tables[0].food.items[item].position) < 196.0
        {
          NearIsNear(Head(tables[0].snakes[order[j]]), tables[0].food.items[item].position);
        }
        hide Reaches, DistSquared;
        ClaimedFirstExactly(tables[0].snakes, order, k, tables[0].food.items[item].position);
      }
    }
  }

  lemma ClaimedFirstExactly(snakes: Roster, order: seq<string>, k: nat, position: Vec2)
    requires k <= |order|
    requires forall i :: 0 <= i < |order| ==> order[i] in snakes
    ensures ClaimedByFirst(snakes, order, k, position) <==>
      exists j :: 0 <= j < k && snakes[order[j]].alive && Reaches(Head(snakes[order[j]]), position)
  {
    forall j | 0 <= j < k
      ensures Claims(snakes, order[j], position) <==>
        snakes[order[j]].alive && Reaches(Head(snakes[order[j]]), position)
    {
    }
  }

  lemma {:induction false} OthersVisitsDoNotFeed(tables: seq<Table>, order: seq<string>, m: nat, n: nat, id: string)
    requires IsMeal(tables, order) && m <= n <= |order| && id in tables[m].snakes
    requires forall i :: m <= i < n ==> order[i] != id
    ensures id in tables[n].snakes && tables[n].snakes[id] == tables[m].snakes[id]
    decreases n - m
  {
    hide Gain, Consumed;
    if m < n {
      OthersVisitsDoNotFeed(tables, order, m, n - 1, id);
    }
  }

  lemma OneIsFedItsGain(t: Table, id: string)
    requires id in t.snakes && Stocked(t.food)
    ensures EatOne(t, id).snakes[id].past.eaten ==
      t.snakes[id].past.eaten + if t.snakes[id].alive then Worth(Reached(t.food.items, Head(t.snakes[id]))) else 0
  {
    hide Stocked, Reached, Consumed, Worth;
    EatingKeepsStock(t.food, Head(t.snakes[id]));
  }

  /** A living snake eats exactly its share: what it can reach and nobody visited before it can. */
  lemma EachEatsItsShare(t: Table, order: seq<string>, k: nat)
    requires Visits(order, t.snakes.Keys) && Stocked(t.food) && NoDebts(t.snakes) && k < |order|
    ensures EatAll(t, order).snakes[order[k]].past.eaten ==
      t.snakes[order[k]].past.eaten +
        if t.snakes[order[k]].alive then Worth(Share(t.snakes, order, k, t.food.items)) else 0
  {
    hide EatOne, Stocked, Share, Reached, Worth, EatAll;
    var tables := MealOfOrder(t, order);
    var id := order[k];
    LeftAfter(tables, order, k, "");
    MealMovesPoints(tables, order, k);
    OthersVisitsDoNotFeed(tables, order, 0, k, id);
    OneIsFedItsGain(tables[k], id);
    ReachIsShare(tables, order, k);
    OthersVisitsDoNotFeed(tables, order, k + 1, |order|, id);
  }
}
