/** Short runs of the arena that show what its own comments deny. */
module GameExamples {
  import opened Geometry
  import opened SnakeModel
  import opened SnakeInvariant
  import opened FoodModel
  import opened Elimination
  import opened GameModel
  import opened Eating
  import opened Phases
  import opened GameRuns
  import opened Course

  const SIZE := 1200.0

  // ---- Ticks in which nobody eats --------------------------------------------------------------

  /** No food is within reach of p. */
  ghost predicate OutOfReach(food: FoodState, p: Vec2)
  {
    forall id :: id in food.items ==> !Reaches(p, food.items[id].position)
  }

  /** A living snake that meets neither food nor wall nor itself. */
  ghost predicate Undisturbed(s: SnakeState, food: FoodState, w: real, h: real)
  {
    s.alive ==> OutOfReach(food, Head(s)) && !HitsWall(s, w, h) && !HitsSelf(s)
  }

  lemma OneEatsNothing(t: Table, id: string)
    requires id in t.snakes && (t.snakes[id].alive ==> OutOfReach(t.food, Head(t.snakes[id])))
    ensures EatOne(t, id) == t
  {
    if t.snakes[id].alive {
      var head := Head(t.snakes[id]);
      assert Reached(t.food.items, head) == map[];
      assert Worths(map[]) == map[];
      assert t.food.items - {} == t.food.items;
      assert t.snakes[id := t.snakes[id]] == t.snakes;
    }
  }

  lemma {:induction false} NobodyEats(t: Table, order: seq<string>)
    requires forall i :: 0 <= i < |order| ==> order[i] in t.snakes
    requires forall id :: id in t.snakes && t.snakes[id].alive ==> OutOfReach(t.food, Head(t.snakes[id]))
    ensures EatAll(t, order) == t
  {
    hide EatOne, OutOfReach;
    if order != [] {
      NobodyEats(t, order[..|order| - 1]);
      OneEatsNothing(t, order[|order| - 1]);
    }
  }

  lemma NobodyIsChecked(snakes: Roster, food: FoodState, w: real, h: real)
    requires forall id :: id in snakes ==> Undisturbed(snakes[id], food, w, h)
    ensures CheckAll(snakes, w, h) == snakes
  {
    hide HitsWall, HitsSelf, OutOfReach;
  }

  /** Such a tick only moves the snakes, scans them and lets the dead drop their food. */
  lemma QuietTick(g: GameState, c: Choices)
    requires forall id :: id in Moved(g) ==> Undisturbed(Moved(g)[id], g.food, g.arenaW, g.arenaH)
    requires Visits(c.eating, g.snakes.Keys) && Visits(c.dropping, g.snakes.Keys)
    requires ListsLiving(c.scanning, Moved(g)) && c.draws == []
    requires |DropAll(g.food, Rows(Moved(g), c.scanning, |c.scanning|), c.dropping).items| >= INITIAL_FOOD
    ensures Fits(g, c)
    ensures
      var fought := Rows(Moved(g), c.scanning, |c.scanning|);
      Ticked(g, c) ==
      g.(tick := g.tick + 1, inputs := [], snakes := fought, food := DropAll(g.food, fought, c.dropping))
  {
    hide Moved, EatAll, CheckAll, Rows, DropAll, OutOfReach, HitsWall, HitsSelf, ListsLiving;
    NobodyEats(Table(Moved(g), g.food), c.eating);
    NobodyIsChecked(Moved(g), g.food, g.arenaW, g.arenaH);
    assert Checked(g, c) == Moved(g);
  }

  const CENTER := Vec2(600.0, 600.0)

  // ---- The starting arena ------------------------------------------------------------------------

  function Corner(n: nat): seq<Draw>
  {
    seq(n, _ => Draw(0.0, 0.0))
  }

  /** A new arena whose food lies far from all points used here. */
  ghost predicate IsCalm(g: GameState)
  {
    && IsStart(g) && g.snakes == map[] && g.inputs == [] && g.arenaW == SIZE && g.arenaH == SIZE
    && IsFar(g.food) && |g.food.items| == INITIAL_FOOD && Stocked(g.food)
  }

  ghost predicate IsFar(food: FoodState)
  {
    forall p: Vec2 :: p.x >= 500.0 ==> OutOfReach(food, p)
  }

  lemma {:induction false} CornerIsFar(n: nat, p: Vec2)
    requires p.x >= 500.0 && n <= MAX_FOOD
    ensures
      var food := SpawnedAll(EmptyFood(SIZE, SIZE), Corner(n));
      && OutOfReach(food, p) && food.arenaW == SIZE && food.arenaH == SIZE
  {
    if n > 0 {
      CornerIsFar(n - 1, p);
      assert Corner(n)[..n - 1] == Corner(n - 1);
      FarInX(p);
    }
  }

  lemma FarInX(p: Vec2)
    requires p.x >= 500.0
    ensures !Reaches(p, Vec2(50.0, 50.0))
  {
    var x, y := p.x - 50.0, p.y - 50.0;
    SquareIsNonNegative(y);
    SquareOfAtLeastTwenty(x);
    assert DistSquared(p, Vec2(50.0, 50.0)) == x * x + y * y;
  }

  lemma CalmStart() returns (g: GameState)
    ensures IsCalm(g)
  {
    hide SpawnedAll, OutOfReach, Stocked, Corner;
    var draws := Corner(INITIAL_FOOD);
    CornerDraws(INITIAL_FOOD);
    g := NewGame(SIZE, SIZE, draws);
    forall p: Vec2 | p.x >= 500.0
      ensures OutOfReach(g.food, p)
    {
      CornerIsFar(INITIAL_FOOD, p);
    }
    CornerIsFar(INITIAL_FOOD, CENTER);
    EmptyIsGood(SIZE, SIZE);
    SpawningKeepsStock(EmptyFood(SIZE, SIZE), draws);
  }

  lemma CornerDraws(n: nat)
    ensures |Corner(n)| == n && Fractions(Corner(n))
  {
  }

  // ---- One input a tick turns a snake back --------------------------------------------------------

  function Alone(id: string): Choices
  {
    Choices([id], [id], [id], [])
  }

  lemma TickOfOne(g: GameState, id: string, dir: Direction, t: SnakeState)
    requires id in g.snakes && g.snakes.Keys == {id} && g.snakes[id].alive
    requires g.inputs == [PlayerInput(id, dir, false)] && t == Advanced(Steered(g.snakes[id], dir, false))
    requires Undisturbed(t, g.food, g.arenaW, g.arenaH) && |g.food.items| >= INITIAL_FOOD
    ensures Fits(g, Alone(id)) && Ticked(g, Alone(id)) == g.(tick := g.tick + 1, inputs := [], snakes := map[id := t])
  {
    hide Undisturbed, NextHead, NextMove;
    var input := PlayerInput(id, dir, false);
    assert [input][..0] == [];
    assert SteerAll(g.snakes, [input]) == SteerOne(g.snakes, input);
    var moved := map[id := t];
    assert Moved(g) == moved;
    NobodyToMeet(moved, id);
    assert [id][..0] == [];
    assert DropAll(g.food, moved, [id]) == g.food;
    assert ListsLiving([id], moved) by {
      assert [id][0] == id;
    }
    assert Visits([id], g.snakes.Keys) by {
      assert [id][0] == id;
    }
    hide Moved, Rows, DropAll, Visits, ListsLiving;
    QuietTick(g, Alone(id));
  }

  lemma ShortIsUndisturbed(s: SnakeState, food: FoodState, w: real, h: real)
    requires |s.segments| <= 4 && OutOfReach(food, Head(s)) && Inside(Head(s), w, h, 0.0)
    ensures Undisturbed(s, food, w, h)
  {
  }

  /** From before to after a snake heading right stood still for one step and then went left. */
  predicate WentBack(before: SnakeState, after: SnakeState)
  {
    && before.past.moves != [] && before.past.moves[0].dir == Right
    && after.past.moves == [Move(Left, 5.0), Move(Unrecognized(9), 5.0)] + before.past.moves
    && TurnsBack(after.past.moves)
    && after.alive && Head(after) == Vec2(Head(before).x - 5.0, Head(before).y)
  }

  lemma StopAndReverse(pos: Vec2) returns (s: SnakeState, t: SnakeState, u: SnakeState)
    ensures s == Spawned("p", "p", pos) && s.alive
    ensures t == Advanced(Steered(s, Unrecognized(9), false)) && t.alive && Head(t) == pos && |t.segments| == 3
    ensures u == Advanced(Steered(t, Left, false)) && Head(u) == Vec2(pos.x - 5.0, pos.y) && |u.segments| == 3
    ensures WentBack(s, u)
  {
    s := Spawned("p", "p", pos);
    t := Advanced(Steered(s, Unrecognized(9), false));
    u := Advanced(Steered(t, Left, false));
    assert t.past.moves == [Move(Unrecognized(9), 5.0)] + s.past.moves;
    assert u.past.moves == [Move(Left, 5.0)] + t.past.moves;
    assert u.past.moves[1..] == t.past.moves && t.past.moves[1..] == s.past.moves;
    assert LastHeading(s.past.moves) == Right;
    assert LastHeading(t.past.moves) == LastHeading(s.past.moves);
  }

  lemma JoiningAt(g: GameState, id: string, d: Draw, pos: Vec2)
    requires g.arenaW == SIZE && g.arenaH == SIZE && id !in g.snakes
    requires pos == Vec2(100.0 + d.u * 1000.0, 100.0 + d.v * 1000.0)
    ensures Joined(g, id, id, d) == g.(snakes := g.snakes[id := Spawned(id, id, pos)])
  {
  }

  lemma RunGrows(states: seq<GameState>, events: seq<Event>, e: Event, g: GameState)
    requires IsRun(states, events) && Possible(states[|events|], e) && g == After(states[|events|], e)
    ensures IsRun(states + [g], events + [e])
  {
  }

  function InputThenTick(dir: Direction): seq<Event>
  {
    [Submit(PlayerInput("p", dir, false)), Event.Tick(Alone("p"))]
  }

  lemma InputAndTick(states: seq<GameState>, events: seq<Event>, dir: Direction, s: SnakeState, t: SnakeState)
    returns (longer: seq<GameState>)
    requires IsRun(states, events)
    requires
      var g := states[|events|];
      && g.snakes == map["p" := s] && g.inputs == [] && |g.food.items| >= INITIAL_FOOD
      && s.alive && t == Advanced(Steered(s, dir, false)) && Undisturbed(t, g.food, g.arenaW, g.arenaH)
    ensures IsRun(longer, events + InputThenTick(dir)) && |longer| == |states| + 2 && states <= longer
    ensures |InputThenTick(dir)| == 2
    ensures
      var g := states[|events|];
      longer[|states| + 1] == g.(tick := g.tick + 1, snakes := map["p" := t])
  {
    hide IsRun, Undisturbed, Advanced, Steered, Fits, Ticked;
    LengthOfRun(states, events);
    var g := states[|events|];
    var input := PlayerInput("p", dir, false);
    var g1 := g.(inputs := [input]);
    assert Submitted(g, input) == g1;
    RunGrows(states, events, Submit(input), g1);
    TickOfOne(g1, "p", dir, t);
    RunGrows(states + [g1], events + [Submit(input)], Event.Tick(Alone("p")), Ticked(g1, Alone("p")));
    longer := states + [g1] + [Ticked(g1, Alone("p"))];
    assert events + [Submit(input)] + [Event.Tick(Alone("p"))] == events + InputThenTick(dir);
  }

  lemma LengthOfRun(states: seq<GameState>, events: seq<Event>)
    requires IsRun(states, events)
    ensures |states| == |events| + 1
  {
  }

  lemma JoinAlone(g: GameState, s: SnakeState) returns (states: seq<GameState>)
    requires g.snakes == map[] && g.arenaW == SIZE && g.arenaH == SIZE && s == Spawned("p", "p", CENTER)
    ensures IsRun(states, [Join("p", "p", Draw(0.5, 0.5))])
    ensures states == [g, g.(snakes := map["p" := s])]
  {
    JoiningAt(g, "p", Draw(0.5, 0.5), CENTER);
    states := [g, g.(snakes := map["p" := s])];
  }

  lemma InputsAndTicks(g: GameState, d1: Direction, d2: Direction, s: SnakeState, t: SnakeState, u: SnakeState)
    returns (states: seq<GameState>, events: seq<Event>)
    requires IsCalm(g)
    requires s == Spawned("p", "p", CENTER) && s.alive
    requires t == Advanced(Steered(s, d1, false)) && t.alive && Undisturbed(t, g.food, SIZE, SIZE)
    requires u == Advanced(Steered(t, d2, false)) && Undisturbed(u, g.food, SIZE, SIZE)
    ensures IsRun(states, events) && |states| == 6 && states[0] == g
    ensures events == [Join("p", "p", Draw(0.5, 0.5))] + InputThenTick(d1) + InputThenTick(d2)
    ensures states[1].snakes == map["p" := s] && states[5].snakes == map["p" := u]
  {
    hide IsStart, IsRun, Undisturbed, IsFar, Advanced, Steered, Spawned, Stocked, InputThenTick;
    states := JoinAlone(g, s);
    events := [Join("p", "p", Draw(0.5, 0.5))];
    states := InputAndTick(states, events, d1, s, t);
    events := events + InputThenTick(d1);
    states := InputAndTick(states, events, d2, t, u);
    events := events + InputThenTick(d2);
  }

  /** A run in which a snake heading right drains a single input in each of two ticks, first an
      unrecognized direction and then left, and goes straight back over its body. */
  lemma OneInputATickReverses() returns (states: seq<GameState>, events: seq<Event>)
    ensures IsRun(states, events) && IsStart(states[0])
    ensures events == [Join("p", "p", Draw(0.5, 0.5))] + InputThenTick(Unrecognized(9)) + InputThenTick(Left)
    ensures |states| == 6 && "p" in states[1].snakes && "p" in states[5].snakes
    ensures WentBack(states[1].snakes["p"], states[5].snakes["p"])
  {
    hide IsStart, IsRun, Undisturbed, OutOfReach, Advanced, Steered, Spawned, WentBack, Stocked, InputThenTick;
    var g := CalmStart();
    var s, t, u := StopAndReverse(CENTER);
    ShortIsUndisturbed(t, g.food, SIZE, SIZE);
    ShortIsUndisturbed(u, g.food, SIZE, SIZE);
    states, events := InputsAndTicks(g, Unrecognized(9), Left, s, t, u);
  }

  // ---- A head-on hit spares one, and the other drops food in every tick ------------------------------

  lemma {:induction false} DroppingStaysOutOfReach(food: FoodState, positions: seq<Vec2>, p: Vec2)
    requires OutOfReach(food, p)
    requires forall i :: 0 <= i < |positions| ==> !Reaches(p, positions[i])
    ensures OutOfReach(Dropped(food, positions, DEATH_FOOD_VALUE), p)
    decreases |positions|
  {
    hide Reaches;
    if positions != [] && |food.items| < MAX_FOOD {
      DroppingStaysOutOfReach(Added(food, positions[0], DEATH_FOOD_VALUE), positions[1..], p);
    }
  }

  lemma DroppingTwice(food: FoodState, s: SnakeState)
    requires Stocked(food) && |food.items| == INITIAL_FOOD && !s.alive && |s.segments| == 3
    ensures
      var one := DropOne(food, s);
      Stocked(one) && |one.items| == INITIAL_FOOD + 2 && |DropOne(one, s).items| == INITIAL_FOOD + 4
  {
    hide Stocked, Dropped;
    DroppingKeepsStock(food, DropSpots(s));
    OneDropCounts(food, s);
    OneDropCounts(DropOne(food, s), s);
  }

  /** The first step of a new snake. */
  lemma FirstStep(id: string, pos: Vec2) returns (s: SnakeState, t: SnakeState)
    ensures s == Spawned(id, id, pos) && s.alive && t == Advanced(s)
    ensures t.alive && t.score == 0 && t.growPending == 0 && t.direction == Right && t.speed == 5.0
    ensures t.segments == [Vec2(pos.x + 5.0, pos.y), pos, Vec2(pos.x - 10.0, pos.y)]
  {
    s := Spawned(id, id, pos);
    t := Advanced(s);
    AdvancedExactly(s);
    assert s.segments == [pos, Vec2(pos.x - 10.0, pos.y), Vec2(pos.x - 20.0, pos.y)];
    assert t.segments == [t.segments[0]] + t.segments[1..];
  }

  /** Two snakes spawned 10 apart, and what becomes of them. */
  lemma TwoInLine() returns (a: SnakeState, b: SnakeState, b2: SnakeState)
    ensures a == Advanced(Spawned("a", "a", CENTER)) && a.alive && a.score == 0
    ensures b == Advanced(Spawned("b", "b", Vec2(610.0, 600.0))) && b.alive && b.score == 0
    ensures b2 == Advanced(b) && b2.alive
    ensures a.segments == [Vec2(605.0, 600.0), Vec2(600.0, 600.0), Vec2(590.0, 600.0)]
    ensures b.segments == [Vec2(615.0, 600.0), Vec2(610.0, 600.0), Vec2(600.0, 600.0)]
    ensures b2.segments == [Vec2(620.0, 600.0), Vec2(615.0, 600.0), Vec2(610.0, 600.0)]
  {
    hide Advanced, Spawned;
    var a0, b0;
    a0, a := FirstStep("a", CENTER);
    b0, b := FirstStep("b", Vec2(610.0, 600.0));
    b2 := SecondStep(b);
  }

  lemma SecondStep(s: SnakeState) returns (t: SnakeState)
    requires s.alive && s.score == 0 && s.growPending == 0 && s.direction == Right && s.speed == 5.0
    requires |s.segments| == 3
    ensures t == Advanced(s) && t.alive
    ensures t.segments == [Vec2(s.segments[0].x + 5.0, s.segments[0].y), s.segments[0], s.segments[1]]
  {
    t := Advanced(s);
    AdvancedExactly(s);
    assert t.segments == [t.segments[0]] + t.segments[1..];
  }

  function Both(scanning: seq<string>): Choices
  {
    Choices(["a", "b"], scanning, ["a", "b"], [])
  }

  lemma BothAreVisited(food: FoodState, snakes: Roster)
    requires snakes.Keys == {"a", "b"}
    ensures Visits(["a", "b"], snakes.Keys)
    ensures snakes["b"].alive ==> DropAll(food, snakes, ["a", "b"]) == DropOne(food, snakes["a"])
  {
    hide DropSpots, Dropped;
    var order := ["a", "b"];
    assert order[0] == "a" && order[1] == "b" && "a" != "b";
    assert order[..1] == ["a"] && ["a"][..0] == [];
    assert DropAll(food, snakes, ["a"]) == DropOne(food, snakes["a"]);
  }

  lemma BothMove(g: GameState, a: SnakeState, b: SnakeState)
    requires g.snakes.Keys == {"a", "b"} && g.inputs == []
    requires a == Advanced(g.snakes["a"]) && b == Advanced(g.snakes["b"])
    ensures Moved(g) == map["a" := a, "b" := b]
  {
    hide Advanced;
  }

  lemma BothLive(snakes: Roster)
    requires snakes.Keys == {"a", "b"} && snakes["a"].alive && snakes["b"].alive
    ensures ListsLiving(["a", "b"], snakes)
  {
    var ids := ["a", "b"];
    assert ids[0] == "a" && ids[1] == "b" && "a" != "b";
  }

  lemma OneLives(snakes: Roster)
    requires snakes.Keys == {"a", "b"} && !snakes["a"].alive && snakes["b"].alive
    ensures ListsLiving(["b"], snakes)
  {
    assert ["b"][0] == "b";
  }

  lemma HeadOnTick(g: GameState, a: SnakeState, b: SnakeState)
    requires g.snakes.Keys == {"a", "b"} && g.inputs == []
    requires a == Advanced(g.snakes["a"]) && b == Advanced(g.snakes["b"])
    requires a.alive && b.alive && a.score == 0 && HitsBody(Head(a), b.segments)
    requires Undisturbed(a, g.food, g.arenaW, g.arenaH) && Undisturbed(b, g.food, g.arenaW, g.arenaH)
    requires |DropOne(g.food, Killed(a)).items| >= INITIAL_FOOD
    ensures
      var c := Both(["a", "b"]);
      Fits(g, c) &&
      Ticked(g, c) == g.(tick := g.tick + 1, snakes := map["a" := Killed(a), "b" := b],
                         food := DropOne(g.food, Killed(a)))
  {
    hide Undisturbed, HitsBody, Advanced, DropOne, Moved, Rows, DropAll, ListsLiving, Visits;
    var moved, fought := map["a" := a, "b" := b], map["a" := Killed(a), "b" := b];
    BothMove(g, a, b);
    BothLive(moved);
    HeadOnOfTwo(moved, "a", "b");
    assert Struck(moved, "a", "b") == fought;
    BothAreVisited(g.food, fought);
    QuietTick(g, Both(["a", "b"]));
  }

  lemma TickAfterHeadOn(g: GameState, b: SnakeState)
    requires g.snakes.Keys == {"a", "b"} && g.inputs == []
    requires !g.snakes["a"].alive && b.alive && b == Advanced(g.snakes["b"])
    requires Undisturbed(b, g.food, g.arenaW, g.arenaH)
    requires |DropOne(g.food, g.snakes["a"]).items| >= INITIAL_FOOD
    ensures
      var c := Both(["b"]);
      Fits(g, c) &&
      Ticked(g, c) == g.(tick := g.tick + 1, snakes := map["a" := g.snakes["a"], "b" := b],
                         food := DropOne(g.food, g.snakes["a"]))
  {
    var a := g.snakes["a"];
    assert Advanced(a) == a && Undisturbed(a, g.food, g.arenaW, g.arenaH);
    hide Undisturbed, Advanced, DropOne, Moved, Rows, DropAll, ListsLiving, Visits;
    var moved := map["a" := a, "b" := b];
    BothMove(g, a, b);
    OneLives(moved);
    NobodyToMeet(moved, "b");
    BothAreVisited(g.food, moved);
    QuietTick(g, Both(["b"]));
  }

  lemma JoinTwo(g: GameState, a: SnakeState, atA: Draw, posA: Vec2, b: SnakeState, atB: Draw, posB: Vec2)
    returns (states: seq<GameState>, events: seq<Event>)
    requires IsCalm(g) && IsFraction(atA) && IsFraction(atB)
    requires posA == Vec2(100.0 + atA.u * 1000.0, 100.0 + atA.v * 1000.0) && a == Spawned("a", "a", posA)
    requires posB == Vec2(100.0 + atB.u * 1000.0, 100.0 + atB.v * 1000.0) && b == Spawned("b", "b", posB)
    ensures IsRun(states, events) && events == [Join("a", "a", atA), Join("b", "b", atB)]
    ensures |states| == 3 && states[0] == g && states[2] == g.(snakes := map["a" := a, "b" := b])
  {
    hide Spawned;
    var g1 := g.(snakes := map["a" := a]);
    var g2 := g.(snakes := map["a" := a, "b" := b]);
    JoiningAt(g, "a", atA, posA);
    JoiningAt(g1, "b", atB, posB);
    states := [g, g1, g2];
    events := [Join("a", "a", atA), Join("b", "b", atB)];
  }

  /** In this tick the moved a and b hit each other with their heads. */
  predicate HitEachOther(g: GameState)
  {
    && "a" in Moved(g) && "b" in Moved(g)
    && HitsBody(Head(Moved(g)["a"]), Moved(g)["b"].segments)
    && HitsBody(Head(Moved(g)["b"]), Moved(g)["a"].segments)
  }

  lemma TheyHitEachOther(g: GameState, a: SnakeState, b: SnakeState)
    requires g.snakes.Keys == {"a", "b"} && g.inputs == []
    requires a == Advanced(g.snakes["a"]) && b == Advanced(g.snakes["b"])
    requires a.segments == [Vec2(605.0, 600.0), Vec2(600.0, 600.0), Vec2(590.0, 600.0)]
    requires b.segments == [Vec2(615.0, 600.0), Vec2(610.0, 600.0), Vec2(600.0, 600.0)]
    ensures HitsBody(Head(a), b.segments) && HitEachOther(g)
  {
    assert Touches(Head(a), b.segments[0]) && Touches(Head(b), a.segments[0]);
    hide Advanced, Moved;
    BothMove(g, a, b);
  }

  lemma DroppedOutOfReach(food: FoodState, a: SnakeState, p: Vec2)
    requires OutOfReach(food, p) && |a.segments| == 3
    requires !Reaches(p, a.segments[0]) && !Reaches(p, a.segments[2])
    ensures OutOfReach(DropOne(food, a), p)
  {
    hide OutOfReach, Reaches, Dropped;
    assert DropSpots(a) == [a.segments[0], a.segments[2]];
    DroppingStaysOutOfReach(food, DropSpots(a), p);
  }

  lemma FifteenIsOutOfReach()
    ensures !Reaches(Vec2(620.0, 600.0), Vec2(605.0, 600.0)) && !Reaches(Vec2(620.0, 600.0), Vec2(590.0, 600.0))
  {
  }

  /** A run in which two snakes hit each other with their heads: one dies, the other survives, and the dead
      one drops its food in that tick and again in the next. */
  lemma HeadOnSparesOne() returns (states: seq<GameState>, events: seq<Event>)
    ensures IsRun(states, events) && IsStart(states[0]) && |states| == 5
    ensures events == [Join("a", "a", Draw(0.5, 0.5)), Join("b", "b", Draw(0.51, 0.5))]
                      + [Event.Tick(Both(["a", "b"]))] + [Event.Tick(Both(["b"]))]
    ensures HitEachOther(states[2])
    ensures states[3].snakes.Keys == {"a", "b"} && !states[3].snakes["a"].alive && states[3].snakes["b"].alive
    ensures |states[2].food.items| == 100 && |states[3].food.items| == 102 && |states[4].food.items| == 104
  {
    hide IsRun, IsStart, Undisturbed, OutOfReach, Advanced, Spawned, HitsBody, Stocked, Fits, Ticked, DropOne,
      HitEachOther, Reaches;
    var g := CalmStart();
    var a, b, b2 := TwoInLine();
    states, events := JoinTwo(g, Spawned("a", "a", CENTER), Draw(0.5, 0.5), CENTER,
                              Spawned("b", "b", Vec2(610.0, 600.0)), Draw(0.51, 0.5), Vec2(610.0, 600.0));
    var g2 := states[2];
    TheyHitEachOther(g2, a, b);
    ShortIsUndisturbed(a, g.food, SIZE, SIZE);
    ShortIsUndisturbed(b, g.food, SIZE, SIZE);
    DroppingTwice(g.food, Killed(a));
    HeadOnTick(g2, a, b);
    var g3 := Ticked(g2, Both(["a", "b"]));
    RunGrows(states, events, Event.Tick(Both(["a", "b"])), g3);
    states, events := states + [g3], events + [Event.Tick(Both(["a", "b"]))];
    FifteenIsOutOfReach();
    DroppedOutOfReach(g.food, Killed(a), Head(b2));
    ShortIsUndisturbed(b2, g3.food, SIZE, SIZE);
    TickAfterHeadOn(g3, b2);
    var g4 := Ticked(g3, Both(["b"]));
    RunGrows(states, events, Event.Tick(Both(["b"])), g4);
    states, events := states + [g4], events + [Event.Tick(Both(["b"]))];
  }

  // ---- A head on another's flank ---------------------------------------------------------------------

  /** The heads are more than 14 apart, and a's head is less than 14 from b's last segment. */
  predicate FlankHit(a: SnakeState, b: SnakeState)
  {
    && |a.segments| == 3 && |b.segments| == 3
    && DistSquared(a.segments[0], b.segments[0]) > 196.0 && DistSquared(a.segments[0], b.segments[2]) < 196.0
  }

  /** A run in which a runs into b's last segment, more than 14 from b's head, and dies. */
  lemma FlankHitKills() returns (states: seq<GameState>, events: seq<Event>)
    ensures IsRun(states, events) && IsStart(states[0]) && |states| == 4
    ensures events == [Join("a", "a", Draw(0.49, 0.51)), Join("b", "b", Draw(0.51, 0.5))]
                      + [Event.Tick(Both(["a", "b"]))]
    ensures states[2].snakes.Keys == states[3].snakes.Keys == {"a", "b"}
    ensures states[2].snakes["a"].alive && !states[3].snakes["a"].alive && states[3].snakes["b"].alive
    ensures FlankHit(states[3].snakes["a"], states[3].snakes["b"])
  {
    hide IsRun, IsStart, Undisturbed, OutOfReach, Advanced, Spawned, HitsBody, Stocked, Fits, Ticked, DropOne, FlankHit;
    var g := CalmStart();
    var a0, b0, a, b := FlankAndHead();
    states, events := JoinTwo(g, a0, Draw(0.49, 0.51), Vec2(590.0, 610.0), b0, Draw(0.51, 0.5), Vec2(610.0, 600.0));
    var g2 := states[2];
    ShortIsUndisturbed(a, g.food, SIZE, SIZE);
    ShortIsUndisturbed(b, g.food, SIZE, SIZE);
    DroppingTwice(g.food, Killed(a));
    HeadOnTick(g2, a, b);
    var g3 := Ticked(g2, Both(["a", "b"]));
    RunGrows(states, events, Event.Tick(Both(["a", "b"])), g3);
    states, events := states + [g3], events + [Event.Tick(Both(["a", "b"]))];
  }

  lemma FlankAndHead() returns (a0: SnakeState, b0: SnakeState, a: SnakeState, b: SnakeState)
    ensures a0 == Spawned("a", "a", Vec2(590.0, 610.0)) && b0 == Spawned("b", "b", Vec2(610.0, 600.0)) && a0.alive
    ensures a == Advanced(a0) && a.alive && a.score == 0 && |a.segments| == 3 && Head(a) == Vec2(595.0, 610.0)
    ensures b == Advanced(b0) && b.alive && |b.segments| == 3 && Head(b) == Vec2(615.0, 600.0)
    ensures FlankHit(Killed(a), b) && HitsBody(Head(a), b.segments)
  {
    hide Advanced, Spawned, Touches;
    a0, a := FirstStep("a", Vec2(590.0, 610.0));
    b0, b := FirstStep("b", Vec2(610.0, 600.0));
    NearIsNear(Head(a), b.segments[2]);
    assert Touches(Head(a), b.segments[2]);
  }
}
