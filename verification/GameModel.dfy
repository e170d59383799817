/** The arena as a value: what each phase of a tick, and each call between ticks, makes of it. */
module GameModel {
  import opened SnakeModel
  import opened FoodModel
  import opened Elimination

  const INPUT_BUFFER := 1024
  const SPAWN_PADDING := 100.0

  datatype Table = Table(snakes: Roster, food: FoodState)

  /** departed is the food eaten by snakes that were removed or replaced. */
  datatype GameState = GameState(
    snakes: Roster, food: FoodState, arenaW: real, arenaH: real,
    tick: nat, inputs: seq<PlayerInput>, departed: int)

  /** What a tick does not determine: the orders in which maps are walked, and the random draws. */
  datatype Choices = Choices(eating: seq<string>, scanning: seq<string>, dropping: seq<string>, draws: seq<Draw>)

  /** order walks keys: each once, none missing. */
  ghost predicate Visits(order: seq<string>, keys: set<string>)
  {
    && (forall i :: 0 <= i < |order| ==> order[i] in keys)
    && (forall i, j :: 0 <= i < j < |order| ==> order[i] != order[j])
    && (forall id :: id in keys ==> exists i :: 0 <= i < |order| && order[i] == id)
  }

  // ---- Phase 1: inputs -----------------------------------------------------------------------

  function SteerOne(snakes: Roster, input: PlayerInput): (r: Roster)
    ensures r.Keys == snakes.Keys
  {
    var id := input.playerID;
    if id in snakes && snakes[id].alive then
      snakes[id := Steered(snakes[id], input.direction, input.boost)]
    else snakes
  }

  function SteerAll(snakes: Roster, inputs: seq<PlayerInput>): (r: Roster)
    ensures r.Keys == snakes.Keys
  {
    if inputs == [] then snakes
    else SteerOne(SteerAll(snakes, inputs[..|inputs| - 1]), inputs[|inputs| - 1])
  }

  // ---- Phases 2, 4 and 5: every snake by itself ------------------------------------------------

  function MoveAll(snakes: Roster): Roster
  {
    map id | id in snakes :: Advanced(snakes[id])
  }

  function CheckAll(snakes: Roster, w: real, h: real): Roster
  {
    map id | id in snakes :: SelfChecked(WallChecked(snakes[id], w, h))
  }

  // ---- Phase 3: food ---------------------------------------------------------------------------

  ghost function EatOne(t: Table, id: string): (r: Table)
    requires id in t.snakes
    ensures r.snakes.Keys == t.snakes.Keys
  {
    if !t.snakes[id].alive then t else
      var head := Head(t.snakes[id]);
      Table(t.snakes[id := Fed(t.snakes[id], Gain(t.food, head))], Consumed(t.food, head))
  }

  ghost function EatAll(t: Table, order: seq<string>): (r: Table)
    requires forall i :: 0 <= i < |order| ==> order[i] in t.snakes
    ensures r.snakes.Keys == t.snakes.Keys
  {
    if order == [] then t
    else EatOne(EatAll(t, order[..|order| - 1]), order[|order| - 1])
  }

  // ---- Phase 7: dropped food -------------------------------------------------------------------

  function DropOne(food: FoodState, s: SnakeState): FoodState
  {
    if s.alive then food else Dropped(food, DropSpots(s), DEATH_FOOD_VALUE)
  }

  function DropAll(food: FoodState, snakes: Roster, order: seq<string>): FoodState
    requires forall i :: 0 <= i < |order| ==> order[i] in snakes
  {
    if order == [] then food
    else DropOne(DropAll(food, snakes, order[..|order| - 1]), snakes[order[|order| - 1]])
  }

  // ---- The tick --------------------------------------------------------------------------------

  function Moved(g: GameState): (r: Roster)
    ensures r.Keys == g.snakes.Keys
  {
    MoveAll(SteerAll(g.snakes, g.inputs))
  }

  ghost function AfterMeal(g: GameState, c: Choices): (r: Table)
    requires Visits(c.eating, g.snakes.Keys)
    ensures r.snakes.Keys == g.snakes.Keys
  {
    EatAll(Table(Moved(g), g.food), c.eating)
  }

  ghost function Checked(g: GameState, c: Choices): (r: Roster)
    requires Visits(c.eating, g.snakes.Keys)
    ensures r.Keys == g.snakes.Keys
  {
    CheckAll(AfterMeal(g, c).snakes, g.arenaW, g.arenaH)
  }

  /** The scan list holds exactly the snakes alive after the checks, each once. */
  ghost predicate ListsLiving(ids: seq<string>, snakes: Roster)
  {
    && Listed(snakes, ids)
    && AllAlive(snakes, ids)
    && (forall id :: id in snakes && snakes[id].alive ==> exists i :: 0 <= i < |ids| && ids[i] == id)
  }

  ghost function Fought(g: GameState, c: Choices): (r: Roster)
    requires Visits(c.eating, g.snakes.Keys) && ListsLiving(c.scanning, Checked(g, c))
    ensures r.Keys == g.snakes.Keys
  {
    Rows(Checked(g, c), c.scanning, |c.scanning|)
  }

  ghost function Littered(g: GameState, c: Choices): FoodState
    requires Visits(c.eating, g.snakes.Keys) && ListsLiving(c.scanning, Checked(g, c))
    requires Visits(c.dropping, g.snakes.Keys)
  {
    DropAll(AfterMeal(g, c).food, Fought(g, c), c.dropping)
  }

  /** c resolves exactly what the tick from g leaves open. */
  ghost predicate Fits(g: GameState, c: Choices)
  {
    && Visits(c.eating, g.snakes.Keys)
    && ListsLiving(c.scanning, Checked(g, c))
    && Visits(c.dropping, g.snakes.Keys)
    && |c.draws| == Shortage(Littered(g, c)) && Fractions(c.draws)
  }

  ghost function Ticked(g: GameState, c: Choices): GameState
    requires Fits(g, c)
  {
    g.(tick := g.tick + 1, inputs := [], snakes := Fought(g, c), food := SpawnedAll(Littered(g, c), c.draws))
  }

  // ---- Calls between ticks -----------------------------------------------------------------------

  function EatenBy(snakes: Roster, id: string): int
  {
    if id in snakes then snakes[id].past.eaten else 0
  }

  /** A joining player gets a new snake, also in place of an old one. */
  function Joined(g: GameState, id: string, name: string, d: Draw): GameState
  {
    g.(snakes := g.snakes[id := Spawned(id, name, RandomSpot(g.arenaW, g.arenaH, SPAWN_PADDING, d))],
       departed := g.departed + EatenBy(g.snakes, id))
  }

  function Removed(g: GameState, id: string): GameState
  {
    g.(snakes := g.snakes - {id}, departed := g.departed + EatenBy(g.snakes, id))
  }

  /** A full buffer drops the input. */
  function Submitted(g: GameState, input: PlayerInput): GameState
  {
    if |g.inputs| < INPUT_BUFFER then g.(inputs := g.inputs + [input]) else g
  }

  function NewGame(arenaW: real, arenaH: real, draws: seq<Draw>): GameState
  {
    GameState(map[], SpawnedAll(EmptyFood(arenaW, arenaH), draws), arenaW, arenaH, 0, [], 0)
  }

  // ---- Runs ----------------------------------------------------------------------------------------

  datatype Event =
    | Join(id: string, name: string, at: Draw)
    | Leave(id: string)
    | Submit(input: PlayerInput)
    | Tick(choices: Choices)

  ghost predicate Possible(g: GameState, e: Event)
  {
    match e
    case Join(_, _, at) => IsFraction(at)
    case Tick(choices) => Fits(g, choices)
    case _ => true
  }

  ghost function After(g: GameState, e: Event): GameState
    requires Possible(g, e)
  {
    match e
    case Join(id, name, at) => Joined(g, id, name, at)
    case Leave(id) => Removed(g, id)
    case Submit(input) => Submitted(g, input)
    case Tick(choices) => Ticked(g, choices)
  }

  ghost predicate IsStart(g: GameState)
  {
    exists draws :: |draws| == INITIAL_FOOD && Fractions(draws) && g == NewGame(g.arenaW, g.arenaH, draws)
  }

  /** The states of a run: states[i + 1] follows states[i] by events[i]. */
  ghost predicate IsRun(states: seq<GameState>, events: seq<Event>)
  {
    && |states| == |events| + 1
    && (forall i :: 0 <= i < |events| ==>
          Possible(states[i], events[i]) && states[i + 1] == After(states[i], events[i]))
  }
}
