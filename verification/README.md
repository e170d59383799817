# Snake.io backend: models and proofs

This project models the hard core of a multiplayer snake backend in Dafny and proves what it promises:
the server-authoritative game engine of a game node, the matchmaker that assigns players to nodes, and
the hub that broadcasts game states to clients.

Each component comes in two parts. A value model (datatypes and functions) says what every operation
makes of the state, and lemmas state what holds of it over every input, every order and every run. Classes
with mutable fields, written the way the Go code works, are proved against that value model: each method's
new state is the value function applied to the old one.

| files | what they hold |
|---|---|
| `Geometry`, `SnakeModel`, `SnakeInvariant`, `Snake` | points and headings; a snake as a value; what its operations keep; the mutable snake |
| `FoodIds`, `FoodModel`, `Food` | food ids in decimal; the food map and its ledger; the mutable food manager |
| `GameModel` | the eight phases of a tick as functions of the state and of what the code leaves open |
| `Steering`, `Eating`, `Elimination`, `ScoreFlow`, `Phases`, `Safety` | what each phase does and keeps |
| `GameRuns`, `GameTheorems`, `Course`, `Game` | invariants of every run; the promises over whole runs; where snakes are headed over runs; the mutable room |
| `TickEffects` | what a tick does to every snake and item, read off coordinates, scores and inputs |
| `GameExamples` | short runs that show what the code's comments deny |
| `RegistryModel`, `Allocation`, `Registry`, `QueueModel`, `Queue` | node registry, greedy allocation, waiting queue |
| `MatchModel`, `Server`, `QueueRuns`, `MatchmakerRuns` | the two assigners; runs of queue, registry and clock; interleavings of lookups and increments |
| `HubModel`, `Hub` | bounded per-client broadcast |
| `MapTotals`, `Options` | sums over finite maps; a value that may be missing |

Conventions. Go walks maps in an unspecified order; every such walk here picks any remaining key, and the
order it took is reported as a sequence (`Choices`), so a lemma over all choices covers all orders. Random
draws are arbitrary fractions in the stated range. Coordinates are reals, and a distance below 14 is a squared
distance below 196 (`Geometry.WithinComparesDistances`, `Geometry.NearIsNear`). Times are integers passed in by the
caller, and so is how each call to the queue's store goes, including failures that took effect in part. A snake
carries an account of its past (`History`) that the engine does not keep; the classes hold it in ghost fields.

Where the code and its own comments differ, the model follows the code:

- "When two snakes collide head-on, both die" (`services/gamenode/internal/engine/game.go:220`) is false:
  `GameExamples.HeadOnSparesOne` is a run in which one survives. Who dies is read off the bodies before the scan by
  `Elimination.FatesAreForeseen`, and `Elimination.HeadOnKillsBoth` says exactly when both do.
- "Award kill score to the surviving snake" (`services/gamenode/internal/engine/game.go:237`) is false too:
  `Elimination.PaidSnakeSurvivesExactly` says exactly when the paid snake survives, and `Elimination.PaidSnakeDies`
  gives three snakes of which it does not.
- "Prevents 180 degree reversals" (`services/gamenode/internal/engine/snake.go:83`) is false, since the guard compares
  with the current direction and not with the last step. Two inputs of one tick reverse a snake
  (`Steering.TwoInputsReverse`), and so does one input in each of two ticks, the first an unrecognized direction that
  stops it (`GameExamples.OneInputATickReverses`). `Course.TurnsBackExactlyByDetour` says exactly which ticks of a run
  take a snake back over its last real step.
- The self check skips four segments "to avoid false positives when turning"
  (`services/gamenode/internal/engine/snake.go:139-140`). That suffices for a snake that keeps moving
  (`SnakeInvariant.SkipSuffices`), but a snake of five segments that stands still for four ticks dies
  (`SnakeInvariant.StandingStillFails`).
- `Replenish` is commented as filling up to the maximum (`services/gamenode/internal/engine/food.go:92`). By
  `Foods.FoodManager.Replenish` the item count afterwards is the larger of the old count and 100, the initial amount.
- A dead snake drops its food again on every tick in which it is still listed, until the map is full
  (`GameTheorems.TheDeadDropEveryTick`; `GameExamples.HeadOnSparesOne` shows it twice).
- The queue is called FIFO (`services/matchmaker/internal/queue/queue.go:37`), but a match request never looks at it.
  `QueueRuns.NewcomerIsServedFirst` gives a run in which a newcomer is served before a waiting player,
  `QueueRuns.OvertakesExactly` says exactly which requests are, and by `QueueRuns.OvertakingNeedsNewRoom` it takes
  a node that registers or reports room while players wait, after the last drain that ended without an error.
- The queue index expires after five minutes; `QueueRuns.AgreementExactlyWhilePrompt` and
  `QueueRuns.RequestKeepsOrderExactly` say exactly when it still prevents duplicates.

## Model

| member | source | states |
|---|---|---|
| Geometry.WithinComparesDistances | services/gamenode/internal/engine/snake.go:228-232 | the collision test on squared distances decides exactly as the test on distances |
| Geometry.NearIsNear | services/gamenode/internal/engine/snake.go:228-232 | both hit tests, for segments and for food, are a squared coordinate distance below 196 |
| Snakes.Snake.constructor | services/gamenode/internal/engine/snake.go:58-75 | a new snake is alive, scores zero, heads right and has three segments trailing left |
| Snakes.Snake.SetInput | services/gamenode/internal/engine/snake.go:84-89 | a direct reversal or an unspecified direction is ignored, the boost flag is always taken |
| Snakes.Snake.Tick | services/gamenode/internal/engine/snake.go:92-124 | a living snake's head moves ahead by its speed, or by twice its speed for one point exactly if it boosts with a score above one; the body follows and grows exactly while growth is pending; a dead snake does nothing |
| SnakeModel.AdvancedExactly | services/gamenode/internal/engine/snake.go:92-124 | the same of the step as a value, in coordinates and scores |
| SnakeModel.SelfHitExactly | services/gamenode/internal/engine/snake.go:141-152 | the self check triggers exactly if some segment from the fifth on is within 14 of the head |
| SnakeModel.BodyHitExactly | services/gamenode/internal/engine/snake.go:156-168 | the test against another snake triggers exactly if any of its segments is within 14 of the head |
| Snakes.Snake.Shift | services/gamenode/internal/engine/snake.go:118-122 | the right-to-left shift loop equals prepending the head and dropping the tail |
| Snakes.Snake.Grow | services/gamenode/internal/engine/snake.go:127-129 | growth is only queued |
| Snakes.Snake.Feed | services/gamenode/internal/engine/game.go:170-173 | a positive food gain becomes score and the same number of pending segments |
| Snakes.Snake.CheckWallCollision | services/gamenode/internal/engine/snake.go:132-137 | kills exactly when the head is outside the arena |
| Snakes.Snake.CheckSelfCollision | services/gamenode/internal/engine/snake.go:141-152 | kills exactly when some segment from the fifth on is at a squared distance below 196 from the head |
| Snakes.Snake.CheckHeadCollision | services/gamenode/internal/engine/snake.go:156-168 | hits exactly if both snakes are alive and some segment of the other is at a squared distance below 196 from the head |
| Snakes.Snake.DropFood | services/gamenode/internal/engine/snake.go:189-196 | the positions are every other segment, head first, in order |
| SnakeInvariant.SpawnedIsSound | services/gamenode/internal/engine/snake.go:58-75 | a new snake satisfies the snake invariant: body on trail, length and score accounted for |
| SnakeInvariant.AdvancedIsSound | services/gamenode/internal/engine/snake.go:92-124 | a step keeps the snake invariant; a boost never drives the score below zero |
| SnakeInvariant.StepsAreLater | services/gamenode/internal/engine/snake.go:84-129 | no operation revives a snake, changes a dead one, rewrites its trail or brings a positive score back to zero |
| SnakeInvariant.TrailRefinement | services/gamenode/internal/engine/snake.go:92-129 | after any sequence of inputs, growth and steps the body is the newest part of all past heads followed by the starting body, and its length is what it was plus the growth already realised |
| SnakeInvariant.SelfCheckIsFifthSegment | services/gamenode/internal/engine/snake.go:139-152 | for a body without two opposite headings, at any length and speed mix and with any pauses, the self check triggers if and only if the head touches the fifth segment |
| SnakeInvariant.SkipSuffices | services/gamenode/internal/engine/snake.go:139-152 | a body without two opposite headings whose newest four moves all went somewhere never triggers the self check, at any length and speed mix |
| SnakeInvariant.StandingStillFails | services/gamenode/internal/engine/snake.go:139-152 | any living snake of five segments that stands still for four ticks hits itself, without any two opposite headings |
| SnakeInvariant.LoopHitsTheTail | services/gamenode/internal/engine/snake.go:146-151 | a snake of ten segments that walks round a square dies of its tenth segment, with the fifth out of reach, and of none before |
| SnakeInvariant.SkippingThreeFails | services/gamenode/internal/engine/snake.go:139-152 | skipping one segment less would kill a snake that only made an S-bend |
| SnakeInvariant.OneInputReversesExactly | services/gamenode/internal/engine/snake.go:82-89 | a single input turns a snake against its last real step if and only if the snake stands still and the input asks for it |
| FoodIds.DecimalRoundTrip | services/gamenode/internal/engine/food.go:62 | the decimal rendering of the counter can be read back |
| FoodIds.FoodIdsAreDistinct | services/gamenode/internal/engine/food.go:61-62 | different counter values give different ids |
| FoodIds.NextIdIsNew | services/gamenode/internal/engine/food.go:61-66 | the next id has never been issued |
| FoodModel.AddingKeepsStock | services/gamenode/internal/engine/food.go:60-71 | a spawn enlarges the map by one and keeps ids, cap and the value ledger |
| FoodModel.SpawningKeepsStock | services/gamenode/internal/engine/food.go:93-99 | replenishing keeps ids, cap and ledger and adds exactly as many items as it draws |
| FoodModel.SpawningKeepsPlaces | services/gamenode/internal/engine/food.go:60-71 | natural food keeps 50 from every wall |
| FoodModel.DroppingKeepsStock | services/gamenode/internal/engine/food.go:75-90 | dropping keeps ids, cap and ledger |
| FoodModel.DroppingFillsUp | services/gamenode/internal/engine/food.go:78-81 | dropping places every position until the map holds 200 items |
| FoodModel.DroppedExactly | services/gamenode/internal/engine/food.go:75-90 | dropped food is two points at each position, in order, under the next ids, as far as there is room |
| FoodModel.SpawnedExactly | services/gamenode/internal/engine/food.go:60-71 | natural food is one point at the drawn place 50 from the walls, under the next ids |
| FoodModel.EverySpotCanBeDrawn | services/gamenode/internal/engine/food.go:63-65 | every place between the pads is the outcome of some draw |
| FoodModel.EatingKeepsStock | services/gamenode/internal/engine/food.go:103-115 | the gain of a bite is exactly the value that leaves the map |
| FoodModel.WorthIsCapped | services/gamenode/internal/engine/food.go:11-23 | the map never holds more than 400 points |
| Foods.FoodManager.constructor | services/gamenode/internal/engine/food.go:46-57 | a new manager holds 100 natural items at padded random positions |
| Foods.FoodManager.SpawnOne | services/gamenode/internal/engine/food.go:60-71 | one item with the next id at a random position 50 from the walls |
| Foods.FoodManager.SpawnAtPositions | services/gamenode/internal/engine/food.go:75-90 | the positions are placed in order until the cap |
| Foods.FoodManager.Replenish | services/gamenode/internal/engine/food.go:93-99 | ends, spawns exactly the number of items missing to 100, and leaves the larger of the old count and 100 |
| Foods.FoodManager.CheckCollisions | services/gamenode/internal/engine/food.go:103-115 | removes exactly the items within reach and returns their total value, whatever the walking order |
| Steering.InputProjection | services/gamenode/internal/engine/game.go:206-217 | draining any interleaved buffer leaves each snake as its player's own inputs alone would |
| Steering.InterleavingDoesNotMatter | services/gamenode/internal/engine/game.go:206-217 | buffers that agree on every player's own inputs have the same effect |
| Steering.ReversedExactlyByDetour | services/gamenode/internal/engine/snake.go:82-89 | a list of wanted directions ends opposite to the heading it started from if and only if a turn off its axis is followed by the reverse heading and by no further turn off the axis |
| Steering.TickReversesExactlyByDetour | services/gamenode/internal/engine/game.go:206-217 | draining a buffer turns a living snake of the roster against its last real step if and only if the direction it has, which may be an unrecognized one, and then its own inputs make that detour; it asks that the snake is directed as it moved last, which holds in every run |
| Steering.TwoInputsReverse | services/gamenode/internal/engine/game.go:206-217 | a buffer of two allowed inputs that reverses a snake of any roster within one drain |
| Eating.EatingLeavesUnclaimed | services/gamenode/internal/engine/game.go:165-174 | for every walking order the food left is exactly what no living head reaches, and nobody moves or dies |
| Eating.EatingMovesPoints | services/gamenode/internal/engine/game.go:165-174 | every point that leaves the map arrives in a living snake's score and is counted as eaten |
| Eating.EatingOrderDoesNotMatter | services/gamenode/internal/engine/game.go:165-174 | two walking orders leave the same food and hand out the same total |
| Eating.EachEatsItsShare | services/gamenode/internal/engine/game.go:165-174 | a living snake eats exactly the items within 14 of its head and of no living head visited before |
| Elimination.RowStep | services/gamenode/internal/engine/game.go:230-241 | the inner loop is at most one strike: a victim pays the first snake it hits and nobody else |
| Elimination.KillerIsFirst | services/gamenode/internal/engine/game.go:231-236 | the killer is the first living snake of the scan the victim runs into |
| Elimination.SequentialElimination | services/gamenode/internal/engine/game.go:221-242 | a snake dies exactly when it meets a later one or a surviving earlier one of the scan; nobody moves |
| Elimination.SurvivorsKeepClear | services/gamenode/internal/engine/game.go:221-242 | no survivor's head touches another survivor |
| Elimination.SomebodySurvives | services/gamenode/internal/engine/game.go:221-242 | if anybody enters the scan alive, somebody leaves it alive |
| Elimination.FatesAreForeseen | services/gamenode/internal/engine/game.go:221-242 | who dies follows from the bodies before the scan alone: exactly those that run into a later snake or into an earlier one that does not fall |
| Elimination.HeadOnKillsBoth | services/gamenode/internal/engine/game.go:219-242 | of two snakes that hit each other the earlier-scanned dies, and the other dies too if and only if it also runs into a third: a later one, or an earlier one that does not fall |
| Elimination.PaidSnakeSurvivesExactly | services/gamenode/internal/engine/game.go:235-239 | the snake paid for a victim survives the scan if and only if it does not fall itself, and always if it comes before the victim |
| Elimination.PaidSnakeDies | services/gamenode/internal/engine/game.go:235-239 | of three new snakes in a line, 10 apart, the one paid for the first kill dies |
| ScoreFlow.ScanIsBalanced | services/gamenode/internal/engine/game.go:230-241 | at every point of the scan, awards paid equal half of each victim's final score, living scores plus payments never exceed the living total at the start, and no score passes the cap |
| ScoreFlow.HalfIsHalf | services/gamenode/internal/engine/game.go:238 | the award is half the victim's score, rounded towards zero |
| ScoreFlow.RowPaysHalf | services/gamenode/internal/engine/game.go:230-241 | each row pays half of the victim's score to the first living snake of the list within 14 of whose body the victim's head is, and changes nobody else |
| Phases.SteeringKeeps | services/gamenode/internal/engine/game.go:206-217 | inputs change no score and keep every snake's account |
| Phases.MovingKeeps | services/gamenode/internal/engine/game.go:159-162 | movement keeps every snake's account and never raises a score |
| Phases.EatingRaisesCap | services/gamenode/internal/engine/game.go:165-174 | one eating phase raises the score cap by at most 400 |
| Phases.CheckingKeeps | services/gamenode/internal/engine/game.go:176-190 | the wall and self checks keep every snake's account and all scores under the cap |
| Phases.ScanKeeps | services/gamenode/internal/engine/game.go:221-242 | the scan keeps every snake's account, and the dead stay as they are |
| Phases.DropAllKeepsStock | services/gamenode/internal/engine/game.go:245-263 | handling deaths keeps the food ledger and only adds items |
| Phases.DroppingCountsExactly | services/gamenode/internal/engine/game.go:245-250 | visiting any snakes once each adds one item for every second segment of every dead one, up to 200 items |
| Phases.DropsUnlessFull | services/gamenode/internal/engine/food.go:75-90 | a dead snake has something to drop, and adds nothing if and only if the map is full |
| Safety.TickIsSafe | services/gamenode/internal/engine/game.go:150-203 | at the end of every tick every living head is in the arena, and at a squared distance of at least 196 from its own segments from the fifth on and from every segment of every other living snake |
| Safety.MovingLoosens | services/gamenode/internal/engine/snake.go:92-124 | a step takes at most the head out of the arena, by at most 10 |
| Safety.CheckingHouses | services/gamenode/internal/engine/game.go:176-190 | after the checks every living snake lies wholly in the arena |
| Safety.SpawnedIsHoused | services/gamenode/internal/engine/game.go:87-92 | in an arena of at least 200 by 200 a new snake lies wholly inside |
| Safety.DropAllKeepsPlaces | services/gamenode/internal/engine/game.go:245-250 | dropped food is at most 10 outside the arena |
| GameRuns.CheckedKeeps | services/gamenode/internal/engine/game.go:156-190 | phases 1 to 5 keep all accounts and raise the cap by 400 |
| GameRuns.TickKeepsAccounts | services/gamenode/internal/engine/game.go:150-203 | a tick keeps the accounts of snakes and food, and every snake and item only moves on |
| GameRuns.TickKeepsContainment | services/gamenode/internal/engine/game.go:150-203 | a tick keeps snakes and food where the arena allows them |
| GameRuns.JoiningKeepsAccounts | services/gamenode/internal/engine/game.go:83-99 | joining, also in place of an old snake, keeps all accounts |
| GameRuns.LeavingKeepsAccounts | services/gamenode/internal/engine/game.go:102-107 | leaving keeps all accounts |
| GameRuns.StartKeeps | services/gamenode/internal/engine/game.go:61-70 | a new game satisfies all invariants |
| GameRuns.EveryStateIsGood | services/gamenode/internal/engine/game.go:83-203 | the accounts hold in every state of every run of joins, leaves, inputs and ticks; so does containment in arenas of at least 200 by 200 |
| GameTheorems.ScoresAreBounded | services/gamenode/internal/engine/game.go:165-241 | over any run the living total and every single score stay within 400 points per tick, so 32 bits suffice for 5,368,709 ticks |
| GameTheorems.FoodIsConserved | services/gamenode/internal/engine/game.go:165-174 | over any run, food spawned equals food on the map plus food eaten; each snake's length, pending growth and score agree with what it ate, earned and burned |
| GameTheorems.FoodMapIsSound | services/gamenode/internal/engine/food.go:60-99 | over any run the map holds between 100 and 200 items, each under its own issued id |
| GameTheorems.FoodNeverReturns | services/gamenode/internal/engine/food.go:60-90 | over any run no id is used again and no item changes while it is on the map |
| GameTheorems.EverythingIsInPlace | services/gamenode/internal/engine/game.go:83-203 | over any run, living snakes are inside, dead ones have at most the head outside by 10, natural food keeps 50 from the walls and dropped food is at most 10 outside |
| GameTheorems.SnakesOnlyGrowOlder | services/gamenode/internal/engine/game.go:150-203 | until its player leaves or rejoins, a snake keeps its trail and account, a positive score stays positive, and a dead snake never changes |
| GameTheorems.TickCountsFoodExactly | services/gamenode/internal/engine/game.go:192-200 | after a tick the map holds what the meal left plus the food of all dead snakes, at most 200 and at least 100 items, in whatever order the dead are visited |
| GameTheorems.TheDeadDropEveryTick | services/gamenode/internal/engine/game.go:245-250 | over any run, a snake that died and was not removed or replaced drops the same food again in every later tick, and adds nothing if and only if the map is full at its turn |
| GameTheorems.NoReversalNoSelfKill | services/gamenode/internal/engine/game.go:184-190 | in any tick of any run, for a snake whose body holds no two opposite headings the self check kills exactly on touching the fifth segment, and spares the snake if its newest four moves all went somewhere |
| Course.EveryoneFaces | services/gamenode/internal/engine/game.go:83-203 | in every state of every run a living snake's direction is that of its newest move, and never unspecified |
| Course.TurnsBackExactlyByDetour | services/gamenode/internal/engine/game.go:150-217 | in any tick of any run a living snake goes back against its last real step if and only if the direction it has and then its own inputs of the tick make a detour off that axis and come back; standing still is such a detour |
| TickEffects.EverySnakeSteps | services/gamenode/internal/engine/game.go:150-217 | in every tick of every run every living snake has the flag of its last own input and moves its head exactly 10 ahead for one point if that flag is set and its score was above one, else exactly 5 for nothing; its body follows and grows exactly while growth is pending |
| TickEffects.EveryDeathIsExact | services/gamenode/internal/engine/game.go:176-242 | in every tick of every run the scan lists exactly the living with their head inside and 14 clear of their own body from the fifth segment on; of these exactly the ones die that run into a later one or an earlier one that does not fall |
| TickEffects.EverySnakeEatsItsMeal | services/gamenode/internal/engine/game.go:165-174 | in every tick of every run each snake eats exactly what is within 14 of its head and of no living head visited before; the dead eat nothing |
| TickEffects.ExactlyTheReachedIsEaten | services/gamenode/internal/engine/food.go:103-115 | in every tick of every run an item leaves the map if and only if a living head is within 14 of it, and otherwise stays unchanged |
| TickEffects.TheDeadLeaveEverySecondSegment | services/gamenode/internal/engine/snake.go:189-196 | in every tick a dead snake leaves two points at its head and at every second segment behind it, in order, as far as there is room |
| TickEffects.JoiningGivesANewSnake | services/gamenode/internal/engine/game.go:83-99 | whoever joins, known or not, is given a living new snake at the drawn place 100 from the walls, and nothing else changes |
| TickEffects.LeavingTakesTheSnake | services/gamenode/internal/engine/game.go:102-107 | whoever leaves has no snake any more, and nothing else changes |
| TickEffects.TheFirstInputsWait | services/gamenode/internal/engine/game.go:110-117 | in every state of every run exactly the first 1024 inputs since the last tick are waiting, in order |
| GameExamples.OneInputATickReverses | services/gamenode/internal/engine/snake.go:82-89 | a run in which one input in each of two ticks takes a snake straight back over its body |
| GameExamples.HeadOnSparesOne | services/gamenode/internal/engine/game.go:219-263 | a run in which two snakes hit each other with their heads and one survives, and the dead one drops its food in that tick and in the next |
| GameExamples.FlankHitKills | services/gamenode/internal/engine/snake.go:156-168 | a run in which a snake dies on another's last segment with the heads more than 14 apart |
| Games.Game.constructor | services/gamenode/internal/engine/game.go:61-70 | a new room is empty of players and holds the initial food |
| Games.Game.AddPlayer | services/gamenode/internal/engine/game.go:83-99 | the player gets a new snake 100 from the walls; the accounts are kept |
| Games.Game.RemovePlayer | services/gamenode/internal/engine/game.go:102-107 | the player's snake is gone, all others unchanged; the accounts are kept |
| Games.Game.SubmitInput | services/gamenode/internal/engine/game.go:110-117 | the input is buffered unless 1024 are waiting |
| Games.Game.DrainInputs | services/gamenode/internal/engine/game.go:206-217 | applies the whole buffer in order and empties it |
| Games.Game.MoveSnakes | services/gamenode/internal/engine/game.go:159-162 | every snake makes its own step, in any order |
| Games.Game.FeedSnakes | services/gamenode/internal/engine/game.go:165-174 | every living snake eats once, in the reported order |
| Games.Game.CheckBodies | services/gamenode/internal/engine/game.go:176-190 | the two check loops together treat every snake by itself |
| Games.Game.CollectAlive | services/gamenode/internal/engine/game.go:223-228 | the scan list holds exactly the living snakes, each once |
| Games.Game.CheckInterSnakeCollisions | services/gamenode/internal/engine/game.go:221-242 | the nested loops over mutable snakes compute the elimination of the reported scan list |
| Games.Game.HandleDeaths | services/gamenode/internal/engine/game.go:245-263 | every dead snake drops food, in the reported order, and no snake changes |
| Games.Game.ProcessTick | services/gamenode/internal/engine/game.go:150-203 | the phases in order compute the tick for the reported choices; the result is accounted and safe |
| Registries.Registry.Register | services/matchmaker/internal/registry/registry.go:44-65 | the entry is replaced by a healthy, empty, non-draining node; the result tells whether it is new |
| Registries.Registry.Heartbeat | services/matchmaker/internal/registry/registry.go:69-81 | a known node is seen, healthy, has the reported load and drains as before; an unknown one changes nothing |
| RegistryModel.RegisteringStartsAfresh | services/matchmaker/internal/registry/registry.go:44-65 | a registration, also of a known node, ends draining and silence and forgets the load; other nodes are unchanged |
| RegistryModel.HeartbeatRevives | services/matchmaker/internal/registry/registry.go:69-81 | after a heartbeat a known node is healthy, was seen now and may be picked if and only if it is not draining and reports room; other nodes are unchanged |
| RegistryModel.DrainingAndRemovingTouchOne | services/matchmaker/internal/registry/registry.go:125-140 | a drained node may not be picked, a removed one is gone, and other nodes are unchanged |
| RegistryModel.HealthCheckExactly | services/matchmaker/internal/registry/registry.go:144-155 | a node is healthy after a check if and only if it was and has not been silent beyond the timeout; nothing else changes |
| RegistryModel.AssigningTouchesOne | services/matchmaker/internal/registry/registry.go:116-122 | an assignment adds one to one node's load and changes nothing else |
| Registries.Registry.BestNode | services/matchmaker/internal/registry/registry.go:85-112 | a copy of a healthy, non-draining node with positive and maximal room, or nothing exactly if there is none |
| Registries.Registry.IncrementLoad | services/matchmaker/internal/registry/registry.go:116-122 | one more player on the node, if it is still known |
| Registries.Registry.SetDraining | services/matchmaker/internal/registry/registry.go:125-132 | the node is marked, all others unchanged |
| Registries.Registry.Remove | services/matchmaker/internal/registry/registry.go:135-140 | the node is gone, all others unchanged |
| Registries.Registry.HealthCheck | services/matchmaker/internal/registry/registry.go:144-155 | exactly the healthy nodes silent beyond the timeout become unhealthy |
| Allocation.RoomMeansSuitable | services/matchmaker/internal/registry/registry.go:92-104 | some node can be picked exactly when there is room |
| Allocation.EveryPickTakesOnePlace | services/matchmaker/internal/server/server.go:163-189 | n picks use exactly n of the free places |
| Allocation.AllocationRespectsNodes | services/matchmaker/internal/server/server.go:163-189 | no load passes its capacity and unsuitable nodes are untouched |
| Allocation.WaterFilling | services/matchmaker/internal/server/server.go:163-189 | a node that received a player ends at most one place below any eligible node |
| Allocation.TiesDoNotMatter | services/matchmaker/internal/server/server.go:163-189 | however ties are broken, equally many picks leave equally many eligible nodes at every number of free places |
| QueueModel.DequeueTakesAPrefix | services/matchmaker/internal/queue/queue.go:75-95 | n pops take the first n entries, and exactly the keys of those whose key removal went well |
| QueueModel.KeysLastFiveMinutes | services/matchmaker/internal/queue/queue.go:62 | a written key is good for exactly five minutes |
| Queues.Queue.Enqueue | services/matchmaker/internal/queue/queue.go:49-71 | the player is last on the list and has a key for five minutes; a failed push may have done either, both or none |
| Queues.Queue.Dequeue | services/matchmaker/internal/queue/queue.go:75-95 | the first player is returned and loses list place and key; an empty queue says so; a key that is not removed goes unnoticed, and an error may or may not have taken the entry |
| Queues.Queue.IsQueued | services/matchmaker/internal/queue/queue.go:98-104 | answers by the unexpired key, not by the list, or reports a failed check |
| MatchModel.DrainsAgree | services/matchmaker/internal/server/server.go:163-189 | however ties are broken, drains from the same queue, registry and pops serve equally many, end alike and leave the same queue and equally many eligible nodes at every number of free places |
| Servers.MatchmakerServer.RequestMatch | services/matchmaker/internal/server/server.go:102-159 | exactly which requests are refused, queued, matched to a best node or fail, on the duplicate check, the push or the token, and what each changes |
| Servers.MatchmakerServer.DrainQueue | services/matchmaker/internal/server/server.go:163-189 | ends, and assigns from the front of the queue, each time to a best node; without an error exactly the smaller of queue length and total room, with an error exactly the players before the first failing pop while there was room |
| QueueRuns.AgreementExactlyWhilePrompt | services/matchmaker/internal/queue/queue.go:60-64 | on an orderly queue the index tells the truth if and only if the head has waited under five minutes |
| QueueRuns.RequestKeepsOrderExactly | services/matchmaker/internal/server/server.go:110-127 | a request keeps the queue orderly unless it is pushed for a player still waiting with an expired key, or the push writes only one of key and entry; those cases break it |
| QueueRuns.DrainKeepsOrderExactly | services/matchmaker/internal/queue/queue.go:75-95 | a drain keeps the queue orderly if and only if no entry is popped without its key |
| QueueRuns.QueueAndIndexAgree | services/matchmaker/internal/queue/queue.go:49-104 | over any run in which nobody waits five minutes and no fault separates an entry from its key, the index holds exactly the waiting players, nobody waits twice, and entries are in order of arrival |
| QueueRuns.LateRequestQueuesTwice | services/matchmaker/internal/queue/queue.go:60-64 | a concrete run in which a late request queues a player twice and one service loses the key |
| QueueRuns.OvertakesExactly | services/matchmaker/internal/server/server.go:110-144 | a request is matched past a waiting queue if and only if there is room, it has a player without a live key, the check goes well and a token is drawn; it takes one place and the queue stays as it is |
| QueueRuns.DrainSettlesExactly | services/matchmaker/internal/server/server.go:163-189 | after a drain nobody waits while there is room, unless a pop failed and players are left |
| QueueRuns.OvertakingNeedsNewRoom | services/matchmaker/internal/server/server.go:102-189 | over any run, being served past the queue implies that since the start, and since every drain without an error, a registration or heartbeat made room where there was none while players waited |
| QueueRuns.NewcomerIsServedFirst | services/matchmaker/internal/server/server.go:121-144 | a concrete run in which a later request is served, no room is left and the earlier player goes on waiting |
| MatchmakerRuns.OverAssignmentIsBounded | services/matchmaker/internal/server/server.go:121-144 | under any interleaving with K assigners and reports of at most capacity + m, load plus pending lookups exceeds no capacity by more than m + K; without heartbeats m is -1 |
| MatchmakerRuns.OverAssignmentIsReached | services/matchmaker/internal/server/server.go:166-179 | the bound is reached for every K and every m |
| MatchmakerRuns.PicksAreFresh | services/matchmaker/internal/registry/registry.go:85-155 | with checks at most one interval apart, no lookup returns a node silent for more than four intervals |
| MatchmakerRuns.SilenceOfFourIntervalsIsReached | services/matchmaker/cmd/main.go:63-92 | four intervals of silence are possible |
| MatchmakerRuns.DrainingIsNeverPicked | services/matchmaker/internal/registry/registry.go:69-132 | a draining node is not looked up again before it re-registers, heartbeats or not |
| MatchmakerRuns.HeartbeatRevivesInRuns | services/matchmaker/internal/registry/registry.go:69-81 | in any run a heartbeat makes a known node fit for a lookup if and only if it is not draining and reports room, however long it was silent |
| MatchmakerRuns.SilentNodeIsPickedAgain | services/matchmaker/internal/registry/registry.go:69-112 | a run in which a node times out, cannot be picked, reports room and is picked |
| HubModel.EventKeepsGood | services/gamenode/internal/network/hub.go:63-95 | every join, leave, broadcast and write keeps the hub invariant |
| HubModel.BroadcastHistory | services/gamenode/internal/network/hub.go:63-95 | over any interleaving, delivered then buffered frames are an in-order part of the broadcasts since the join, no buffer exceeds 64, and no reachable channel is closed |
| HubModel.NothingDroppedNothingLost | services/gamenode/internal/network/hub.go:87-94 | a current connection has every broadcast since it joined, delivered or buffered and in order, if and only if none was dropped for it |
| HubModel.BroadcastReachesExactly | services/gamenode/internal/network/hub.go:83-95 | a broadcast goes last into every current buffer of fewer than 64 frames, is dropped and counted on a full one, and touches no other connection |
| HubModel.DroppedExactlyOnFull | services/gamenode/internal/network/hub.go:87-94 | over any run a connection has dropped exactly the broadcasts that found it current with 64 frames buffered; none if and only if there was none |
| HubModel.JoiningExactly | services/gamenode/internal/network/hub.go:63-68 | a joining player is reached by a new open connection, and all connections so far stay as they are |
| HubModel.LeavingExactly | services/gamenode/internal/network/hub.go:71-79 | a leaving player's current connection is closed and unlinked with its buffer kept, and no other changes |
| HubModel.WritesDeliverTheBuffer | services/gamenode/internal/network/handler.go:142-160 | n writes deliver the n oldest buffered frames, in order |
| Hubs.Client.TrySend | services/gamenode/internal/network/hub.go:88-93 | with fewer than 64 frames buffered the new one is last in the buffer, otherwise it is dropped and counted |
| Hubs.Hub.AddClient | services/gamenode/internal/network/hub.go:63-68 | a new client takes over its player's entry, and takes part in the broadcasts from then on |
| Hubs.Hub.RemoveClient | services/gamenode/internal/network/hub.go:71-79 | the current client is closed once and unreachable afterwards |
| Hubs.Hub.Broadcast | services/gamenode/internal/network/hub.go:83-95 | every current client with fewer than 64 frames buffered has the frame last in its buffer, and every other has dropped it; no channel it sends on is closed |

## Left out

- Rounding of 32-bit floats and of the square root: coordinates are reals.
- Registries.Registry.BestNode: capacities and loads are unbounded integers, so the wrap-around of a 32-bit spare
  under an absurd reported load is not modelled.
- Snakes.Snake.Shift: the body is a sequence-valued field updated element by element; the backing array of the
  slice and its reallocation on growth are not modelled.
- Games.Game.DrainInputs: inputs submitted while the buffer is being drained are not modelled; a snapshot is drained.
- Overflow of the 64-bit tick and food counters.
- The death callback, broadcasting and Protobuf encoding of the state at the end of a tick: the state itself is
  the point of observation.
- Session tokens, WebSocket handling, gRPC transport, gateway, database, configuration, logging and load tester.
- JSON encoding and `Flush`: the queue is a list, an expiring key index and a clock.
- The `Snapshot`, `Count` and `Len` getters and the game node's own drain flag.
- QueueRuns.QueueAndIndexAgree: requests and drains are whole steps; two concurrent requests of one player, both
  past the duplicate check before either is queued, are not modelled.
- Hubs.Client.Receive: write errors and the closing of the socket are not modelled; a writer takes frames one by one.
