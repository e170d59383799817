/** The value of a snake and what each of its operations makes of it. */
module SnakeModel {
  import opened Geometry

  const BASE_SPEED := 5.0
  const BOOST_MULTIPLIER := 2.0
  const BOOST_SCORE_COST := 1
  const INITIAL_SEGMENTS := 3
  const SEGMENT_SPACING := 10.0

  /** One recorded displacement: heading and distance. */
  datatype Move = Move(dir: Direction, reach: real)

  /** What happened to a snake so far; not part of the running state, only of its account.
      trail lists every head position, newest first, and ends with the spawn body;
      moves[i] leads from trail[i + 1] to trail[i]. */
  datatype History = History(trail: seq<Vec2>, moves: seq<Move>, eaten: int, awarded: int, boosted: int)

  datatype SnakeState = SnakeState(
    playerID: string, name: string,
    segments: seq<Vec2>, direction: Direction, speed: real, score: int,
    alive: bool, boosting: bool, growPending: int,
    past: History)

  /** The snakes of a room, by player. */
  type Roster = map<string, SnakeState>

  datatype PlayerInput = PlayerInput(playerID: string, direction: Direction, boost: bool)

  function SpawnBody(pos: Vec2): seq<Vec2>
  {
    seq(INITIAL_SEGMENTS, i => Vec2(pos.x - i as real * SEGMENT_SPACING, pos.y))
  }

  function Spawned(playerID: string, name: string, pos: Vec2): SnakeState
  {
    SnakeState(playerID, name, SpawnBody(pos), Right, BASE_SPEED, 0, true, false, 0,
               History(SpawnBody(pos), [Move(Right, SEGMENT_SPACING), Move(Right, SEGMENT_SPACING)], 0, 0, 0))
  }

  /** The engine reads segments[0] unconditionally. No snake is ever without segments (Sound in
      SnakeInvariant), so the value given here for an empty body is never used. */
  function Head(s: SnakeState): Vec2
  {
    if s.segments == [] then Vec2(0.0, 0.0) else s.segments[0]
  }

  function WithoutTail(body: seq<Vec2>): seq<Vec2>
  {
    if body == [] then [] else body[..|body| - 1]
  }

  function Turned(current: Direction, wanted: Direction): Direction
  {
    if wanted != Unspecified && !IsOpposite(current, wanted) then wanted else current
  }

  function Steered(s: SnakeState, wanted: Direction, boost: bool): SnakeState
  {
    s.(direction := Turned(s.direction, wanted), boosting := boost)
  }

  predicate Boosts(s: SnakeState)
  {
    s.boosting && s.score > BOOST_SCORE_COST
  }

  function NextMove(s: SnakeState): Move
  {
    Move(s.direction, if Boosts(s) then s.speed * BOOST_MULTIPLIER else s.speed)
  }

  function NextHead(s: SnakeState): Vec2
  {
    Displaced(Head(s), s.direction, NextMove(s).reach)
  }

  /** One simulation step: prepend the new head, and drop the tail unless growth is pending. */
  function Advanced(s: SnakeState): SnakeState
  {
    if !s.alive then s else
      var cost := if Boosts(s) then BOOST_SCORE_COST else 0;
      s.(segments := [NextHead(s)] + (if s.growPending > 0 then s.segments else WithoutTail(s.segments)),
         growPending := if s.growPending > 0 then s.growPending - 1 else s.growPending,
         score := s.score - cost,
         past := s.past.(trail := [NextHead(s)] + s.past.trail,
                         moves := [NextMove(s)] + s.past.moves,
                         boosted := s.past.boosted + cost))
  }

  /** The point reach units from p along d; y grows downwards. */
  function Ahead(p: Vec2, d: Direction, reach: real): Vec2
  {
    match d
    case Right => Vec2(p.x + reach, p.y)
    case Left => Vec2(p.x - reach, p.y)
    case Down => Vec2(p.x, p.y + reach)
    case Up => Vec2(p.x, p.y - reach)
    case _ => p
  }

  lemma AheadIsDisplaced(p: Vec2, d: Direction, reach: real)
    ensures Displaced(p, d, reach) == Ahead(p, d, reach)
  {
  }

  /** A step of a living snake: with a boost and a score above one, two base steps ahead for one point;
      otherwise one base step for nothing. The rest of the body follows, and pending growth keeps the tail. */
  lemma AdvancedExactly(s: SnakeState)
    requires s.alive && s.segments != []
    ensures
      var t, boosts := Advanced(s), s.boosting && s.score > 1;
      && t.segments[0] == Ahead(s.segments[0], s.direction, if boosts then 2.0 * s.speed else s.speed)
      && t.score == s.score - (if boosts then 1 else 0)
      && t.past.boosted == s.past.boosted + (if boosts then 1 else 0)
      && |t.segments| == |s.segments| + (if s.growPending > 0 then 1 else 0)
      && t.segments[1..] <= s.segments
  {
    AheadIsDisplaced(Head(s), s.direction, NextMove(s).reach);
  }

  function Grown(s: SnakeState, amount: int): SnakeState
  {
    s.(growPending := s.growPending + amount)
  }

  /** The engine's reaction to a food gain: score, one segment per point, and the account entry. */
  function Fed(s: SnakeState, gain: int): SnakeState
  {
    if gain > 0 then
      Grown(s.(score := s.score + gain, past := s.past.(eaten := s.past.eaten + gain)), gain)
    else s
  }

  function Killed(s: SnakeState): SnakeState
  {
    s.(alive := false)
  }

  function Awarded(s: SnakeState, amount: int): SnakeState
  {
    s.(score := s.score + amount, past := s.past.(awarded := s.past.awarded + amount))
  }

  predicate HitsWall(s: SnakeState, w: real, h: real)
  {
    !Inside(Head(s), w, h, 0.0)
  }

  /** The first four segments are never compared with the head. */
  predicate HitsSelf(s: SnakeState)
  {
    exists k :: 4 <= k < |s.segments| && Touches(Head(s), s.segments[k])
  }

  predicate HitsBody(head: Vec2, body: seq<Vec2>)
  {
    exists k :: 0 <= k < |body| && Touches(head, body[k])
  }

  /** Both snakes must be alive for a hit to count. */
  predicate Collides(s: SnakeState, other: SnakeState)
  {
    s.alive && other.alive && HitsBody(Head(s), other.segments)
  }

  // ---- The three tests in coordinates -----------------------------------------------------------

  lemma WallHitExactly(s: SnakeState, w: real, h: real)
    requires s.segments != []
    ensures HitsWall(s, w, h) <==>
      s.segments[0].x < 0.0 || s.segments[0].x > w || s.segments[0].y < 0.0 || s.segments[0].y > h
  {
  }

  /** The self check looks at every segment from the fifth on. */
  lemma SelfHitExactly(s: SnakeState)
    ensures HitsSelf(s) <==>
      exists k :: 4 <= k < |s.segments| && DistSquared(s.segments[0], s.segments[k]) < 196.0
  {
    forall k | 0 <= k < |s.segments|
      ensures Touches(Head(s), s.segments[k]) <==> DistSquared(s.segments[0], s.segments[k]) < 196.0
    {
      NearIsNear(s.segments[0], s.segments[k]);
    }
  }

  /** The test against another snake looks at its whole body, head included. */
  lemma BodyHitExactly(head: Vec2, body: seq<Vec2>)
    ensures HitsBody(head, body) <==> exists k :: 0 <= k < |body| && DistSquared(head, body[k]) < 196.0
  {
    forall k | 0 <= k < |body|
      ensures Touches(head, body[k]) <==> DistSquared(head, body[k]) < 196.0
    {
      NearIsNear(head, body[k]);
    }
  }

  function WallChecked(s: SnakeState, w: real, h: real): SnakeState
  {
    if s.alive && HitsWall(s, w, h) then Killed(s) else s
  }

  function SelfChecked(s: SnakeState): SnakeState
  {
    if s.alive && HitsSelf(s) then Killed(s) else s
  }

  /** Every other segment, the head first. */
  function DropSpots(s: SnakeState): seq<Vec2>
  {
    seq((|s.segments| + 1) / 2, i requires 0 <= i < (|s.segments| + 1) / 2 => s.segments[2 * i])
  }

  /** Integer division by two as the engine does it, truncating towards zero. */
  function Half(n: int): int
  {
    if n >= 0 then n / 2 else -(-n / 2)
  }
}
