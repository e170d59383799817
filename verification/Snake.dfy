/** The mutable snake of the engine, its body shifted in place. */
module Snakes {
  import opened Geometry
  import opened SnakeModel

  class Snake {
    const playerID: string
    const name: string
    var segments: seq<Vec2>
    var direction: Direction
    var speed: real
    var score: int
    var alive: bool
    var boosting: bool
    var growPending: int
    ghost var past: History

    ghost predicate Valid()
      reads this
    {
      segments != []
    }

    ghost function View(): SnakeState
      requires Valid()
      reads this
    {
      SnakeState(playerID, name, segments, direction, speed, score, alive, boosting, growPending, past)
    }

    constructor (playerID: string, name: string, pos: Vec2)
      ensures Valid() && this.playerID == playerID
      ensures View() == Spawned(playerID, name, pos)
    {
      var body := [];
      for i := 0 to INITIAL_SEGMENTS
        invariant body == SpawnBody(pos)[..i]
      {
        body := body + [Vec2(pos.x - i as real * SEGMENT_SPACING, pos.y)];
      }
      this.playerID, this.name := playerID, name;
      segments := body;
      direction, speed, score := Right, BASE_SPEED, 0;
      alive, boosting, growPending := true, false, 0;
      past := Spawned(playerID, name, pos).past;
      assert body == SpawnBody(pos);
    }

    method SetInput(dir: Direction, boost: bool)
      requires Valid()
      modifies this
      ensures Valid()
      ensures View() == Steered(old(View()), dir, boost)
    {
      if dir != Unspecified && !IsOpposite(direction, dir) {
        direction := dir;
      }
      boosting := boost;
    }

    method Tick()
      requires Valid()
      modifies this
      ensures Valid()
      ensures View() == Advanced(old(View()))
      ensures old(alive) ==>
        var reach := if boosting && old(score) > 1 then 2.0 * speed else speed;
        && score == old(score) - (if boosting && old(score) > 1 then 1 else 0)
        && segments[0] == Ahead(old(segments[0]), direction, reach)
        && |segments| == |old(segments)| + (if old(growPending) > 0 then 1 else 0)
        && segments[1..] <= old(segments)
    {
      if alive {
        AdvancedExactly(View());
      }
      if !alive {
        return;
      }
      var reach := speed;
      if boosting && score > BOOST_SCORE_COST {
        reach := reach * BOOST_MULTIPLIER;
        score := score - BOOST_SCORE_COST;
      }
      var newHead := Vec2(segments[0].x + Delta(direction).x * reach, segments[0].y + Delta(direction).y * reach);
      assert newHead == NextHead(old(View()));
      past := Advanced(old(View())).past;
      if growPending > 0 {
        segments := [newHead] + segments;
        growPending := growPending - 1;
      } else {
        Shift(newHead);
      }
    }

    /** Right to left, each segment takes the place of the one in front; the head goes last. */
    method Shift(newHead: Vec2)
      requires Valid()
      modifies this`segments
      ensures segments == [newHead] + old(segments)[..|old(segments)| - 1]
    {
      ghost var before := segments;
      var i := |segments| - 1;
      while i > 0
        invariant 0 <= i < |segments| == |before|
        invariant forall k :: 0 <= k <= i ==> segments[k] == before[k]
        invariant forall k :: i < k < |segments| ==> segments[k] == before[k - 1]
      {
        segments := segments[i := segments[i - 1]];
        i := i - 1;
      }
      segments := segments[0 := newHead];
    }

    method Grow(amount: int)
      requires Valid()
      modifies this`growPending
      ensures View() == Grown(old(View()), amount)
    {
      growPending := growPending + amount;
    }

    /** Score and growth for a food gain, as the tick applies them to a living snake. */
    method Feed(gain: int)
      requires Valid()
      modifies this`growPending, this`score, this`past
      ensures View() == Fed(old(View()), gain)
    {
      if gain > 0 {
        score := score + gain;
        past := past.(eaten := past.eaten + gain);
        Grow(gain);
      }
    }

    method CheckWallCollision(arenaW: real, arenaH: real)
      requires Valid()
      modifies this`alive
      ensures Valid()
      ensures View() == if HitsWall(old(View()), arenaW, arenaH) then Killed(old(View())) else old(View())
      ensures alive <==> old(alive) && 0.0 <= segments[0].x <= arenaW && 0.0 <= segments[0].y <= arenaH
    {
      var h := segments[0];
      if h.x < 0.0 || h.x > arenaW || h.y < 0.0 || h.y > arenaH {
        alive := false;
      }
    }

    method CheckSelfCollision()
      requires Valid()
      modifies this`alive
      ensures Valid()
      ensures View() == if HitsSelf(old(View())) then Killed(old(View())) else old(View())
      ensures alive <==>
        old(alive) && forall k :: 4 <= k < |segments| ==> DistSquared(segments[0], segments[k]) >= 196.0
    {
      hide Touches, DistSquared;
      SelfHitExactly(View());
      if |segments| < 5 {
        return;
      }
      for k := 4 to |segments|
        invariant alive == old(alive)
        invariant forall j :: 4 <= j < k ==> !Touches(segments[0], segments[j])
      {
        if Touches(segments[0], segments[k]) {
          assert Touches(Head(old(View())), old(View()).segments[k]);
          alive := false;
          return;
        }
      }
    }

    method CheckHeadCollision(other: Snake) returns (hit: bool)
      requires Valid() && other.Valid()
      ensures hit == Collides(View(), other.View())
      ensures hit <==>
        && alive && other.alive
        && exists k :: 0 <= k < |other.segments| && DistSquared(segments[0], other.segments[k]) < 196.0
    {
      hide Touches, DistSquared;
      BodyHitExactly(segments[0], other.segments);
      if !alive || !other.alive {
        return false;
      }
      for k := 0 to |other.segments|
        invariant forall j :: 0 <= j < k ==> !Touches(segments[0], other.segments[j])
      {
        if Touches(segments[0], other.segments[k]) {
          assert Touches(Head(View()), other.View().segments[k]);
          return true;
        }
      }
      return false;
    }

    method DropFood() returns (positions: seq<Vec2>)
      requires Valid()
      ensures positions == DropSpots(View())
    {
      positions := [];
      var i := 0;
      while i < |segments|
        invariant i == 2 * |positions|
        invariant |positions| <= |DropSpots(View())|
        invariant positions == DropSpots(View())[..|positions|]
      {
        positions := positions + [segments[i]];
        i := i + 2;
      }
    }
  }
}
