/** What every operation on a snake keeps, and what its recorded past says about its body. */
module SnakeInvariant {
  import opened Geometry
  import opened SnakeModel

  ghost predicate Linked(trail: seq<Vec2>, moves: seq<Move>)
  {
    && |trail| == |moves| + 1
    && forall i :: 0 <= i < |moves| ==> trail[i] == Displaced(trail[i + 1], moves[i].dir, moves[i].reach)
  }

  /** Reaches recorded by ticks are one or two base speeds; the spawn body is spaced two. */
  ghost predicate Paced(moves: seq<Move>)
  {
    forall i :: 0 <= i < |moves| ==> moves[i].reach == 5.0 || moves[i].reach == 10.0
  }

  /** The trail ends with a spawn body. */
  ghost predicate FromSpawn(trail: seq<Vec2>)
  {
    |trail| >= INITIAL_SEGMENTS && trail[|trail| - 3..] == SpawnBody(trail[|trail| - 3])
  }

  /** The body is the newest part of the trail; length, growth, score and account agree. */
  ghost predicate Sound(s: SnakeState)
  {
    && s.segments <= s.past.trail
    && Linked(s.past.trail, s.past.moves)
    && Paced(s.past.moves)
    && FromSpawn(s.past.trail)
    && s.speed == BASE_SPEED
    && s.growPending >= 0
    && s.past.eaten >= 0
    && |s.segments| >= INITIAL_SEGMENTS
    && |s.segments| + s.growPending == INITIAL_SEGMENTS + s.past.eaten
    && s.score == s.past.eaten + s.past.awarded - s.past.boosted
    && s.score >= 0
  }

  lemma SpawnedIsSound(playerID: string, name: string, pos: Vec2)
    ensures Sound(Spawned(playerID, name, pos))
  {
  }

  lemma AdvancedIsSound(s: SnakeState)
    requires Sound(s)
    ensures Sound(Advanced(s)) && Advanced(s).score >= 0
  {
    var t := Advanced(s);
    if s.alive {
      assert s.past.trail[0] == Head(s);
      assert t.past.trail[|t.past.trail| - 3..] == s.past.trail[|s.past.trail| - 3..];
    }
  }

  lemma FedIsSound(s: SnakeState, gain: int)
    requires Sound(s)
    ensures Sound(Fed(s, gain))
  {
  }

  lemma AwardedIsSound(s: SnakeState, amount: int)
    requires Sound(s) && amount >= 0
    ensures Sound(Awarded(s, amount))
  {
  }

  /** How a snake may differ from itself at a later moment: the trail only grows at the front,
      a positive score stays positive, and death is final and freezes everything. */
  ghost predicate Later(s: SnakeState, t: SnakeState)
  {
    && (!s.alive ==> t == s)
    && (s.score > 0 ==> t.score > 0)
    && s.past.eaten <= t.past.eaten
    && |s.past.trail| <= |t.past.trail|
    && t.past.trail[|t.past.trail| - |s.past.trail|..] == s.past.trail
  }

  lemma LaterIsTransitive(a: SnakeState, b: SnakeState, c: SnakeState)
    requires Later(a, b) && Later(b, c)
    ensures Later(a, c)
  {
    var shift := |c.past.trail| - |b.past.trail|;
    var skip := |b.past.trail| - |a.past.trail|;
    assert c.past.trail[shift + skip..] == c.past.trail[shift..][skip..];
  }

  lemma StepsAreLater(s: SnakeState, dir: Direction, boost: bool, amount: int)
    requires Sound(s) && amount >= 0
    ensures Later(s, s) && Later(s, Advanced(s))
    ensures s.alive ==>
      Later(s, Steered(s, dir, boost)) && Later(s, Fed(s, amount)) &&
      Later(s, Killed(s)) && Later(s, Awarded(s, amount))
  {
    assert ([NextHead(s)] + s.past.trail)[1..] == s.past.trail;
  }

  // ---- The skip of four segments -------------------------------------------------------------

  /** A coordinate that never falls along h, and one that never falls along v. */
  ghost function Sideways(h: Direction, p: Vec2): real
  {
    if h == Right then p.x else -p.x
  }

  ghost function Upright(v: Direction, p: Vec2): real
  {
    if v == Down then p.y else -p.y
  }

  /** A coordinate that grows by exactly the reach of every move along h or v. */
  ghost function Progress(h: Direction, v: Direction, p: Vec2): real
  {
    Sideways(h, p) + Upright(v, p)
  }

  /** Each of the newest k moves goes along h, along v or nowhere. */
  ghost predicate Along(moves: seq<Move>, k: nat, h: Direction, v: Direction)
    requires k <= |moves|
  {
    && h in {Left, Right} && v in {Up, Down}
    && forall i :: 0 <= i < k ==> moves[i].dir == h || moves[i].dir == v || !IsHeading(moves[i].dir)
  }

  /** Going back along the body, both coordinates fall away from the head and never return. */
  lemma {:induction false} AwayFromHead(trail: seq<Vec2>, moves: seq<Move>, h: Direction, v: Direction, j: nat, k: nat)
    requires Linked(trail, moves) && Paced(moves) && j <= k <= |moves|
    requires Along(moves, k, h, v)
    ensures Sideways(h, trail[j]) >= Sideways(h, trail[k]) && Upright(v, trail[j]) >= Upright(v, trail[k])
    decreases k - j
  {
    if j < k {
      AwayFromHead(trail, moves, h, v, j, k - 1);
      assert trail[k - 1] == Displaced(trail[k], moves[k - 1].dir, moves[k - 1].reach);
    }
  }

  lemma {:induction false} ProgressAlongBody(trail: seq<Vec2>, moves: seq<Move>, h: Direction, v: Direction, k: nat)
    requires Linked(trail, moves) && Paced(moves) && k <= |moves|
    requires Along(moves, k, h, v) && forall i :: 0 <= i < k ==> IsHeading(moves[i].dir)
    ensures Progress(h, v, trail[0]) - Progress(h, v, trail[k]) >= 5.0 * k as real
  {
    if k > 0 {
      ProgressAlongBody(trail, moves, h, v, k - 1);
      assert trail[k - 1] == Displaced(trail[k], moves[k - 1].dir, moves[k - 1].reach);
      assert Progress(h, v, trail[k - 1]) == Progress(h, v, trail[k]) + moves[k - 1].reach;
    }
  }

  lemma SquareOfAtLeastTwenty(x: real)
    requires x >= 20.0
    ensures x * x >= 400.0
  {
    SquareIsNonNegative(x - 20.0);
    assert (x - 20.0) * (x - 20.0) == x * x - 40.0 * x + 400.0;
  }

  /** 2(a^2 + b^2) = (a + b)^2 + (a - b)^2 */
  lemma FarApart(a: real, b: real)
    requires a + b >= 20.0
    ensures a * a + b * b >= 200.0
  {
    SquareIsNonNegative(a - b);
    SquareOfAtLeastTwenty(a + b);
    assert (a - b) * (a - b) == a * a - 2.0 * a * b + b * b;
    assert (a + b) * (a + b) == a * a + 2.0 * a * b + b * b;
  }

  lemma DistanceAlong(p: Vec2, q: Vec2, h: Direction, v: Direction)
    ensures
      var x, y := Sideways(h, p) - Sideways(h, q), Upright(v, p) - Upright(v, q);
      DistSquared(p, q) == x * x + y * y
  {
    var x, y := p.x - q.x, p.y - q.y;
    assert -x * -x == x * x && -y * -y == y * y;
    assert Sideways(h, p) - Sideways(h, q) == if h == Right then x else -x;
    assert Upright(v, p) - Upright(v, q) == if v == Down then y else -y;
  }

  lemma ProgressKeepsClear(h: Direction, v: Direction, p: Vec2, q: Vec2)
    requires Progress(h, v, p) - Progress(h, v, q) >= 20.0
    ensures !Touches(p, q)
  {
    hide DistSquared;
    DistanceAlong(p, q, h, v);
    FarApart(Sideways(h, p) - Sideways(h, q), Upright(v, p) - Upright(v, q));
  }

  /** No two of the moves have opposite headings; a move of an unrecognized direction has none. */
  ghost predicate NoReversal(moves: seq<Move>)
  {
    forall i, j :: 0 <= i < |moves| && 0 <= j < |moves| ==> !IsOpposite(moves[i].dir, moves[j].dir)
  }

  /** None of the newest four moves stood still. */
  ghost predicate KeepsMoving(moves: seq<Move>)
  {
    forall i :: 0 <= i < 4 && i < |moves| ==> IsHeading(moves[i].dir)
  }

  /** The moves between consecutive segments of the body. */
  ghost function BodyMoves(s: SnakeState): seq<Move>
    requires Sound(s)
  {
    s.past.moves[..|s.segments| - 1]
  }

  lemma TwoHeadings(moves: seq<Move>) returns (h: Direction, v: Direction)
    requires NoReversal(moves)
    ensures Along(moves, |moves|, h, v)
  {
    h := if exists i :: 0 <= i < |moves| && moves[i].dir == Left then Left else Right;
    v := if exists i :: 0 <= i < |moves| && moves[i].dir == Up then Up else Down;
    forall i | 0 <= i < |moves|
      ensures moves[i].dir == h || moves[i].dir == v || !IsHeading(moves[i].dir)
    {
      if h == Left {
        var j :| 0 <= j < |moves| && moves[j].dir == Left;
        assert !IsOpposite(moves[i].dir, moves[j].dir);
      }
      if v == Up {
        var j :| 0 <= j < |moves| && moves[j].dir == Up;
        assert !IsOpposite(moves[i].dir, moves[j].dir);
      }
    }
  }

  lemma SquareGrows(x: real, y: real)
    requires 0.0 <= x <= y
    ensures x * x <= y * y
  {
    ProductIsNonNegative(y - x, y + x);
    assert (y - x) * (y + x) == y * y - x * x;
  }

  /** Further away in both coordinates is further away. */
  lemma FurtherIsFurther(head: Vec2, p: Vec2, q: Vec2, h: Direction, v: Direction)
    requires Sideways(h, head) >= Sideways(h, p) >= Sideways(h, q)
    requires Upright(v, head) >= Upright(v, p) >= Upright(v, q)
    ensures Touches(head, q) ==> Touches(head, p)
  {
    hide DistSquared, Sideways, Upright;
    DistanceAlong(head, p, h, v);
    DistanceAlong(head, q, h, v);
    SquareGrows(Sideways(h, head) - Sideways(h, p), Sideways(h, head) - Sideways(h, q));
    SquareGrows(Upright(v, head) - Upright(v, p), Upright(v, head) - Upright(v, q));
  }

  /** For a body without two opposite headings, whatever its length and speed mix, the self check comes
      down to the fifth segment. */
  lemma SelfCheckIsFifthSegment(s: SnakeState)
    requires Sound(s) && NoReversal(BodyMoves(s))
    ensures HitsSelf(s) <==> |s.segments| > 4 && Touches(Head(s), s.segments[4])
  {
    hide Touches;
    var h, v := TwoHeadings(BodyMoves(s));
    forall k | 4 <= k < |s.segments|
      ensures Touches(Head(s), s.segments[k]) ==> Touches(Head(s), s.segments[4])
    {
      AwayFromHead(s.past.trail, s.past.moves, h, v, 0, 4);
      AwayFromHead(s.past.trail, s.past.moves, h, v, 4, k);
      FurtherIsFurther(Head(s), s.segments[4], s.segments[k], h, v);
    }
  }

  /** Without two opposite headings in the body, and none of its newest four moves standing still, a
      snake never runs into itself. */
  lemma SkipSuffices(s: SnakeState)
    requires Sound(s) && NoReversal(BodyMoves(s)) && KeepsMoving(BodyMoves(s))
    ensures !HitsSelf(s)
  {
    hide Touches;
    SelfCheckIsFifthSegment(s);
    if |s.segments| > 4 {
      var h, v := TwoHeadings(BodyMoves(s));
      assert forall i :: 0 <= i < 4 ==> BodyMoves(s)[i] == s.past.moves[i];
      ProgressAlongBody(s.past.trail, s.past.moves, h, v, 4);
      ProgressKeepsClear(h, v, Head(s), s.segments[4]);
    }
  }

  lemma Stays(p: Vec2, d: Direction, reach: real)
    requires !IsHeading(d)
    ensures Displaced(p, d, reach) == p
  {
  }

  lemma StandsStill(s: SnakeState)
    requires s.alive && s.segments != [] && !IsHeading(s.direction)
    ensures
      var t := Advanced(s);
      && t.alive && t.direction == s.direction && |t.segments| >= |s.segments|
      && t.segments[0] == s.segments[0] && t.segments[1..] <= s.segments
      && (NoReversal(s.past.moves) ==> NoReversal(t.past.moves))
  {
    Stays(Head(s), s.direction, NextMove(s).reach);
  }

  /** Standing still is what the skip does not cover: any living snake of five segments that stands still
      for four ticks hits itself, without any two opposite headings. */
  lemma StandingStillFails(s: SnakeState)
    requires s.alive && |s.segments| >= 5 && !IsHeading(s.direction)
    ensures
      var t := Advanced(Advanced(Advanced(Advanced(s))));
      HitsSelf(t) && (NoReversal(s.past.moves) ==> NoReversal(t.past.moves))
  {
    hide Advanced, NoReversal, Touches;
    StandsStill(s);
    var s1 := Advanced(s);
    StandsStill(s1);
    var s2 := Advanced(s1);
    StandsStill(s2);
    var s3 := Advanced(s2);
    StandsStill(s3);
    var t := Advanced(s3);
    assert t.segments[4] == s3.segments[3] == s2.segments[2] == s1.segments[1] == s.segments[0];
    TouchesItself(Head(t));
    assert Touches(Head(t), t.segments[4]);
  }

  lemma TouchesItself(p: Vec2)
    ensures Touches(p, p)
  {
  }

  // ---- Facing --------------------------------------------------------------------------------

  /** The heading of the newest move that went anywhere; before any, the one every snake spawns with. */
  function LastHeading(moves: seq<Move>): (d: Direction)
    ensures IsHeading(d)
  {
    if moves == [] then Right else if IsHeading(moves[0].dir) then moves[0].dir else LastHeading(moves[1..])
  }

  /** Between ticks a living snake is directed as it moved last, never by an unspecified direction. */
  ghost predicate Facing(s: SnakeState)
  {
    s.past.moves != [] && s.direction == s.past.moves[0].dir && s.direction != Unspecified
  }

  /** One input turns a snake against its last real step exactly if the snake stands still and the input
      asks for it; the guard only looks at the current direction. */
  lemma OneInputReversesExactly(s: SnakeState, wanted: Direction, boost: bool)
    requires Facing(s)
    ensures
      var d := LastHeading(s.past.moves);
      IsOpposite(d, Steered(s, wanted, boost).direction) <==> !IsHeading(s.direction) && IsOpposite(d, wanted)
  {
  }

  // ---- Runs of one snake ---------------------------------------------------------------------

  datatype SnakeOp = Input(dir: Direction, boost: bool) | Grow(amount: int) | Tick

  function Applied(s: SnakeState, op: SnakeOp): SnakeState
  {
    match op
    case Input(dir, boost) => Steered(s, dir, boost)
    case Grow(amount) => Grown(s, amount)
    case Tick => Advanced(s)
  }

  function Replay(s: SnakeState, ops: seq<SnakeOp>): SnakeState
  {
    if ops == [] then s else Applied(Replay(s, ops[..|ops| - 1]), ops[|ops| - 1])
  }

  /** The head after each tick of the run, newest first, followed by the starting body. */
  function HeadsSince(s: SnakeState, ops: seq<SnakeOp>): seq<Vec2>
  {
    if ops == [] then s.segments else
      var before := HeadsSince(s, ops[..|ops| - 1]);
      if ops[|ops| - 1] == Tick then [Head(Replay(s, ops))] + before else before
  }

  function GrowthIn(ops: seq<SnakeOp>): int
  {
    if ops == [] then 0 else
      GrowthIn(ops[..|ops| - 1]) + (if ops[|ops| - 1].Grow? then ops[|ops| - 1].amount else 0)
  }

  /** After any run of a living snake its body is the newest part of all heads it ever had. */
  lemma {:induction false} TrailRefinement(s: SnakeState, ops: seq<SnakeOp>)
    requires s.alive && s.segments != []
    ensures Replay(s, ops).alive
    ensures Replay(s, ops).segments <= HeadsSince(s, ops)
    ensures |Replay(s, ops).segments| + Replay(s, ops).growPending == |s.segments| + s.growPending + GrowthIn(ops)
    ensures |Replay(s, ops).segments| >= |s.segments|
  {
    if ops != [] {
      TrailRefinement(s, ops[..|ops| - 1]);
    }
  }

  ghost function SBend(pos: Vec2): SnakeState
  {
    var straight := Advanced(Grown(Spawned("p", "p", pos), 1));
    var up := Advanced(Steered(straight, Up, false));
    Advanced(Steered(up, Right, false))
  }

  lemma SBendShape(pos: Vec2)
    ensures SBend(pos).segments ==
            [Vec2(pos.x + 10.0, pos.y - 5.0), Vec2(pos.x + 5.0, pos.y - 5.0), Vec2(pos.x + 5.0, pos.y), pos]
    ensures SBend(pos).past.moves ==
            [Move(Right, 5.0), Move(Up, 5.0), Move(Right, 5.0),
             Move(Right, SEGMENT_SPACING), Move(Right, SEGMENT_SPACING)]
  {
    var straight := Advanced(Grown(Spawned("p", "p", pos), 1));
    assert straight.segments[..2] == [Vec2(pos.x + 5.0, pos.y), pos];
    var up := Advanced(Steered(straight, Up, false));
    assert up.segments[..3] == [Vec2(pos.x + 5.0, pos.y - 5.0), Vec2(pos.x + 5.0, pos.y), pos];
    assert |up.segments| == 4 && up.growPending == 0;
  }

  const S_BEND := [Grow(1), Tick, Input(Up, false), Tick, Input(Right, false), Tick]

  lemma SBendIsReplayed(pos: Vec2)
    ensures Replay(Spawned("p", "p", pos), S_BEND) == SBend(pos)
  {
    var s0 := Spawned("p", "p", pos);
    ReplayPair(s0, [], Grow(1), Tick);
    ReplayPair(s0, [Grow(1), Tick], Input(Up, false), Tick);
    ReplayPair(s0, [Grow(1), Tick, Input(Up, false), Tick], Input(Right, false), Tick);
    assert [] + [Grow(1), Tick] == [Grow(1), Tick];
    assert [Grow(1), Tick] + [Input(Up, false), Tick] == [Grow(1), Tick, Input(Up, false), Tick];
    assert [Grow(1), Tick, Input(Up, false), Tick] + [Input(Right, false), Tick] == S_BEND;
  }

  /** Skipping three segments would not do: an S-bend of plain steps brings segment 3 within reach. */
  lemma SkippingThreeFails(pos: Vec2)
    ensures
      var s := Replay(Spawned("p", "p", pos), S_BEND);
      && |s.segments| == 4 && NoReversal(s.past.moves)
      && (forall i :: 0 <= i < |s.past.moves| ==> IsHeading(s.past.moves[i].dir))
      && Touches(Head(s), s.segments[3])
  {
    hide Replay, SBend;
    SBendIsReplayed(pos);
    SBendShape(pos);
    var s := SBend(pos);
    assert Head(s).x - s.segments[3].x == 10.0 && Head(s).y - s.segments[3].y == -5.0;
  }

  lemma ReplayPair(s: SnakeState, ops: seq<SnakeOp>, a: SnakeOp, b: SnakeOp)
    ensures Replay(s, ops + [a, b]) == Applied(Applied(Replay(s, ops), a), b)
  {
    assert (ops + [a, b])[..|ops| + 1] == ops + [a];
    assert (ops + [a])[..|ops|] == ops;
  }

  // ---- A loop ------------------------------------------------------------------------------------

  /** One input and one step for each of the directions. */
  function Walk(s: SnakeState, dirs: seq<Direction>): SnakeState
  {
    if dirs == [] then s else Advanced(Steered(Walk(s, dirs[..|dirs| - 1]), dirs[|dirs| - 1], false))
  }

  const LOOP := [Right, Right, Down, Down, Down, Left, Left, Left, Up]

  /** Where the n-th step of the loop leads, from where it began. */
  function LoopOffset(n: nat): Vec2
  {
    match n
    case 0 => Vec2(0.0, 0.0)
    case 1 => Vec2(5.0, 0.0)
    case 2 => Vec2(10.0, 0.0)
    case 3 => Vec2(10.0, 5.0)
    case 4 => Vec2(10.0, 10.0)
    case 5 => Vec2(10.0, 15.0)
    case 6 => Vec2(5.0, 15.0)
    case 7 => Vec2(0.0, 15.0)
    case 8 => Vec2(-5.0, 15.0)
    case _ => Vec2(-5.0, 10.0)
  }

  /** The i-th segment after n steps: first the heads so far, newest first, then the spawn body. */
  function SegmentOffset(n: nat, i: nat): Vec2
  {
    if i <= n then LoopOffset(n - i) else Vec2(10.0 * (n - i) as real, 0.0)
  }

  function Shifted(pos: Vec2, offset: Vec2): Vec2
  {
    Vec2(pos.x + offset.x, pos.y + offset.y)
  }

  function LoopBody(pos: Vec2, n: nat): seq<Vec2>
  {
    seq(if n <= 7 then n + 3 else 10, i requires 0 <= i < n + 10 => Shifted(pos, SegmentOffset(n, i)))
  }

  /** What is known of the looping snake after n steps. */
  ghost predicate IsLooping(s: SnakeState, pos: Vec2, n: nat)
    requires n <= 9
  {
    && s.alive && s.score == 0 && s.speed == BASE_SPEED && s.segments == LoopBody(pos, n)
    && s.growPending == (if n <= 7 then 7 - n else 0) && s.direction == if n == 0 then Right else LOOP[n - 1]
  }

  lemma LoopLeadsOn(pos: Vec2, n: nat)
    requires n < 9
    ensures Displaced(Shifted(pos, LoopOffset(n)), LOOP[n], 5.0) == Shifted(pos, LoopOffset(n + 1))
    ensures Turned(if n == 0 then Right else LOOP[n - 1], LOOP[n]) == LOOP[n]
  {
    assert n == 0 || n == 1 || n == 2 || n == 3 || n == 4 || n == 5 || n == 6 || n == 7 || n == 8;
  }

  lemma LoopStep(s: SnakeState, pos: Vec2, n: nat)
    requires n < 9 && IsLooping(s, pos, n)
    ensures IsLooping(Advanced(Steered(s, LOOP[n], false)), pos, n + 1)
  {
    hide Displaced, LoopOffset, Turned;
    LoopLeadsOn(pos, n);
    var t := Advanced(Steered(s, LOOP[n], false));
    assert Head(s) == Shifted(pos, LoopOffset(n));
    assert NextHead(Steered(s, LOOP[n], false)) == Shifted(pos, LoopOffset(n + 1));
    assert t.segments == LoopBody(pos, n + 1);
  }

  lemma {:induction false} LoopingSnake(pos: Vec2, n: nat)
    requires n <= 9
    ensures IsLooping(Walk(Grown(Spawned("p", "p", pos), 7), LOOP[..n]), pos, n)
  {
    hide IsLooping, Advanced, Steered;
    if n == 0 {
      LoopBegins(pos);
    } else {
      LoopingSnake(pos, n - 1);
      assert LOOP[..n][..n - 1] == LOOP[..n - 1];
      LoopStep(Walk(Grown(Spawned("p", "p", pos), 7), LOOP[..n - 1]), pos, n - 1);
    }
  }

  lemma LoopBegins(pos: Vec2)
    ensures IsLooping(Grown(Spawned("p", "p", pos), 7), pos, 0)
  {
    assert SpawnBody(pos) == LoopBody(pos, 0);
  }

  lemma OffsetDistance(n: nat, k: nat)
    requires n <= 9 && 4 <= k < 10 && k < n + 3
    ensures DistSquared(SegmentOffset(n, 0), SegmentOffset(n, k)) < 196.0 <==> n == 9 && k == 9
  {
    assert n == 2 || n == 3 || n == 4 || n == 5 || n == 6 || n == 7 || n == 8 || n == 9;
    assert k == 4 || k == 5 || k == 6 || k == 7 || k == 8 || k == 9;
  }

  lemma LoopDistance(pos: Vec2, n: nat, k: nat)
    requires n <= 9 && 4 <= k < |LoopBody(pos, n)|
    ensures DistSquared(LoopBody(pos, n)[0], LoopBody(pos, n)[k]) < 196.0 <==> n == 9 && k == 9
  {
    var p, q := SegmentOffset(n, 0), SegmentOffset(n, k);
    OffsetDistance(n, k);
    assert Shifted(pos, p).x - Shifted(pos, q).x == p.x - q.x && Shifted(pos, p).y - Shifted(pos, q).y == p.y - q.y;
  }

  /** A snake of ten segments that walks round a small square dies of its tenth segment in its last step
      and of no other before: the self check reaches beyond the fifth. */
  lemma LoopHitsTheTail(pos: Vec2, n: nat)
    requires n <= 9
    ensures
      var s := Walk(Grown(Spawned("p", "p", pos), 7), LOOP[..n]);
      && (HitsSelf(s) <==> n == 9)
      && (n == 9 ==> |s.segments| == 10 && !Touches(Head(s), s.segments[4]) && Touches(Head(s), s.segments[9]))
  {
    LoopingSnake(pos, n);
    var s := Walk(Grown(Spawned("p", "p", pos), 7), LOOP[..n]);
    hide Walk, DistSquared, Touches, HitsSelf, LoopBody;
    SelfHitExactly(s);
    forall k: nat | 4 <= k < |s.segments|
      ensures DistSquared(s.segments[0], s.segments[k]) < 196.0 <==> n == 9 && k == 9
      ensures Touches(Head(s), s.segments[k]) <==> n == 9 && k == 9
    {
      LoopDistance(pos, n, k);
      NearIsNear(s.segments[0], s.segments[k]);
    }
    LoopLength(pos, n);
    assert n == 9 ==> Touches(Head(s), s.segments[9]) && !Touches(Head(s), s.segments[4]);
    assert n == 9 ==> DistSquared(s.segments[0], s.segments[9]) < 196.0;
  }

  lemma LoopLength(pos: Vec2, n: nat)
    ensures |LoopBody(pos, n)| == if n <= 7 then n + 3 else 10
  {
  }
}
