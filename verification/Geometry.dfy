/** Points, headings and the distance test of the arena. */
module Geometry {

  const HEAD_RADIUS := 8.0
  const SEGMENT_RADIUS := 6.0
  const FOOD_RADIUS := 6.0

  datatype Vec2 = Vec2(x: real, y: real)

  /** The wire enum is open: a client may send any code, and nothing rejects it. */
  datatype Direction = Unspecified | Up | Down | Left | Right | Unrecognized(code: int)

  predicate IsOpposite(a: Direction, b: Direction)
  {
    match a
    case Up => b == Down
    case Down => b == Up
    case Left => b == Right
    case Right => b == Left
    case _ => false
  }

  function Delta(d: Direction): Vec2
  {
    match d
    case Up => Vec2(0.0, -1.0)
    case Down => Vec2(0.0, 1.0)
    case Left => Vec2(-1.0, 0.0)
    case Right => Vec2(1.0, 0.0)
    case _ => Vec2(0.0, 0.0)
  }

  predicate IsHeading(d: Direction)
  {
    d in {Up, Down, Left, Right}
  }

  /** The point reached from p by going reach units along d. */
  function Displaced(p: Vec2, d: Direction, reach: real): Vec2
  {
    Vec2(p.x + Delta(d).x * reach, p.y + Delta(d).y * reach)
  }

  function DistSquared(a: Vec2, b: Vec2): real
  {
    (a.x - b.x) * (a.x - b.x) + (a.y - b.y) * (a.y - b.y)
  }

  /** Distance below r, stated on squares: for r >= 0 the two agree over the reals. */
  predicate Within(a: Vec2, b: Vec2, r: real)
  {
    DistSquared(a, b) < r * r
  }

  lemma SquareIsNonNegative(x: real)
    ensures x * x >= 0.0
  {
    if x < 0.0 {
      assert x * x == -x * -x;
    }
  }

  lemma SquaresOrder(d: real, r: real)
    requires 0.0 <= d < r
    ensures d * d < r * r
  {
    ProductIsPositive(r - d, r + d);
    assert (r - d) * (r + d) == r * r - d * d;
  }

  lemma ProductIsPositive(a: real, b: real)
    requires a > 0.0 && b > 0.0
    ensures a * b > 0.0
  {
  }

  lemma ProductIsNonNegative(a: real, b: real)
    requires a >= 0.0 && b >= 0.0
    ensures a * b >= 0.0
  {
  }

  /** The test on squares is the test on distances, d being the distance of a and b. */
  lemma WithinComparesDistances(a: Vec2, b: Vec2, d: real, r: real)
    requires d >= 0.0 && d * d == DistSquared(a, b) && r >= 0.0
    ensures Within(a, b, r) <==> d < r
  {
    if d < r {
      SquaresOrder(d, r);
    } else if r < d {
      SquaresOrder(r, d);
    }
  }

  predicate Touches(head: Vec2, segment: Vec2)
  {
    Within(head, segment, HEAD_RADIUS + SEGMENT_RADIUS)
  }

  /** In coordinates both tests are the same: nearer than 14. */
  lemma NearIsNear(p: Vec2, q: Vec2)
    ensures Touches(p, q) <==> (p.x - q.x) * (p.x - q.x) + (p.y - q.y) * (p.y - q.y) < 196.0
    ensures Reaches(p, q) <==> (p.x - q.x) * (p.x - q.x) + (p.y - q.y) * (p.y - q.y) < 196.0
    ensures DistSquared(p, q) == (p.x - q.x) * (p.x - q.x) + (p.y - q.y) * (p.y - q.y)
  {
  }

  predicate Reaches(head: Vec2, food: Vec2)
  {
    Within(head, food, HEAD_RADIUS + FOOD_RADIUS)
  }

  /** p lies in the w by h arena grown by margin on every side. */
  predicate Inside(p: Vec2, w: real, h: real, margin: real)
  {
    -margin <= p.x <= w + margin && -margin <= p.y <= h + margin
  }
}
