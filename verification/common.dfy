/** Shared vocabulary of the combat model: optional values, planar points,
    squared distances and non-negative durations. */
module Common {

  /** An optional value; stands for a nullable reference or a missing key. */
  datatype Option<+T> = None | Some(value: T)

  /** Elapsed time in seconds; the frame clock never yields a negative delta. */
  type Duration = r: real | r >= 0.0

  /** A point (or vector) of the playfield. */
  datatype Point = Point(x: real, y: real)

  /** An axis-aligned rectangle with integer corner and size (a build plot). */
  datatype Rect = Rect(x: int, y: int, w: int, h: int)

  /** Point-in-rectangle test: the left and top edges are inside, the right
      and bottom edges are not. */
  predicate Contains(r: Rect, px: int, py: int) {
    r.x <= px < r.x + r.w && r.y <= py < r.y + r.h
  }

  /** Squared Euclidean distance: every distance comparison of the program is
      decided on squares, which needs no square root. */
  function Dist2(a: Point, b: Point): (d: real)
    ensures d >= 0.0
    ensures a == b ==> d == 0.0
  {
    var dx := b.x - a.x;
    var dy := b.y - a.y;
    SquaresZero(dx, dy);
    dx * dx + dy * dy
  }

  lemma SquaresZero(dx: real, dy: real)
    ensures dx * dx + dy * dy >= 0.0
    ensures dx != 0.0 || dy != 0.0 ==> dx * dx + dy * dy > 0.0
    ensures dx == 0.0 && dy == 0.0 ==> dx * dx + dy * dy == 0.0
  {
    SquareSign(dx);
    SquareSign(dy);
  }

  lemma SquareSign(a: real)
    ensures a * a >= 0.0
    ensures a != 0.0 ==> a * a > 0.0
  {
    if a > 0.0 {
      MulPositive(a, a);
    } else if a < 0.0 {
      MulPositive(-a, -a);
    }
  }

  lemma MulPositive(a: real, b: real)
    requires a > 0.0 && b > 0.0
    ensures a * b > 0.0
  {
  }

  /** Squaring is strictly increasing on the non-negative reals. */
  lemma SquareStrict(d: real, s: real)
    requires 0.0 <= d < s
    ensures d * d < s * s
  {
    MulPositive(s - d, s + d);
  }

  /** `d` is the Euclidean length whose square is `d2`. */
  predicate IsRoot(d: real, d2: real) {
    d >= 0.0 && d * d == d2
  }

  /** The strict test `sqrt(d2) < s`, decided without a square root. */
  predicate RootBelow(d2: real, s: real) {
    0.0 < s && d2 < s * s
  }

  /** For a non-negative length `d` with square `d2`, comparing squares agrees
      with comparing lengths: the square-based test is exact. */
  lemma RootBelowExact(d: real, d2: real, s: real)
    requires IsRoot(d, d2)
    ensures RootBelow(d2, s) <==> d < s
  {
    if d < s {
      SquareStrict(d, s);
    } else if 0.0 < s < d {
      SquareStrict(s, d);
    }
  }

  /** Strict comparison of two lengths through their squares. */
  lemma RootLessExact(d: real, d2: real, e: real, e2: real)
    requires IsRoot(d, d2) && IsRoot(e, e2)
    ensures d2 < e2 <==> d < e
  {
    if d < e {
      SquareStrict(d, e);
    } else if e < d {
      SquareStrict(e, d);
    }
  }
}
