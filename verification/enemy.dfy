/** A hostile unit walking a fixed polyline: waypoint progress, the
    reached-goal flag, and damage clamped at zero. */
module Enemies {
  import opened Common
  import opened Config

  /** An enemy. `id` stands for the object's identity; `kind` is None for
      the earlier, untyped enemy that takes its stats as arguments. */
  datatype Enemy = Enemy(
    id: nat,
    kind: Option<EnemyKind>,
    path: seq<Point>,
    wp: nat,
    pos: Point,
    speed: real,
    maxHp: real,
    hp: real,
    value: int,
    radius: nat,
    flying: bool,
    direction: Point,
    reachedGoal: bool)

  const Zero: Point := Point(0.0, 0.0)

  /** What every enemy keeps true: it walks a non-empty path, its waypoint
      index stays on the path, its speed is not negative and its health never
      goes below zero. */
  predicate Valid(e: Enemy) {
    && |e.path| > 0
    && e.wp < |e.path|
    && e.speed >= 0.0
    && e.hp >= 0.0
  }

  /** Fresh enemy with the given stats, standing on the first waypoint. */
  function Spawn(id: nat, kind: Option<EnemyKind>, path: seq<Point>, s: EnemyStats): (e: Enemy)
    requires |path| > 0
    requires s.speed >= 0.0 && s.maxHp >= 0.0
    ensures Valid(e)
    ensures e.pos == path[0] && e.wp == 0
    ensures e.hp == e.maxHp == s.maxHp
    ensures e.direction == Zero && !e.reachedGoal
  {
    Enemy(id, kind, path, 0, path[0], s.speed, s.maxHp, s.maxHp, s.value, s.radius, s.flying, Zero, false)
  }

  /** Construction by type name: an unknown type is a configuration error
      (None), otherwise the type's stats are copied onto a fresh enemy. */
  function FromConfig(id: nat, path: seq<Point>, k: EnemyKind): (r: Option<Enemy>)
    requires |path| > 0
    ensures r.None? <==> EnemyStatsOf(k).None?
    ensures r.Some? ==>
      var e := r.value;
      var s := EnemyStatsOf(k).value;
      && Valid(e) && e.id == id && e.kind == Some(k)
      && e.pos == path[0] && e.wp == 0 && e.path == path
      && e.hp == e.maxHp == s.maxHp && e.speed == s.speed
      && e.value == s.value && e.radius == s.radius && e.flying == s.flying
      && e.direction == Zero && !e.reachedGoal
  {
    match EnemyStatsOf(k)
    case None => None
    case Some(s) => Some(Spawn(id, Some(k), path, s))
  }

  // ------------------------------------------------------------------ damage

  /** Subtract `amount`, clamping at zero. */
  function TakeDamage(e: Enemy, amount: real): (r: Enemy)
    requires Valid(e)
    ensures Valid(r)
    ensures r == e.(hp := r.hp)
    ensures r.hp == 0.0 || r.hp == e.hp - amount
    ensures r.hp == 0.0 <==> amount >= e.hp
    ensures amount >= 0.0 ==> r.hp <= e.hp
  {
    var hp := e.hp - amount;
    e.(hp := if hp < 0.0 then 0.0 else hp)
  }

  /** Death is a health of zero or below; since health never drops below
      zero, a valid enemy is dead exactly at zero health. */
  function IsDead(e: Enemy): (b: bool)
    ensures Valid(e) ==> (b <==> e.hp == 0.0)
    ensures e.hp > 0.0 ==> !b
  {
    e.hp <= 0.0
  }

  /** A valid enemy is dead exactly when its health is zero, and damage of at
      least its remaining health is what kills it. */
  lemma DeadIffKilled(e: Enemy, amount: real)
    requires Valid(e)
    ensures IsDead(e) <==> e.hp == 0.0
    ensures IsDead(TakeDamage(e, amount)) <==> amount >= e.hp
  {
  }

  /** Two hits of non-negative damage leave the same health as one hit of
      their sum: clamping never loses or invents damage. */
  lemma DamageAdds(e: Enemy, a: real, b: real)
    requires Valid(e) && a >= 0.0 && b >= 0.0
    ensures TakeDamage(TakeDamage(e, a), b) == TakeDamage(e, a + b)
  {
  }

  // ---------------------------------------------------------------- movement

  /** The enemy still has a segment to walk this tick. */
  predicate Walking(e: Enemy) {
    !e.reachedGoal && e.wp + 1 < |e.path|
  }

  function NextWaypoint(e: Enemy): Point
    requires Walking(e)
  {
    e.path[e.wp + 1]
  }

  /** `dist` is the Euclidean length of the remaining segment; the square
      root is taken by the caller. */
  predicate SegmentLength(e: Enemy, dist: real) {
    Walking(e) ==> IsRoot(dist, Dist2(e.pos, NextWaypoint(e)))
  }

  /** The tick snaps onto the next waypoint: the distance left is strictly
      shorter than this tick's step. */
  predicate Snaps(e: Enemy, dt: Duration, dist: real) {
    Walking(e) && dist < Step(e, dt)
  }

  /** Distance covered in one tick at the enemy's speed. */
  function Step(e: Enemy, dt: Duration): real {
    e.speed * dt
  }

  /** The move branch divides by `dist`; it is only reached with a positive
      length (a zero length with a zero step would divide by zero). */
  predicate NoZeroDivide(e: Enemy, dt: Duration, dist: real) {
    Walking(e) && !Snaps(e, dt, dist) ==> dist != 0.0
  }

  /** The direction stored on a walking tick: the offset to the next
      waypoint divided by its length, or zero for a zero length. */
  function Heading(e: Enemy, dist: real): Point
    requires Walking(e)
  {
    var dx := NextWaypoint(e).x - e.pos.x;
    var dy := NextWaypoint(e).y - e.pos.y;
    if dist != 0.0 then Point(dx / dist, dy / dist) else Zero
  }

  /** One tick of movement. */
  function Update(e: Enemy, dt: Duration, dist: real): (r: Enemy)
    requires Valid(e)
    requires SegmentLength(e, dist)
    requires NoZeroDivide(e, dt, dist)
    ensures Valid(r)
    ensures e.reachedGoal ==> r == e
    ensures r.reachedGoal <==> e.reachedGoal || e.wp + 1 >= |e.path|
    ensures !e.reachedGoal && e.wp + 1 >= |e.path| ==> r == e.(reachedGoal := true)
    ensures r.wp == e.wp || r.wp == e.wp + 1
    ensures r.wp == e.wp + 1 <==> Snaps(e, dt, dist)
    ensures Snaps(e, dt, dist) ==> r.pos == e.path[r.wp]
    ensures r.path == e.path && r.id == e.id && r.hp == e.hp && r.speed == e.speed
    ensures r == e.(wp := r.wp, pos := r.pos, direction := r.direction, reachedGoal := r.reachedGoal)
  {
    if e.reachedGoal then e
    else if e.wp + 1 >= |e.path| then e.(reachedGoal := true)
    else
      var target := NextWaypoint(e);
      var dx := target.x - e.pos.x;
      var dy := target.y - e.pos.y;
      var step := Step(e, dt);
      var dir := Heading(e, dist);
      if dist < step then
        e.(pos := target, wp := e.wp + 1, direction := dir)
      else
        e.(pos := Point(e.pos.x + step * dx / dist, e.pos.y + step * dy / dist), direction := dir)
  }

  /** On a walking tick the stored direction points at the next waypoint: it
      is the segment divided by its length (so scaling it back by the length
      gives the segment) and has unit length, or zero when the enemy already
      stands on the waypoint. */
  lemma DirectionTowardWaypoint(e: Enemy, dt: Duration, dist: real)
    requires Valid(e) && SegmentLength(e, dist) && NoZeroDivide(e, dt, dist)
    requires Walking(e)
    ensures var r := Update(e, dt, dist);
      var dx := NextWaypoint(e).x - e.pos.x;
      var dy := NextWaypoint(e).y - e.pos.y;
      && (dist == 0.0 ==> r.direction == Zero)
      && (dist != 0.0 ==> r.direction.x * dist == dx && r.direction.y * dist == dy)
      && (dist != 0.0 ==> r.direction.x * r.direction.x + r.direction.y * r.direction.y == 1.0)
  {
    assert Update(e, dt, dist).direction == Heading(e, dist);
    if dist != 0.0 {
      HeadingScales(e, dist);
    }
  }

  /** For a non-zero segment length the heading scales back to the offset
      and has unit length. */
  lemma HeadingScales(e: Enemy, dist: real)
    requires Walking(e) && SegmentLength(e, dist) && dist != 0.0
    ensures var u := Heading(e, dist);
      var dx := NextWaypoint(e).x - e.pos.x;
      var dy := NextWaypoint(e).y - e.pos.y;
      && u.x * dist == dx && u.y * dist == dy
      && u.x * u.x + u.y * u.y == 1.0
  {
    var dx := NextWaypoint(e).x - e.pos.x;
    var dy := NextWaypoint(e).y - e.pos.y;
    ScaledBack(dx, dy, dist);
    assert dist * dist == dx * dx + dy * dy;
    UnitLength(dx, dy, dist, dx / dist, dy / dist);
  }

  /** A segment divided by its non-zero length has unit length. */
  lemma UnitLength(dx: real, dy: real, d: real, ux: real, uy: real)
    requires d != 0.0 && d * d == dx * dx + dy * dy
    requires ux * d == dx && uy * d == dy
    ensures ux * ux + uy * uy == 1.0
  {
    calc {
      (ux * ux + uy * uy) * (d * d);
      (ux * d) * (ux * d) + (uy * d) * (uy * d);
      dx * dx + dy * dy;
      d * d;
    }
    SquareSign(d);
  }

  lemma ScaledBack(dx: real, dy: real, d: real)
    requires d != 0.0
    ensures (dx / d) * d == dx && (dy / d) * d == dy
  {
  }

  /** The waypoint index walks forward one step at a time and never leaves
      the path, over any number of ticks. */
  lemma {:induction false} ProgressOverTicks(e: Enemy, ticks: seq<(Duration, real)>)
    requires Valid(e)
    ensures var r := Run(e, ticks);
      && Valid(r)
      && e.wp <= r.wp < |e.path|
      && r.path == e.path
      && r.wp - e.wp <= |ticks|
      && (e.reachedGoal ==> r.reachedGoal)
    decreases |ticks|
  {
    if |ticks| > 0 {
      var (dt, dist) := ticks[0];
      if SegmentLength(e, dist) && NoZeroDivide(e, dt, dist) {
        ProgressOverTicks(Update(e, dt, dist), ticks[1..]);
      }
    }
  }

  /** Ticks in order, each with the segment length the caller measured; a
      tick whose length is not the true one (or would divide by zero) stops
      the run. */
  function Run(e: Enemy, ticks: seq<(Duration, real)>): Enemy
    requires Valid(e)
    decreases |ticks|
  {
    if |ticks| == 0 then e
    else
      var (dt, dist) := ticks[0];
      if SegmentLength(e, dist) && NoZeroDivide(e, dt, dist) then
        Run(Update(e, dt, dist), ticks[1..])
      else e
  }
}
