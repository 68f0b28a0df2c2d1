/** The earlier enemy: untyped, with its stats given as constructor
    arguments (defaulting to speed 120, health 20, bounty 5) and a fixed
    radius of 14. Its movement and damage rules are those of `Enemies`. */
module LegacyEnemy {
  import opened Common
  import opened Config
  import opened Enemies

  const DefaultSpeed: real := 120.0
  const DefaultMaxHp: real := 20.0
  const DefaultValue: int := 5
  const Radius: nat := 14

  /** Construction with explicit stats; the health starts full. */
  function New(id: nat, path: seq<Point>, speed: real, maxHp: real, value: int): (e: Enemy)
    requires |path| > 0
    requires speed >= 0.0 && maxHp >= 0.0
    ensures Valid(e) && e.kind.None? && e.id == id && e.path == path
    ensures e.pos == path[0] && e.wp == 0
    ensures e.speed == speed && e.hp == e.maxHp == maxHp && e.value == value
    ensures e.radius == Radius && !e.flying
    ensures e.direction == Zero && !e.reachedGoal
  {
    Spawn(id, None, path, EnemyStats(speed, maxHp, value, Radius, false))
  }

  /** Construction with every default argument. */
  function Default(id: nat, path: seq<Point>): (e: Enemy)
    requires |path| > 0
    ensures Valid(e) && e.pos == path[0] && e.wp == 0
    ensures e.speed == 120.0 && e.maxHp == 20.0 && e.hp == 20.0
    ensures e.value == 5 && e.radius == 14
    ensures !e.reachedGoal
  {
    New(id, path, DefaultSpeed, DefaultMaxHp, DefaultValue)
  }

  /** A legacy enemy's tick keeps its untyped stats, ends at the goal on the
      tick that finds no next waypoint, and otherwise either snaps forward by
      exactly one waypoint or stays on its segment. */
  lemma TickKeepsStats(e: Enemy, dt: Duration, dist: real)
    requires Valid(e) && e.kind.None? && e.radius == Radius
    requires SegmentLength(e, dist) && NoZeroDivide(e, dt, dist)
    ensures var r := Update(e, dt, dist);
      && r.kind.None? && r.radius == Radius && r.hp == e.hp && r.maxHp == e.maxHp
      && (e.reachedGoal ==> r == e)
      && (!e.reachedGoal && e.wp + 1 >= |e.path| ==> r.reachedGoal && r.pos == e.pos && r.wp == e.wp)
      && (Snaps(e, dt, dist) ==> r.wp == e.wp + 1 && r.pos == e.path[e.wp + 1])
      && (!Snaps(e, dt, dist) ==> r.wp == e.wp)
  {
  }

  /** Damage on a legacy enemy clamps at zero and kills exactly when it
      reaches the remaining health. */
  lemma DamageClamps(e: Enemy, amount: real)
    requires Valid(e) && e.kind.None?
    ensures var r := TakeDamage(e, amount);
      && r.hp >= 0.0 && r.kind.None?
      && (IsDead(r) <==> amount >= e.hp)
      && (!IsDead(r) ==> r.hp == e.hp - amount)
  {
    DeadIffKilled(e, amount);
  }
}
