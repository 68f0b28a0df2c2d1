/** A stationary tower: its configured stats, target re-validation, the fire
    cooldown, the range test and the sale refund. */
module Towers {
  import opened Common
  import opened Config
  import opened Enemies

  /** Target-selection policies, in the order the player cycles through them. */
  datatype TargetMode = First | Last | Strongest | Weakest | Closest

  /** A tower. `target` holds the identity of the enemy it aims at (a
      non-owning reference, re-validated every tick); `attached` says whether
      it still refers to the game. */
  datatype Tower = Tower(
    id: nat,
    x: int,
    y: int,
    plot: Rect,
    kind: TowerKind,
    cost: nat,
    range: nat,
    fireRate: PosReal,
    projectile: ProjectileKind,
    mode: TargetMode,
    element: Option<Element>,
    fireTimer: real,
    target: Option<nat>,
    attached: bool)

  /** A fresh tower copies its type's stats, has no target, no element and a
      cold cooldown timer. Its targeting mode starts at the first policy. */
  function New(id: nat, x: int, y: int, plot: Rect, kind: TowerKind): (t: Tower)
    ensures t.id == id && t.x == x && t.y == y && t.plot == plot && t.kind == kind
    ensures t.cost == TowerStatsOf(kind).cost
    ensures t.range == TowerStatsOf(kind).range
    ensures t.fireRate == TowerStatsOf(kind).fireRate
    ensures t.fireTimer == 0.0 && t.target.None? && t.element.None?
    ensures t.mode == First && !t.attached
  {
    var s := TowerStatsOf(kind);
    Tower(id, x, y, plot, kind, s.cost, s.range, s.fireRate, s.projectile, First, None, 0.0, None, false)
  }

  function Center(t: Tower): Point {
    Point(t.x as real, t.y as real)
  }

  /** The reach against one enemy: the tower's range plus the enemy's radius. */
  function Reach(t: Tower, e: Enemy): real {
    (t.range + e.radius) as real
  }

  /** Range test on squared distances: the centres are strictly closer than
      the reach. */
  predicate Detects(t: Tower, e: Enemy) {
    RootBelow(Dist2(Center(t), e.pos), Reach(t, e))
  }

  /** For the true centre distance `d`, the squared test is exactly the
      strict comparison `d < range + radius`. */
  lemma DetectsIffWithinReach(t: Tower, e: Enemy, d: real)
    requires IsRoot(d, Dist2(Center(t), e.pos))
    ensures Detects(t, e) <==> d < Reach(t, e)
  {
    RootBelowExact(d, Dist2(Center(t), e.pos), Reach(t, e));
  }

  /** The first live enemy with the given identity, if any. */
  function Lookup(es: seq<Enemy>, id: nat): (r: Option<Enemy>)
    ensures r.Some? ==> r.value in es && r.value.id == id
    ensures r.None? <==> forall i :: 0 <= i < |es| ==> es[i].id != id
  {
    if |es| == 0 then None
    else if es[0].id == id then Some(es[0])
    else Lookup(es[1..], id)
  }

  /** The held target is still alive, in range and among the live enemies. */
  predicate HoldsValidTarget(t: Tower, es: seq<Enemy>) {
    && t.target.Some?
    && var found := Lookup(es, t.target.value);
    && found.Some?
    && !IsDead(found.value)
    && Detects(t, found.value)
  }

  /** Seconds between shots. */
  function Reload(t: Tower): real {
    1.0 / t.fireRate
  }

  /** A tick's outcome: the updated tower and, when it fired, the identity
      of the enemy its projectile was launched at. */
  datatype TickResult = TickResult(tower: Tower, shot: Option<nat>)

  /** One tick: drop a held target that is dead, out of range or gone (and
      do nothing else), otherwise let the cooldown run and fire once it has
      reached the reload time. */
  function Tick(t: Tower, es: seq<Enemy>, dt: Duration): (r: TickResult)
    ensures r.shot.Some? ==> HoldsValidTarget(t, es) && r.shot == t.target
    ensures r.shot.Some? <==> HoldsValidTarget(t, es) && t.fireTimer + dt >= Reload(t)
    ensures r.tower.target.Some? ==> r.tower.target == t.target && HoldsValidTarget(t, es)
    ensures t.target.Some? && !HoldsValidTarget(t, es) ==> r.tower == t.(target := None)
    ensures !(t.target.Some? && !HoldsValidTarget(t, es)) ==> r.tower.target == t.target
    ensures r.shot.Some? ==> r.tower.fireTimer == 0.0
    ensures r.shot.None? && r.tower.target == t.target ==> r.tower.fireTimer == t.fireTimer + dt
    ensures r.tower.fireTimer < t.fireTimer ==> r.shot.Some?
    ensures r.tower == t.(fireTimer := r.tower.fireTimer, target := r.tower.target)
  {
    if t.target.Some? && !HoldsValidTarget(t, es) then
      TickResult(t.(target := None), None)
    else
      var timer := t.fireTimer + dt;
      if t.target.Some? && timer >= Reload(t) then
        TickResult(t.(fireTimer := 0.0), t.target)
      else
        TickResult(t.(fireTimer := timer), None)
  }

  /** The outcome of a run of ticks against a fixed set of enemies: the final
      tower and how many shots it fired. */
  datatype TickRun = TickRun(tower: Tower, shots: nat)

  function TickAll(t: Tower, es: seq<Enemy>, dts: seq<Duration>): TickRun
    decreases |dts|
  {
    if |dts| == 0 then TickRun(t, 0)
    else
      var r := Tick(t, es, dts[0]);
      var rest := TickAll(r.tower, es, dts[1..]);
      TickRun(rest.tower, rest.shots + (if r.shot.Some? then 1 else 0))
  }

  function Sum(dts: seq<Duration>): real
    decreases |dts|
  {
    if |dts| == 0 then 0.0 else dts[0] + Sum(dts[1..])
  }

  lemma {:induction false} SumNonNegative(dts: seq<Duration>)
    ensures Sum(dts) >= 0.0
    decreases |dts|
  {
    if |dts| > 0 {
      SumNonNegative(dts[1..]);
    }
  }

  /** A tower that keeps a valid target through a run of ticks fires in that
      run exactly when its timer plus the elapsed time reaches the reload
      time; until then it only accumulates the elapsed time. */
  lemma {:induction false} FiresOnceReloaded(t: Tower, es: seq<Enemy>, dts: seq<Duration>)
    requires HoldsValidTarget(t, es) && |dts| > 0
    ensures TickAll(t, es, dts).shots == 0 <==> t.fireTimer + Sum(dts) < Reload(t)
    ensures TickAll(t, es, dts).shots == 0 ==>
      TickAll(t, es, dts).tower == t.(fireTimer := t.fireTimer + Sum(dts))
    decreases |dts|
  {
    var first := Tick(t, es, dts[0]);
    var rest := dts[1..];
    SumNonNegative(rest);
    if first.shot.None? {
      assert first.tower == t.(fireTimer := t.fireTimer + dts[0]);
      assert Center(first.tower) == Center(t);
      assert HoldsValidTarget(first.tower, es);
      if |rest| > 0 {
        FiresOnceReloaded(first.tower, es, rest);
      }
    }
  }

  /** The refund on sale: the configured fraction of the cost, truncated to
      an integer; with a fraction of one half, half the cost rounded down. */
  function SellValue(t: Tower): (v: nat)
    ensures v == t.cost / 2
    ensures v <= t.cost
  {
    Half(t.cost);
    (t.cost as real * SellValuePct).Floor
  }

  lemma Half(c: nat)
    ensures (c as real * SellValuePct).Floor == c / 2
  {
    var q := c / 2;
    assert c == 2 * q + c % 2;
    assert c as real * 0.5 == q as real + (c % 2) as real * 0.5;
  }

  /** Selling drops both the target and the reference to the game. */
  function Sell(t: Tower): (r: Tower)
    ensures r.target.None? && !r.attached
    ensures r == t.(target := None, attached := false)
  {
    t.(target := None, attached := false)
  }
}
