/** Static tables of the game's configuration: tower types, elemental
    upgrades, enemy types and the wave schedule. Every string-keyed
    dictionary of the program becomes a closed enumeration plus a lookup. */
module Config {
  import opened Common

  /** Shots per second; every configured fire rate is positive. */
  type PosReal = r: real | r > 0.0 witness 1.0

  // ---------------------------------------------------------------- towers

  datatype TowerKind = BasicTower | RapidTower | SniperTower | CannonTower

  datatype ProjectileKind = Regular | RapidShot | SniperShot | Shell

  datatype TowerStats = TowerStats(
    cost: nat,
    range: nat,
    fireRate: PosReal,
    projectile: ProjectileKind,
    canTargetFlying: bool)

  /** Fraction of the cost refunded on sale. */
  const SellValuePct: real := 0.5

  /** The per-type table. No type sets `can_target_flying`, so the lookup
      default (false) applies to all of them. */
  function TowerStatsOf(k: TowerKind): (s: TowerStats)
    ensures s.cost > 0 && s.range > 0
    ensures !s.canTargetFlying
  {
    match k
    case BasicTower  => TowerStats(40, 150, 1.0, Regular, false)
    case RapidTower  => TowerStats(60, 120, 3.0, RapidShot, false)
    case SniperTower => TowerStats(100, 300, 0.5, SniperShot, false)
    case CannonTower => TowerStats(80, 180, 0.8, Shell, false)
  }

  // ----------------------------------------------------- elemental upgrades

  datatype Element = Pyro | Glacier | Storm

  /** Upgrade names are free-form strings on the command side; only three
      of them name an upgrade. */
  function ElementNamed(name: string): (r: Option<Element>)
    ensures r == Some(Pyro) <==> name == "pyro"
    ensures r == Some(Glacier) <==> name == "glacier"
    ensures r == Some(Storm) <==> name == "storm"
  {
    if name == "pyro" then Some(Pyro)
    else if name == "glacier" then Some(Glacier)
    else if name == "storm" then Some(Storm)
    else None
  }

  function UpgradeCost(e: Element): nat {
    50
  }

  // ----------------------------------------------------------------- enemies

  datatype EnemyKind = BasicEnemy | FastEnemy | TankEnemy | FlyingEnemy

  datatype EnemyStats = EnemyStats(
    speed: real,
    maxHp: real,
    value: int,
    radius: nat,
    flying: bool)

  /** The per-type table. The schedule names a flying type that the table
      does not define, so looking it up fails. */
  function EnemyStatsOf(k: EnemyKind): (r: Option<EnemyStats>)
    ensures r.None? <==> k == FlyingEnemy
    ensures r.Some? ==> r.value.speed > 0.0 && r.value.maxHp > 0.0 && !r.value.flying
  {
    match k
    case BasicEnemy  => Some(EnemyStats(100.0, 25.0, 1, 14, false))
    case FastEnemy   => Some(EnemyStats(250.0, 15.0, 2, 10, false))
    case TankEnemy   => Some(EnemyStats(70.0, 100.0, 5, 20, false))
    case FlyingEnemy => None
  }

  // ------------------------------------------------------------------ waves

  /** A run of `count` enemies of one type, one every `interval` seconds. */
  datatype Group = Group(kind: EnemyKind, count: nat, interval: real)

  datatype Wave = Wave(groups: seq<Group>)

  datatype WaveConfig = WaveConfig(
    interval: real,
    bonusBase: int,
    bonusIncrement: int,
    waves: seq<Wave>)

  /** Every wave has a first group: starting a wave reads it. */
  predicate WellFormed(cfg: WaveConfig) {
    forall i :: 0 <= i < |cfg.waves| ==> |cfg.waves[i].groups| > 0
  }

  /** The shipped schedule: a five-second break, a bonus of 20 + 10 * wave,
      and four waves. */
  const Schedule: WaveConfig := WaveConfig(5.0, 20, 10, [
    Wave([Group(BasicEnemy, 5, 1.5), Group(BasicEnemy, 8, 1.2), Group(BasicEnemy, 10, 1.0)]),
    Wave([Group(BasicEnemy, 10, 1.0), Group(FastEnemy, 12, 1.0), Group(BasicEnemy, 15, 1.0)]),
    Wave([Group(BasicEnemy, 15, 0.8), Group(FastEnemy, 15, 0.6), Group(TankEnemy, 10, 1.2)]),
    Wave([Group(FastEnemy, 15, 0.8), Group(BasicEnemy, 30, 0.3), Group(TankEnemy, 10, 1.2),
          Group(FastEnemy, 20, 0.8), Group(FlyingEnemy, 15, 1.0)])
  ])

  lemma ScheduleWellFormed()
    ensures WellFormed(Schedule)
    ensures |Schedule.waves| == 4
  {
  }

  /** Only the last group of the last wave names a type without stats. */
  lemma ScheduleUnknownKinds()
    ensures forall w, g :: 0 <= w < |Schedule.waves| && 0 <= g < |Schedule.waves[w].groups| ==>
      (EnemyStatsOf(Schedule.waves[w].groups[g].kind).None? <==> w == 3 && g == 4)
  {
  }
}
