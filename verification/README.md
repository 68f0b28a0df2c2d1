# Mythforge Defense combat core in Dafny

This project models the combat core of Mythforge Defense, a tower-defence
game, as pure functions over immutable records:

- **the wave scheduler.** A break between waves is followed by the timed
  spawning of a wave's enemy groups. The scheduler then waits for the field
  to clear and pays the completion bonus.
- **the tower manager.** Placing, selling and upgrading towers are
  transactions on the player's money that either apply whole or are
  rejected. The five targeting modes pick a tower's target from the ordered
  list of live enemies. Modes cycle in a fixed order of five.
- **the tower.** Each tick it re-validates its target and runs its fire
  cooldown. It also owns the range test and the refund on sale.
- **the enemy.** It walks along the level's polyline one waypoint at a time,
  raises a flag at the goal, and clamps damage at zero. The earlier untyped
  enemy, which has default stats, is modelled too.

Modelling choices:

- **Object identity.** Live objects are referred to by a `nat` identity.
  A tower's target is the identity of an enemy and is looked up in the live
  list every tick. Placed towers take identities from a counter in the
  manager. A spawned enemy's identity is a parameter.
- **Distances.** The range test and the "closest" mode compare squared
  distances. `Common.RootBelowExact` shows that `d2 < s*s` with `s > 0` is
  the same test as `d < s` for the true distance `d`.
- **Enemy movement.** Movement needs the Euclidean length of the current
  segment. The caller passes that length, and the precondition
  `SegmentLength` pins it down as the non-negative square root.
- **Configuration.** The tower, upgrade, enemy and wave tables are constant
  functions in module `Config`, with the same numbers as the game's
  configuration files.

Modules, one per file: `Common`, `Config`, `Enemies`, `LegacyEnemy`,
`Towers`, `Targeting`, `TowerManager` and `WaveManager`.

## Model

| member | source | states |
|---|---|---|
| Config.TowerStatsOf | src/config/tower_config.py:7-37 | every tower type has a positive cost and range, and none may target flying enemies (the key is absent, so the default `False` applies) |
| Config.ElementNamed | src/config/tower_config.py:40-53 | exactly the names pyro, glacier and storm are upgrade elements; any other name is unknown |
| Config.EnemyStatsOf | src/config/enemy_config.py:6-30 | the enemy table defines basic, fast and tank, and has no entry for the flying type |
| Config.ScheduleWellFormed | src/config/wave_config.py:7-38 | the shipped schedule has four waves, each with at least one group |
| Config.ScheduleUnknownKinds | src/config/wave_config.py:31-36 | the only group whose type has no stats is the last group of wave 4 (flying) |
| Common.RootBelowExact | src/entities/tower.py:57-61 | for the true distance `d`, the squared test `d2 < s*s` (with `s > 0`) holds exactly when `d < s` |
| Common.RootLessExact | src/managers/tower_manager.py:147-148 | comparing squared distances orders enemies exactly as comparing true distances |
| Enemies.Spawn | src/entities/enemy.py:5-19 | a new enemy stands on the path's first point at waypoint 0, with full health, zero direction and not at the goal |
| Enemies.FromConfig | src/entities/enemy.py:12-16 | construction by type fails exactly when the type has no stats; otherwise the stats are copied from the table and health is full |
| Enemies.TakeDamage | src/entities/enemy.py:70-73 | health drops by the amount but never below 0; it reaches 0 exactly when the amount is at least the health; no other field changes |
| Enemies.IsDead | src/entities/enemy.py:75-76 | an enemy with positive health is alive, and a valid enemy is dead exactly at zero health |
| Enemies.DeadIffKilled | src/entities/enemy.py:70-76 | after a hit the enemy is dead exactly when the amount was at least its health |
| Enemies.DamageAdds | src/entities/enemy.py:70-73 | two non-negative hits leave the same health as one hit of their sum |
| Enemies.Update | src/entities/enemy.py:26-52 | a finished enemy is untouched; the goal flag is raised, without moving, when no next waypoint exists; the waypoint index advances by one exactly when the segment is shorter than the step, and then the enemy stands on that waypoint; health, speed and path never change |
| Enemies.DirectionTowardWaypoint | src/entities/enemy.py:34-52 | the stored direction is zero for a zero-length segment; otherwise it has unit length and scaled back by the segment length gives the offset toward the next waypoint |
| Enemies.ProgressOverTicks | src/entities/enemy.py:26-50 | over any run of ticks the waypoint index is monotone, stays inside the path, grows at most one per tick, and the goal flag once raised stays raised |
| LegacyEnemy.New | src/enemy.py:4-18 | the earlier enemy starts on the first point with its given speed, full health, bounty and radius 14 |
| LegacyEnemy.Default | src/enemy.py:4 | the default arguments give speed 120, health 20, bounty 5 |
| LegacyEnemy.TickKeepsStats | src/enemy.py:25-51 | the earlier enemy's tick has the same goal, snap and advance rules and keeps its untyped stats |
| LegacyEnemy.DamageClamps | src/enemy.py:56-62 | damage clamps at 0 and the enemy is dead exactly when the hit reached its health |
| Towers.New | src/entities/tower.py:7-23 | a new tower copies cost, range and fire rate from its type and starts with no target, no element and a zero timer |
| Towers.DetectsIffWithinReach | src/entities/tower.py:57-61 | the range test holds exactly when the centre distance is strictly below range plus enemy radius |
| Towers.Lookup | src/entities/tower.py:34 | the held target is found exactly when some live enemy has its identity |
| Towers.Tick | src/entities/tower.py:29-44 | a held target that is dead, out of range or gone is cleared and nothing else happens; otherwise the target is kept, the timer grows by `dt` and a shot is fired exactly when a target is held and the timer reaches `1/fire_rate`, which resets the timer |
| Towers.FiresOnceReloaded | src/entities/tower.py:39-44 | a tower keeping a valid target fires within a run of ticks exactly when its timer plus the elapsed time reaches the reload time, and until then only accumulates time |
| Towers.SellValue | src/entities/tower.py:81-82 | the refund is `int(cost * 0.5)`, which is half the cost rounded down and never more than the cost |
| Towers.Sell | src/entities/tower.py:84-86 | a sold tower holds no target and no longer refers to the game |
| Targeting.ScanPicksFirstCandidate | src/managers/tower_manager.py:98-107 | with no held target, "first" mode picks the first in-range, targetable enemy in list order, or none when there is none |
| Targeting.ScanKeepsHeld | src/managers/tower_manager.py:102-104 | a held target that the pass never finds out of range is kept |
| Targeting.ScanDropsLost | src/managers/tower_manager.py:105-107 | a held target found out of range is cleared, and the rest of the pass proceeds as if nothing were held |
| Targeting.ReverseScanPicksLastCandidate | src/managers/tower_manager.py:108-117 | with no held target, "last" mode picks the last in-range, targetable enemy in list order, or none |
| Targeting.BestIsFirstBest | src/managers/tower_manager.py:118-151 | the scoring pass returns no index exactly when there is no candidate, and otherwise the first candidate whose score no other candidate strictly beats |
| Targeting.FirstBestUnique | src/managers/tower_manager.py:125-127 | strict comparisons make the earliest best candidate unique |
| Targeting.ScoringModeChoice | src/managers/tower_manager.py:118-151 | strongest, weakest and closest select a candidate with maximal health, minimal health or minimal distance, the earliest on ties, nothing without candidates, and ignore the previously held target |
| Targeting.Select | src/managers/tower_manager.py:96-151 | the chosen target is the held one (kept by the first/last scan) or an enemy of the list that is in range and may be shot; a scoring mode always chooses such an enemy |
| Targeting.Retarget | src/managers/tower_manager.py:96-151 | the pass changes only the tower's target, to the held one or an in-range enemy it may shoot |
| Targeting.NeverSelectsFlying | src/managers/tower_manager.py:100-101 | no mode ever selects a flying enemy, since no tower type may target one |
| TowerManager.SpotOccupied | src/managers/tower_manager.py:153-155 | a plot is occupied exactly when some tower's centre lies inside its half-open rectangle |
| TowerManager.PlaceTower | src/managers/tower_manager.py:28-59 | a bad spot index, an occupied plot and a shortfall of money are rejected in that order and change nothing; success appends one attached tower at the plot centre, built by `Towers.New` for the chosen type with the manager's next identity (so its cost, range, fire rate and mode are the type's), advances the identity counter and deducts exactly its cost, so money stays non-negative |
| TowerManager.PlacedSpotIsTaken | src/managers/tower_manager.py:38-40 | a plot just built on is refused on the next placement |
| TowerManager.IndexOfIsFirst | src/managers/tower_manager.py:63-65 | the tower found for an identity is the first one in list order that has it, as the list's membership test and removal use the first match |
| TowerManager.SellTower | src/managers/tower_manager.py:61-69 | selling a present tower removes exactly it, keeps the others in order and adds its refund; an absent tower changes nothing |
| TowerManager.PlaceThenSell | src/managers/tower_manager.py:28-69 | placing a tower and selling it back restores the tower list and leaves the player short by the cost minus the refund |
| TowerManager.UpgradeTower | src/managers/tower_manager.py:71-94 | a missing tower, an unknown element, an existing element and a shortfall are rejected in that order with nothing changed; the upgrade succeeds exactly when all four checks pass, and then sets the element and deducts exactly the element's cost |
| TowerManager.UpgradeOnce | src/managers/tower_manager.py:81-83 | a tower that was upgraded is refused any further upgrade |
| TowerManager.ModeIndex | src/managers/tower_manager.py:190-191 | every mode has a position in the list of five modes |
| TowerManager.CycleTargeting | src/managers/tower_manager.py:188-193 | cycling moves the mode to the next position modulo five and changes nothing else |
| TowerManager.CyclePeriod | src/managers/tower_manager.py:188-193 | five cycles restore the tower, and one to four cycles change its mode |
| TowerManager.UpdateTowers | src/managers/tower_manager.py:12-16 | every tower is ticked and then re-targeted, in order; a tower whose tick fires contributes its shot, every shot comes from such a tower, and there are at most as many shots as towers |
| TowerManager.ShotsInTowerOrder | src/entities/tower.py:42-44 | the shots of a pass are, in tower order, exactly one shot for each tower whose tick fires and none for the others |
| TowerManager.ShotsHitLiveTargets | src/entities/tower.py:31-44 | every shot of a pass is fired by a tower with a valid target, at an enemy that is live and not dead |
| WaveManager.Init | src/managers/wave_manager.py:6-17 | a new scheduler is at wave -1, not running, with zero timers, group and counter, and no game attached |
| WaveManager.Reset | src/managers/wave_manager.py:30-38 | reset gives the initial scheduler back, keeping the game reference |
| WaveManager.StartNext | src/managers/wave_manager.py:76-86 | the next wave starts only if one exists, at group 0 with a zero spawn timer and the first group's count; otherwise nothing changes |
| WaveManager.BreakTick | src/managers/wave_manager.py:40-44 | a break tick adds `dt` to the break timer and starts the next wave exactly when the timer reaches the interval and a next wave exists; otherwise only the timer changes |
| WaveManager.CheckCompleted | src/managers/wave_manager.py:46-53 | with the field clear the wave ends, clearing the break timer and the group, and an attached game receives base plus increment times the wave index; otherwise nothing changes |
| WaveManager.Update | src/managers/wave_manager.py:19-28 | a tick fails exactly when it is due to spawn a type without stats, naming that type; a successful tick keeps the enemy list as a prefix of the new one |
| WaveManager.UpdateValid | src/managers/wave_manager.py:19-28 | every successful tick keeps the wave index, the group index and the group counter inside their bounds |
| WaveManager.BreakOnlyCounts | src/managers/wave_manager.py:21-22 | between waves a tick only adds `dt` to the break timer, or starts the next wave once the timer reaches the interval; it never spawns or pays |
| WaveManager.WaveIndexSteps | src/managers/wave_manager.py:76-79 | the wave index never moves during a wave, moves by at most one between waves, and never passes the last wave |
| WaveManager.AtMostOneSpawn | src/managers/wave_manager.py:55-65 | a tick appends at most one enemy, and does so exactly when the spawn is due; the enemy has the group's type and starts on the path, the timer resets and the counter drops by one |
| WaveManager.GroupHandOver | src/managers/wave_manager.py:67-72 | when the current group has no spawns left after the spawn step and another group follows, the group index advances by one, the counter reloads from that group's count and the timer restarts; otherwise the group stays and the counter is what the spawn step left |
| WaveManager.IssuedBounded | src/managers/wave_manager.py:60-72 | a running wave never spawns more enemies than its groups' total count |
| WaveManager.IssuedCountsSpawns | src/managers/wave_manager.py:55-72 | across a tick, the enemies issued in the running wave grow by exactly the enemies appended, including a hand-over to the next group |
| WaveManager.EndsOnlyWhenCleared | src/managers/wave_manager.py:46-53 | a wave ends only when its last group is exhausted and no enemy is left; ending clears the break timer and group and pays the bonus; no other tick changes money |
| WaveManager.CompletionPaysBonus | src/managers/wave_manager.py:92-96 | the tick that ends wave `w` with a game attached pays exactly base plus increment times `w` |
| WaveManager.ScheduleBonuses | src/config/wave_config.py:3-6 | with the shipped schedule the four waves pay 20, 30, 40 and 50 |
| WaveManager.NoGameNoBonus | src/managers/wave_manager.py:17 | with no game attached, as after construction, no bonus is ever paid |
| WaveManager.SampleRun | src/managers/wave_manager.py:40-74 | a one-group wave of three starts on the fifth one-second tick, spawns on ticks six to eight, and ends with the first-wave bonus once the field is clear |
| WaveManager.FlyingGroupFails | src/managers/wave_manager.py:88-90 | the shipped schedule's flying group cannot be spawned, so the tick due to spawn it fails |
| WaveManager.GetWaveInfo | src/managers/wave_manager.py:99-110 | before any wave the report shows wave 1 and the interval minus the break timer; afterwards the one-based wave number; the total is the number of waves |
| WaveManager.WaveInfoReadsState | src/managers/wave_manager.py:106-110 | once a wave has started the reported break time is never negative, is zero during a wave, and otherwise is the time left until the next wave |

## Left out

- Rendering, hover, range previews, the UI, the game loop and the clock are not part of this model. The elapsed time `dt` is a parameter of every tick.
- Projectiles, their flight and their damage on hit are not part of this model. `fire_at` becomes the shot record a tick returns: the identity of the enemy fired at.
- The earlier `src/wave_manager.py` is not modelled. It is a superseded version that cannot run.
- The getters (`get_pos`, `get_size`, `get_value`, `get_cost`, `get_target`) and `set_target` become plain record-field reads and updates, so they have no members of their own.
- Enemies.Update: the segment length is an argument constrained to be the square root of the squared offset. The case where that length is zero while the step is not smaller raises a division by zero in the game; the precondition `NoZeroDivide` excludes it instead of modelling the crash.
- Positions, health, speeds and distances are floats in the game and exact reals here: IEEE rounding of positions, of `distance_to` and of `(dx**2 + dy**2) ** 0.5` is not modelled.
- Enemies.Valid: speed and health are required to be non-negative. The game never checks this, but every configured value satisfies it. LegacyEnemy.New requires the same of its arguments.
- Towers.Tick: `dt` is non-negative. Floating-point rounding of timers and of the `1/fire_rate` reload time is not modelled; all times are exact reals.
- TowerManager.PlaceTower: the spot index is a `nat`. The game's bound check does not reject a negative index, which Python would then read from the end of the plot list. The tower type is one of the four configured types; an unknown name raises a key error in the game.
- TowerManager.PlaceTower: the plot rectangles and the plot coordinates that the game reads from two separate map accessors are taken to be the same list.
- Some attributes are used by the tower manager but never declared by the tower or enemy classes: the targeting mode, the element, `upgrade`, `set_targeting_mode` and the enemies' `flying` flag. They become record fields with only the manager-side meaning. A new tower starts in the first mode, an upgrade only records the element, and no configured enemy flies.
- WaveManager.Update: the enemy list is an ordered sequence. The game keeps it in a sprite group, and appending to the sequence stands for adding to that group. Removal of dead enemies or enemies at the goal happens outside the scheduler, so it is not modelled here.
- WaveManager.Update: spawning the flying group raises a key error in the game. Here it is an error outcome that carries the enemy type.
- WaveManager.Reset: the attribute `enemies_spawned`, which is written only by reset and never read, is not modelled.
