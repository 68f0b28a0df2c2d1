/** The wave scheduler: a break between waves, then timed spawning of a
    wave's groups, then a wait for the field to clear before the next break
    and the completion bonus. */
module WaveManager {
  import opened Common
  import opened Config
  import opened Enemies

  /** Scheduler state. `currentWave` is -1 before the first wave; `hasGame`
      says whether a game is attached to receive the completion bonus. */
  datatype State = State(
    currentWave: int,
    spawnTimer: real,
    waveTimer: real,
    inProgress: bool,
    group: nat,
    remaining: nat,
    hasGame: bool)

  /** The state after construction. The game reference is cleared at the end
      of construction, so no game is attached. */
  function Init(): (s: State)
    ensures s.currentWave == -1 && !s.inProgress
    ensures s.spawnTimer == 0.0 && s.waveTimer == 0.0
    ensures s.group == 0 && s.remaining == 0 && !s.hasGame
  {
    State(-1, 0.0, 0.0, false, 0, 0, false)
  }

  /** Back to the initial schedule; the game reference is left as it was. */
  function Reset(s: State): (r: State)
    ensures r == Init().(hasGame := s.hasGame)
    ensures r.currentWave == -1 && !r.inProgress && r.waveTimer == 0.0
  {
    State(-1, 0.0, 0.0, false, 0, 0, s.hasGame)
  }

  function Groups(cfg: WaveConfig, w: nat): seq<Group>
    requires w < |cfg.waves|
  {
    cfg.waves[w].groups
  }

  /** What the scheduler keeps true: the wave index stays below the number
      of waves; while a wave runs, the group index is inside the wave and the
      group's remaining spawns never exceed its count; between waves both
      are zero. */
  predicate Valid(cfg: WaveConfig, s: State) {
    && -1 <= s.currentWave < |cfg.waves|
    && (s.inProgress ==>
          && s.currentWave >= 0
          && s.group < |Groups(cfg, s.currentWave)|
          && s.remaining <= Groups(cfg, s.currentWave)[s.group].count)
    && (!s.inProgress ==> s.group == 0 && s.remaining == 0)
  }

  /** Construction and reset both give a valid scheduler. */
  lemma InitValid(cfg: WaveConfig)
    ensures Valid(cfg, Init())
    ensures forall s :: Valid(cfg, Reset(s))
  {
  }

  // ------------------------------------------------------------ wave start

  /** Start the next wave if there is one; otherwise nothing changes. */
  function StartNext(cfg: WaveConfig, s: State): (r: State)
    requires WellFormed(cfg) && Valid(cfg, s)
    ensures Valid(cfg, r)
    ensures s.currentWave + 1 < |cfg.waves| ==>
      && r.currentWave == s.currentWave + 1
      && r.inProgress && r.spawnTimer == 0.0 && r.group == 0
      && r.remaining == Groups(cfg, r.currentWave)[0].count
      && r.waveTimer == s.waveTimer && r.hasGame == s.hasGame
    ensures s.currentWave + 1 >= |cfg.waves| ==> r == s
  {
    if s.currentWave + 1 < |cfg.waves| then
      var w := s.currentWave + 1;
      s.(currentWave := w, inProgress := true, spawnTimer := 0.0, group := 0,
         remaining := Groups(cfg, w)[0].count)
    else s
  }

  /** A tick between waves: the break timer runs, and once it reaches the
      wave interval the next wave is started. */
  function BreakTick(cfg: WaveConfig, s: State, dt: Duration): (r: State)
    requires WellFormed(cfg) && Valid(cfg, s) && !s.inProgress
    ensures Valid(cfg, r)
    ensures r.waveTimer == s.waveTimer + dt && r.hasGame == s.hasGame
    ensures r.inProgress <==> s.waveTimer + dt >= cfg.interval && s.currentWave + 1 < |cfg.waves|
    ensures !r.inProgress ==> r == s.(waveTimer := s.waveTimer + dt)
    ensures r.inProgress ==>
      && r.currentWave == s.currentWave + 1 && r.group == 0 && r.spawnTimer == 0.0
      && r.remaining == Groups(cfg, r.currentWave)[0].count
  {
    var t := s.(waveTimer := s.waveTimer + dt);
    if t.waveTimer >= cfg.interval then StartNext(cfg, t) else t
  }

  // ---------------------------------------------------------- completion

  /** The completion bonus for the wave just finished: base plus increment
      per wave index, paid only to an attached game and only after a wave
      has started. */
  function Bonus(cfg: WaveConfig, s: State): int {
    if s.hasGame && s.currentWave >= 0 then cfg.bonusBase + cfg.bonusIncrement * s.currentWave else 0
  }

  /** The outcome of a spawning tick: the new state, the live-enemy list
      (with any spawned enemy appended), and the player's money. */
  datatype Tick = Tick(state: State, enemies: seq<Enemy>, money: int)

  /** Once the last group is exhausted: finish the wave when the field is
      clear, paying the bonus; otherwise keep waiting. */
  function CheckCompleted(cfg: WaveConfig, s: State, es: seq<Enemy>, money: int): (r: Tick)
    ensures r.enemies == es && r.state.currentWave == s.currentWave && r.state.hasGame == s.hasGame
    ensures |es| > 0 ==> r == Tick(s, es, money)
    ensures |es| == 0 ==> !r.state.inProgress && r.state.waveTimer == 0.0 && r.state.group == 0
    ensures |es| == 0 && s.hasGame && s.currentWave >= 0 ==>
      r.money == money + cfg.bonusBase + cfg.bonusIncrement * s.currentWave
    ensures !(|es| == 0 && s.hasGame && s.currentWave >= 0) ==> r.money == money
  {
    if |es| == 0 then
      Tick(s.(inProgress := false, waveTimer := 0.0, group := 0), es, money + Bonus(cfg, s))
    else Tick(s, es, money)
  }

  /** Group progression after the spawn step: an exhausted group hands over
      to the next one, reloading the counter and the timer; after the last
      group, the completion check runs. */
  function Advance(cfg: WaveConfig, s: State, es: seq<Enemy>, money: int): Tick
    requires s.inProgress && 0 <= s.currentWave < |cfg.waves| && s.group < |Groups(cfg, s.currentWave)|
  {
    var groups := Groups(cfg, s.currentWave);
    if s.remaining == 0 then
      if s.group + 1 < |groups| then
        Tick(s.(group := s.group + 1, remaining := groups[s.group + 1].count, spawnTimer := 0.0), es, money)
      else CheckCompleted(cfg, s, es, money)
    else Tick(s, es, money)
  }

  /** A tick either succeeds or fails on a spawn of a type the enemy table
      does not define. */
  datatype Outcome = Ok(tick: Tick) | UnknownEnemyType(kind: EnemyKind)

  /** The group being spawned. */
  function CurrentGroup(cfg: WaveConfig, s: State): Group
    requires Valid(cfg, s) && s.inProgress
  {
    Groups(cfg, s.currentWave)[s.group]
  }

  /** This tick spawns: the group's timer reaches its interval and spawns
      remain. */
  predicate SpawnDue(cfg: WaveConfig, s: State, dt: Duration)
    requires Valid(cfg, s)
  {
    s.inProgress && s.spawnTimer + dt >= CurrentGroup(cfg, s).interval && s.remaining > 0
  }

  /** One scheduler tick. `newId` is the identity given to a spawned enemy
      and `path` the level's path. */
  function Update(cfg: WaveConfig, s: State, dt: Duration, es: seq<Enemy>, path: seq<Point>, newId: nat, money: int): (o: Outcome)
    requires WellFormed(cfg) && Valid(cfg, s) && |path| > 0
    ensures o.UnknownEnemyType? <==> SpawnDue(cfg, s, dt) && EnemyStatsOf(CurrentGroup(cfg, s).kind).None?
    ensures o.UnknownEnemyType? ==> o.kind == CurrentGroup(cfg, s).kind
    ensures o.Ok? ==> |es| <= |o.tick.enemies| && o.tick.enemies[..|es|] == es
  {
    if !s.inProgress then Ok(Tick(BreakTick(cfg, s, dt), es, money))
    else
      var g := CurrentGroup(cfg, s);
      if SpawnDue(cfg, s, dt) then
        match FromConfig(newId, path, g.kind)
        case None => UnknownEnemyType(g.kind)
        case Some(e) => Ok(Advance(cfg, s.(spawnTimer := 0.0, remaining := s.remaining - 1), es + [e], money))
      else Ok(Advance(cfg, s.(spawnTimer := s.spawnTimer + dt), es, money))
  }

  // -------------------------------------------------------------- properties

  /** Every successful tick keeps the scheduler valid and the game reference
      as it was. */
  lemma UpdateValid(cfg: WaveConfig, s: State, dt: Duration, es: seq<Enemy>, path: seq<Point>, newId: nat, money: int)
    requires WellFormed(cfg) && Valid(cfg, s) && |path| > 0
    ensures var o := Update(cfg, s, dt, es, path, newId, money);
      o.Ok? ==> Valid(cfg, o.tick.state) && o.tick.state.hasGame == s.hasGame
  {
  }

  /** Between waves a tick only advances the break timer, or starts the next
      wave once the timer reaches the interval; it never spawns, never pays
      and never touches the enemy list. */
  lemma BreakOnlyCounts(cfg: WaveConfig, s: State, dt: Duration, es: seq<Enemy>, path: seq<Point>, newId: nat, money: int)
    requires WellFormed(cfg) && Valid(cfg, s) && |path| > 0
    requires !s.inProgress
    ensures var o := Update(cfg, s, dt, es, path, newId, money);
      && o.Ok? && o.tick.enemies == es && o.tick.money == money
      && (s.waveTimer + dt < cfg.interval ==> o.tick.state == s.(waveTimer := s.waveTimer + dt))
      && (s.waveTimer + dt >= cfg.interval && s.currentWave + 1 < |cfg.waves| ==>
            o.tick.state.inProgress && o.tick.state.currentWave == s.currentWave + 1
            && o.tick.state.remaining == Groups(cfg, s.currentWave + 1)[0].count)
      && (s.currentWave + 1 >= |cfg.waves| ==> o.tick.state == s.(waveTimer := s.waveTimer + dt))
  {
  }

  /** While a wave runs its index does not move: the next wave cannot start
      before this one has finished. Between waves it moves by at most one. */
  lemma WaveIndexSteps(cfg: WaveConfig, s: State, dt: Duration, es: seq<Enemy>, path: seq<Point>, newId: nat, money: int)
    requires WellFormed(cfg) && Valid(cfg, s) && |path| > 0
    ensures var o := Update(cfg, s, dt, es, path, newId, money);
      o.Ok? ==>
        && (s.inProgress ==> o.tick.state.currentWave == s.currentWave)
        && (!s.inProgress ==> o.tick.state.currentWave in {s.currentWave, s.currentWave + 1})
        && o.tick.state.currentWave <= |cfg.waves| - 1
  {
  }

  /** A spawning tick appends at most one enemy; when it does, the spawn was
      due, the enemy is of the group's type and stands on the path's start,
      and the group's counter dropped by one with its timer reset. */
  lemma AtMostOneSpawn(cfg: WaveConfig, s: State, dt: Duration, es: seq<Enemy>, path: seq<Point>, newId: nat, money: int)
    requires WellFormed(cfg) && Valid(cfg, s) && |path| > 0
    requires s.inProgress
    ensures var o := Update(cfg, s, dt, es, path, newId, money);
      o.Ok? ==>
        && |o.tick.enemies| in {|es|, |es| + 1}
        && o.tick.enemies[..|es|] == es
        && (|o.tick.enemies| == |es| + 1 <==> SpawnDue(cfg, s, dt))
        && (SpawnDue(cfg, s, dt) ==>
              var e := o.tick.enemies[|es|];
              && e.kind == Some(CurrentGroup(cfg, s).kind) && e.pos == path[0] && e.id == newId
              && o.tick.state.spawnTimer == 0.0
              && (o.tick.state.group == s.group ==> o.tick.state.remaining == s.remaining - 1))
  {
  }

  /** Whether or not a wave runs, a tick adds at most one enemy and removes
      none. */
  lemma UpdateGrows(cfg: WaveConfig, s: State, dt: Duration, es: seq<Enemy>, path: seq<Point>, newId: nat, money: int)
    requires WellFormed(cfg) && Valid(cfg, s) && |path| > 0
    ensures var o := Update(cfg, s, dt, es, path, newId, money);
      o.Ok? ==> |es| <= |o.tick.enemies| <= |es| + 1
  {
    if s.inProgress {
      AtMostOneSpawn(cfg, s, dt, es, path, newId, money);
    } else {
      BreakOnlyCounts(cfg, s, dt, es, path, newId, money);
    }
  }

  /** Total count of a list of groups. */
  function Total(gs: seq<Group>): nat
    decreases |gs|
  {
    if |gs| == 0 then 0 else Total(gs[..|gs| - 1]) + gs[|gs| - 1].count
  }

  lemma {:induction false} TotalMonotone(gs: seq<Group>, i: nat, j: nat)
    requires i <= j <= |gs|
    ensures Total(gs[..i]) <= Total(gs[..j])
    decreases j - i
  {
    if i < j {
      TotalMonotone(gs, i, j - 1);
      assert gs[..j][..j - 1] == gs[..j - 1];
    }
  }

  /** Enemies of the running wave spawned so far: the full counts of the
      finished groups plus what the current group has spawned. */
  function Issued(cfg: WaveConfig, s: State): nat
    requires Valid(cfg, s) && s.inProgress
  {
    var gs := Groups(cfg, s.currentWave);
    assert gs[..s.group + 1][..s.group] == gs[..s.group];
    Total(gs[..s.group + 1]) - s.remaining
  }

  /** A running wave never spawns more than its groups' total count. */
  lemma IssuedBounded(cfg: WaveConfig, s: State)
    requires Valid(cfg, s) && s.inProgress
    ensures Issued(cfg, s) <= Total(Groups(cfg, s.currentWave))
  {
    var gs := Groups(cfg, s.currentWave);
    TotalMonotone(gs, s.group + 1, |gs|);
    assert gs[..|gs|] == gs;
  }

  /** Spawn accounting: across a tick that keeps the wave running, the
      number issued grows by exactly the number of enemies appended, and a
      new wave starts with nothing issued. */
  lemma IssuedCountsSpawns(cfg: WaveConfig, s: State, dt: Duration, es: seq<Enemy>, path: seq<Point>, newId: nat, money: int)
    requires WellFormed(cfg) && Valid(cfg, s) && |path| > 0
    ensures var o := Update(cfg, s, dt, es, path, newId, money);
      o.Ok? && o.tick.state.inProgress ==>
        && Valid(cfg, o.tick.state)
        && (s.inProgress ==> Issued(cfg, o.tick.state) == Issued(cfg, s) + (|o.tick.enemies| - |es|))
        && (!s.inProgress ==> Issued(cfg, o.tick.state) == 0)
  {
    var o := Update(cfg, s, dt, es, path, newId, money);
    if o.Ok? && o.tick.state.inProgress {
      var r := o.tick.state;
      if s.inProgress {
        var gs := Groups(cfg, s.currentWave);
        if r.group == s.group + 1 {
          assert gs[..r.group + 1][..r.group] == gs[..r.group];
          assert gs[..s.group + 1][..s.group] == gs[..s.group];
        }
      } else {
        var gs := Groups(cfg, r.currentWave);
        assert gs[..1][..0] == [];
        assert Total(gs[..1]) == gs[0].count;
      }
    }
  }

  /** A wave ends only on a tick where its last group is exhausted and no
      enemy is alive; ending clears the break timer and the group index and
      pays the completion bonus. No other tick changes the money. */
  lemma EndsOnlyWhenCleared(cfg: WaveConfig, s: State, dt: Duration, es: seq<Enemy>, path: seq<Point>, newId: nat, money: int)
    requires WellFormed(cfg) && Valid(cfg, s) && |path| > 0
    ensures var o := Update(cfg, s, dt, es, path, newId, money);
      o.Ok? ==>
        && (s.inProgress && !o.tick.state.inProgress ==>
              && s.group == |Groups(cfg, s.currentWave)| - 1
              && (s.remaining == 0 || (s.remaining == 1 && SpawnDue(cfg, s, dt)))
              && |o.tick.enemies| == 0 && |es| == 0
              && o.tick.state.waveTimer == 0.0 && o.tick.state.group == 0
              && o.tick.money == money + Bonus(cfg, s))
        && (!(s.inProgress && !o.tick.state.inProgress) ==> o.tick.money == money)
  {
  }

  /** The tick that ends wave `w` with a game attached pays exactly
      `base + increment * w`. */
  lemma CompletionPaysBonus(cfg: WaveConfig, s: State, dt: Duration, es: seq<Enemy>, path: seq<Point>, newId: nat, money: int)
    requires WellFormed(cfg) && Valid(cfg, s) && |path| > 0
    requires s.inProgress && s.hasGame
    ensures var o := Update(cfg, s, dt, es, path, newId, money);
      o.Ok? && !o.tick.state.inProgress ==>
        o.tick.money == money + cfg.bonusBase + cfg.bonusIncrement * s.currentWave
  {
  }

  /** With the shipped schedule the four waves pay 20, 30, 40 and 50. */
  lemma ScheduleBonuses(s: State, dt: Duration, es: seq<Enemy>, path: seq<Point>, newId: nat, money: int)
    requires |path| > 0 && Valid(Schedule, s) && s.inProgress && s.hasGame
    ensures WellFormed(Schedule)
    ensures var o := Update(Schedule, s, dt, es, path, newId, money);
      o.Ok? && !o.tick.state.inProgress ==> o.tick.money - money == [20, 30, 40, 50][s.currentWave]
  {
    ScheduleWellFormed();
    CompletionPaysBonus(Schedule, s, dt, es, path, newId, money);
  }

  /** Group hand-over while a wave runs: once the current group has no
      spawns left after this tick's spawn step and another group follows,
      the group index advances by exactly one, the counter is reloaded from
      the next group's count and the spawn timer restarts. Otherwise the
      group index stays, the counter is what the spawn step left, and the
      timer is reset by a spawn or else grows by `dt`. */
  lemma GroupHandOver(cfg: WaveConfig, s: State, dt: Duration, es: seq<Enemy>, path: seq<Point>, newId: nat, money: int)
    requires WellFormed(cfg) && Valid(cfg, s) && |path| > 0 && s.inProgress
    ensures var o := Update(cfg, s, dt, es, path, newId, money);
      var gs := Groups(cfg, s.currentWave);
      var due := SpawnDue(cfg, s, dt);
      var left: int := if due then s.remaining - 1 else s.remaining;
      o.Ok? ==>
        && (left == 0 && s.group + 1 < |gs| ==>
              && o.tick.state.inProgress && o.tick.state.currentWave == s.currentWave
              && o.tick.state.group == s.group + 1
              && o.tick.state.remaining == gs[s.group + 1].count
              && o.tick.state.spawnTimer == 0.0)
        && (!(left == 0 && s.group + 1 < |gs|) && o.tick.state.inProgress ==>
              && o.tick.state.group == s.group && o.tick.state.remaining == left
              && o.tick.state.spawnTimer == (if due then 0.0 else s.spawnTimer + dt))
  {
  }

  /** With no game attached, as after construction, no bonus is ever paid. */
  lemma NoGameNoBonus(cfg: WaveConfig, s: State, dt: Duration, es: seq<Enemy>, path: seq<Point>, newId: nat, money: int)
    requires WellFormed(cfg) && Valid(cfg, s) && |path| > 0 && !s.hasGame
    ensures var o := Update(cfg, s, dt, es, path, newId, money);
      o.Ok? ==> o.tick.money == money
  {
  }

  /** Ticks of equal length with no enemy leaving the field; each spawned
      enemy takes the next free identity. A failed tick stops the run. */
  function Drive(cfg: WaveConfig, s: State, dt: Duration, es: seq<Enemy>, path: seq<Point>, money: int, n: nat): (o: Outcome)
    requires WellFormed(cfg) && Valid(cfg, s) && |path| > 0
    ensures o.Ok? ==> Valid(cfg, o.tick.state) && |es| <= |o.tick.enemies| <= |es| + n
    decreases n
  {
    if n == 0 then Ok(Tick(s, es, money))
    else
      var o := Update(cfg, s, dt, es, path, |es|, money);
      UpdateValid(cfg, s, dt, es, path, |es|, money);
      UpdateGrows(cfg, s, dt, es, path, |es|, money);
      if o.UnknownEnemyType? then o
      else Drive(cfg, o.tick.state, dt, o.tick.enemies, path, o.tick.money, n - 1)
  }

  /** A one-wave schedule: three basic enemies, one second apart, after a
      five-second break, with the default bonus. */
  function Sample(): (cfg: WaveConfig)
    ensures WellFormed(cfg)
  {
    WaveConfig(5.0, 20, 10, [Wave([Group(BasicEnemy, 3, 1.0)])])
  }

  /** On one-second ticks the sample wave starts on the fifth tick, spawns
      on the sixth, seventh and eighth, then waits for the field to clear;
      a tick with the field cleared ends it and pays the first wave's bonus. */
  lemma {:induction false} SampleRun(path: seq<Point>)
    requires |path| > 0
    ensures var s := Init().(hasGame := true);
      && var o5 := Drive(Sample(), s, 1.0, [], path, 0, 5);
      && o5.Ok? && o5.tick.state.inProgress && |o5.tick.enemies| == 0
      && var o8 := Drive(Sample(), s, 1.0, [], path, 0, 8);
      && o8.Ok? && o8.tick.state.inProgress && |o8.tick.enemies| == 3
      && o8.tick.state.remaining == 0 && o8.tick.money == 0
      && var o9 := Update(Sample(), o8.tick.state, 1.0, [], path, 3, o8.tick.money);
      && o9.Ok? && !o9.tick.state.inProgress && o9.tick.money == 20
  {
    var cfg := Sample();
    var s := Init().(hasGame := true);
    var s4 := s.(waveTimer := 4.0);
    assert Drive(cfg, s, 1.0, [], path, 0, 4) == Ok(Tick(s4, [], 0));
    var s5 := s4.(waveTimer := 5.0, currentWave := 0, inProgress := true, remaining := 3);
    assert Drive(cfg, s4, 1.0, [], path, 0, 1) == Ok(Tick(s5, [], 0));
    assert Drive(cfg, s, 1.0, [], path, 0, 5) == Ok(Tick(s5, [], 0)) by {
      DriveSplit(cfg, s, 1.0, [], path, 0, 4, 1);
    }
    var e0 := FromConfig(0, path, BasicEnemy).value;
    var e1 := FromConfig(1, path, BasicEnemy).value;
    var e2 := FromConfig(2, path, BasicEnemy).value;
    var s6 := s5.(remaining := 2);
    var s7 := s5.(remaining := 1);
    var s8 := s5.(remaining := 0);
    assert Drive(cfg, s5, 1.0, [], path, 0, 1) == Ok(Tick(s6, [e0], 0));
    assert Drive(cfg, s6, 1.0, [e0], path, 0, 1) == Ok(Tick(s7, [e0, e1], 0));
    assert Drive(cfg, s7, 1.0, [e0, e1], path, 0, 1) == Ok(Tick(s8, [e0, e1, e2], 0));
    DriveSplit(cfg, s6, 1.0, [e0], path, 0, 1, 1);
    DriveSplit(cfg, s5, 1.0, [], path, 0, 1, 2);
    DriveSplit(cfg, s, 1.0, [], path, 0, 5, 3);
  }

  /** Running `m` ticks and then `n` more is running `m + n` ticks. */
  lemma {:induction false} DriveSplit(cfg: WaveConfig, s: State, dt: Duration, es: seq<Enemy>, path: seq<Point>, money: int, m: nat, n: nat)
    requires WellFormed(cfg) && Valid(cfg, s) && |path| > 0
    ensures var o := Drive(cfg, s, dt, es, path, money, m);
      o.Ok? ==> Drive(cfg, s, dt, es, path, money, m + n)
                == Drive(cfg, o.tick.state, dt, o.tick.enemies, path, o.tick.money, n)
    decreases m
  {
    if m > 0 {
      var o := Update(cfg, s, dt, es, path, |es|, money);
      UpdateValid(cfg, s, dt, es, path, |es|, money);
      if o.Ok? {
        DriveSplit(cfg, o.tick.state, dt, o.tick.enemies, path, o.tick.money, m - 1, n);
      }
    }
  }

  /** The shipped schedule's last group is of the flying type, which the
      enemy table does not define: the tick that is due to spawn it fails. */
  lemma FlyingGroupFails(s: State, dt: Duration, es: seq<Enemy>, path: seq<Point>, newId: nat, money: int)
    requires |path| > 0 && Valid(Schedule, s)
    requires s.inProgress && s.currentWave == 3 && s.group == 4 && SpawnDue(Schedule, s, dt)
    ensures WellFormed(Schedule)
    ensures Update(Schedule, s, dt, es, path, newId, money) == UnknownEnemyType(FlyingEnemy)
  {
    ScheduleWellFormed();
    ScheduleUnknownKinds();
  }

  // ----------------------------------------------------------------- report

  datatype WaveInfo = WaveInfo(currentWave: int, totalWaves: nat, breakTimer: real)

  /** Progress for display: the one-based wave number (wave 1 before any has
      started), the number of waves, and the time left in the break. */
  function GetWaveInfo(cfg: WaveConfig, s: State): (i: WaveInfo)
    ensures i.totalWaves == |cfg.waves|
    ensures s.currentWave == -1 ==> i.currentWave == 1 && i.breakTimer == cfg.interval - s.waveTimer
    ensures s.currentWave != -1 ==> i.currentWave == s.currentWave + 1
  {
    if s.currentWave == -1 then WaveInfo(1, |cfg.waves|, cfg.interval - s.waveTimer)
    else
      var left := cfg.interval - s.waveTimer;
      WaveInfo(s.currentWave + 1, |cfg.waves|,
               if s.inProgress then 0.0 else if left > 0.0 then left else 0.0)
  }

  /** Once a wave has started, the reported break time is never negative,
      is zero while a wave runs, and is exactly the time left until the
      next wave can start otherwise; the wave number is between 1 and the
      number of waves. */
  lemma WaveInfoReadsState(cfg: WaveConfig, s: State)
    requires Valid(cfg, s) && s.currentWave >= 0
    ensures var i := GetWaveInfo(cfg, s);
      && 1 <= i.currentWave <= i.totalWaves
      && i.breakTimer >= 0.0
      && (s.inProgress ==> i.breakTimer == 0.0)
      && (!s.inProgress && s.waveTimer <= cfg.interval ==> i.breakTimer == cfg.interval - s.waveTimer)
      && (i.breakTimer > 0.0 ==> !s.inProgress && s.waveTimer + i.breakTimer == cfg.interval)
  {
  }
}
