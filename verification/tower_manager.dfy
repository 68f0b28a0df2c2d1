/** The owner of all towers: placement, sale and upgrade transactions on the
    player's money, targeting-mode cycling, and the per-tick tower pass. */
module TowerManager {
  import opened Common
  import opened Config
  import opened Enemies
  import opened Towers
  import opened Targeting

  /** The towers in placement order, the player's money, and the identity
      the next placed tower receives. */
  datatype Manager = Manager(towers: seq<Tower>, money: int, nextId: nat)

  predicate DistinctTowers(ts: seq<Tower>) {
    forall i, j :: 0 <= i < j < |ts| ==> ts[i].id != ts[j].id
  }

  /** Money is never negative and every tower has its own identity, below
      the next one to be handed out. */
  predicate Valid(m: Manager) {
    && m.money >= 0
    && DistinctTowers(m.towers)
    && forall i :: 0 <= i < |m.towers| ==> m.towers[i].id < m.nextId
  }

  // --------------------------------------------------------------- placement

  /** Some tower's centre lies inside the plot. */
  function SpotOccupied(ts: seq<Tower>, plot: Rect): (b: bool)
    ensures b <==> exists i :: 0 <= i < |ts| && Contains(plot, ts[i].x, ts[i].y)
    decreases |ts|
  {
    if |ts| == 0 then false
    else if Contains(plot, ts[0].x, ts[0].y) then true
    else
      var rest := SpotOccupied(ts[1..], plot);
      assert rest <==> exists i :: 1 <= i < |ts| && Contains(plot, ts[i].x, ts[i].y) by {
        if rest {
          var k :| 0 <= k < |ts[1..]| && Contains(plot, ts[1..][k].x, ts[1..][k].y);
          assert ts[k + 1] == ts[1..][k];
        }
        forall i | 1 <= i < |ts| && Contains(plot, ts[i].x, ts[i].y)
          ensures rest
        {
          assert ts[1..][i - 1] == ts[i];
        }
      }
      rest
  }

  datatype PlaceOutcome = Placed | NoSuchSpot | SpotTaken | CannotAffordTower

  datatype Placement = Placement(manager: Manager, outcome: PlaceOutcome)

  /** The centre of a plot, rounding half sizes down. */
  function PlotCenterX(p: Rect): int { p.x + p.w / 2 }
  function PlotCenterY(p: Rect): int { p.y + p.h / 2 }

  /** Place a tower of the given type on plot `spot`. The spot index, the
      plot's vacancy and the price are checked in that order; a failed check
      changes nothing. */
  function PlaceTower(m: Manager, plots: seq<Rect>, spot: nat, kind: TowerKind): (r: Placement)
    ensures r.outcome == NoSuchSpot <==> spot >= |plots|
    ensures r.outcome == SpotTaken <==> spot < |plots| && SpotOccupied(m.towers, plots[spot])
    ensures r.outcome == CannotAffordTower <==>
      spot < |plots| && !SpotOccupied(m.towers, plots[spot]) && m.money < TowerStatsOf(kind).cost
    ensures r.outcome != Placed ==> r.manager == m
    ensures r.outcome == Placed ==>
      && spot < |plots|
      && |r.manager.towers| == |m.towers| + 1
      && r.manager.towers[..|m.towers|] == m.towers
      && var t := r.manager.towers[|m.towers|];
      && t.x == plots[spot].x + plots[spot].w / 2
      && t.y == plots[spot].y + plots[spot].h / 2
      && t.plot == plots[spot] && t.kind == kind && t.attached
      && t.fireTimer == 0.0 && t.target.None? && t.element.None?
      && t == Towers.New(m.nextId, t.x, t.y, plots[spot], kind).(attached := true)
      && r.manager.nextId == m.nextId + 1
      && r.manager.money == m.money - TowerStatsOf(kind).cost >= 0
    ensures Valid(m) ==> Valid(r.manager)
  {
    if spot >= |plots| then Placement(m, NoSuchSpot)
    else if SpotOccupied(m.towers, plots[spot]) then Placement(m, SpotTaken)
    else if m.money < TowerStatsOf(kind).cost then Placement(m, CannotAffordTower)
    else
      var p := plots[spot];
      var t := Towers.New(m.nextId, PlotCenterX(p), PlotCenterY(p), p, kind).(attached := true);
      Placement(Manager(m.towers + [t], m.money - t.cost, m.nextId + 1), Placed)
  }

  /** A tower placed on a plot of positive size stands inside it, so the same
      plot is refused afterwards. */
  lemma PlacedSpotIsTaken(m: Manager, plots: seq<Rect>, spot: nat, kind: TowerKind, kind2: TowerKind)
    requires spot < |plots| && plots[spot].w > 0 && plots[spot].h > 0
    requires PlaceTower(m, plots, spot, kind).outcome == Placed
    ensures var m2 := PlaceTower(m, plots, spot, kind).manager;
      PlaceTower(m2, plots, spot, kind2).outcome == SpotTaken
      && PlaceTower(m2, plots, spot, kind2).manager == m2
  {
    var m2 := PlaceTower(m, plots, spot, kind).manager;
    var t := m2.towers[|m.towers|];
    assert Contains(plots[spot], t.x, t.y);
  }

  // -------------------------------------------------------------------- sale

  /** Position of the first tower with the given identity. */
  function IndexOf(ts: seq<Tower>, id: nat): (r: Option<nat>)
    ensures r.None? <==> forall i :: 0 <= i < |ts| ==> ts[i].id != id
    ensures r.Some? ==> (r.value < |ts| && ts[r.value].id == id
      && forall j :: 0 <= j < r.value ==> ts[j].id != id)
    decreases |ts|
  {
    if |ts| == 0 then None
    else if ts[0].id == id then Some(0)
    else
      var rest := IndexOf(ts[1..], id);
      if rest.None? then
        assert forall i :: 1 <= i < |ts| ==> ts[i].id != id by {
          forall i | 1 <= i < |ts| ensures ts[i].id != id {
            assert ts[i] == ts[1..][i - 1];
          }
        }
        None
      else
        assert forall j :: 1 <= j < rest.value + 1 ==> ts[j].id != id by {
          forall j | 1 <= j < rest.value + 1 ensures ts[j].id != id {
            assert ts[j] == ts[1..][j - 1];
          }
        }
        Some(rest.value + 1)
  }

  /** The first position holding an identity is the one `IndexOf` finds. */
  lemma IndexOfIsFirst(ts: seq<Tower>, id: nat, i: nat)
    requires i < |ts| && ts[i].id == id
    requires forall j :: 0 <= j < i ==> ts[j].id != id
    ensures IndexOf(ts, id) == Some(i)
  {
    var r := IndexOf(ts, id);
    assert r.Some?;
  }

  /** Removing one tower keeps the identities of the others distinct. */
  lemma RemoveKeepsValid(m: Manager, i: nat, money: int)
    requires Valid(m) && i < |m.towers| && money >= 0
    ensures Valid(Manager(m.towers[..i] + m.towers[i + 1..], money, m.nextId))
  {
    var rest := m.towers[..i] + m.towers[i + 1..];
    forall k | 0 <= k < |rest|
      ensures rest[k] == m.towers[if k < i then k else k + 1]
    {
    }
  }

  datatype Sale = Sale(manager: Manager, sold: Option<Tower>)

  /** Sell the tower with the given identity: refund its sell value and
      remove exactly it, keeping the others in order. An unknown tower
      changes nothing. */
  function SellTower(m: Manager, id: nat): (r: Sale)
    ensures IndexOf(m.towers, id).None? ==> r == Sale(m, None)
    ensures IndexOf(m.towers, id).Some? ==>
      var i := IndexOf(m.towers, id).value;
      && r.manager.towers == m.towers[..i] + m.towers[i + 1..]
      && r.manager.money == m.money + SellValue(m.towers[i])
      && r.manager.nextId == m.nextId
      && r.sold == Some(Sell(m.towers[i]))
    ensures Valid(m) ==> Valid(r.manager)
  {
    match IndexOf(m.towers, id)
    case None => Sale(m, None)
    case Some(i) =>
      var t := m.towers[i];
      var rest := m.towers[..i] + m.towers[i + 1..];
      var m' := Manager(rest, m.money + SellValue(t), m.nextId);
      assert Valid(m) ==> Valid(m') by {
        if Valid(m) {
          RemoveKeepsValid(m, i, m'.money);
        }
      }
      Sale(m', Some(Sell(t)))
  }

  /** Selling a tower that was just placed refunds half its type's cost,
      rounded down, and restores the tower list. */
  lemma PlaceThenSell(m: Manager, plots: seq<Rect>, spot: nat, kind: TowerKind)
    requires Valid(m)
    requires PlaceTower(m, plots, spot, kind).outcome == Placed
    ensures var m2 := PlaceTower(m, plots, spot, kind).manager;
      var m3 := SellTower(m2, m.nextId).manager;
      && m3.towers == m.towers
      && m3.money == m.money - TowerStatsOf(kind).cost + TowerStatsOf(kind).cost / 2
  {
    var m2 := PlaceTower(m, plots, spot, kind).manager;
    var n := |m.towers|;
    assert m2.towers[n].id == m.nextId;
    assert IndexOf(m2.towers, m.nextId) == Some(n) by {
      forall j | 0 <= j < n ensures m2.towers[j].id != m.nextId {
        assert m2.towers[j] == m.towers[j];
      }
    }
    assert m2.towers[..n] + m2.towers[n + 1..] == m.towers;
  }

  // ------------------------------------------------------------------ upgrade

  datatype UpgradeOutcome = Upgraded | TowerMissing | UnknownElement | AlreadyUpgraded | CannotAffordUpgrade

  datatype Upgrade = Upgrade(manager: Manager, outcome: UpgradeOutcome)

  /** Attach the named element to a tower. A tower not in the list, an
      unknown element name, a tower that already has an element, and a
      price above the player's money are rejected, in that order, changing
      nothing; success charges exactly the element's price. */
  function UpgradeTower(m: Manager, id: nat, name: string): (r: Upgrade)
    ensures r.outcome != Upgraded ==> r.manager == m
    ensures r.outcome == TowerMissing <==> IndexOf(m.towers, id).None?
    ensures r.outcome == UnknownElement <==> IndexOf(m.towers, id).Some? && ElementNamed(name).None?
    ensures r.outcome == AlreadyUpgraded <==>
      IndexOf(m.towers, id).Some? && ElementNamed(name).Some?
      && m.towers[IndexOf(m.towers, id).value].element.Some?
    ensures r.outcome == Upgraded <==>
      && IndexOf(m.towers, id).Some? && ElementNamed(name).Some?
      && m.towers[IndexOf(m.towers, id).value].element.None?
      && m.money >= UpgradeCost(ElementNamed(name).value)
    ensures r.outcome == Upgraded ==>
      var i := IndexOf(m.towers, id).value;
      var el := ElementNamed(name).value;
      && m.towers[i].element.None?
      && m.money >= UpgradeCost(el)
      && r.manager.towers == m.towers[i := m.towers[i].(element := Some(el))]
      && r.manager.money == m.money - UpgradeCost(el)
      && r.manager.nextId == m.nextId
    ensures Valid(m) ==> Valid(r.manager)
  {
    match IndexOf(m.towers, id)
    case None => Upgrade(m, TowerMissing)
    case Some(i) =>
      match ElementNamed(name)
      case None => Upgrade(m, UnknownElement)
      case Some(el) =>
        if m.towers[i].element.Some? then Upgrade(m, AlreadyUpgraded)
        else if m.money < UpgradeCost(el) then Upgrade(m, CannotAffordUpgrade)
        else
          var ts := m.towers[i := m.towers[i].(element := Some(el))];
          assert forall k :: 0 <= k < |ts| ==> ts[k].id == m.towers[k].id;
          Upgrade(Manager(ts, m.money - UpgradeCost(el), m.nextId), Upgraded)
  }

  /** An element is irrevocable: a second upgrade of the same tower is
      always refused. */
  lemma UpgradeOnce(m: Manager, id: nat, name: string, name2: string)
    requires UpgradeTower(m, id, name).outcome == Upgraded
    ensures var m2 := UpgradeTower(m, id, name).manager;
      UpgradeTower(m2, id, name2).outcome in {UnknownElement, AlreadyUpgraded}
  {
    var i := IndexOf(m.towers, id).value;
    var m2 := UpgradeTower(m, id, name).manager;
    IndexOfIsFirst(m2.towers, id, i);
  }

  // ---------------------------------------------------------- mode cycling

  const Modes: seq<TargetMode> := [First, Last, Strongest, Weakest, Closest]

  /** Position of a mode in the cycling order. */
  function ModeIndex(md: TargetMode): (i: nat)
    ensures i < |Modes| && Modes[i] == md
  {
    match md
    case First => 0
    case Last => 1
    case Strongest => 2
    case Weakest => 3
    case Closest => 4
  }

  /** Move the tower to the next mode of the cycle, wrapping around. */
  function CycleTargeting(t: Tower): (r: Tower)
    ensures ModeIndex(r.mode) == (ModeIndex(t.mode) + 1) % |Modes|
    ensures r == t.(mode := r.mode)
  {
    t.(mode := Modes[(ModeIndex(t.mode) + 1) % |Modes|])
  }

  function CycleTimes(t: Tower, n: nat): Tower
    decreases n
  {
    if n == 0 then t else CycleTargeting(CycleTimes(t, n - 1))
  }

  /** After `n` cycles the mode index has advanced by `n` modulo five. */
  lemma {:induction false} CycleTimesIndex(t: Tower, n: nat)
    ensures ModeIndex(CycleTimes(t, n).mode) == (ModeIndex(t.mode) + n) % |Modes|
    ensures CycleTimes(t, n) == t.(mode := CycleTimes(t, n).mode)
    decreases n
  {
    if n > 0 {
      CycleTimesIndex(t, n - 1);
    }
  }

  /** Five cycles restore the original mode, and no fewer do. */
  lemma CyclePeriod(t: Tower)
    ensures CycleTimes(t, 5) == t
    ensures forall n :: 0 < n < 5 ==> CycleTimes(t, n).mode != t.mode
  {
    CycleTimesIndex(t, 5);
    forall n | 0 < n < 5 ensures CycleTimes(t, n).mode != t.mode {
      CycleTimesIndex(t, n);
    }
  }

  // ------------------------------------------------------------ tower pass

  /** One launched projectile: which tower fired at which enemy. */
  datatype Shot = Shot(tower: nat, enemy: nat)

  datatype Pass = Pass(towers: seq<Tower>, shots: seq<Shot>)

  /** The shot one tower contributes to a pass: its own, if its tick fires. */
  function ShotOf(t: Tower, es: seq<Enemy>, dt: Duration): (s: seq<Shot>)
    ensures |s| <= 1
  {
    var tick := Tick(t, es, dt);
    if tick.shot.Some? then [Shot(t.id, tick.shot.value)] else []
  }

  /** The shots of each tower, one list after the other. */
  function Concat(xs: seq<seq<Shot>>): seq<Shot>
    decreases |xs|
  {
    if |xs| == 0 then [] else xs[0] + Concat(xs[1..])
  }

  /** One tick of every tower in list order: its own update, then the
      target-selection pass. A tower whose tick fires contributes exactly
      its shot; no other shot appears. */
  function UpdateTowers(ts: seq<Tower>, es: seq<Enemy>, dt: Duration): (r: Pass)
    ensures |r.towers| == |ts|
    ensures forall i :: 0 <= i < |ts| ==> r.towers[i] == Retarget(Tick(ts[i], es, dt).tower, es)
    ensures |r.shots| <= |ts|
    ensures forall i :: 0 <= i < |ts| && Tick(ts[i], es, dt).shot.Some? ==>
      Shot(ts[i].id, Tick(ts[i], es, dt).shot.value) in r.shots
    ensures forall s :: s in r.shots ==>
      exists i :: 0 <= i < |ts| && ts[i].id == s.tower && Tick(ts[i], es, dt).shot == Some(s.enemy)
    decreases |ts|
  {
    if |ts| == 0 then Pass([], [])
    else
      var tick := Tick(ts[0], es, dt);
      var rest := UpdateTowers(ts[1..], es, dt);
      var shots := if tick.shot.Some? then [Shot(ts[0].id, tick.shot.value)] + rest.shots else rest.shots;
      assert shots == ShotOf(ts[0], es, dt) + rest.shots;
      TowersShift(ts, es, dt, rest.towers);
      FiringShotsShift(ts, es, dt, rest.shots);
      ShotSourcesShift(ts, es, dt, rest.shots);
      Pass([Retarget(tick.tower, es)] + rest.towers, shots)
  }

  /** Ticking and retargeting the head in front of the tail's pass gives
      the pass of the whole list. */
  lemma TowersShift(ts: seq<Tower>, es: seq<Enemy>, dt: Duration, rest: seq<Tower>)
    requires |ts| > 0 && |rest| == |ts| - 1
    requires forall i :: 0 <= i < |ts[1..]| ==> rest[i] == Retarget(Tick(ts[1..][i], es, dt).tower, es)
    ensures var r := [Retarget(Tick(ts[0], es, dt).tower, es)] + rest;
      forall i :: 0 <= i < |ts| ==> r[i] == Retarget(Tick(ts[i], es, dt).tower, es)
  {
    forall i | 1 <= i < |ts| ensures rest[i - 1] == Retarget(Tick(ts[i], es, dt).tower, es) {
      assert ts[i] == ts[1..][i - 1];
    }
  }

  /** A firing tower of the list has its shot in the head's shot followed by
      the tail's shots. */
  lemma FiringShotsShift(ts: seq<Tower>, es: seq<Enemy>, dt: Duration, shots: seq<Shot>)
    requires |ts| > 0
    requires forall i :: 0 <= i < |ts[1..]| && Tick(ts[1..][i], es, dt).shot.Some? ==>
      Shot(ts[1..][i].id, Tick(ts[1..][i], es, dt).shot.value) in shots
    ensures forall i :: 0 <= i < |ts| && Tick(ts[i], es, dt).shot.Some? ==>
      Shot(ts[i].id, Tick(ts[i], es, dt).shot.value) in ShotOf(ts[0], es, dt) + shots
  {
    forall i | 1 <= i < |ts| && Tick(ts[i], es, dt).shot.Some?
      ensures Shot(ts[i].id, Tick(ts[i], es, dt).shot.value) in shots
    {
      assert ts[i] == ts[1..][i - 1];
    }
  }

  /** A shot fired by a tower of the tail was fired by a tower of the list. */
  lemma ShotSourcesShift(ts: seq<Tower>, es: seq<Enemy>, dt: Duration, shots: seq<Shot>)
    requires |ts| > 0
    requires forall s :: s in shots ==>
      exists i :: 0 <= i < |ts[1..]| && ts[1..][i].id == s.tower && Tick(ts[1..][i], es, dt).shot == Some(s.enemy)
    ensures forall s :: s in shots ==>
      exists i :: 0 <= i < |ts| && ts[i].id == s.tower && Tick(ts[i], es, dt).shot == Some(s.enemy)
  {
    forall s | s in shots
      ensures exists i :: 0 <= i < |ts| && ts[i].id == s.tower && Tick(ts[i], es, dt).shot == Some(s.enemy)
    {
      var k :| 0 <= k < |ts[1..]| && ts[1..][k].id == s.tower && Tick(ts[1..][k], es, dt).shot == Some(s.enemy);
      assert ts[k + 1] == ts[1..][k];
    }
  }

  /** The shots of a pass are, in tower order, exactly the shot of each tower
      whose tick fires: at most one per tower, none from the others. */
  lemma {:induction false} ShotsInTowerOrder(ts: seq<Tower>, es: seq<Enemy>, dt: Duration)
    ensures UpdateTowers(ts, es, dt).shots == Concat(seq(|ts|, i requires 0 <= i < |ts| => ShotOf(ts[i], es, dt)))
    decreases |ts|
  {
    var xs := seq(|ts|, i requires 0 <= i < |ts| => ShotOf(ts[i], es, dt));
    if |ts| > 0 {
      ShotsInTowerOrder(ts[1..], es, dt);
      assert xs[1..] == seq(|ts[1..]|, i requires 0 <= i < |ts[1..]| => ShotOf(ts[1..][i], es, dt));
    }
  }

  /** The tower `s.tower` held `s.enemy` as a valid target when it fired. */
  predicate FiredAtValid(ts: seq<Tower>, es: seq<Enemy>, s: Shot) {
    exists i :: 0 <= i < |ts| && ts[i].id == s.tower && ts[i].target == Some(s.enemy) && HoldsValidTarget(ts[i], es)
  }

  /** Every projectile of the pass is aimed at the valid target of the tower
      that fired it: an enemy that is present, alive and in range. */
  lemma {:induction false} ShotsHitLiveTargets(ts: seq<Tower>, es: seq<Enemy>, dt: Duration)
    ensures forall s :: s in UpdateTowers(ts, es, dt).shots ==> FiredAtValid(ts, es, s)
    ensures forall s :: s in UpdateTowers(ts, es, dt).shots ==>
      exists j :: 0 <= j < |es| && es[j].id == s.enemy && !IsDead(es[j])
    decreases |ts|
  {
    if |ts| > 0 {
      ShotsHitLiveTargets(ts[1..], es, dt);
      var r := UpdateTowers(ts, es, dt);
      forall s | s in r.shots
        ensures FiredAtValid(ts, es, s)
        ensures exists j :: 0 <= j < |es| && es[j].id == s.enemy && !IsDead(es[j])
      {
        if s in UpdateTowers(ts[1..], es, dt).shots {
          assert FiredAtValid(ts[1..], es, s);
          var k :| 0 <= k < |ts[1..]| && ts[1..][k].id == s.tower && ts[1..][k].target == Some(s.enemy)
                   && HoldsValidTarget(ts[1..][k], es);
          assert ts[k + 1] == ts[1..][k];
          assert FiredAtValid(ts, es, s);
        } else {
          assert s == Shot(ts[0].id, ts[0].target.value);
          assert FiredAtValid(ts, es, s);
        }
        var i :| 0 <= i < |ts| && ts[i].id == s.tower && ts[i].target == Some(s.enemy) && HoldsValidTarget(ts[i], es);
        var e := Lookup(es, s.enemy).value;
        var j :| 0 <= j < |es| && es[j] == e;
      }
    }
  }
}
