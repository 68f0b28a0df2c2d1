/** The per-tower target-selection pass over the ordered live-enemy
    sequence, under the five targeting modes. */
module Targeting {
  import opened Common
  import opened Config
  import opened Enemies
  import opened Towers

  /** Flying enemies are skipped unless the tower's type may shoot them. */
  predicate Eligible(t: Tower, e: Enemy) {
    !(e.flying && !TowerStatsOf(t.kind).canTargetFlying)
  }

  /** An enemy the tower may pick: eligible and in range. */
  predicate Candidate(t: Tower, e: Enemy) {
    Eligible(t, e) && Detects(t, e)
  }

  /** Distinct live enemies have distinct identities. */
  predicate UniqueIds(es: seq<Enemy>) {
    forall i, j :: 0 <= i < j < |es| ==> es[i].id != es[j].id
  }

  // ------------------------------------------------------------- first / last

  /** One step of the first/last scan: an in-range enemy is taken when no
      target is held; the held target is dropped when it is met out of range;
      ineligible enemies are skipped. */
  function Visit(t: Tower, held: Option<nat>, e: Enemy): Option<nat> {
    if !Eligible(t, e) then held
    else if Detects(t, e) then (if held.None? then Some(e.id) else held)
    else if held == Some(e.id) then None
    else held
  }

  /** The scan in the given order, starting from the held target. */
  function Scan(t: Tower, held: Option<nat>, es: seq<Enemy>): Option<nat>
    decreases |es|
  {
    if |es| == 0 then held else Scan(t, Visit(t, held, es[0]), es[1..])
  }

  lemma {:induction false} ScanAppend(t: Tower, held: Option<nat>, a: seq<Enemy>, b: seq<Enemy>)
    ensures Scan(t, held, a + b) == Scan(t, Scan(t, held, a), b)
    decreases |a|
  {
    if |a| > 0 {
      assert (a + b)[0] == a[0];
      assert (a + b)[1..] == a[1..] + b;
      ScanAppend(t, Visit(t, held, a[0]), a[1..], b);
    } else {
      assert a + b == b;
    }
  }

  /** The held target is met out of range (it is the enemy with that
      identity, eligible but not detected). */
  predicate LostAt(t: Tower, h: nat, e: Enemy) {
    e.id == h && Eligible(t, e) && !Detects(t, e)
  }

  /** With no target held, the scan picks the first candidate in scan order,
      or nothing when there is none. */
  lemma {:induction false} ScanPicksFirstCandidate(t: Tower, es: seq<Enemy>)
    requires UniqueIds(es)
    ensures var r := Scan(t, None, es);
      && (r.None? <==> forall i :: 0 <= i < |es| ==> !Candidate(t, es[i]))
      && (r.Some? ==> exists i :: 0 <= i < |es| && Candidate(t, es[i]) && es[i].id == r.value
                        && forall j :: 0 <= j < i ==> !Candidate(t, es[j]))
    decreases |es|
  {
    if |es| > 0 {
      var e := es[0];
      assert UniqueIds(es[1..]);
      if Candidate(t, e) {
        ScanKeepsHeld(t, e.id, es[1..]);
        assert Scan(t, None, es) == Some(e.id);
      } else {
        assert Visit(t, None, e) == None;
        ScanPicksFirstCandidate(t, es[1..]);
        var r := Scan(t, None, es);
        if r.Some? {
          var i :| 0 <= i < |es[1..]| && Candidate(t, es[1..][i]) && es[1..][i].id == r.value
                   && forall j :: 0 <= j < i ==> !Candidate(t, es[1..][j]);
          assert es[i + 1] == es[1..][i];
          assert forall j :: 0 <= j < i + 1 ==> !Candidate(t, es[j]) by {
            forall j | 0 <= j < i + 1
              ensures !Candidate(t, es[j])
            {
              if j > 0 {
                assert es[j] == es[1..][j - 1];
              }
            }
          }
        } else {
          forall i | 0 <= i < |es|
            ensures !Candidate(t, es[i])
          {
            if i > 0 {
              assert es[i] == es[1..][i - 1];
            }
          }
        }
      }
    }
  }

  /** A held target that is never met out of range is kept: an in-range
      target is never replaced by another enemy. */
  lemma {:induction false} ScanKeepsHeld(t: Tower, h: nat, es: seq<Enemy>)
    requires forall i :: 0 <= i < |es| ==> !LostAt(t, h, es[i])
    ensures Scan(t, Some(h), es) == Some(h)
    decreases |es|
  {
    if |es| > 0 {
      assert Visit(t, Some(h), es[0]) == Some(h);
      ScanKeepsHeld(t, h, es[1..]);
    }
  }

  /** A held target met out of range is dropped there, and the scan goes on
      from that point as if nothing had been held. */
  lemma ScanDropsLost(t: Tower, h: nat, pre: seq<Enemy>, e: Enemy, post: seq<Enemy>)
    requires forall i :: 0 <= i < |pre| ==> !LostAt(t, h, pre[i])
    requires LostAt(t, h, e)
    ensures Scan(t, Some(h), pre + [e] + post) == Scan(t, None, post)
  {
    ScanKeepsHeld(t, h, pre);
    ScanAppend(t, Some(h), pre + [e], post);
    ScanAppend(t, Some(h), pre, [e]);
  }

  function Reverse(es: seq<Enemy>): (r: seq<Enemy>)
    ensures |r| == |es|
    ensures forall i :: 0 <= i < |es| ==> r[i] == es[|es| - 1 - i]
    decreases |es|
  {
    if |es| == 0 then [] else Reverse(es[1..]) + [es[0]]
  }

  lemma ReverseUnique(es: seq<Enemy>)
    requires UniqueIds(es)
    ensures UniqueIds(Reverse(es))
  {
    var r := Reverse(es);
    forall i, j | 0 <= i < j < |r|
      ensures r[i].id != r[j].id
    {
      assert r[i] == es[|es| - 1 - i] && r[j] == es[|es| - 1 - j];
    }
  }

  /** With no target held, the reverse scan picks the last candidate in list
      order, or nothing when there is none. */
  lemma ReverseScanPicksLastCandidate(t: Tower, es: seq<Enemy>)
    requires UniqueIds(es)
    ensures var r := Scan(t, None, Reverse(es));
      && (r.None? <==> forall i :: 0 <= i < |es| ==> !Candidate(t, es[i]))
      && (r.Some? ==> exists i :: 0 <= i < |es| && Candidate(t, es[i]) && es[i].id == r.value
                        && forall j :: i < j < |es| ==> !Candidate(t, es[j]))
  {
    var rev := Reverse(es);
    ReverseUnique(es);
    ScanPicksFirstCandidate(t, rev);
    var r := Scan(t, None, rev);
    if r.Some? {
      var k :| 0 <= k < |rev| && Candidate(t, rev[k]) && rev[k].id == r.value
               && forall j :: 0 <= j < k ==> !Candidate(t, rev[j]);
      var i := |es| - 1 - k;
      assert es[i] == rev[k];
      forall j | i < j < |es|
        ensures !Candidate(t, es[j])
      {
        assert es[j] == rev[|es| - 1 - j];
      }
    } else {
      forall i | 0 <= i < |es|
        ensures !Candidate(t, es[i])
      {
        assert es[i] == rev[|es| - 1 - i];
      }
    }
  }

  // ------------------------------------------------ strongest / weakest / closest

  /** What a scoring mode optimises: the most health, the least health, or
      the least distance from the tower. */
  datatype Criterion = MostHp | LeastHp | Nearest

  /** The running bound of a scoring scan: a finite value, or infinity. */
  datatype Bound = Finite(v: real) | Infinite

  /** The score an enemy is judged by; distance is compared on squares. */
  function Key(t: Tower, c: Criterion, e: Enemy): real {
    match c
    case MostHp => e.hp
    case LeastHp => e.hp
    case Nearest => Dist2(Center(t), e.pos)
  }

  /** The scan starts from -1 when maximising and from infinity when
      minimising. */
  function Initial(c: Criterion): Bound {
    if c == MostHp then Finite(-1.0) else Infinite
  }

  /** Strict improvement over the running bound. */
  predicate Improves(c: Criterion, k: real, b: Bound) {
    match b
    case Infinite => c != MostHp
    case Finite(v) => if c == MostHp then k > v else k < v
  }

  /** `a` scores strictly better than `b`. */
  predicate Better(c: Criterion, a: real, b: real) {
    if c == MostHp then a > b else a < b
  }

  /** The scoring scan from index `i` on, holding the best index so far and
      its score as the running bound. */
  function Best(t: Tower, c: Criterion, es: seq<Enemy>, i: nat, best: Option<nat>, b: Bound): Option<nat>
    requires i <= |es|
    decreases |es| - i
  {
    if i == |es| then best
    else if Candidate(t, es[i]) && Improves(c, Key(t, c, es[i]), b) then
      Best(t, c, es, i + 1, Some(i), Finite(Key(t, c, es[i])))
    else
      Best(t, c, es, i + 1, best, b)
  }

  /** Index `k` is the first best candidate: every earlier candidate scores
      strictly worse, and no later candidate scores strictly better. */
  predicate FirstBest(t: Tower, c: Criterion, es: seq<Enemy>, k: nat) {
    && k < |es|
    && Candidate(t, es[k])
    && (forall j :: 0 <= j < k && Candidate(t, es[j]) ==> Better(c, Key(t, c, es[k]), Key(t, c, es[j])))
    && (forall j :: k < j < |es| && Candidate(t, es[j]) ==> !Better(c, Key(t, c, es[j]), Key(t, c, es[k])))
  }

  predicate HealthNonNegative(es: seq<Enemy>) {
    forall i :: 0 <= i < |es| ==> es[i].hp >= 0.0
  }

  /** The state of the scoring scan after the first `i` enemies. */
  predicate ScanState(t: Tower, c: Criterion, es: seq<Enemy>, i: nat, best: Option<nat>, b: Bound) {
    && i <= |es|
    && (best.None? ==> b == Initial(c) && forall j :: 0 <= j < i ==> !Candidate(t, es[j]))
    && (best.Some? ==>
          var k := best.value;
          && k < i
          && Candidate(t, es[k])
          && b == Finite(Key(t, c, es[k]))
          && (forall j :: 0 <= j < k && Candidate(t, es[j]) ==> Better(c, Key(t, c, es[k]), Key(t, c, es[j])))
          && (forall j :: k < j < i && Candidate(t, es[j]) ==> !Better(c, Key(t, c, es[j]), Key(t, c, es[k]))))
  }

  lemma {:induction false} BestFromState(t: Tower, c: Criterion, es: seq<Enemy>, i: nat, best: Option<nat>, b: Bound)
    requires HealthNonNegative(es)
    requires ScanState(t, c, es, i, best, b)
    ensures var r := Best(t, c, es, i, best, b);
      && (r.None? <==> best.None? && forall j :: i <= j < |es| ==> !Candidate(t, es[j]))
      && (r.Some? ==> FirstBest(t, c, es, r.value))
    decreases |es| - i
  {
    if i < |es| {
      var e := es[i];
      var key := Key(t, c, e);
      if Candidate(t, e) && Improves(c, key, b) {
        if best.Some? {
          var k := best.value;
          assert forall j :: 0 <= j < i && Candidate(t, es[j]) ==> Better(c, key, Key(t, c, es[j])) by {
            forall j | 0 <= j < i && Candidate(t, es[j])
              ensures Better(c, key, Key(t, c, es[j]))
            {
              if j != k {
                assert Better(c, Key(t, c, es[k]), Key(t, c, es[j])) || !Better(c, Key(t, c, es[j]), Key(t, c, es[k]));
              }
            }
          }
        }
        BestFromState(t, c, es, i + 1, Some(i), Finite(key));
      } else {
        if best.None? && Candidate(t, e) {
          assert false;
        }
        BestFromState(t, c, es, i + 1, best, b);
      }
    } else {
      if best.Some? {
        assert FirstBest(t, c, es, best.value);
      }
    }
  }

  /** The scoring pass returns the first best candidate, and nothing exactly
      when no enemy is a candidate; ties go to the earliest enemy. */
  lemma BestIsFirstBest(t: Tower, c: Criterion, es: seq<Enemy>)
    requires HealthNonNegative(es)
    ensures var r := Best(t, c, es, 0, None, Initial(c));
      && (r.None? <==> forall j :: 0 <= j < |es| ==> !Candidate(t, es[j]))
      && (r.Some? ==> FirstBest(t, c, es, r.value))
  {
    BestFromState(t, c, es, 0, None, Initial(c));
  }

  /** There is only one first best candidate. */
  lemma FirstBestUnique(t: Tower, c: Criterion, es: seq<Enemy>, k: nat, m: nat)
    requires FirstBest(t, c, es, k) && FirstBest(t, c, es, m)
    ensures k == m
  {
  }

  // ------------------------------------------------------------- dispatch

  function IdAt(es: seq<Enemy>, k: Option<nat>): Option<nat> {
    if k.Some? && k.value < |es| then Some(es[k.value].id) else None
  }

  function CriterionOf(m: TargetMode): Criterion
    requires m !in {First, Last}
  {
    match m
    case Strongest => MostHp
    case Weakest => LeastHp
    case Closest => Nearest
  }

  /** The first/last scan only ever holds its starting target or a
      candidate it met on the way. */
  lemma {:induction false} ScanHoldsCandidate(t: Tower, held: Option<nat>, es: seq<Enemy>)
    ensures var r := Scan(t, held, es);
      r.Some? ==> r == held || exists j :: 0 <= j < |es| && Candidate(t, es[j]) && es[j].id == r.value
    decreases |es|
  {
    if |es| > 0 {
      var next := Visit(t, held, es[0]);
      ScanHoldsCandidate(t, next, es[1..]);
      var r := Scan(t, held, es);
      if r.Some? && r != held {
        if r == next {
          assert Candidate(t, es[0]) && es[0].id == r.value;
        } else {
          var j :| 0 <= j < |es[1..]| && Candidate(t, es[1..][j]) && es[1..][j].id == r.value;
          assert es[j + 1] == es[1..][j];
        }
      }
    }
  }

  /** The same for the scan in reverse list order. */
  lemma ReverseScanHoldsCandidate(t: Tower, held: Option<nat>, es: seq<Enemy>)
    ensures var r := Scan(t, held, Reverse(es));
      r.Some? ==> r == held || exists j :: 0 <= j < |es| && Candidate(t, es[j]) && es[j].id == r.value
  {
    var rev := Reverse(es);
    ScanHoldsCandidate(t, held, rev);
    var r := Scan(t, held, rev);
    if r.Some? && r != held {
      var k :| 0 <= k < |rev| && Candidate(t, rev[k]) && rev[k].id == r.value;
      assert es[|es| - 1 - k] == rev[k];
    }
  }

  /** The scoring scan only ever holds the index of a candidate. */
  lemma {:induction false} BestIsCandidate(t: Tower, c: Criterion, es: seq<Enemy>, i: nat, best: Option<nat>, b: Bound)
    requires i <= |es|
    requires best.Some? ==> best.value < |es| && Candidate(t, es[best.value])
    ensures var r := Best(t, c, es, i, best, b);
      r.Some? ==> r.value < |es| && Candidate(t, es[r.value])
    decreases |es| - i
  {
    if i < |es| {
      if Candidate(t, es[i]) && Improves(c, Key(t, c, es[i]), b) {
        BestIsCandidate(t, c, es, i + 1, Some(i), Finite(Key(t, c, es[i])));
      } else {
        BestIsCandidate(t, c, es, i + 1, best, b);
      }
    }
  }

  /** The target the pass leaves on the tower: the held target, kept by the
      first/last scan, or an enemy of the list that is in range and that the
      tower may shoot. A scoring mode always picks such an enemy. */
  function Select(t: Tower, es: seq<Enemy>): (r: Option<nat>)
    ensures r.Some? ==> r == t.target || exists j :: 0 <= j < |es| && Candidate(t, es[j]) && es[j].id == r.value
    ensures t.mode !in {First, Last} && r.Some? ==>
      exists j :: 0 <= j < |es| && Candidate(t, es[j]) && es[j].id == r.value
  {
    match t.mode
    case First =>
      ScanHoldsCandidate(t, t.target, es);
      Scan(t, t.target, es)
    case Last =>
      ReverseScanHoldsCandidate(t, t.target, es);
      Scan(t, t.target, Reverse(es))
    case _ =>
      var c := CriterionOf(t.mode);
      BestIsCandidate(t, c, es, 0, None, Initial(c));
      IdAt(es, Best(t, c, es, 0, None, Initial(c)))
  }

  /** The pass applied to the tower: only the target changes, and it becomes
      the held target or a candidate of the list. */
  function Retarget(t: Tower, es: seq<Enemy>): (r: Tower)
    ensures r == t.(target := r.target)
    ensures r.target.Some? ==>
      r.target == t.target || exists j :: 0 <= j < |es| && Candidate(t, es[j]) && es[j].id == r.target.value
  {
    t.(target := Select(t, es))
  }

  /** A scoring mode's choice is a candidate with the best score, the first
      such in list order; it is nothing exactly when there are no candidates.
      The held target plays no part. */
  lemma ScoringModeChoice(t: Tower, es: seq<Enemy>)
    requires t.mode in {Strongest, Weakest, Closest}
    requires HealthNonNegative(es)
    ensures var c := CriterionOf(t.mode);
      var r := Select(t, es);
      && (r.None? <==> forall j :: 0 <= j < |es| ==> !Candidate(t, es[j]))
      && (r.Some? ==> exists k: nat :: FirstBest(t, c, es, k) && es[k].id == r.value)
      && r == Select(t.(target := None), es)
  {
    var c := CriterionOf(t.mode);
    BestIsFirstBest(t, c, es);
    BestIsFirstBest(t.(target := None), c, es);
    assert Center(t.(target := None)) == Center(t);
  }

  /** Candidates by identity: the enemy with this identity may be picked. */
  predicate NotFlyingId(es: seq<Enemy>, id: nat) {
    forall i :: 0 <= i < |es| && es[i].id == id ==> !es[i].flying
  }

  /** No configured tower type may shoot flying enemies, so a flying enemy
      never becomes a target in any mode (a held target is not flying). */
  lemma NeverSelectsFlying(t: Tower, es: seq<Enemy>)
    requires UniqueIds(es) && HealthNonNegative(es)
    requires t.target.Some? ==> NotFlyingId(es, t.target.value)
    ensures var r := Select(t, es);
      r.Some? ==> NotFlyingId(es, r.value)
  {
    var r := Select(t, es);
    match t.mode {
      case First =>
        ScanNoFlying(t, t.target, es, es);
      case Last =>
        var rev := Reverse(es);
        forall id | t.target == Some(id) ensures NotFlyingId(rev, id) {
          forall i | 0 <= i < |rev| && rev[i].id == id ensures !rev[i].flying {
            assert rev[i] == es[|es| - 1 - i];
          }
        }
        ScanNoFlying(t, t.target, rev, rev);
        if r.Some? {
          forall i | 0 <= i < |es| && es[i].id == r.value ensures !es[i].flying {
            assert es[i] == rev[|es| - 1 - i];
          }
        }
      case _ =>
        var c := CriterionOf(t.mode);
        BestIsFirstBest(t, c, es);
        if r.Some? {
          var k := Best(t, c, es, 0, None, Initial(c)).value;
          assert Candidate(t, es[k]);
        }
    }
  }

  /** The first/last scan only ever holds the starting target or an eligible
      enemy of the scanned sequence. */
  lemma {:induction false} ScanNoFlying(t: Tower, held: Option<nat>, es: seq<Enemy>, all: seq<Enemy>)
    requires UniqueIds(all)
    requires forall i :: 0 <= i < |es| ==> es[i] in all
    requires held.Some? ==> NotFlyingId(all, held.value)
    ensures var r := Scan(t, held, es);
      r.Some? ==> NotFlyingId(all, r.value)
    decreases |es|
  {
    if |es| > 0 {
      var e := es[0];
      var next := Visit(t, held, e);
      if next.Some? && next != held {
        assert next == Some(e.id) && Eligible(t, e);
        assert !e.flying;
        forall i | 0 <= i < |all| && all[i].id == e.id ensures !all[i].flying {
          var k :| 0 <= k < |all| && all[k] == e;
          assert i == k;
        }
      }
      ScanNoFlying(t, next, es[1..], all);
    }
  }
}
