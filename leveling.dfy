/**
 * The arithmetic of the level-up loop in `UserRepositoryImpl.addExp`: levels are taken in
 * ascending order of required experience, the user starts at the index of their current level
 * (or at the first level), and each pass pays the current level's threshold and moves one
 * level up. At the last level the experience is clamped to that level's threshold.
 */
module Leveling {
  import opened Common
  import opened Schema

  /** The ordering key of `ORDER BY required_exp`. */
  function RequiredExpKey(l: Level): int
  {
    l.requiredExp
  }

  /** The level table as `addExp` reads it: ordered ascending by required experience. */
  function ByRequiredExp(levels: seq<Level>): (r: seq<Level>)
    ensures |r| == |levels| && multiset(r) == multiset(levels)
    ensures forall i, j :: 0 <= i < j < |r| ==> r[i].requiredExp <= r[j].requiredExp
  {
    var r := SortBy(levels, RequiredExpKey);
    assert forall i, j :: 0 <= i < j < |r| ==> RequiredExpKey(r[i]) <= RequiredExpKey(r[j]);
    r
  }

  /** `Array.prototype.findIndex` on the level ids: the first position holding `id`, or -1. */
  function FindIndex(levels: seq<Level>, id: Option<LevelId>): (k: int)
    ensures -1 <= k < |levels|
    ensures k >= 0 ==> id == Some(levels[k].id) && forall i :: 0 <= i < k ==> id != Some(levels[i].id)
    ensures k == -1 ==> forall i :: 0 <= i < |levels| ==> id != Some(levels[i].id)
  {
    if levels == [] then -1
    else if id == Some(levels[0].id) then 0
    else
      var k := FindIndex(levels[1..], id);
      if k == -1 then -1 else k + 1
  }

  /** Where the loop starts: the user's current level, or the first level when it is absent from the list. */
  function StartIndex(levels: seq<Level>, id: Option<LevelId>): (k: nat)
    requires levels != []
    ensures k < |levels|
    ensures (exists i :: 0 <= i < |levels| && id == Some(levels[i].id)) ==> id == Some(levels[k].id)
    ensures (forall i :: 0 <= i < |levels| ==> id != Some(levels[i].id)) ==> k == 0
  {
    var k := FindIndex(levels, id);
    if k == -1 then 0 else k
  }

  /** The total threshold paid by moving from level `i` up to level `j`. */
  function SumRequired(levels: seq<Level>, i: nat, j: nat): int
    requires i <= j <= |levels|
    decreases j - i
  {
    if i == j then 0 else levels[i].requiredExp + SumRequired(levels, i + 1, j)
  }

  /**
   * The level-up loop from index `k` with `exp` points: returns the remaining experience and
   * the index it stops at. It never moves down, never leaves the list, conserves experience,
   * and stops below the last level only when the remaining points do not reach the threshold.
   */
  function Climb(levels: seq<Level>, k: nat, exp: int): (r: (int, nat))
    requires k < |levels|
    ensures k <= r.1 < |levels|
    ensures exp == r.0 + SumRequired(levels, k, r.1)
    ensures r.1 < |levels| - 1 ==> r.0 < levels[r.1].requiredExp
    ensures forall j :: k <= j < r.1 ==> exp - SumRequired(levels, k, j) >= levels[j].requiredExp
    ensures r.1 == k ==> r.0 == exp
    ensures r.1 > k ==> r.0 >= 0
    decreases |levels| - k
  {
    if k < |levels| - 1 && exp >= levels[k].requiredExp then
      Climb(levels, k + 1, exp - levels[k].requiredExp)
    else
      (exp, k)
  }

  /**
   * The outcome of `addExp` on an ordered level list: the loop followed by the clamp at the
   * last level. `exp` is the user's experience plus the points gained.
   */
  function Settle(levels: seq<Level>, current: Option<LevelId>, exp: int): (r: (int, nat))
    requires levels != []
    ensures StartIndex(levels, current) <= r.1 < |levels|
    ensures r.1 < |levels| - 1 ==> r.0 < levels[r.1].requiredExp
    ensures r.1 == |levels| - 1 ==> r.0 <= levels[r.1].requiredExp
    ensures forall j :: StartIndex(levels, current) <= j < r.1 ==>
              exp - SumRequired(levels, StartIndex(levels, current), j) >= levels[j].requiredExp
    ensures exp >= 0 && levels[|levels| - 1].requiredExp >= 0 ==> r.0 >= 0
  {
    var c := Climb(levels, StartIndex(levels, current), exp);
    if c.1 == |levels| - 1 then (Min(c.0, levels[c.1].requiredExp), c.1) else c
  }

  /**
   * Conservation: the experience before the call plus the gain equals the experience after
   * the loop plus the thresholds of every level passed through; only at the last level can
   * the clamp discard points, and it discards only the excess over the last threshold.
   */
  lemma {:induction false} SettleConserves(levels: seq<Level>, current: Option<LevelId>, exp: int)
    requires levels != []
    ensures var start, r := StartIndex(levels, current), Settle(levels, current, exp);
      && (r.1 < |levels| - 1 ==> exp == r.0 + SumRequired(levels, start, r.1))
      && (r.1 == |levels| - 1 ==>
            r.0 == Min(exp - SumRequired(levels, start, r.1), levels[r.1].requiredExp))
  {
    var start := StartIndex(levels, current);
    var c := Climb(levels, start, exp);
    assert exp == c.0 + SumRequired(levels, start, c.1);
    if c.1 == |levels| - 1 {
      assert Settle(levels, current, exp) == (Min(c.0, levels[c.1].requiredExp), c.1);
    } else {
      assert Settle(levels, current, exp) == c;
    }
  }

  /** Gaining more experience never ends at a lower level. */
  lemma {:induction false} ClimbMonotone(levels: seq<Level>, k: nat, exp1: int, exp2: int)
    requires k < |levels|
    requires exp1 <= exp2
    ensures Climb(levels, k, exp1).1 <= Climb(levels, k, exp2).1
    decreases |levels| - k
  {
    if k < |levels| - 1 && exp1 >= levels[k].requiredExp {
      ClimbMonotone(levels, k + 1, exp1 - levels[k].requiredExp, exp2 - levels[k].requiredExp);
    }
  }

  /** A user already settled at level index `k` stays there when the loop runs again with the same points. */
  lemma {:induction false} ClimbSettled(levels: seq<Level>, k: nat, exp: int)
    requires k < |levels|
    requires k < |levels| - 1 ==> exp < levels[k].requiredExp
    ensures Climb(levels, k, exp) == (exp, k)
  {
  }

  /**
   * Settling is idempotent: applying `addExp` with zero gain to the state it produced
   * (level id of the final index, remaining experience) changes nothing.
   */
  lemma {:induction false} SettleIdempotent(levels: seq<Level>, current: Option<LevelId>, exp: int)
    requires levels != []
    requires DistinctLevelIds(levels)
    ensures var r := Settle(levels, current, exp);
      Settle(levels, Some(levels[r.1].id), r.0) == r
  {
    var r := Settle(levels, current, exp);
    var k := StartIndex(levels, Some(levels[r.1].id));
    assert levels[k].id == levels[r.1].id;
    assert k == r.1;
    ClimbSettled(levels, r.1, r.0);
  }
}
