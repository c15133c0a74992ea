/** What one accrual does to depositors and to the admin. */
module AccrualLaws {
  import opened Types
  import opened FixedPoint
  import opened Vaults

  /** Accrual only moves bTokens from the depositors to the admin. The depositors' exact
      value is kept precisely when the rate did not fall (or nothing was deposited), and
      a funded vault is never emptied by fees. */
  lemma AccrualKeepsValue(v: Vault, mode: FeeMode, newRate: Rate, now: Timestamp)
    requires v.bRate < newRate ==> v.ClockFits(mode, now)
    ensures var w := v.Accrued(mode, newRate, now);
            && w.totalBTokens + w.accruedFees == v.totalBTokens + v.accruedFees
            && w.totalBTokens <= v.totalBTokens
            && (v.totalBTokens * v.bRate <= w.totalBTokens * newRate <==> v.bRate <= newRate || v.totalBTokens == 0)
            && (w.totalBTokens == 0 <==> v.totalBTokens == 0)
  {
    if v.bRate < newRate {
      KeptValue(v.totalBTokens, v.AdminTake(mode, newRate, now), v.bRate, newRate);
    } else if newRate < v.bRate && v.totalBTokens > 0 {
      MulLe(newRate + 1, v.bRate, v.totalBTokens);
    }
  }

  lemma KeptValue(b: nat, taken: nat, o: int, n: int)
    requires 0 < o < n && taken * n <= b * (n - o)
    ensures b * o <= (b - taken) * n
    ensures 0 < b ==> taken < b
  {
    Distribute(b - taken, taken, n);
    Distribute(n - o, o, b);
    if 0 < b {
      MulLe(1, b, o);
      CancelLt(0, b - taken, n);
    }
  }

  /** Accruing again at the same rate and time changes nothing, under either mode. */
  lemma AccrualIsIdempotent(v: Vault, mode: FeeMode, newRate: Rate, now: Timestamp, mode': FeeMode)
    requires v.bRate < newRate ==> v.ClockFits(mode, now)
    ensures var w := v.Accrued(mode, newRate, now);
            w.AccrualFits(mode', newRate, now) && w.Accrued(mode', newRate, now) == w
  {
  }

  /** There is no high-water mark: a fall and a recovery to the same rate costs these
      depositors a twentieth of their bTokens at a take rate of a tenth. */
  lemma RecoveryIsChargedAgain()
    ensures var mode := FeeMode(false, SCALAR_7 / 10);
            var v := Vault("asset", 2 * SCALAR_12, 0, 1_000_000, 1_000_000, 0);
            var w := v.Accrued(mode, SCALAR_12, 0).Accrued(mode, 2 * SCALAR_12, 0);
            w.bRate == v.bRate && w.totalBTokens == 950_000
  {
    var low := Vault("asset", SCALAR_12, 0, 1_000_000, 1_000_000, 0);
    assert low.RateTake(SCALAR_7 / 10, 2 * SCALAR_12) == 50_000;
  }

  /** Exactly when a fall and a recovery, to any rate, cost the depositors nothing: under a cap
      when the recovery's excess over the target is worth less than one bToken, and under a
      take rate when the admin's cut of its interest is. */
  lemma RecoveryIsFreeExactlyWhenFeeRoundsAway(
    v: Vault, mode: FeeMode, low: Rate, t1: Timestamp, newRate: Rate, t2: Timestamp)
    requires low <= v.bRate && low < newRate && (mode.isAprCapped ==> t1 <= t2)
    ensures var u := v.Accrued(mode, low, t1);
            u.Accrued(mode, newRate, t2).totalBTokens == v.totalBTokens <==>
              if mode.isAprCapped then v.totalBTokens * (newRate - u.TargetBRate(mode.value, t2 - t1)) < newRate
              else u.CutDown(mode.value, newRate) * SCALAR_12 < newRate
  {
    var u := v.Accrued(mode, low, t1);
    if mode.isAprCapped {
      var target := u.TargetBRate(mode.value, t2 - t1);
      if target < newRate {
        FloorAdjoint(1, v.totalBTokens * (newRate - target), newRate);
      } else {
        MulLe(newRate - target, 0, v.totalBTokens);
      }
    } else {
      FloorAdjoint(1, u.CutDown(mode.value, newRate) * SCALAR_12, newRate);
    }
  }

  /** The APR cap, two-sided: below the target the admin takes nothing; above it the
      depositors keep the target growth, to within one bToken. */
  lemma CapTwoSided(v: Vault, mode: FeeMode, newRate: Rate, now: Timestamp)
    requires mode.isAprCapped && v.lastUpdate <= now && v.bRate < newRate
    ensures var w := v.Accrued(mode, newRate, now);
            var target := v.TargetBRate(mode.value, now - v.lastUpdate);
            if target >= newRate then w.totalBTokens == v.totalBTokens
            else v.totalBTokens * target <= w.totalBTokens * newRate < v.totalBTokens * target + newRate
  {
    var target := v.TargetBRate(mode.value, now - v.lastUpdate);
    if target < newRate {
      var take := v.CapTake(mode.value, newRate, now - v.lastUpdate);
      assert v.totalBTokens * (newRate - target) == v.totalBTokens * newRate - v.totalBTokens * target;
      assert (v.totalBTokens - take) * newRate == v.totalBTokens * newRate - take * newRate;
    }
  }

  lemma GrowthMonotone(cap: FeeValue, elapsed: nat, cap': FeeValue, elapsed': nat)
    requires cap <= cap' && elapsed <= elapsed'
    ensures TargetGrowthRate(cap, elapsed) <= TargetGrowthRate(cap', elapsed')
  {
    MulLe(100_000 * cap, 100_000 * cap', elapsed);
    MulLe(elapsed, elapsed', 100_000 * cap');
    FloorMonotone(100_000 * cap * elapsed, 100_000 * cap' * elapsed', SECONDS_PER_YEAR);
  }

  lemma TargetMonotone(v: Vault, cap: FeeValue, elapsed: nat, cap': FeeValue, elapsed': nat)
    requires cap <= cap' && elapsed <= elapsed'
    ensures v.TargetBRate(cap, elapsed) <= v.TargetBRate(cap', elapsed')
  {
    GrowthMonotone(cap, elapsed, cap', elapsed');
    var g, g' := TargetGrowthRate(cap, elapsed), TargetGrowthRate(cap', elapsed');
    MulLe(g, g', v.bRate);
    CeilAdjoint(v.TargetBRate(cap', elapsed'), v.bRate * g, SCALAR_12);
  }

  /** A looser cap, or a longer wait for the same rate, never costs the depositors more. */
  lemma CapTakeAntitone(v: Vault, newRate: Rate, cap: FeeValue, elapsed: nat, cap': FeeValue, elapsed': nat)
    requires v.bRate < newRate && cap <= cap' && elapsed <= elapsed'
    ensures v.CapTake(cap', newRate, elapsed') <= v.CapTake(cap, newRate, elapsed)
  {
    TargetMonotone(v, cap, elapsed, cap', elapsed');
    var target, target' := v.TargetBRate(cap, elapsed), v.TargetBRate(cap', elapsed');
    if target' < newRate {
      MulLe(newRate - target', newRate - target, v.totalBTokens);
      FloorMonotone(v.totalBTokens * (newRate - target'), v.totalBTokens * (newRate - target), newRate);
    }
  }
}
