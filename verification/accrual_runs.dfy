/** What accruals do over runs of any length. A run is the sequence of states that a vault
    goes through when it only accrues, under one fee mode, while neither the pool's rate
    nor the clock goes backwards. */
module AccrualRuns {
  import opened Types
  import opened FixedPoint
  import opened Vaults
  import AccrualLaws

  predicate Accrues(v: Vault, mode: FeeMode, w: Vault) {
    && v.bRate <= w.bRate && v.lastUpdate <= w.lastUpdate
    && w == v.Accrued(mode, w.bRate, w.lastUpdate)
  }

  predicate IsRun(vs: seq<Vault>, mode: FeeMode) {
    && vs != []
    && forall i :: 0 <= i < |vs| - 1 ==> Accrues(vs[i], mode, vs[i + 1])
  }

  function Last(vs: seq<Vault>): Vault
    requires vs != []
  {
    vs[|vs| - 1]
  }

  datatype Tick = Tick(rate: Rate, now: Timestamp)

  predicate Follows(tick: Tick, next: Tick) {
    tick.rate <= next.rate && tick.now <= next.now
  }

  // What the vault sees next is never lower and never earlier.
  predicate Rising(first: Tick, ticks: seq<Tick>)
    decreases |ticks|
  {
    ticks == [] || (Follows(first, ticks[0]) && Rising(ticks[0], ticks[1..]))
  }

  /** Every vault has a run along any observations of a pool whose rate does not fall. */
  function Accruals(v: Vault, mode: FeeMode, ticks: seq<Tick>): (vs: seq<Vault>)
    requires Rising(Tick(v.bRate, v.lastUpdate), ticks)
    ensures IsRun(vs, mode) && |vs| == |ticks| + 1 && vs[0] == v
    ensures forall i :: 0 <= i < |ticks| ==> Tick(vs[i + 1].bRate, vs[i + 1].lastUpdate) == ticks[i]
    decreases |ticks|
  {
    if ticks == [] then [v]
    else
      var w := v.Accrued(mode, ticks[0].rate, ticks[0].now);
      assert Accrues(v, mode, w);
      var rest := Accruals(w, mode, ticks[1..]);
      RunExtends(v, rest, mode);
      [v] + rest
  }

  lemma RunExtends(v: Vault, vs: seq<Vault>, mode: FeeMode)
    requires IsRun(vs, mode) && Accrues(v, mode, vs[0])
    ensures IsRun([v] + vs, mode)
  {
    var all := [v] + vs;
    forall i | 0 <= i < |all| - 1
      ensures Accrues(all[i], mode, all[i + 1])
    {
      if i > 0 {
        assert all[i] == vs[i - 1] && all[i + 1] == vs[i - 1 + 1];
      }
    }
  }

  // ---- The take rate ----

  function Fee(v: Vault, w: Vault): int {
    w.accruedFees - v.accruedFees
  }

  // What the three floors of a fee can lose, in bTokens: less than three at rates of at
  // least 1, and more the further a bToken is below par.
  function Loss(rate: Rate): (loss: nat)
    ensures 3 <= loss && (SCALAR_12 <= rate ==> loss == 3)
  {
    CeilAdjoint(0, SCALAR_12, rate);
    CeilAdjoint(1, SCALAR_12, rate);
    1 + 2 * CeilDiv(SCALAR_12, rate)
  }

  // What a take-rate accrual does to the balances: the exact fee, and at most `loss` less.
  predicate RateStep(v: Vault, w: Vault, rate: FeeValue, loss: nat) {
    && v.bRate <= w.bRate
    && w.totalBTokens <= v.totalBTokens
    && w.totalBTokens + w.accruedFees == v.totalBTokens + v.accruedFees
    && Fee(v, w) * w.bRate * SCALAR_7 <= v.totalBTokens * (w.bRate - v.bRate) * rate
    && v.totalBTokens * (w.bRate - v.bRate) * rate < (Fee(v, w) + loss) * w.bRate * SCALAR_7
  }

  predicate RateRun(vs: seq<Vault>, rate: FeeValue, loss: nat) {
    vs != [] && forall i :: 0 <= i < |vs| - 1 ==> RateStep(vs[i], vs[i + 1], rate, loss)
  }

  lemma LossCovers(exact: int, take: nat, newRate: int, rate: FeeValue, parts: nat)
    requires SCALAR_12 <= parts * newRate
    requires exact - take * newRate * SCALAR_7 < rate * SCALAR_12 + SCALAR_7 * (SCALAR_12 + newRate)
    ensures exact < (take + (1 + 2 * parts)) * newRate * SCALAR_7
  {
    Distribute(take, 1 + 2 * parts, newRate);
    Distribute(1, 2 * parts, newRate);
    assert 2 * parts * newRate == 2 * (parts * newRate);
  }

  lemma AccrualIsRateStep(v: Vault, mode: FeeMode, w: Vault, first: Rate)
    requires !mode.isAprCapped && Accrues(v, mode, w) && first <= v.bRate
    ensures RateStep(v, w, mode.value, Loss(first))
  {
    if v.bRate < w.bRate {
      var parts := CeilDiv(SCALAR_12, first);
      CeilAdjoint(0, SCALAR_12, first);
      MulLe(first, w.bRate, parts);
      LossCovers(v.totalBTokens * (w.bRate - v.bRate) * mode.value, v.RateTake(mode.value, w.bRate),
                 w.bRate, mode.value, parts);
    } else {
      MulLe(1, Loss(first), w.bRate);
    }
  }

  lemma {:induction false} RunAdvances(vs: seq<Vault>, mode: FeeMode, i: nat)
    requires IsRun(vs, mode) && i < |vs|
    ensures vs[0].bRate <= vs[i].bRate && vs[0].lastUpdate <= vs[i].lastUpdate
  {
    if i > 0 {
      assert Accrues(vs[i - 1], mode, vs[i - 1 + 1]);
      RunAdvances(vs, mode, i - 1);
    }
  }

  lemma IsRateRun(vs: seq<Vault>, mode: FeeMode)
    requires !mode.isAprCapped && IsRun(vs, mode)
    ensures RateRun(vs, mode.value, Loss(vs[0].bRate))
  {
    forall i | 0 <= i < |vs| - 1
      ensures RateStep(vs[i], vs[i + 1], mode.value, Loss(vs[0].bRate))
    {
      assert Accrues(vs[i], mode, vs[i + 1]);
      RunAdvances(vs, mode, i);
      AccrualIsRateStep(vs[i], mode, vs[i + 1], vs[0].bRate);
    }
  }

  // The fees of the first k steps, each at the rate at which it was taken (12 more decimals).
  function FeesWorth(vs: seq<Vault>, k: nat): int
    requires k < |vs|
  {
    if k == 0 then 0 else FeesWorth(vs, k - 1) + Fee(vs[k - 1], vs[k]) * vs[k].bRate
  }

  lemma {:induction false} RunBalances(vs: seq<Vault>, rate: FeeValue, loss: nat, k: nat)
    requires RateRun(vs, rate, loss) && k < |vs|
    ensures vs[0].bRate <= vs[k].bRate
    ensures vs[k].totalBTokens <= vs[0].totalBTokens
    ensures vs[k].totalBTokens + vs[k].accruedFees == vs[0].totalBTokens + vs[0].accruedFees
  {
    if k > 0 {
      RunBalances(vs, rate, loss, k - 1);
      assert RateStep(vs[k - 1], vs[k - 1 + 1], rate, loss);
    }
  }

  lemma {:induction false} WorthIsPartOfInterest(vs: seq<Vault>, rate: FeeValue, loss: nat, k: nat)
    requires RateRun(vs, rate, loss) && k < |vs|
    ensures FeesWorth(vs, k) * SCALAR_7 <= vs[0].totalBTokens * (vs[k].bRate - vs[0].bRate) * rate
  {
    if k > 0 {
      WorthIsPartOfInterest(vs, rate, loss, k - 1);
      RunBalances(vs, rate, loss, k - 1);
      assert RateStep(vs[k - 1], vs[k - 1 + 1], rate, loss);
      WorthStep(vs[0].totalBTokens, vs[k - 1].totalBTokens, vs[0].bRate, vs[k - 1].bRate, vs[k].bRate, rate,
                FeesWorth(vs, k - 1), Fee(vs[k - 1], vs[k]), SCALAR_7);
    }
  }

  lemma WorthStep(b: int, left: int, o: int, m: int, n: int, rate: nat, worth: int, fee: int, k: int)
    requires left <= b && o <= m <= n
    requires worth * k <= b * (m - o) * rate
    requires fee * n * k <= left * (n - m) * rate
    ensures (worth + fee * n) * k <= b * (n - o) * rate
  {
    MulLe(left, b, n - m);
    MulLe(left * (n - m), b * (n - m), rate);
    SumOfSpans(b, o, m, n, rate);
    Distribute(worth, fee * n, k);
  }

  lemma SumOfSpans(b: int, o: int, m: int, n: int, w: int)
    ensures b * (m - o) * w + b * (n - m) * w == b * (n - o) * w
  {
    Distribute(m - o, n - m, b * w);
  }

  /** However often a take-rate vault accrues, all its fees together are worth at most
      the take rate's part of the interest on the bTokens it started with. */
  lemma FeesAreBoundedByInterest(vs: seq<Vault>, mode: FeeMode)
    requires !mode.isAprCapped && IsRun(vs, mode)
    ensures FeesWorth(vs, |vs| - 1) * SCALAR_7
            <= vs[0].totalBTokens * (Last(vs).bRate - vs[0].bRate) * mode.value
  {
    IsRateRun(vs, mode);
    WorthIsPartOfInterest(vs, mode.value, Loss(vs[0].bRate), |vs| - 1);
  }

  /** One more step of a stepwise fee: charging the reduced balance on the remaining
      interest still reaches the one-step fee, because fees compound against the admin
      by less than the take rate leaves on the table. */
  lemma CompoundStep(b: int, o: int, m: int, n: int, w: nat, k: nat, taken: nat, slack: nat, take: int, loss: nat)
    requires 0 < o <= m <= n && w <= k
    requires b * (m - o) * w <= (taken + slack) * m * k
    requires (b - taken) * (n - m) * w < (take + loss) * n * k
    ensures b * (n - o) * w < (taken + take + slack + loss) * n * k
  {
    var p, x, y := (taken + slack) * k, b * (n - m) * w, taken * w * (n - m);
    assert y <= p * (n - m) by {
      MulLe(w, k, taken);
      MulLe(taken, taken + slack, k);
      MulLe(taken * w, p, n - m);
    }
    assert (b - taken) * (n - m) * w == x - y by { Distribute(b - taken, taken, (n - m) * w); }
    assert p * n == p * m + p * (n - m) by { Distribute(m, n - m, p); }
    SumOfSpans(b, o, m, n, w);
    ScaledSum(0, taken + slack, m, k);
    ScaledSum(take + loss, taken + slack, n, k);
  }

  lemma ScaledSum(x: int, y: int, n: int, k: int)
    ensures (x + y) * n * k == x * n * k + y * k * n
  {
    Distribute(x, y, n * k);
  }

  lemma {:induction false} FeesReachExact(vs: seq<Vault>, rate: FeeValue, loss: nat, k: nat)
    requires RateRun(vs, rate, loss) && k < |vs|
    ensures var exact := vs[0].totalBTokens * (vs[k].bRate - vs[0].bRate) * rate;
            var reached := (Fee(vs[0], vs[k]) + loss * k) * vs[k].bRate * SCALAR_7;
            exact <= reached && (k > 0 ==> exact < reached)
  {
    if k > 0 {
      FeesReachExact(vs, rate, loss, k - 1);
      RunBalances(vs, rate, loss, k - 1);
      assert RateStep(vs[k - 1], vs[k - 1 + 1], rate, loss);
      CompoundSteps(vs[0].totalBTokens, vs[0].bRate, vs[k - 1].bRate, vs[k].bRate, rate, SCALAR_7,
                    Fee(vs[0], vs[k - 1]), Fee(vs[k - 1], vs[k]), loss, k);
    }
  }

  lemma CompoundSteps(b: int, o: int, m: int, n: int, w: nat, k: nat, taken: nat, take: int, loss: nat, steps: nat)
    requires 0 < o <= m <= n && w <= k && 0 < steps
    requires b * (m - o) * w <= (taken + loss * (steps - 1)) * m * k
    requires (b - taken) * (n - m) * w < (take + loss) * n * k
    ensures b * (n - o) * w < (taken + take + loss * steps) * n * k
  {
    var slack := loss * (steps - 1);
    assert 0 <= slack by { MulLe(0, steps - 1, loss); }
    assert loss * steps == slack + loss by { Distribute(steps - 1, 1, loss); }
    CompoundStep(b, o, m, n, w, k, taken, slack, take, loss);
  }

  /** Stepwise accrual reaches the exact single-step fee, short of `Loss` bTokens a step. */
  lemma StepwiseFeeReachesExact(vs: seq<Vault>, mode: FeeMode)
    requires !mode.isAprCapped && IsRun(vs, mode) && |vs| > 1
    ensures vs[0].totalBTokens * (Last(vs).bRate - vs[0].bRate) * mode.value
            < (Fee(vs[0], Last(vs)) + Loss(vs[0].bRate) * (|vs| - 1)) * Last(vs).bRate * SCALAR_7
  {
    IsRateRun(vs, mode);
    FeesReachExact(vs, mode.value, Loss(vs[0].bRate), |vs| - 1);
  }

  // The vault that accrues once, at the end of the run.
  function AtOnce(vs: seq<Vault>, mode: FeeMode): Vault
    requires IsRun(vs, mode) && vs[0].bRate <= Last(vs).bRate && vs[0].lastUpdate <= Last(vs).lastUpdate
  {
    vs[0].Accrued(mode, Last(vs).bRate, Last(vs).lastUpdate)
  }

  /** Accruing in k steps instead of once costs the admin at most Loss * k - 1 bTokens: for
      two steps, from a rate of at least 1, five. */
  lemma StepwiseFeeAtLeastSingle(vs: seq<Vault>, mode: FeeMode)
    requires !mode.isAprCapped && IsRun(vs, mode) && |vs| > 1
    ensures vs[0].bRate <= Last(vs).bRate && vs[0].lastUpdate <= Last(vs).lastUpdate
    ensures Fee(vs[0], AtOnce(vs, mode)) <= Fee(vs[0], Last(vs)) + Loss(vs[0].bRate) * (|vs| - 1) - 1
  {
    RunAdvances(vs, mode, |vs| - 1);
    StepwiseFeeReachesExact(vs, mode);
    AccrualIsRateStep(vs[0], mode, AtOnce(vs, mode), vs[0].bRate);
    SmallerFee(Fee(vs[0], AtOnce(vs, mode)), Fee(vs[0], Last(vs)) + Loss(vs[0].bRate) * (|vs| - 1),
               vs[0].totalBTokens * (Last(vs).bRate - vs[0].bRate) * mode.value, Last(vs).bRate, SCALAR_7);
  }

  lemma SmallerFee(x: int, y: int, exact: int, n: int, k: int)
    requires 0 < n && 0 < k
    requires x * n * k <= exact < y * n * k
    ensures x < y
  {
    CancelLt(x * n, y * n, k);
    CancelLt(x, y, n);
  }

  lemma {:induction false} FeesAtFirstRate(vs: seq<Vault>, rate: FeeValue, loss: nat, k: nat)
    requires RateRun(vs, rate, loss) && k < |vs|
    ensures Fee(vs[0], vs[k]) * vs[0].bRate <= FeesWorth(vs, k)
  {
    if k > 0 {
      FeesAtFirstRate(vs, rate, loss, k - 1);
      RunBalances(vs, rate, loss, k - 1);
      assert RateStep(vs[k - 1], vs[k - 1 + 1], rate, loss);
      MulLe(vs[0].bRate, vs[k].bRate, Fee(vs[k - 1], vs[k]));
      Distribute(Fee(vs[0], vs[k - 1]), Fee(vs[k - 1], vs[k]), vs[0].bRate);
    }
  }

  /** Nor does accruing often cost the depositors much: the stepwise fee exceeds the fee of a
      single accrual, give or take `Loss` bTokens, by at most the growth of the rate. */
  lemma StepwiseFeeAtMostGrowthOfSingle(vs: seq<Vault>, mode: FeeMode)
    requires !mode.isAprCapped && IsRun(vs, mode)
    ensures vs[0].bRate <= Last(vs).bRate && vs[0].lastUpdate <= Last(vs).lastUpdate
    ensures Fee(vs[0], Last(vs)) * vs[0].bRate
            < (Fee(vs[0], AtOnce(vs, mode)) + Loss(vs[0].bRate)) * Last(vs).bRate
  {
    RunAdvances(vs, mode, |vs| - 1);
    IsRateRun(vs, mode);
    FeesAtFirstRate(vs, mode.value, Loss(vs[0].bRate), |vs| - 1);
    FeesAreBoundedByInterest(vs, mode);
    AccrualIsRateStep(vs[0], mode, AtOnce(vs, mode), vs[0].bRate);
    CancelLt(FeesWorth(vs, |vs| - 1), (Fee(vs[0], AtOnce(vs, mode)) + Loss(vs[0].bRate)) * Last(vs).bRate, SCALAR_7);
  }

  // ---- Growth, compounded ----

  // What the depositors own, in underlying tokens (12 more decimals).
  function Value(v: Vault): int {
    v.totalBTokens * v.bRate
  }

  function Product(factors: seq<nat>, k: nat): (product: int)
    requires k <= |factors|
  {
    if k == 0 then 1 else Product(factors, k - 1) * factors[k - 1]
  }

  function Power12(k: nat): (p: int)
    ensures 0 < p
  {
    if k == 0 then 1 else Power12(k - 1) * SCALAR_12
  }

  lemma {:induction false} ProductNonNegative(factors: seq<nat>, k: nat)
    requires k <= |factors|
    ensures 0 <= Product(factors, k)
  {
    if k > 0 {
      ProductNonNegative(factors, k - 1);
      MulLe(0, Product(factors, k - 1), factors[k - 1]);
    }
  }

  /** Growth of at least nums[i] / dens[i] in each step is growth of at least the product over the run. */
  lemma {:induction false} GrowthChain(vs: seq<Vault>, nums: seq<nat>, dens: seq<nat>, k: nat)
    requires |vs| == |nums| + 1 == |dens| + 1 && k <= |nums|
    requires forall i :: 0 <= i < |nums| ==> Value(vs[i]) * nums[i] <= Value(vs[i + 1]) * dens[i]
    ensures Value(vs[0]) * Product(nums, k) <= Value(vs[k]) * Product(dens, k)
  {
    if k > 0 {
      GrowthChain(vs, nums, dens, k - 1);
      ProductNonNegative(dens, k - 1);
      assert Value(vs[k - 1]) * nums[k - 1] <= Value(vs[k - 1 + 1]) * dens[k - 1];
      ChainGrowth(Value(vs[0]), Product(nums, k - 1), nums[k - 1], Value(vs[k - 1]), Product(dens, k - 1),
                  Value(vs[k]), dens[k - 1]);
    }
  }

  lemma ChainGrowth(start: int, product: int, growth: int, mid: int, p: int, end: int, d: int)
    requires 0 <= growth && 0 <= p
    requires start * product <= mid * p
    requires mid * growth <= end * d
    ensures start * (product * growth) <= end * (p * d)
  {
    MulLe(start * product, mid * p, growth);
    MulLe(mid * growth, end * d, p);
    assert start * (product * growth) == start * product * growth;
    assert mid * p * growth == mid * growth * p;
    assert end * (p * d) == end * d * p;
  }

  // ---- The depositors' part under a take rate ----

  // One step's growth as the depositors keep it: (10^7 - value) / 10^7 of the interest.
  function KeptNum(v: Vault, w: Vault, rate: FeeValue): (num: nat)
    requires v.bRate <= w.bRate
  {
    MulLe(0, w.bRate - v.bRate, SCALAR_7 - rate);
    v.bRate * SCALAR_7 + (w.bRate - v.bRate) * (SCALAR_7 - rate)
  }

  function KeptDen(v: Vault): nat {
    v.bRate * SCALAR_7
  }

  /** One take-rate accrual leaves the depositors their part of the interest. */
  lemma DepositorsKeepTheirPart(v: Vault, mode: FeeMode, w: Vault)
    requires !mode.isAprCapped && Accrues(v, mode, w)
    ensures v.totalBTokens * KeptNum(v, w, mode.value) <= Value(w) * SCALAR_7
  {
    AccrualIsRateStep(v, mode, w, v.bRate);
    KeptPart(v.totalBTokens, Fee(v, w), v.bRate, w.bRate, mode.value, SCALAR_7);
  }

  lemma KeptPart(b: int, taken: int, o: int, n: int, rate: int, k: int)
    requires taken * n * k <= b * (n - o) * rate
    ensures b * (o * k + (n - o) * (k - rate)) <= (b - taken) * n * k
  {
    assert o * k + (n - o) * (k - rate) == n * k - (n - o) * rate;
    assert b * (n * k - (n - o) * rate) == b * n * k - b * (n - o) * rate;
    Distribute(b - taken, taken, n * k);
  }

  lemma Rescale(b: int, kept: int, value: int, k: int, o: nat)
    requires b * kept <= value * k
    ensures b * o * kept <= value * (o * k)
  {
    MulLe(b * kept, value * k, o);
    assert b * kept * o == b * o * kept;
    assert value * k * o == value * (o * k);
  }

  /** Over a take-rate run, the depositors' value compounds at their part of each step's growth. */
  lemma DepositorsCompound(vs: seq<Vault>, mode: FeeMode, nums: seq<nat>, dens: seq<nat>)
    requires !mode.isAprCapped && IsRun(vs, mode) && |vs| == |nums| + 1 == |dens| + 1
    requires forall i :: 0 <= i < |nums| ==>
               nums[i] == KeptNum(vs[i], vs[i + 1], mode.value) && dens[i] == KeptDen(vs[i])
    ensures Value(vs[0]) * Product(nums, |nums|) <= Value(Last(vs)) * Product(dens, |dens|)
  {
    forall i | 0 <= i < |nums|
      ensures Value(vs[i]) * nums[i] <= Value(vs[i + 1]) * dens[i]
    {
      DepositorsKeepTheirPart(vs[i], mode, vs[i + 1]);
      Rescale(vs[i].totalBTokens, nums[i], Value(vs[i + 1]), SCALAR_7, vs[i].bRate);
    }
    GrowthChain(vs, nums, dens, |nums|);
  }

  // ---- The APR cap ----

  // The code's truncated growth rate for the time between two accruals.
  function Growth(v: Vault, w: Vault, cap: FeeValue): (growth: nat)
    requires v.lastUpdate <= w.lastUpdate
    ensures SCALAR_12 <= growth
  {
    TargetGrowthRate(cap, w.lastUpdate - v.lastUpdate)
  }

  // The accrual ends above its target rate.
  predicate Beats(v: Vault, w: Vault, cap: FeeValue)
    requires v.lastUpdate <= w.lastUpdate
  {
    v.TargetBRate(cap, w.lastUpdate - v.lastUpdate) < w.bRate
  }

  /** One capped accrual leaves the depositors at least the capped growth, or exactly the
      rate's growth where that is less. */
  lemma CapFloor(v: Vault, mode: FeeMode, w: Vault)
    requires mode.isAprCapped && Accrues(v, mode, w)
    ensures if Beats(v, w, mode.value) then Value(v) * Growth(v, w, mode.value) <= Value(w) * SCALAR_12
            else w.totalBTokens == v.totalBTokens
  {
    if Beats(v, w, mode.value) {
      AccrualLaws.CapTwoSided(v, mode, w.bRate, w.lastUpdate);
      BelowTarget(v.totalBTokens, v.bRate, Growth(v, w, mode.value),
                  v.TargetBRate(mode.value, w.lastUpdate - v.lastUpdate), Value(w), SCALAR_12);
    }
  }

  /** And, to within the rounding, no more than the capped growth. */
  lemma CapRoof(v: Vault, mode: FeeMode, w: Vault)
    requires mode.isAprCapped && Accrues(v, mode, w)
    ensures w.totalBTokens <= v.totalBTokens
    ensures Value(w) * SCALAR_12 <= Value(v) * Growth(v, w, mode.value) + (v.totalBTokens + w.bRate) * SCALAR_12
  {
    var growth, target := Growth(v, w, mode.value), v.TargetBRate(mode.value, w.lastUpdate - v.lastUpdate);
    assert Value(w) <= v.totalBTokens * target + w.bRate by {
      if Beats(v, w, mode.value) {
        AccrualLaws.CapTwoSided(v, mode, w.bRate, w.lastUpdate);
      } else {
        CapFloor(v, mode, w);
        MulLe(w.bRate, target, v.totalBTokens);
      }
    }
    AboveTarget(v.totalBTokens, v.bRate, growth, target, Value(w), w.bRate, SCALAR_12);
  }

  lemma BelowTarget(b: nat, o: int, growth: int, target: int, value: int, d: nat)
    requires o * growth <= target * d && b * target <= value
    ensures b * o * growth <= value * d
  {
    MulLe(o * growth, target * d, b);
    MulLe(b * target, value, d);
    assert b * o * growth == o * growth * b;
    assert target * d * b == b * target * d;
  }

  lemma AboveTarget(b: nat, o: int, growth: int, target: int, value: int, n: int, d: nat)
    requires (target - 1) * d < o * growth && value <= b * target + n
    ensures value * d <= b * o * growth + (b + n) * d
  {
    MulLe((target - 1) * d, o * growth, b);
    MulLe(value, b * target + n, d);
    assert (target - 1) * d * b == b * target * d - b * d;
    assert o * growth * b == b * o * growth;
    Distribute(b * target, n, d);
    Distribute(b, n, d);
  }

  /** Over any capped run, the depositors' value compounds at least at the lesser, step by
      step, of the capped growth and the rate's own growth. */
  lemma CapKeepsLesserGrowth(vs: seq<Vault>, mode: FeeMode, nums: seq<nat>, dens: seq<nat>)
    requires mode.isAprCapped && IsRun(vs, mode) && |vs| == |nums| + 1 == |dens| + 1
    requires forall i :: 0 <= i < |nums| ==>
      if Beats(vs[i], vs[i + 1], mode.value) then
        nums[i] == Growth(vs[i], vs[i + 1], mode.value) && dens[i] == SCALAR_12
      else nums[i] == vs[i + 1].bRate && dens[i] == vs[i].bRate
    ensures Value(vs[0]) * Product(nums, |nums|) <= Value(Last(vs)) * Product(dens, |dens|)
  {
    forall i | 0 <= i < |nums|
      ensures Value(vs[i]) * nums[i] <= Value(vs[i + 1]) * dens[i]
    {
      LesserStep(vs[i], mode, vs[i + 1], nums[i], dens[i]);
    }
    GrowthChain(vs, nums, dens, |nums|);
  }

  lemma LesserStep(v: Vault, mode: FeeMode, w: Vault, num: nat, den: nat)
    requires mode.isAprCapped && Accrues(v, mode, w)
    requires if Beats(v, w, mode.value) then num == Growth(v, w, mode.value) && den == SCALAR_12
             else num == w.bRate && den == v.bRate
    ensures Value(v) * num <= Value(w) * den
  {
    CapFloor(v, mode, w);
    Swap(v.totalBTokens, v.bRate, w.bRate);
  }

  // The capped growth of each step of a run.
  predicate Growths(vs: seq<Vault>, mode: FeeMode, growths: seq<nat>) {
    && mode.isAprCapped && IsRun(vs, mode) && |vs| == |growths| + 1
    && forall i :: 0 <= i < |growths| ==> growths[i] == Growth(vs[i], vs[i + 1], mode.value)
  }

  predicate BeatsCap(vs: seq<Vault>, mode: FeeMode)
    requires IsRun(vs, mode)
  {
    forall i :: 0 <= i < |vs| - 1 ==> Beats(vs[i], vs[i + 1], mode.value)
  }

  lemma {:induction false} PowerIsProduct(dens: seq<nat>, k: nat)
    requires k <= |dens| && forall i :: 0 <= i < |dens| ==> dens[i] == SCALAR_12
    ensures Product(dens, k) == Power12(k)
  {
    if k > 0 {
      PowerIsProduct(dens, k - 1);
    }
  }

  /** Over a run that beats its cap at every step it compounds at the capped rate. */
  lemma CapCompounds(vs: seq<Vault>, mode: FeeMode, growths: seq<nat>)
    requires Growths(vs, mode, growths) && BeatsCap(vs, mode)
    ensures Value(vs[0]) * Product(growths, |growths|) <= Value(Last(vs)) * Power12(|growths|)
  {
    var dens: seq<nat> := seq(|growths|, _ => SCALAR_12);
    CapKeepsLesserGrowth(vs, mode, growths, dens);
    PowerIsProduct(dens, |dens|);
  }

  // The simple interest: the sum of the growth of each step, not compounded.
  function SimpleGrowth(growths: seq<nat>, k: nat): int
    requires k <= |growths|
  {
    if k == 0 then 0 else SimpleGrowth(growths, k - 1) + (growths[k - 1] - SCALAR_12)
  }

  /** Bernoulli's inequality for the growth rates of a run: compounding is never worse than
      simple interest. */
  lemma {:induction false} CompoundBeatsSimple(growths: seq<nat>, k: nat)
    requires k <= |growths| && forall i :: 0 <= i < |growths| ==> SCALAR_12 <= growths[i]
    ensures 0 <= SimpleGrowth(growths, k)
    ensures Power12(k) * (SCALAR_12 + SimpleGrowth(growths, k)) <= Product(growths, k) * SCALAR_12
  {
    if k > 0 {
      CompoundBeatsSimple(growths, k - 1);
      BernoulliStep(Power12(k - 1), SCALAR_12, SimpleGrowth(growths, k - 1), Product(growths, k - 1), growths[k - 1]);
    }
  }

  lemma BernoulliStep(p: int, d: int, sum: int, product: int, growth: int)
    requires 0 <= p && 0 <= d && 0 <= sum
    requires d <= growth && p * (d + sum) <= product * d
    ensures p * d * (d + sum + (growth - d)) <= product * growth * d
  {
    var left, right := d * (sum + growth), (d + sum) * growth;
    assert left <= right by {
      Distribute(d, sum, growth);
      Distribute(sum, growth, d);
      MulLe(d, growth, sum);
    }
    MulLe(left, right, p);
    MulLe(p * (d + sum), product * d, growth);
    Swap(d, sum + growth, p);
    Swap(d + sum, growth, p);
    Swap(product, d, growth);
  }

  /** There the depositors earn at least the simple, uncompounded capped APR of the whole run. */
  lemma CapEarnsSimpleInterest(vs: seq<Vault>, mode: FeeMode, growths: seq<nat>)
    requires Growths(vs, mode, growths) && BeatsCap(vs, mode)
    ensures Value(vs[0]) * (SCALAR_12 + SimpleGrowth(growths, |growths|)) <= Value(Last(vs)) * SCALAR_12
  {
    var k := |growths|;
    var start, end := Value(vs[0]), Value(Last(vs));
    assert start * Product(growths, k) <= end * Power12(k) by { CapCompounds(vs, mode, growths); }
    GrowthsAreAtLeastOne(vs, mode, growths);
    SimpleFollows(growths, start, end);
  }

  lemma GrowthsAreAtLeastOne(vs: seq<Vault>, mode: FeeMode, growths: seq<nat>)
    requires Growths(vs, mode, growths)
    ensures 0 <= Value(vs[0])
    ensures forall i :: 0 <= i < |growths| ==> SCALAR_12 <= growths[i]
  {
    MulLe(0, vs[0].totalBTokens, vs[0].bRate);
    forall i | 0 <= i < |growths|
      ensures SCALAR_12 <= growths[i]
    {
      assert Accrues(vs[i], mode, vs[i + 1]);
      assert growths[i] == Growth(vs[i], vs[i + 1], mode.value);
    }
  }

  lemma SimpleFollows(growths: seq<nat>, start: int, end: int)
    requires forall i :: 0 <= i < |growths| ==> SCALAR_12 <= growths[i]
    requires 0 <= start && start * Product(growths, |growths|) <= end * Power12(|growths|)
    ensures start * (SCALAR_12 + SimpleGrowth(growths, |growths|)) <= end * SCALAR_12
  {
    var k := |growths|;
    CompoundBeatsSimple(growths, k);
    CancelPower(start, SCALAR_12 + SimpleGrowth(growths, k), Product(growths, k), end, Power12(k), SCALAR_12);
  }

  lemma CancelPower(start: int, simple: int, product: int, end: int, p: int, d: int)
    requires 0 < p && 0 <= start && 0 <= d
    requires start * product <= end * p && p * simple <= product * d
    ensures start * simple <= end * d
  {
    MulLe(p * simple, product * d, start);
    MulLe(start * product, end * p, d);
    assert p * simple * start == start * simple * p;
    assert product * d * start == start * product * d;
    assert end * p * d == end * d * p;
    CancelLe(start * simple, end * d, p);
  }

  // What the cap lets through: the capped growth compounded, and per step the rounding of one
  // unit of rate on every bToken and of one bToken.
  function Ceiling(vs: seq<Vault>, growths: seq<nat>, k: nat): int
    requires k <= |growths| && |vs| == |growths| + 1
  {
    if k == 0 then Value(vs[0])
    else Ceiling(vs, growths, k - 1) * growths[k - 1] + (vs[0].totalBTokens + vs[k].bRate) * Power12(k)
  }

  lemma {:induction false} CapCeiling(vs: seq<Vault>, mode: FeeMode, growths: seq<nat>, k: nat)
    requires Growths(vs, mode, growths) && k <= |growths|
    ensures vs[k].totalBTokens <= vs[0].totalBTokens
    ensures Value(vs[k]) * Power12(k) <= Ceiling(vs, growths, k)
  {
    if k > 0 {
      CapCeiling(vs, mode, growths, k - 1);
      assert Accrues(vs[k - 1], mode, vs[k - 1 + 1]) && growths[k - 1] == Growth(vs[k - 1], vs[k], mode.value);
      CapRoof(vs[k - 1], mode, vs[k]);
      CeilingStep(Value(vs[k - 1]), Value(vs[k]), growths[k - 1], vs[k - 1].totalBTokens, vs[0].totalBTokens,
                  vs[k].bRate, Power12(k - 1), Ceiling(vs, growths, k - 1), SCALAR_12);
    }
  }

  lemma CeilingStep(mid: int, end: int, growth: nat, b: int, b0: int, n: int, p: int, ceiling: int, d: nat)
    requires 0 <= p && b <= b0
    requires mid * p <= ceiling && end * d <= mid * growth + (b + n) * d
    ensures end * (p * d) <= ceiling * growth + (b0 + n) * (p * d)
  {
    MulLe(b + n, b0 + n, d);
    MulLe(end * d, mid * growth + (b0 + n) * d, p);
    MulLe(mid * p, ceiling, growth);
    Distribute(mid * growth, (b0 + n) * d, p);
    assert end * d * p == end * (p * d);
    assert mid * growth * p == mid * p * growth;
    assert (b0 + n) * d * p == (b0 + n) * (p * d);
  }

  /** And over any capped run the cap caps: the depositors' value stays below the capped growth
      compounded, plus the rounding of each step. */
  lemma CapIsACap(vs: seq<Vault>, mode: FeeMode, growths: seq<nat>)
    requires Growths(vs, mode, growths)
    ensures Value(Last(vs)) * Power12(|growths|) <= Ceiling(vs, growths, |growths|)
  {
    CapCeiling(vs, mode, growths, |growths|);
  }
}
