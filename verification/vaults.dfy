/** One reserve's vault record: the six conversions between underlying tokens, bTokens
    and shares, and the accrual of interest under the two fee modes.

    Everything here is on unbounded integers; the predicates named `...Fits` say exactly
    when the i128 and u64 arithmetic of the contract goes through. */
module Vaults {
  import opened Types
  import opened FixedPoint

  // The APR cap, or the admin's take rate, with 7 decimals.
  type FeeValue = v: int | 0 <= v <= SCALAR_7

  datatype FeeMode = FeeMode(isAprCapped: bool, value: FeeValue)

  datatype Vault = Vault(
    address: Address,
    bRate: Rate,
    lastUpdate: Timestamp,
    totalShares: nat,
    totalBTokens: nat,
    accruedFees: nat)
  {
    // Neither side of the exchange between shares and bTokens is empty.
    predicate Funded() {
      totalShares != 0 && totalBTokens != 0
    }

    function BTokensToSharesDown(amount: int): (shares: int)
      ensures Funded() ==> shares * totalBTokens <= amount * totalShares < (shares + 1) * totalBTokens
      ensures !Funded() ==> shares == amount
      ensures 0 <= amount ==> 0 <= shares
    {
      if !Funded() then amount
      else
        FloorAdjoint(0, amount * totalShares, totalBTokens);
        FloorDiv(amount * totalShares, totalBTokens)
    }

    function BTokensToSharesUp(amount: int): (shares: int)
      ensures Funded() ==> (shares - 1) * totalBTokens < amount * totalShares <= shares * totalBTokens
      ensures !Funded() ==> shares == amount
      ensures 0 < amount <==> 0 < shares
    {
      if !Funded() then amount
      else
        CeilAdjoint(0, amount * totalShares, totalBTokens);
        CeilDiv(amount * totalShares, totalBTokens)
    }

    predicate SharesFits(amount: int) {
      Funded() ==> InI128(amount * totalShares)
    }

    function SharesToBTokensDown(shares: nat): (amount: nat)
      requires totalShares != 0
      ensures amount * totalShares <= shares * totalBTokens < (amount + 1) * totalShares
    {
      FloorNonNegative(shares * totalBTokens, totalShares);
      FloorDiv(shares * totalBTokens, totalShares)
    }

    function BTokensToUnderlyingDown(amount: nat): (underlying: nat)
      ensures underlying * SCALAR_12 <= amount * bRate < (underlying + 1) * SCALAR_12
    {
      FloorNonNegative(amount * bRate, SCALAR_12);
      FloorDiv(amount * bRate, SCALAR_12)
    }

    function UnderlyingToBTokensDown(underlying: int): (amount: int)
      ensures amount * bRate <= underlying * SCALAR_12 < (amount + 1) * bRate
      ensures 0 <= underlying ==> 0 <= amount
    {
      FloorAdjoint(0, underlying * SCALAR_12, bRate);
      FloorDiv(underlying * SCALAR_12, bRate)
    }

    function UnderlyingToBTokensUp(underlying: int): (amount: int)
      ensures (amount - 1) * bRate < underlying * SCALAR_12 <= amount * bRate
      ensures 0 < underlying <==> 0 < amount
    {
      CeilAdjoint(0, underlying * SCALAR_12, bRate);
      CeilDiv(underlying * SCALAR_12, bRate)
    }

    // The arithmetic of a deposit of `underlying` by a holder of `held` goes through.
    predicate DepositFits(held: nat, underlying: int) {
      && InI128(underlying * SCALAR_12)
      && var bTokens := UnderlyingToBTokensDown(underlying);
         (bTokens > 0 ==>
            && SharesFits(bTokens)
            && var shares := BTokensToSharesDown(bTokens);
               InI128(totalShares + shares) && InI128(totalBTokens + bTokens) && InI128(held + shares))
    }

    // The arithmetic of a withdrawal of `underlying` goes through.
    predicate WithdrawalFits(underlying: int) {
      InI128(underlying * SCALAR_12) && SharesFits(UnderlyingToBTokensUp(underlying))
    }

    // What a holder of `shares` owns, in bTokens and in underlying tokens. A holder of
    // nothing owns nothing, whatever the vault.
    function Claim(shares: nat): nat {
      if shares == 0 || totalShares == 0 then 0 else SharesToBTokensDown(shares)
    }

    function Quote(shares: nat): nat {
      BTokensToUnderlyingDown(Claim(shares))
    }

    function Minted(bTokens: nat, shares: nat): Vault {
      this.(totalShares := totalShares + shares, totalBTokens := totalBTokens + bTokens)
    }

    function Burnt(bTokens: nat, shares: nat): Vault
      requires bTokens <= totalBTokens && shares <= totalShares
    {
      this.(totalShares := totalShares - shares, totalBTokens := totalBTokens - bTokens)
    }

    // ---- Accrual ----

    function TargetBRate(cap: FeeValue, elapsed: nat): (target: int)
      ensures bRate <= target
      ensures (target - 1) * SCALAR_12 < bRate * TargetGrowthRate(cap, elapsed) <= target * SCALAR_12
    {
      var growth := TargetGrowthRate(cap, elapsed);
      MulLe(SCALAR_12, growth, bRate);
      CeilAdjoint(bRate - 1, bRate * growth, SCALAR_12);
      CeilDiv(bRate * growth, SCALAR_12)
    }

    // The elapsed time is an unsigned subtraction, used only under an APR cap.
    predicate ClockFits(mode: FeeMode, now: Timestamp) {
      mode.isAprCapped ==> lastUpdate <= now
    }

    // The bTokens the admin takes when the rate rises to `newRate`: never worth more
    // than the interest itself.
    function AdminTake(mode: FeeMode, newRate: Rate, now: Timestamp): (take: nat)
      requires bRate < newRate && ClockFits(mode, now)
      ensures take * newRate <= totalBTokens * (newRate - bRate)
      ensures take <= totalBTokens
    {
      var take :=
        if mode.isAprCapped then CapTake(mode.value, newRate, now - lastUpdate)
        else RateTake(mode.value, newRate);
      assert take <= totalBTokens by {
        MulLe(newRate - bRate, newRate, totalBTokens);
        CancelLe(take, totalBTokens, newRate);
      }
      take
    }

    function CapTake(cap: FeeValue, newRate: Rate, elapsed: nat): (take: nat)
      requires bRate < newRate
      ensures take * newRate <= totalBTokens * (newRate - bRate)
    {
      var target := TargetBRate(cap, elapsed);
      if target >= newRate then 0
      else
        var excess := totalBTokens * (newRate - target);
        MulLe(newRate - target, newRate - bRate, totalBTokens);
        MulLe(0, newRate - target, totalBTokens);
        FloorNonNegative(excess, newRate);
        FloorDiv(excess, newRate)
    }

    function RateTake(rate: FeeValue, newRate: Rate): (take: nat)
      requires bRate < newRate
      ensures take * newRate <= totalBTokens * (newRate - bRate)
      ensures take * newRate * SCALAR_7 <= totalBTokens * (newRate - bRate) * rate
      ensures totalBTokens * (newRate - bRate) * rate - take * newRate * SCALAR_7
              < rate * SCALAR_12 + SCALAR_7 * (SCALAR_12 + newRate)
    {
      var interest := InterestDown(newRate);
      var cut := CutDown(rate, newRate);
      FloorNonNegative(cut * SCALAR_12, newRate);
      var take := FloorDiv(cut * SCALAR_12, newRate);
      ThreeFloors(totalBTokens * (newRate - bRate), rate, newRate, interest, cut, take, SCALAR_12, SCALAR_7);
      take
    }

    function InterestDown(newRate: Rate): nat
      requires bRate < newRate
    {
      FloorNonNegative(totalBTokens * (newRate - bRate), SCALAR_12);
      FloorDiv(totalBTokens * (newRate - bRate), SCALAR_12)
    }

    function CutDown(rate: FeeValue, newRate: Rate): nat
      requires bRate < newRate
    {
      FloorNonNegative(InterestDown(newRate) * rate, SCALAR_7);
      FloorDiv(InterestDown(newRate) * rate, SCALAR_7)
    }

    predicate AdminTakeFits(mode: FeeMode, newRate: Rate, now: Timestamp)
      requires bRate < newRate
    {
      if mode.isAprCapped then
        && lastUpdate <= now
        && CapTakeFits(mode.value, newRate, now - lastUpdate)
      else
        && InI128(totalBTokens * (newRate - bRate))
        && InI128(InterestDown(newRate) * mode.value)
        && InI128(CutDown(mode.value, newRate) * SCALAR_12)
    }

    predicate CapTakeFits(cap: FeeValue, newRate: Rate, elapsed: nat) {
      && InI128(100_000 * cap * elapsed)
      && InI128(bRate * TargetGrowthRate(cap, elapsed))
      && var target := TargetBRate(cap, elapsed);
         (target < newRate ==> InI128(totalBTokens * (newRate - target)))
    }

    // The arithmetic of an accrual goes through.
    predicate AccrualFits(mode: FeeMode, newRate: Rate, now: Timestamp) {
      bRate < newRate ==>
        && AdminTakeFits(mode, newRate, now)
        && var take := AdminTake(mode, newRate, now);
           (take > 0 ==> InI128(accruedFees + take))
    }

    function Accrued(mode: FeeMode, newRate: Rate, now: Timestamp): Vault
      requires bRate < newRate ==> ClockFits(mode, now)
    {
      var take := if newRate <= bRate then 0 else AdminTake(mode, newRate, now);
      this.(
        bRate := newRate,
        lastUpdate := now,
        totalBTokens := totalBTokens - take,
        accruedFees := accruedFees + take)
    }
  }

  // 12-decimal growth over `elapsed` seconds at the capped APR, truncated.
  function TargetGrowthRate(cap: FeeValue, elapsed: nat): (growth: int)
    ensures SCALAR_12 <= growth
  {
    FloorNonNegative(100_000 * cap * elapsed, SECONDS_PER_YEAR);
    FloorDiv(100_000 * cap * elapsed, SECONDS_PER_YEAR) + SCALAR_12
  }

  /** One of the nested floors, scaled: rounding `x / d` down to `q` and multiplying on by
      `m` loses less than `d * m`. */
  lemma ScaledFloor(x: int, q: int, d: int, m: nat)
    requires q * d <= x < q * d + d
    ensures q * m * d <= x * m <= q * m * d + d * m
    ensures 0 < m ==> x * m < q * m * d + d * m
  {
    assert q * m * d == q * d * m;
    MulLe(q * d, x, m);
    MulLe(x + 1, q * d + d, m);
    assert (q * d + d) * m == q * d * m + d * m;
  }

  /** The nested floors of the take-rate fee, with the quotients named: what they lose
      together, and that they lose in the depositors' favour. */
  lemma ThreeFloors(earned: nat, rate: nat, newRate: nat, interest: nat, cut: nat, take: nat, d: nat, k: nat)
    requires 0 < d && 0 < newRate && rate <= k && 0 < k
    requires interest * d <= earned < interest * d + d
    requires cut * k <= interest * rate < cut * k + k
    requires take * newRate <= cut * d < take * newRate + newRate
    ensures take * newRate <= earned
    ensures take * newRate * k <= earned * rate
    ensures earned * rate - take * newRate * k < rate * d + k * (d + newRate)
  {
    ScaledFloor(earned, interest, d, rate);
    ScaledFloor(interest * rate, cut, k, d);
    ScaledFloor(cut * d, take, newRate, k);
    Swap(cut, k, d);
    Swap(take, newRate, k);
    Distribute(d, newRate, k);
    MulLe(rate, k, earned);
    CancelLe(take * newRate, earned, k);
  }
}
