/** What every entry point answers, on every input, in plain numbers: the scales, the length
    of a year and the range of an i128 are written out here, and roundings are written as
    integer divisions. What each answer means is the subject of the other modules. */
module Outcomes {
  import opened Types
  import opened FixedPoint
  import opened Vaults
  import opened Ledger
  import opened ShareSums
  import opened ConversionLaws
  import opened Invariants
  import AccrualLaws

  predicate Fits(x: int) {
    -170_141_183_460_469_231_731_687_303_715_884_105_728 <= x
      <= 170_141_183_460_469_231_731_687_303_715_884_105_727
  }

  // ---- What an APR is ----

  function PlainGrowth(cap: int, elapsed: int): int {
    1_000_000_000_000 + FloorDiv(100_000 * cap * elapsed, 31_536_000)
  }

  /** The growth over some seconds is the linear share of the yearly one, truncated to 12
      decimals; over whole years it is exact. */
  lemma GrowthIsTheApr(cap: FeeValue, elapsed: nat, years: nat)
    ensures TargetGrowthRate(cap, elapsed) == PlainGrowth(cap, elapsed)
    ensures var g := TargetGrowthRate(cap, elapsed) - 1_000_000_000_000;
            g * 31_536_000 <= 100_000 * cap * elapsed < (g + 1) * 31_536_000
    ensures TargetGrowthRate(cap, years * 31_536_000) == 1_000_000_000_000 + 100_000 * cap * years
  {
    assert 100_000 * cap * (years * 31_536_000) == 100_000 * cap * years * 31_536_000;
  }

  /** What a capped accrual leaves the depositors, for any elapsed time: never more than the
      capped APR on their value, but for a unit of rate per bToken and one bToken; and, unless
      they keep all their bTokens, no less than the APR truncated to 12 decimals. */
  lemma DepositorsEarnTheCappedApr(v: Vault, mode: FeeMode, newRate: Rate, now: Timestamp)
    requires mode.isAprCapped && v.lastUpdate <= now && v.bRate < newRate
    ensures var w, t := v.Accrued(mode, newRate, now), now - v.lastUpdate;
            var year := 31_536_000 * 1_000_000_000_000;
            && w.totalBTokens * newRate * year
               < v.totalBTokens * v.bRate * (year + 100_000 * mode.value * t) + (v.totalBTokens + newRate) * year
            && (w.totalBTokens < v.totalBTokens ==>
                  v.totalBTokens * v.bRate * (year + 100_000 * mode.value * t - 31_536_000)
                  <= w.totalBTokens * newRate * year)
  {
    var t := now - v.lastUpdate;
    var w, target := v.Accrued(mode, newRate, now), v.TargetBRate(mode.value, t);
    var growth := TargetGrowthRate(mode.value, t);
    AccrualLaws.CapTwoSided(v, mode, newRate, now);
    GrowthIsTheApr(mode.value, t, 0);
    if newRate <= target {
      MulLe(newRate, target, v.totalBTokens);
    }
    AprAbove(v.totalBTokens, v.bRate, growth, target, w.totalBTokens * newRate, newRate, 100_000 * mode.value * t);
    if target < newRate {
      AprBelow(v.totalBTokens, v.bRate, growth, target, w.totalBTokens * newRate, 100_000 * mode.value * t);
    }
  }

  lemma AprAbove(b: nat, r: nat, growth: int, target: int, value: int, n: int, apr: int)
    requires (growth - 1_000_000_000_000) * 31_536_000 <= apr
    requires (target - 1) * 1_000_000_000_000 < r * growth && 0 < n && value < b * target + n
    ensures value * (31_536_000 * 1_000_000_000_000)
            < b * r * (31_536_000 * 1_000_000_000_000 + apr) + (b + n) * (31_536_000 * 1_000_000_000_000)
  {
    MulLe(growth * 31_536_000, 31_536_000 * 1_000_000_000_000 + apr, r);
    var scaled := r * (31_536_000 * 1_000_000_000_000 + apr);
    assert r * growth * 31_536_000 <= scaled by { Swap(growth, 31_536_000, r); }
    MulLe((target - 1) * (31_536_000 * 1_000_000_000_000), scaled, b);
    Distribute(target, -1, b);
    Regroup(b, r, 31_536_000 * 1_000_000_000_000 + apr);
  }

  lemma AprBelow(b: nat, r: nat, growth: int, target: int, value: int, apr: int)
    requires apr < (growth - 1_000_000_000_000 + 1) * 31_536_000
    requires r * growth <= target * 1_000_000_000_000 && b * target <= value
    ensures b * r * (31_536_000 * 1_000_000_000_000 + apr - 31_536_000) <= value * (31_536_000 * 1_000_000_000_000)
  {
    var lower := 31_536_000 * 1_000_000_000_000 + apr - 31_536_000;
    MulLe(lower, growth * 31_536_000, r);
    assert r * lower <= r * growth * 31_536_000 by { Swap(growth, 31_536_000, r); }
    MulLe(r * lower, target * (31_536_000 * 1_000_000_000_000), b);
    Regroup(b, r, lower);
    Swap(target, 31_536_000 * 1_000_000_000_000, b);
  }

  /** After whole years the cap is exact in the rate: a rise that stays within the APR, rounded
      up to a unit of rate, is free, and beyond it the fee is the excess, rounded down. */
  lemma CapOverWholeYears(v: Vault, mode: FeeMode, newRate: Rate, now: Timestamp, years: nat)
    requires mode.isAprCapped && v.bRate < newRate && now == v.lastUpdate + years * 31_536_000
    ensures var fee := v.Accrued(mode, newRate, now).accruedFees - v.accruedFees;
            var target := CeilDiv(v.bRate * (10_000_000 + years * mode.value), 10_000_000);
            && (newRate <= target <==> (newRate - 1) * 10_000_000 < v.bRate * (10_000_000 + years * mode.value))
            && (newRate <= target ==> fee == 0)
            && (target < newRate ==>
                  fee * newRate <= v.totalBTokens * (newRate - target) < (fee + 1) * newRate)
  {
    var x := v.bRate * (10_000_000 + years * mode.value);
    GrowthIsTheApr(mode.value, 0, years);
    YearsScale(v.bRate, mode.value, years);
    CeilingScale(x, 100_000, 10_000_000);
    CeilAdjoint(newRate - 1, x, 10_000_000);
  }

  lemma YearsScale(r: int, cap: int, years: int)
    ensures r * (1_000_000_000_000 + 100_000 * cap * years) == r * (10_000_000 + years * cap) * 100_000
  {
    assert 1_000_000_000_000 + 100_000 * cap * years == (10_000_000 + years * cap) * 100_000;
  }

  lemma CeilingScale(x: int, k: int, d: int)
    requires 0 < k && 0 < d
    ensures 0 < d * k && CeilDiv(x * k, d * k) == CeilDiv(x, d)
  {
    MulLe(1, d, k);
    var q := CeilDiv(x, d);
    MulLe(x, q * d, k);
    MulLe((q - 1) * d + 1, x, k);
    Regroup(q, d, k);
    Regroup(q - 1, d, k);
    CeilAdjoint(q, x * k, d * k);
    CeilAdjoint(q - 1, x * k, d * k);
  }

  // ---- Accrual ----

  // The fee of a take rate: three nested roundings down.
  function PlainRateFee(bTokens: int, rate: int, newRate: int, value: int): int
    requires 0 < newRate
  {
    var interest := FloorDiv(bTokens * (newRate - rate), 1_000_000_000_000);
    FloorDiv(FloorDiv(interest * value, 10_000_000) * 1_000_000_000_000, newRate)
  }

  function PlainTarget(rate: int, cap: int, elapsed: int): int {
    CeilDiv(rate * PlainGrowth(cap, elapsed), 1_000_000_000_000)
  }

  function PlainCapFee(bTokens: int, target: int, newRate: int): int
    requires 0 < newRate
  {
    if newRate <= target then 0 else FloorDiv(bTokens * (newRate - target), newRate)
  }

  // The vault after an accrual that takes `fee`; it fails where the fees leave i128.
  function Taken(v: Vault, fee: int, newRate: Rate, now: Timestamp): Result<Vault>
    requires 0 <= fee <= v.totalBTokens
  {
    if fee != 0 && !Fits(v.accruedFees + fee) then Err(ArithmeticError)
    else Ok(Vault(v.address, newRate, now, v.totalShares, v.totalBTokens - fee, v.accruedFees + fee))
  }

  /** A rate that did not rise is always accepted: only the rate and the time are stored. */
  lemma FallIsAccepted(st: State, e: Env, a: Address)
    requires Inv(st) && a in st.vaults && a in e.rates && e.rates[a] <= st.vaults[a].bRate
    ensures Updated(st, e, a) == Ok(st.vaults[a].(bRate := e.rates[a], lastUpdate := e.now))
  {
    assert VaultOk(st, a);
  }

  /** A rise under a take rate fails only if the interest itself, or the new sum of fees,
      leaves i128: the two later products of the fee never do. */
  lemma RiseUnderTakeRate(st: State, e: Env, a: Address)
    requires Inv(st) && a in st.vaults && a in e.rates && st.vaults[a].bRate < e.rates[a] && !st.mode.isAprCapped
    ensures var v, newRate := st.vaults[a], e.rates[a];
            var fee := PlainRateFee(v.totalBTokens, v.bRate, newRate, st.mode.value);
            && 0 <= fee <= v.totalBTokens
            && Updated(st, e, a) == (if Fits(v.totalBTokens * (newRate - v.bRate)) then Taken(v, fee, newRate, e.now)
                                     else Err(ArithmeticError))
  {
    assert VaultOk(st, a);
    RateRise(st.vaults[a], st.mode, e.rates[a], e.now);
  }

  lemma RateRise(v: Vault, mode: FeeMode, newRate: Rate, now: Timestamp)
    requires v.bRate < newRate && !mode.isAprCapped
    ensures PlainRateFee(v.totalBTokens, v.bRate, newRate, mode.value) == v.AdminTake(mode, newRate, now)
    ensures v.AdminTakeFits(mode, newRate, now) <==> Fits(v.totalBTokens * (newRate - v.bRate))
  {
    var interest, cut := v.InterestDown(newRate), v.CutDown(mode.value, newRate);
    QuotientsFit(v.totalBTokens * (newRate - v.bRate), interest, cut, mode.value);
  }

  // Of the three products of the fee, only the first can leave i128.
  lemma QuotientsFit(earned: int, interest: nat, cut: nat, value: FeeValue)
    requires interest == FloorDiv(earned, 1_000_000_000_000) && cut == FloorDiv(interest * value, 10_000_000)
    ensures InI128(earned) ==> InI128(interest * value) && InI128(cut * 1_000_000_000_000)
  {
    LaterProducts(earned, interest, cut, value);
  }

  lemma LaterProducts(earned: int, interest: nat, cut: nat, value: FeeValue)
    requires interest * 1_000_000_000_000 <= earned && cut * 10_000_000 <= interest * value
    ensures 0 <= interest * value <= earned && 0 <= cut * 1_000_000_000_000 <= earned
  {
    MulLe(value, 10_000_000, interest);
    MulLe(0, value, interest);
  }

  /** A rise under a cap fails only if the clock is behind the vault's, or if the target rate,
      the excess over it, or the new sum of fees, leaves i128: the growth itself never does. */
  lemma RiseUnderCap(st: State, e: Env, a: Address)
    requires Inv(st) && a in st.vaults && a in e.rates && st.vaults[a].bRate < e.rates[a] && st.mode.isAprCapped
    ensures var v, newRate, t := st.vaults[a], e.rates[a], e.now - st.vaults[a].lastUpdate;
            var target := PlainTarget(v.bRate, st.mode.value, t);
            var fee := PlainCapFee(v.totalBTokens, target, newRate);
            if t < 0 || !Fits(v.bRate * PlainGrowth(st.mode.value, t))
               || (target < newRate && !Fits(v.totalBTokens * (newRate - target)))
            then Updated(st, e, a) == Err(ArithmeticError)
            else 0 <= fee <= v.totalBTokens && Updated(st, e, a) == Taken(v, fee, newRate, e.now)
  {
    assert VaultOk(st, a);
    if st.vaults[a].lastUpdate <= e.now {
      CapRise(st.vaults[a], st.mode, e.rates[a], e.now);
    }
  }

  lemma CapRise(v: Vault, mode: FeeMode, newRate: Rate, now: Timestamp)
    requires v.bRate < newRate && mode.isAprCapped && v.lastUpdate <= now
    ensures var t := now - v.lastUpdate;
            var target := PlainTarget(v.bRate, mode.value, t);
            && PlainCapFee(v.totalBTokens, target, newRate) == v.AdminTake(mode, newRate, now)
            && (v.AdminTakeFits(mode, newRate, now) <==>
                  && Fits(v.bRate * PlainGrowth(mode.value, t))
                  && (target < newRate ==> Fits(v.totalBTokens * (newRate - target))))
  {
    var t := now - v.lastUpdate;
    ElapsedFits(mode.value, t);
    TargetIsPlain(v, mode.value, t);
  }

  lemma TargetIsPlain(v: Vault, cap: FeeValue, elapsed: nat)
    ensures TargetGrowthRate(cap, elapsed) == PlainGrowth(cap, elapsed)
    ensures v.TargetBRate(cap, elapsed) == PlainTarget(v.bRate, cap, elapsed)
  {
  }

  lemma ElapsedFits(cap: FeeValue, elapsed: nat)
    requires elapsed < 0x1_0000_0000_0000_0000
    ensures InI128(100_000 * cap * elapsed)
  {
    MulLe(100_000 * cap, 1_000_000_000_000, elapsed);
    MulLe(0, 100_000 * cap, elapsed);
  }

  /** Without a vault, or for an asset that the pool does not list, there is no accrual. */
  lemma AccrualNeedsVaultAndRate(st: State, e: Env, a: Address)
    requires Inv(st)
    ensures Updated(st, e, a) == Err(ReserveNotFound) <==> a !in st.vaults
    ensures Updated(st, e, a) == Err(PoolError) <==> a in st.vaults && a !in e.rates
    ensures Updated(st, e, a).Err? ==> Updated(st, e, a).error in {ReserveNotFound, PoolError, ArithmeticError}
  {
    if a in st.vaults {
      assert VaultOk(st, a);
    }
  }

  // ---- The admin's calls ----

  /** The constructor accepts the values from 0 to 1 and stores the mode as given. */
  lemma ConstructionOutcome(isAprCapped: bool, value: int)
    ensures var r := Initialize(isAprCapped, value);
            && (r.Ok? <==> 0 <= value <= 10_000_000)
            && (r.Err? ==> r.error == InvalidFeeModeValue)
            && (r.Ok? ==>
                  && r.value.mode.isAprCapped == isAprCapped && r.value.mode.value == value
                  && r.value.vaults == map[] && r.value.shares == map[] && r.value.reserves == [])
  {
  }

  lemma {:induction false} FirstFailureAborts(
    vaults: map<Address, Vault>, mode: FeeMode, e: Env, reserves: seq<Address>, i: nat)
    requires NoDuplicates(reserves) && i < |reserves|
    requires UpdatedIn(vaults, mode, e, reserves[i]).Err?
    requires forall j :: 0 <= j < i ==> UpdatedIn(vaults, mode, e, reserves[j]).Ok?
    ensures AccrueReserves(vaults, mode, e, reserves) == Err(UpdatedIn(vaults, mode, e, reserves[i]).error)
    decreases i
  {
    if i > 0 {
      var first, rest := reserves[0], reserves[1..];
      var v := UpdatedIn(vaults, mode, e, first);
      assert v.Ok?;
      forall j | 0 <= j < |rest|
        ensures UpdatedIn(vaults[first := v.value], mode, e, rest[j]) == UpdatedIn(vaults, mode, e, reserves[j + 1])
      {
        assert rest[j] == reserves[j + 1] && rest[j] != first;
      }
      FirstFailureAborts(vaults[first := v.value], mode, e, rest, i - 1);
    }
  }

  /** A fee-mode change is accepted exactly for a value from 0 to 1 and when every listed vault
      accrues; it then stores the mode and the accrued vaults and nothing else. */
  lemma FeeModeOutcome(st: State, e: Env, isAprCapped: bool, value: int)
    requires Inv(st)
    ensures var r := SetFeeMode(st, e, isAprCapped, value);
            && (r.Ok? <==> 0 <= value <= 10_000_000 && forall a :: a in st.reserves ==> Updated(st, e, a).Ok?)
            && (r == Err(InvalidFeeModeValue) <==> !(0 <= value <= 10_000_000))
            && (r.Ok? ==>
                  && r.value.mode.isAprCapped == isAprCapped && r.value.mode.value == value
                  && r.value.shares == st.shares && r.value.reserves == st.reserves
                  && r.value.vaults.Keys == st.vaults.Keys
                  && forall a :: a in st.vaults ==> Updated(st, e, a) == Ok(r.value.vaults[a]))
  {
    if 0 <= value <= 10_000_000 {
      AccrueReservesPointwise(st.vaults, st.mode, e, st.reserves);
      forall a | a in st.reserves
        ensures Refreshed(st.vaults[a], st.mode, e) == Updated(st, e, a)
      {
      }
      AccrualErrors(st, e);
    }
  }

  lemma AccrualErrors(st: State, e: Env)
    requires Inv(st)
    ensures AccrueReserves(st.vaults, st.mode, e, st.reserves) != Err(InvalidFeeModeValue)
  {
    var i := 0;
    while i < |st.reserves| && Updated(st, e, st.reserves[i]).Ok?
      invariant 0 <= i <= |st.reserves|
      invariant forall j :: 0 <= j < i ==> Updated(st, e, st.reserves[j]).Ok?
    {
      i := i + 1;
    }
    if i < |st.reserves| {
      AccrualNeedsVaultAndRate(st, e, st.reserves[i]);
      FirstFailureAborts(st.vaults, st.mode, e, st.reserves, i);
    } else {
      AccrueReservesPointwise(st.vaults, st.mode, e, st.reserves);
    }
  }

  /** A failing change reports the first listed vault that cannot accrue. */
  lemma FeeModeFailure(st: State, e: Env, isAprCapped: bool, value: int, i: nat)
    requires Inv(st) && 0 <= value <= 10_000_000 && i < |st.reserves|
    requires Updated(st, e, st.reserves[i]).Err?
    requires forall j :: 0 <= j < i ==> Updated(st, e, st.reserves[j]).Ok?
    ensures SetFeeMode(st, e, isAprCapped, value) == Err(Updated(st, e, st.reserves[i]).error)
  {
    FirstFailureAborts(st.vaults, st.mode, e, st.reserves, i);
  }

  /** A vault is added exactly when the reserve has none and the pool lists it; it starts
      empty, at the pool's rate, and last in the list. */
  lemma AddVaultOutcome(st: State, e: Env, reserve: Address)
    ensures var r := AddReserveVault(st, e, reserve);
            && (r.Ok? <==> reserve !in st.vaults && reserve in e.rates)
            && (r == Err(ReserveAlreadyExists) <==> reserve in st.vaults)
            && (r == Err(PoolError) <==> reserve !in st.vaults && reserve !in e.rates)
            && (r.Ok? ==>
                  && r.value.mode == st.mode && r.value.shares == st.shares
                  && r.value.reserves == st.reserves + [reserve]
                  && r.value.vaults == st.vaults[reserve := Vault(reserve, e.rates[reserve], e.now, 0, 0, 0)])
  {
  }

  // Only the vault of `a` differs.
  ghost predicate OnlyVaultOf(a: Address, st: State, st': State) {
    && st'.mode == st.mode && st'.reserves == st.reserves
    && (forall x :: x in st'.vaults <==> x in st.vaults)
    && (forall x :: x in st.vaults && x != a ==> st'.vaults[x] == st.vaults[x])
  }

  /** Claiming succeeds exactly when there are fees whose value fits. All fees are burnt, and
      no bToken appears or disappears: what is burnt is what the vault and its fees lose
      together. The admin is paid the floored value of just those bTokens. */
  lemma ClaimOutcome(st: State, e: Env, reserve: Address)
    requires Inv(st)
    ensures var u, r := Updated(st, e, reserve), ClaimFees(st, e, reserve);
            && (u.Err? ==> r == Err(u.error))
            && (u.Ok? ==>
                  && (r == Err(InsufficientAccruedFees) <==> u.value.accruedFees == 0)
                  && (r == Err(ArithmeticError) <==>
                        0 < u.value.accruedFees && !Fits(u.value.accruedFees * e.rates[reserve]))
                  && (r.Ok? <==> 0 < u.value.accruedFees && Fits(u.value.accruedFees * e.rates[reserve])))
            && (r.Ok? ==> ClaimConserves(st, e, reserve, r.value.0, r.value.1, r.value.2))
  {
    if Updated(st, e, reserve).Ok? {
      UpdatedFacts(st, e, reserve);
    }
  }

  ghost predicate ClaimConserves(st: State, e: Env, a: Address, st': State, burnt: nat, paid: nat) {
    && a in st.vaults && a in e.rates && OnlyVaultOf(a, st, st') && st'.shares == st.shares
    && var v, w := st.vaults[a], st'.vaults[a];
    && burnt + w.totalBTokens + w.accruedFees == v.totalBTokens + v.accruedFees
    && w.accruedFees == 0 && w.totalShares == v.totalShares
    && w.bRate == e.rates[a] && w.lastUpdate == e.now
    && paid * 1_000_000_000_000 <= burnt * e.rates[a] < (paid + 1) * 1_000_000_000_000
  }

  // ---- Views ----

  /** The views answer 0 to a holder of nothing, even for an unknown reserve. Otherwise they
      answer the claim and its value, each rounded down once, unless the accrual fails or one
      of their two products leaves i128. */
  lemma ViewOutcome(st: State, e: Env, reserve: Address, user: Address)
    requires Inv(st)
    ensures var held, u := SharesOf(st, reserve, user), Updated(st, e, reserve);
            var bTokens, underlying := GetBTokens(st, e, reserve, user), GetUnderlyingTokens(st, e, reserve, user);
            && (reserve !in st.vaults ==> held == 0)
            && (held == 0 ==> bTokens == underlying == Ok(0))
            && (held != 0 && u.Err? ==> bTokens == underlying == Err(u.error))
            && (held != 0 && u.Ok? ==>
                  && var v := u.value;
                  && 0 < v.totalShares
                  && var claim := FloorDiv(held * v.totalBTokens, v.totalShares);
                  && claim == v.Claim(held)
                  && bTokens == (if Fits(held * v.totalBTokens) then Ok(claim) else Err(ArithmeticError))
                  && underlying == (if Fits(held * v.totalBTokens) && Fits(claim * v.bRate)
                                    then Ok(FloorDiv(claim * v.bRate, 1_000_000_000_000)) else Err(ArithmeticError))
                  && FloorDiv(claim * v.bRate, 1_000_000_000_000) == QuoteIn(st, e, reserve, user))
  {
    var held := SharesOf(st, reserve, user);
    if held != 0 && Updated(st, e, reserve).Ok? {
      UpdatedFacts(st, e, reserve);
      HolderWithinTotal(st, reserve, user);
      ClaimIsQuotient(Updated(st, e, reserve).value, held);
    }
  }

  lemma ClaimIsQuotient(v: Vault, held: nat)
    requires 0 < held && 0 < v.totalShares
    ensures v.Claim(held) == FloorDiv(held * v.totalBTokens, v.totalShares)
    ensures v.Quote(held) == FloorDiv(v.Claim(held) * v.bRate, 1_000_000_000_000)
  {
  }

  /** The collected fees are 0 for a reserve without a vault, and otherwise the floored value
      of the fees in the up-to-date vault. */
  lemma CollectedFeesOutcome(st: State, e: Env, reserve: Address)
    requires Inv(st)
    ensures var u, r := Updated(st, e, reserve), GetCollectedFees(st, e, reserve);
            && (reserve !in st.vaults ==> r == Ok(0))
            && (reserve in st.vaults && u.Err? ==> r == Err(u.error))
            && (u.Ok? ==>
                  && var product := u.value.accruedFees * e.rates[reserve];
                     r == if Fits(product) then Ok(FloorDiv(product, 1_000_000_000_000)) else Err(ArithmeticError))
  {
    if Updated(st, e, reserve).Ok? {
      UpdatedFacts(st, e, reserve);
    }
  }

  // ---- Deposits and withdrawals ----

  // The position of `user` in `a` has changed by `shares`, and the up-to-date vault by
  // `bTokens` and `shares`; nothing else has.
  ghost predicate Moved(st: State, e: Env, a: Address, user: Address, st': State, bTokens: int, shares: int) {
    && OnlyVaultOf(a, st, st') && a in st.vaults
    && (forall x, y :: x != a || y != user ==> SharesOf(st', x, y) == SharesOf(st, x, y))
    && SharesOf(st', a, user) == SharesOf(st, a, user) + shares
    && Updated(st, e, a).Ok?
    && var v, w := Updated(st, e, a).value, st'.vaults[a];
    && w.address == a && w.bRate == v.bRate && w.lastUpdate == v.lastUpdate && w.accruedFees == v.accruedFees
    && w.totalBTokens == v.totalBTokens + bTokens && w.totalShares == v.totalShares + shares
  }

  lemma PositionMoves(st: State, a: Address, user: Address, w: Vault, held: nat, st': State)
    requires a in st.vaults && st' == WithPosition(st, a, user, w, held)
    ensures OnlyVaultOf(a, st, st') && st'.vaults[a] == w && SharesOf(st', a, user) == held
    ensures forall x, y :: x != a || y != user ==> SharesOf(st', x, y) == SharesOf(st, x, y)
  {
  }

  // The shares of `bTokens`, rounded down; in an empty vault they are one to one.
  function PlainShares(v: Vault, bTokens: int): int {
    if v.totalShares == 0 || v.totalBTokens == 0 then bTokens
    else FloorDiv(bTokens * v.totalShares, v.totalBTokens)
  }

  function PlainSharesUp(v: Vault, bTokens: int): int {
    if v.totalShares == 0 || v.totalBTokens == 0 then bTokens
    else CeilDiv(bTokens * v.totalShares, v.totalBTokens)
  }

  /** Every deposit: which check refuses it, and otherwise what it moves. Of its five checked
      operations only three can fail: the position and the bTokens fit wherever the total
      of shares does. */
  lemma DepositOutcome(st: State, e: Env, reserve: Address, user: Address, amount: int)
    requires Inv(st)
    ensures var u, r := Updated(st, e, reserve), Deposit(st, e, reserve, user, amount);
            if reserve !in st.vaults then r == Err(ReserveNotFound)
            else if amount <= 0 then r == Err(InvalidAmount)
            else if u.Err? then r == Err(u.error)
            else
              var v := u.value;
              var bTokens := FloorDiv(amount * 1_000_000_000_000, v.bRate);
              var shares := PlainShares(v, bTokens);
              if !Fits(amount * 1_000_000_000_000) then r == Err(ArithmeticError)
              else if bTokens == 0 then r == Err(InvalidBTokensMinted)
              else if (v.totalBTokens != 0 && !Fits(bTokens * v.totalShares)) || !Fits(v.totalShares + shares)
              then r == Err(ArithmeticError)
              else
                && 0 < bTokens <= shares && r.Ok? && r.value.1 == Receipt(bTokens, shares)
                && Moved(st, e, reserve, user, r.value.0, bTokens, shares)
  {
    if reserve in st.vaults && amount > 0 && Updated(st, e, reserve).Ok? {
      UpdatedFacts(st, e, reserve);
      HolderWithinTotal(st, reserve, user);
      var v := Updated(st, e, reserve).value;
      var bTokens := v.UnderlyingToBTokensDown(amount);
      MintInPlainNumbers(v, SharesOf(st, reserve, user), amount, bTokens, v.BTokensToSharesDown(bTokens));
      var r := Deposit(st, e, reserve, user, amount);
      if r.Ok? {
        DepositMoves(st, e, reserve, user, amount, r.value.0, r.value.1);
      }
    }
  }

  lemma MintInPlainNumbers(v: Vault, held: nat, amount: int, bTokens: nat, shares: nat)
    requires Sound(v) && held <= v.totalShares && 0 < amount
    requires bTokens == FloorDiv(amount * 1_000_000_000_000, v.bRate) && shares == PlainShares(v, bTokens)
    ensures bTokens <= shares
    ensures Mint(v, held, amount)
         == if !Fits(amount * 1_000_000_000_000) then Err(ArithmeticError)
            else if bTokens == 0 then Err(InvalidBTokensMinted)
            else if (v.totalBTokens != 0 && !Fits(bTokens * v.totalShares)) || !Fits(v.totalShares + shares)
            then Err(ArithmeticError)
            else Ok(Receipt(bTokens, shares))
  {
    assert bTokens == v.UnderlyingToBTokensDown(amount) && shares == v.BTokensToSharesDown(bTokens);
    MintIsSound(v, bTokens);
  }

  lemma DepositMoves(st: State, e: Env, reserve: Address, user: Address, amount: int, st': State, r: Receipt)
    requires Inv(st) && Deposit(st, e, reserve, user, amount) == Ok((st', r))
    ensures Moved(st, e, reserve, user, st', r.bTokens, r.shares)
  {
    DepositParts(st, e, reserve, user, amount, st', r);
    UpdatedFacts(st, e, reserve);
    PositionMoves(st, reserve, user, st'.vaults[reserve], SharesOf(st, reserve, user) + r.shares, st');
  }

  /** Every withdrawal: which check refuses it, and otherwise what it moves. The holder's own
      quote, rounded down twice, is what decides. */
  lemma WithdrawOutcome(st: State, e: Env, reserve: Address, user: Address, amount: int)
    requires Inv(st)
    ensures var u, r := Updated(st, e, reserve), Withdraw(st, e, reserve, user, amount);
            if reserve !in st.vaults then r == Err(ReserveNotFound)
            else if amount <= 0 then r == Err(InvalidAmount)
            else if u.Err? then r == Err(u.error)
            else
              var v := u.value;
              var bTokens := CeilDiv(amount * 1_000_000_000_000, v.bRate);
              var shares := PlainSharesUp(v, bTokens);
              if !Fits(amount * 1_000_000_000_000) || (v.totalBTokens != 0 && !Fits(bTokens * v.totalShares))
              then r == Err(ArithmeticError)
              else if FloorDiv(v.totalBTokens * v.bRate, 1_000_000_000_000) < amount then r == Err(InsufficientReserves)
              else if QuoteIn(st, e, reserve, user) < amount then r == Err(BalanceError)
              else
                && 0 < bTokens <= shares && r.Ok? && r.value.1 == Receipt(bTokens, shares)
                && Moved(st, e, reserve, user, r.value.0, 0 - bTokens, 0 - shares)
  {
    if reserve in st.vaults && amount > 0 && Updated(st, e, reserve).Ok? {
      UpdatedFacts(st, e, reserve);
      HolderWithinTotal(st, reserve, user);
      var v := Updated(st, e, reserve).value;
      BurnInPlainNumbers(v, SharesOf(st, reserve, user), amount);
      WithdrawExactlyUpToQuote(st, e, reserve, user, amount);
      var r := Withdraw(st, e, reserve, user, amount);
      if r.Ok? {
        WithdrawMoves(st, e, reserve, user, amount, r.value.0, r.value.1);
      }
    }
  }

  lemma BurnInPlainNumbers(v: Vault, held: nat, amount: int)
    requires Sound(v) && held <= v.totalShares && 0 < amount
    ensures var bTokens := CeilDiv(amount * 1_000_000_000_000, v.bRate);
            && (v.WithdrawalFits(amount) <==>
                  Fits(amount * 1_000_000_000_000) && (v.totalBTokens != 0 ==> Fits(bTokens * v.totalShares)))
            && (Burn(v, held, amount).Ok? ==>
                  && Burn(v, held, amount).value == Receipt(bTokens, PlainSharesUp(v, bTokens))
                  && 0 < bTokens <= PlainSharesUp(v, bTokens))
    ensures v.BTokensToUnderlyingDown(v.totalBTokens) == FloorDiv(v.totalBTokens * v.bRate, 1_000_000_000_000)
  {
    var bTokens := v.UnderlyingToBTokensUp(amount);
    BurnCoverage(v, bTokens);
    if v.totalBTokens != 0 {
    }
  }

  lemma WithdrawMoves(st: State, e: Env, reserve: Address, user: Address, amount: int, st': State, r: Receipt)
    requires Inv(st) && Withdraw(st, e, reserve, user, amount) == Ok((st', r))
    ensures Moved(st, e, reserve, user, st', 0 - r.bTokens, 0 - r.shares)
  {
    WithdrawParts(st, e, reserve, user, amount, st', r);
    UpdatedFacts(st, e, reserve);
    PositionMoves(st, reserve, user, st'.vaults[reserve], SharesOf(st, reserve, user) - r.shares, st');
  }

  // ---- Transactions ----

  /** Run as a transaction, a call that succeeds leaves the state it returns, and a call that
      panics leaves the state as it was. */
  lemma TransactionOutcome(st: State, tx: Tx)
    ensures var st' := Exec(st, tx);
            match tx.call
            case SetFeeModeCall(capped, value) =>
              var r := SetFeeMode(st, tx.env, capped, value); st' == if r.Ok? then r.value else st
            case AddReserveVaultCall(a) =>
              var r := AddReserveVault(st, tx.env, a); st' == if r.Ok? then r.value else st
            case ClaimFeesCall(a) =>
              var r := ClaimFees(st, tx.env, a); st' == if r.Ok? then r.value.0 else st
            case DepositCall(a, user, amount) =>
              var r := Deposit(st, tx.env, a, user, amount); st' == if r.Ok? then r.value.0 else st
            case WithdrawCall(a, user, amount) =>
              var r := Withdraw(st, tx.env, a, user, amount); st' == if r.Ok? then r.value.0 else st
  {
  }

  // ---- Stored numbers ----

  predicate BalancesFit(v: Vault) {
    Fits(v.totalShares) && Fits(v.totalBTokens) && Fits(v.accruedFees)
  }

  ghost predicate Representable(st: State) {
    && (forall a :: a in st.vaults ==> BalancesFit(st.vaults[a]))
    && (forall a, user :: Fits(SharesOf(st, a, user)))
  }

  lemma UpdatedBalancesFit(st: State, e: Env, a: Address)
    requires Inv(st) && Representable(st) && Updated(st, e, a).Ok?
    ensures BalancesFit(Updated(st, e, a).value)
  {
    var v := st.vaults[a];
    UpdatedFacts(st, e, a);
    AccrualLaws.AccrualKeepsValue(v, st.mode, e.rates[v.address], e.now);
  }

  lemma MoveKeepsRepresentable(
    st: State, e: Env, a: Address, user: Address, st': State, bTokens: int, shares: int)
    requires Representable(st) && Moved(st, e, a, user, st', bTokens, shares)
    requires BalancesFit(st'.vaults[a]) && SharesOf(st', a, user) <= st'.vaults[a].totalShares
    ensures Representable(st')
  {
    forall x, y
      ensures Fits(SharesOf(st', x, y))
    {
      assert Fits(SharesOf(st, x, y));
    }
  }

  lemma DepositKeepsRepresentable(st: State, e: Env, a: Address, user: Address, amount: int)
    requires Inv(st) && Representable(st) && Deposit(st, e, a, user, amount).Ok?
    ensures Representable(Deposit(st, e, a, user, amount).value.0)
  {
    var (st', r) := Deposit(st, e, a, user, amount).value;
    DepositOutcome(st, e, a, user, amount);
    UpdatedBalancesFit(st, e, a);
    HolderAfterMove(st, e, a, user, st', r.bTokens, r.shares);
    MintKeepsCover(st, e, a, user, amount);
    MoveKeepsRepresentable(st, e, a, user, st', r.bTokens, r.shares);
  }

  lemma WithdrawKeepsRepresentable(st: State, e: Env, a: Address, user: Address, amount: int)
    requires Inv(st) && Representable(st) && Withdraw(st, e, a, user, amount).Ok?
    ensures Representable(Withdraw(st, e, a, user, amount).value.0)
  {
    var (st', r) := Withdraw(st, e, a, user, amount).value;
    WithdrawOutcome(st, e, a, user, amount);
    UpdatedBalancesFit(st, e, a);
    HolderAfterMove(st, e, a, user, st', 0 - r.bTokens, 0 - r.shares);
    MoveKeepsRepresentable(st, e, a, user, st', 0 - r.bTokens, 0 - r.shares);
  }

  lemma HolderAfterMove(st: State, e: Env, a: Address, user: Address, st': State, bTokens: int, shares: int)
    requires Inv(st) && Moved(st, e, a, user, st', bTokens, shares)
    ensures SharesOf(st', a, user) <= st'.vaults[a].totalShares
  {
    UpdatedFacts(st, e, a);
    HolderWithinTotal(st, a, user);
  }

  lemma MintKeepsCover(st: State, e: Env, a: Address, user: Address, amount: int)
    requires Inv(st) && Deposit(st, e, a, user, amount).Ok?
    ensures var st' := Deposit(st, e, a, user, amount).value.0;
            a in st'.vaults && st'.vaults[a].totalBTokens <= st'.vaults[a].totalShares
  {
    var (st', r) := Deposit(st, e, a, user, amount).value;
    DepositKeepsInv(st, e, a, user, amount, st', r);
    assert a in st'.vaults ==> VaultOk(st', a);
  }

  lemma ClaimKeepsRepresentable(st: State, e: Env, a: Address)
    requires Inv(st) && Representable(st) && ClaimFees(st, e, a).Ok?
    ensures Representable(ClaimFees(st, e, a).value.0)
  {
    var st' := ClaimFees(st, e, a).value.0;
    UpdatedBalancesFit(st, e, a);
    forall x, y
      ensures Fits(SharesOf(st', x, y))
    {
      assert Fits(SharesOf(st, x, y));
    }
  }

  lemma FeeModeKeepsRepresentable(st: State, e: Env, isAprCapped: bool, value: int)
    requires Inv(st) && Representable(st) && SetFeeMode(st, e, isAprCapped, value).Ok?
    ensures Representable(SetFeeMode(st, e, isAprCapped, value).value)
  {
    var st' := SetFeeMode(st, e, isAprCapped, value).value;
    FeeModeOutcome(st, e, isAprCapped, value);
    forall a | a in st'.vaults
      ensures BalancesFit(st'.vaults[a])
    {
      UpdatedBalancesFit(st, e, a);
    }
    forall x, y
      ensures Fits(SharesOf(st', x, y))
    {
      assert Fits(SharesOf(st, x, y));
    }
  }

  lemma AddVaultKeepsRepresentable(st: State, e: Env, a: Address)
    requires Representable(st) && AddReserveVault(st, e, a).Ok?
    ensures Representable(AddReserveVault(st, e, a).value)
  {
    var st' := AddReserveVault(st, e, a).value;
    forall x, y
      ensures Fits(SharesOf(st', x, y))
    {
      assert Fits(SharesOf(st, x, y));
    }
  }

  lemma StepKeepsRepresentable(st: State, tx: Tx)
    requires Inv(st) && Representable(st)
    ensures Representable(Exec(st, tx))
  {
    var st' := Exec(st, tx);
    if Step(st, tx).Ok? {
      match tx.call
      case SetFeeModeCall(isAprCapped, value) => FeeModeKeepsRepresentable(st, tx.env, isAprCapped, value);
      case AddReserveVaultCall(reserve) => AddVaultKeepsRepresentable(st, tx.env, reserve);
      case ClaimFeesCall(reserve) => ClaimKeepsRepresentable(st, tx.env, reserve);
      case DepositCall(reserve, user, amount) => DepositKeepsRepresentable(st, tx.env, reserve, user, amount);
      case WithdrawCall(reserve, user, amount) => WithdrawKeepsRepresentable(st, tx.env, reserve, user, amount);
    }
  }

  lemma {:induction false} RunKeepsRepresentable(st: State, txs: seq<Tx>)
    requires Inv(st) && Representable(st)
    ensures Representable(Run(st, txs))
    decreases |txs|
  {
    if txs != [] {
      StepKeepsInv(st, txs[0]);
      StepKeepsRepresentable(st, txs[0]);
      RunKeepsRepresentable(Exec(st, txs[0]), txs[1..]);
    }
  }

  /** Every balance that a contract ever stores is an i128, whatever the rates and the clock:
      where an addition would leave it, the call fails instead. */
  lemma StoredNumbersFit(isAprCapped: bool, value: int, txs: seq<Tx>)
    requires Initialize(isAprCapped, value).Ok?
    ensures Representable(Run(Initialize(isAprCapped, value).value, txs))
  {
    RunKeepsRepresentable(Initialize(isAprCapped, value).value, txs);
  }
}
