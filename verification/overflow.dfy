/** On realistic runs no i128 operation overflows: rates that do not fall and lie between 1
    and 100, a clock that does not go back, and fewer than 2^59 bTokens. The share products
    are bounded only because a share never becomes worth less than when its vault was added. */
module Overflow {
  import opened Types
  import opened FixedPoint
  import opened Vaults
  import opened Ledger
  import opened ShareSums
  import opened ConversionLaws
  import opened Invariants
  import opened PoolMirror
  import Exits
  import Outcomes
  import AccrualLaws

  const TOKEN_LIMIT: int := 0x800_0000_0000_0000  // 2^59
  const RATE_LIMIT: int := 100 * SCALAR_12

  lemma ProductBelow(a: int, a': int, b: int, b': int)
    requires 0 <= a <= a' && 0 <= b <= b'
    ensures 0 <= a * b <= a' * b'
  {
    MulLe(a, a', b);
    MulLe(b, b', a');
  }

  // ---- One vault ----

  predicate Modest(v: Vault, base: Rate) {
    && Sound(v) && AboveBase(v, base)
    && SCALAR_12 <= base && v.bRate <= RATE_LIMIT
    && v.totalBTokens + v.accruedFees < TOKEN_LIMIT
  }

  /** There are at most a hundred shares to a bToken. */
  lemma SharesAreBounded(v: Vault, base: Rate)
    requires Modest(v, base)
    ensures v.totalShares <= 100 * v.totalBTokens
  {
    MulLe(SCALAR_12, base, v.totalShares);
    MulLe(v.bRate, RATE_LIMIT, v.totalBTokens);
    assert v.totalBTokens * RATE_LIMIT == 100 * v.totalBTokens * SCALAR_12;
    CancelLe(v.totalShares, 100 * v.totalBTokens, SCALAR_12);
  }

  lemma RateTakeFits(v: Vault, base: Rate, mode: FeeMode, newRate: Rate, now: Timestamp)
    requires Modest(v, base) && v.bRate < newRate <= RATE_LIMIT && !mode.isAprCapped
    ensures v.AdminTakeFits(mode, newRate, now)
  {
    var earned := v.totalBTokens * (newRate - v.bRate);
    var interest, cut := v.InterestDown(newRate), v.CutDown(mode.value, newRate);
    ProductBelow(v.totalBTokens, TOKEN_LIMIT, newRate - v.bRate, RATE_LIMIT);
    assert interest * SCALAR_12 <= earned;
    ProductBelow(interest, TOKEN_LIMIT * 100, mode.value, SCALAR_7);
    assert cut * SCALAR_7 <= interest * mode.value;
    MulLe(mode.value, SCALAR_7, interest);
    CancelLe(cut, interest, SCALAR_7);
  }

  lemma CapTakeArithmeticFits(v: Vault, base: Rate, cap: FeeValue, newRate: Rate, elapsed: nat)
    requires Modest(v, base) && v.bRate < newRate <= RATE_LIMIT && elapsed < 0x1_0000_0000_0000_0000
    ensures v.CapTakeFits(cap, newRate, elapsed)
  {
    var growth, target := TargetGrowthRate(cap, elapsed), v.TargetBRate(cap, elapsed);
    ProductBelow(100_000 * cap, 100_000 * SCALAR_7, elapsed, 0x1_0000_0000_0000_0000);
    GrowthBound(100_000 * cap * elapsed, growth);
    ProductBelow(v.bRate, RATE_LIMIT, growth, 1_000_000_000_000_000_000_000_000);
    if target < newRate {
      ProductBelow(v.totalBTokens, TOKEN_LIMIT, newRate - target, RATE_LIMIT);
    }
  }

  lemma GrowthBound(scaled: int, growth: int)
    requires 0 <= scaled <= 100_000 * SCALAR_7 * 0x1_0000_0000_0000_0000
    requires growth == FloorDiv(scaled, SECONDS_PER_YEAR) + SCALAR_12
    ensures 0 <= growth <= 1_000_000_000_000_000_000_000_000
  {
    FloorNonNegative(scaled, SECONDS_PER_YEAR);
  }

  /** No elapsed time is too long for an accrual to go through. */
  lemma AccrualFitsWhenModest(v: Vault, base: Rate, mode: FeeMode, newRate: Rate, now: Timestamp)
    requires Modest(v, base) && v.bRate <= newRate <= RATE_LIMIT && v.lastUpdate <= now
    ensures v.AccrualFits(mode, newRate, now)
    ensures Modest(v.Accrued(mode, newRate, now), base)
  {
    if v.bRate < newRate {
      if mode.isAprCapped {
        CapTakeArithmeticFits(v, base, mode.value, newRate, now - v.lastUpdate);
      } else {
        RateTakeFits(v, base, mode, newRate, now);
      }
    }
    AccrualLaws.AccrualKeepsValue(v, mode, newRate, now);
  }

  /** A mint or a burn for a bounded amount goes through. */
  lemma TradeFits(v: Vault, base: Rate, held: nat, amount: int)
    requires Modest(v, base) && held <= v.totalShares && 0 < amount < TOKEN_LIMIT
    ensures Mint(v, held, amount) != Err(ArithmeticError)
    ensures Burn(v, held, amount) != Err(ArithmeticError)
  {
    SharesAreBounded(v, base);
    var down, up := v.UnderlyingToBTokensDown(amount), v.UnderlyingToBTokensUp(amount);
    MulLe(SCALAR_12, v.bRate, amount);
    CeilAdjoint(amount, amount * SCALAR_12, v.bRate);
    CancelLe(down, amount, v.bRate);
    ProductBelow(up, TOKEN_LIMIT, v.totalShares, 100 * TOKEN_LIMIT);
    ProductBelow(down, TOKEN_LIMIT, v.totalShares, 100 * TOKEN_LIMIT);
    MintedBelow(v, down);
  }

  lemma MintedBelow(v: Vault, bTokens: nat)
    ensures v.Funded() ==> v.BTokensToSharesDown(bTokens) <= bTokens * v.totalShares
  {
    if v.Funded() {
      var shares := v.BTokensToSharesDown(bTokens);
      MulLe(1, v.totalBTokens, shares);
    }
  }

  lemma ViewsFit(v: Vault, base: Rate, held: nat)
    requires Modest(v, base) && held <= v.totalShares
    ensures InI128(held * v.totalBTokens) && InI128(v.Claim(held) * v.bRate) && InI128(v.accruedFees * v.bRate)
  {
    SharesAreBounded(v, base);
    ClaimOrdered(v, held, v.totalShares);
    FullClaim(v);
    ProductBelow(held, 100 * TOKEN_LIMIT, v.totalBTokens, TOKEN_LIMIT);
    ProductBelow(v.Claim(held), TOKEN_LIMIT, v.bRate, RATE_LIMIT);
    ProductBelow(v.accruedFees, TOKEN_LIMIT, v.bRate, RATE_LIMIT);
  }

  /** A withdrawal of everything fits, whatever its amount in underlying tokens. */
  lemma ModestProductsFit(v: Vault, base: Rate)
    requires Modest(v, base)
    ensures ProductsFit(v)
  {
    ViewsFit(v, base, v.totalShares);
    FullClaim(v);
  }

  // ---- The ledger ----

  predicate RatesInRange(e: Env) {
    forall a :: a in e.rates ==> SCALAR_12 <= e.rates[a] <= RATE_LIMIT
  }

  predicate ClockNotBehind(st: State, e: Env) {
    forall a :: a in st.vaults ==> st.vaults[a].lastUpdate <= e.now
  }

  ghost predicate AllModest(w: World) {
    && NeverDiluted(w)
    && forall a :: a in w.ledger.vaults ==> Modest(w.ledger.vaults[a], w.base[a])
  }

  predicate AmountInRange(call: Call) {
    (call.DepositCall? || call.WithdrawCall?) ==> call.amount < TOKEN_LIMIT
  }

  lemma UpdatedFits(w: World, e: Env, reserve: Address)
    requires AllModest(w) && SeesNoFall(w.ledger, e) && ClockNotBehind(w.ledger, e) && RatesInRange(e)
    ensures Updated(w.ledger, e, reserve) != Err(ArithmeticError)
    ensures Updated(w.ledger, e, reserve).Ok? ==> Modest(Updated(w.ledger, e, reserve).value, w.base[reserve])
  {
    if reserve in w.ledger.vaults && reserve in e.rates {
      var v := w.ledger.vaults[reserve];
      assert VaultOk(w.ledger, reserve) && Modest(v, w.base[reserve]);
      AccrualFitsWhenModest(v, w.base[reserve], w.ledger.mode, e.rates[reserve], e.now);
    }
  }

  lemma {:induction false} AccrueReservesFits(
    vaults: map<Address, Vault>, mode: FeeMode, e: Env, reserves: seq<Address>)
    requires NoDuplicates(reserves)
    requires forall a :: a in reserves ==> UpdatedIn(vaults, mode, e, a) != Err(ArithmeticError)
    ensures AccrueReserves(vaults, mode, e, reserves) != Err(ArithmeticError)
    decreases |reserves|
  {
    if reserves != [] {
      var first, rest := reserves[0], reserves[1..];
      var v := UpdatedIn(vaults, mode, e, first);
      assert first in reserves;
      if v.Ok? {
        forall a | a in rest
          ensures UpdatedIn(vaults[first := v.value], mode, e, a) != Err(ArithmeticError)
        {
          assert a in reserves && a != first;
        }
        AccrueReservesFits(vaults[first := v.value], mode, e, rest);
      }
    }
  }

  /** In such a state no call fails for arithmetic. */
  lemma NoArithmeticError(w: World, tx: Tx)
    requires AllModest(w) && SeesNoFall(w.ledger, tx.env) && ClockNotBehind(w.ledger, tx.env)
    requires RatesInRange(tx.env) && AmountInRange(tx.call)
    ensures Step(w.ledger, tx) != Err(ArithmeticError)
  {
    var st, e := w.ledger, tx.env;
    if tx.call.SetFeeModeCall? {
      forall a | a in st.reserves
        ensures UpdatedIn(st.vaults, st.mode, e, a) != Err(ArithmeticError)
      {
        UpdatedFits(w, e, a);
      }
      AccrueReservesFits(st.vaults, st.mode, e, st.reserves);
    } else if tx.call.ClaimFeesCall? {
      ClaimFits(w, e, tx.call.reserve);
    } else if !tx.call.AddReserveVaultCall? {
      TradeCallFits(w, e, tx.call.reserve, tx.call.user, tx.call.amount);
    }
  }

  lemma ClaimFits(w: World, e: Env, reserve: Address)
    requires AllModest(w) && SeesNoFall(w.ledger, e) && ClockNotBehind(w.ledger, e) && RatesInRange(e)
    ensures ClaimFees(w.ledger, e, reserve) != Err(ArithmeticError)
  {
    UpdatedFits(w, e, reserve);
    if Updated(w.ledger, e, reserve).Ok? {
      ViewsFit(Updated(w.ledger, e, reserve).value, w.base[reserve], 0);
    }
  }

  lemma TradeCallFits(w: World, e: Env, reserve: Address, user: Address, amount: int)
    requires AllModest(w) && SeesNoFall(w.ledger, e) && ClockNotBehind(w.ledger, e) && RatesInRange(e)
    requires amount < TOKEN_LIMIT
    ensures Deposit(w.ledger, e, reserve, user, amount) != Err(ArithmeticError)
    ensures Withdraw(w.ledger, e, reserve, user, amount) != Err(ArithmeticError)
  {
    UpdatedFits(w, e, reserve);
    if Updated(w.ledger, e, reserve).Ok? && 0 < amount {
      HolderWithinUpdated(w.ledger, e, reserve, user);
      TradeFits(Updated(w.ledger, e, reserve).value, w.base[reserve], SharesOf(w.ledger, reserve, user), amount);
    }
  }

  lemma HolderWithinUpdated(st: State, e: Env, reserve: Address, user: Address)
    requires Inv(st) && Updated(st, e, reserve).Ok?
    ensures SharesOf(st, reserve, user) <= Updated(st, e, reserve).value.totalShares
  {
    UpdatedFacts(st, e, reserve);
    HolderWithinTotal(st, reserve, user);
  }

  // The three views answer: with 0 for a reserve without a vault, and otherwise with what
  // the holder and the admin own on unbounded integers; only a reserve that the pool does
  // not list makes them panic.
  predicate ViewsAnswer(st: State, e: Env, reserve: Address, user: Address) {
    && (reserve !in st.vaults ==>
          GetBTokens(st, e, reserve, user) == GetUnderlyingTokens(st, e, reserve, user)
          == GetCollectedFees(st, e, reserve) == Ok(0))
    && (reserve in st.vaults && reserve in e.rates ==>
          && Updated(st, e, reserve).Ok?
          && var v := Updated(st, e, reserve).value;
          && GetBTokens(st, e, reserve, user) == Ok(v.Claim(SharesOf(st, reserve, user)))
          && GetUnderlyingTokens(st, e, reserve, user) == Ok(QuoteIn(st, e, reserve, user))
          && GetCollectedFees(st, e, reserve) == Ok(v.BTokensToUnderlyingDown(v.accruedFees)))
    && (reserve in st.vaults && reserve !in e.rates ==>
          && GetBTokens(st, e, reserve, user) == GetUnderlyingTokens(st, e, reserve, user)
             == (if SharesOf(st, reserve, user) == 0 then Ok(0) else Err(PoolError))
          && GetCollectedFees(st, e, reserve) == Err(PoolError))
  }

  /** And every view answers. */
  lemma ViewsAnswerWhenModest(w: World, e: Env, reserve: Address, user: Address)
    requires AllModest(w) && SeesNoFall(w.ledger, e) && ClockNotBehind(w.ledger, e) && RatesInRange(e)
    ensures ViewsAnswer(w.ledger, e, reserve, user)
  {
    var st := w.ledger;
    UpdatedFits(w, e, reserve);
    Outcomes.AccrualNeedsVaultAndRate(st, e, reserve);
    Outcomes.ViewOutcome(st, e, reserve, user);
    Outcomes.CollectedFeesOutcome(st, e, reserve);
    if Updated(st, e, reserve).Ok? {
      UpdatedFacts(st, e, reserve);
      HolderWithinTotal(st, reserve, user);
      var v := Updated(st, e, reserve).value;
      ViewsFit(v, w.base[reserve], SharesOf(st, reserve, user));
      ZeroQuote(v);
    }
  }

  // ---- Whole runs ----

  predicate ClockRises(txs: seq<Tx>) {
    forall i, j :: 0 <= i < j < |txs| ==> txs[i].env.now <= txs[j].env.now
  }

  // What a run needs to have kept for its next transaction to be free of overflow.
  ghost predicate Ready(w: World, txs: seq<Tx>) {
    && NeverDiluted(w)
    && (forall a :: a in w.ledger.vaults ==> SCALAR_12 <= w.base[a] && w.ledger.vaults[a].bRate <= RATE_LIMIT)
    && (forall i :: 0 <= i < |txs| ==> SeesNoFall(w.ledger, txs[i].env) && ClockNotBehind(w.ledger, txs[i].env))
  }

  lemma AdvanceStaysInRange(w: World, tx: Tx, a: Address)
    requires NeverDiluted(w) && RatesInRange(tx.env) && a in Advance(w, tx).ledger.vaults
    requires a in w.ledger.vaults ==> SCALAR_12 <= w.base[a] && w.ledger.vaults[a].bRate <= RATE_LIMIT
    ensures var w' := Advance(w, tx);
            a in w'.base ==> SCALAR_12 <= w'.base[a] && w'.ledger.vaults[a].bRate <= RATE_LIMIT
  {
    StepKeepsVaults(w.ledger, tx, a);
    StoredIsOldOrSeen(w.ledger, tx, a);
  }

  lemma AdvanceStaysBehind(st: State, tx: Tx, later: Env)
    requires Inv(st) && SeesNoFall(st, later) && ClockNotBehind(st, later) && tx.env.now <= later.now
    requires forall a :: a in tx.env.rates && a in later.rates ==> tx.env.rates[a] <= later.rates[a]
    ensures SeesNoFall(Exec(st, tx), later) && ClockNotBehind(Exec(st, tx), later)
  {
    forall a | a in Exec(st, tx).vaults
      ensures a in later.rates ==> Exec(st, tx).vaults[a].bRate <= later.rates[a]
      ensures Exec(st, tx).vaults[a].lastUpdate <= later.now
    {
      StoredIsOldOrSeen(st, tx, a);
    }
  }

  lemma AdvanceStaysReady(w: World, txs: seq<Tx>)
    requires txs != [] && Ready(w, txs) && PoolRises(txs) && ClockRises(txs) && RatesInRange(txs[0].env)
    ensures Ready(Advance(w, txs[0]), txs[1..])
  {
    var tx, w' := txs[0], Advance(w, txs[0]);
    assert SeesNoFall(w.ledger, tx.env);
    AdvanceKeepsShareValue(w, tx);
    forall a | a in w'.ledger.vaults
      ensures SCALAR_12 <= w'.base[a] && w'.ledger.vaults[a].bRate <= RATE_LIMIT
    {
      AdvanceStaysInRange(w, tx, a);
    }
    assert w'.ledger == Exec(w.ledger, tx);
    forall i | 0 <= i < |txs[1..]|
      ensures SeesNoFall(w'.ledger, txs[1..][i].env) && ClockNotBehind(w'.ledger, txs[1..][i].env)
    {
      assert txs[1..][i] == txs[i + 1] && SeesNoFall(w.ledger, txs[i + 1].env);
      AdvanceStaysBehind(w.ledger, tx, txs[i + 1].env);
    }
  }

  lemma {:induction false} RunStaysReady(w: World, txs: seq<Tx>, k: nat)
    requires k <= |txs| && Ready(w, txs) && PoolRises(txs) && ClockRises(txs)
    requires forall i :: 0 <= i < |txs| ==> RatesInRange(txs[i].env)
    ensures Ready(History(w, txs[..k]), txs[k..])
    decreases k
  {
    if k > 0 {
      var rest := txs[1..];
      AdvanceStaysReady(w, txs);
      assert PoolRises(rest) && ClockRises(rest);
      RunStaysReady(Advance(w, txs[0]), rest, k - 1);
      assert txs[..k][1..] == rest[..k - 1] && txs[k..] == rest[k - 1..];
    }
  }

  // The first k transactions of a run from construction on which the pool's rates do not
  // fall and stay between 1 and 100, and the clock does not go back, and after which each
  // vault accounts for fewer than 2^59 bTokens.
  ghost predicate Realistic(isAprCapped: bool, value: int, txs: seq<Tx>, k: nat) {
    && Initialize(isAprCapped, value).Ok? && k < |txs|
    && PoolRises(txs) && ClockRises(txs) && (forall i :: 0 <= i < |txs| ==> RatesInRange(txs[i].env))
    && var st := After(isAprCapped, value, txs, k);
       forall a :: a in st.vaults ==> st.vaults[a].totalBTokens + st.vaults[a].accruedFees < TOKEN_LIMIT
  }

  function After(isAprCapped: bool, value: int, txs: seq<Tx>, k: nat): State
    requires Initialize(isAprCapped, value).Ok? && k <= |txs|
  {
    Run(Initialize(isAprCapped, value).value, txs[..k])
  }

  lemma RealisticWorld(isAprCapped: bool, value: int, txs: seq<Tx>, k: nat) returns (w: World)
    requires Realistic(isAprCapped, value, txs, k)
    ensures w.ledger == After(isAprCapped, value, txs, k) && AllModest(w)
    ensures SeesNoFall(w.ledger, txs[k].env) && ClockNotBehind(w.ledger, txs[k].env) && RatesInRange(txs[k].env)
  {
    var start := Start(Initialize(isAprCapped, value).value);
    RunStaysReady(start, txs, k);
    HistoryIsRun(start, txs[..k]);
    w := History(start, txs[..k]);
    assert txs[k..][0] == txs[k];
    var st := After(isAprCapped, value, txs, k);
    forall a | a in w.ledger.vaults
      ensures Modest(w.ledger.vaults[a], w.base[a])
    {
      assert w.ledger == st && st.vaults[a].totalBTokens + st.vaults[a].accruedFees < TOKEN_LIMIT;
      ReadyIsModest(w, txs[k..], a);
    }
  }

  lemma ReadyIsModest(w: World, txs: seq<Tx>, a: Address)
    requires Ready(w, txs) && a in w.ledger.vaults
    requires w.ledger.vaults[a].totalBTokens + w.ledger.vaults[a].accruedFees < TOKEN_LIMIT
    ensures Modest(w.ledger.vaults[a], w.base[a])
  {
    assert VaultOk(w.ledger, a);
  }

  /** After a realistic run no transaction for a bounded amount fails for arithmetic, however
      much time has passed. */
  lemma RunsDoNotOverflow(isAprCapped: bool, value: int, txs: seq<Tx>, k: nat)
    requires Realistic(isAprCapped, value, txs, k) && AmountInRange(txs[k].call)
    ensures Step(After(isAprCapped, value, txs, k), txs[k]) != Err(ArithmeticError)
  {
    var w := RealisticWorld(isAprCapped, value, txs, k);
    NoArithmeticError(w, txs[k]);
  }

  /** And every view of a listed reserve answers, with the numbers that the laws are about. */
  lemma ViewsOfRunsAnswer(isAprCapped: bool, value: int, txs: seq<Tx>, k: nat, reserve: Address, user: Address)
    requires Realistic(isAprCapped, value, txs, k)
    ensures ViewsAnswer(After(isAprCapped, value, txs, k), txs[k].env, reserve, user)
  {
    var w := RealisticWorld(isAprCapped, value, txs, k);
    ViewsAnswerWhenModest(w, txs[k].env, reserve, user);
  }

  /** After a realistic run the view decides every withdrawal, and everyone can leave. */
  lemma EveryoneCanLeaveAfterRun(
    isAprCapped: bool, value: int, txs: seq<Tx>, k: nat, calls: seq<Call>, reserve: Address)
    requires Realistic(isAprCapped, value, txs, k)
    requires var st, e := After(isAprCapped, value, txs, k), txs[k].env;
             reserve in st.vaults && reserve in e.rates
    ensures var st, e := After(isAprCapped, value, txs, k), txs[k].env;
            && Updated(st, e, reserve).Ok?
            && (forall user, amount: nat :: 0 < amount ==>
                  (Withdraw(st, e, reserve, user, amount).Ok? <==> amount <= QuoteIn(st, e, reserve, user)))
            && (Exits.Withdrawals(calls, reserve) && Exits.WithinQuotes(st, e, reserve, calls) ==>
                  && Exits.AllSucceed(st, e, calls)
                  && var v := Updated(st, e, reserve).value;
                     Exits.Asked(calls) <= v.BTokensToUnderlyingDown(v.totalBTokens))
  {
    var w := RealisticWorld(isAprCapped, value, txs, k);
    EveryoneCanLeaveModestWorld(w, txs[k].env, calls, reserve);
  }

  lemma EveryoneCanLeaveModestWorld(w: World, e: Env, calls: seq<Call>, reserve: Address)
    requires AllModest(w) && SeesNoFall(w.ledger, e) && ClockNotBehind(w.ledger, e) && RatesInRange(e)
    requires reserve in w.ledger.vaults && reserve in e.rates
    ensures Updated(w.ledger, e, reserve).Ok?
    ensures forall user, amount: nat :: 0 < amount ==>
              (Withdraw(w.ledger, e, reserve, user, amount).Ok? <==> amount <= QuoteIn(w.ledger, e, reserve, user))
    ensures Exits.Withdrawals(calls, reserve) && Exits.WithinQuotes(w.ledger, e, reserve, calls) ==>
              && Exits.AllSucceed(w.ledger, e, calls)
              && var v := Updated(w.ledger, e, reserve).value;
                 Exits.Asked(calls) <= v.BTokensToUnderlyingDown(v.totalBTokens)
  {
    UpdatedFits(w, e, reserve);
    assert Updated(w.ledger, e, reserve).Ok? by { assert VaultOk(w.ledger, reserve); }
    ModestProductsFit(Updated(w.ledger, e, reserve).value, w.base[reserve]);
    forall user, amount: nat | 0 < amount
      ensures Withdraw(w.ledger, e, reserve, user, amount).Ok? <==> amount <= QuoteIn(w.ledger, e, reserve, user)
    {
      WithdrawDecidedByView(w.ledger, e, reserve, user, amount);
    }
    if Exits.Withdrawals(calls, reserve) && Exits.WithinQuotes(w.ledger, e, reserve, calls) {
      Exits.QuotesFit(w.ledger, e, calls, reserve);
      Exits.EveryoneCanLeave(w.ledger, e, calls, reserve);
    }
  }
}
