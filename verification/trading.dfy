/** Runs at one observation of the pool: any number of calls that see the same rates and the
    same time. What a holder is quoted, what trading can and cannot gain, and who can leave. */
module Trading {
  import opened Types
  import opened FixedPoint
  import opened Vaults
  import opened Ledger
  import opened ShareSums
  import opened ConversionLaws
  import opened Invariants
  import AccrualLaws

  // Calls that all see the same observation.
  function At(e: Env, calls: seq<Call>): (txs: seq<Tx>)
    ensures |txs| == |calls|
  {
    if calls == [] then [] else [Tx(e, calls[0])] + At(e, calls[1..])
  }

  function RunAt(st: State, e: Env, calls: seq<Call>): State {
    Run(st, At(e, calls))
  }

  lemma RunAtStep(st: State, e: Env, calls: seq<Call>)
    requires calls != []
    ensures RunAt(st, e, calls) == RunAt(Exec(st, Tx(e, calls[0])), e, calls[1..])
  {
    assert At(e, calls)[1..] == At(e, calls[1..]);
  }

  predicate Trades(call: Call, reserve: Address, user: Address) {
    (call.DepositCall? || call.WithdrawCall?) && call.reserve == reserve && call.user == user
  }

  predicate Succeeds(st: State, e: Env, call: Call) {
    Step(st, Tx(e, call)).Ok?
  }

  // What a call pays into, and takes out of, a reserve if it succeeds.
  function In(st: State, e: Env, reserve: Address, call: Call): nat {
    if call.DepositCall? && call.reserve == reserve && Succeeds(st, e, call) then call.amount else 0
  }

  function Out(st: State, e: Env, reserve: Address, call: Call): nat {
    if call.WithdrawCall? && call.reserve == reserve && Succeeds(st, e, call) then call.amount else 0
  }

  function PaidIn(st: State, e: Env, reserve: Address, calls: seq<Call>): nat
    decreases |calls|
  {
    if calls == [] then 0
    else In(st, e, reserve, calls[0]) + PaidIn(Exec(st, Tx(e, calls[0])), e, reserve, calls[1..])
  }

  function PaidOut(st: State, e: Env, reserve: Address, calls: seq<Call>): nat
    decreases |calls|
  {
    if calls == [] then 0
    else Out(st, e, reserve, calls[0]) + PaidOut(Exec(st, Tx(e, calls[0])), e, reserve, calls[1..])
  }

  // ---- One call at a fixed observation ----

  /** A vault that was just written back is up to date. */
  lemma WrittenIsUpdated(st: State, e: Env, reserve: Address)
    requires reserve in st.vaults && st.vaults[reserve].address == reserve && reserve in e.rates
    requires st.vaults[reserve].bRate == e.rates[reserve] && st.vaults[reserve].lastUpdate == e.now
    ensures Updated(st, e, reserve) == Ok(st.vaults[reserve])
  {
  }

  lemma AfterDeposit(st: State, e: Env, reserve: Address, user: Address, amount: int, v: Vault, st': State, r: Receipt)
    requires Inv(st) && Updated(st, e, reserve) == Ok(v) && Deposit(st, e, reserve, user, amount) == Ok((st', r))
    ensures Updated(st', e, reserve) == Ok(v.Minted(r.bTokens, r.shares))
    ensures Inv(st') && MintReceipt(v, amount, r)
    ensures st' == AfterMint(st, reserve, user, v, r)
  {
    DepositParts(st, e, reserve, user, amount, st', r);
    DepositKeepsInv(st, e, reserve, user, amount, st', r);
    UpdatedFacts(st, e, reserve);
    WrittenIsUpdated(st', e, reserve);
  }

  lemma AfterWithdraw(st: State, e: Env, reserve: Address, user: Address, amount: int, v: Vault, st': State, r: Receipt)
    requires Inv(st) && Updated(st, e, reserve) == Ok(v) && Withdraw(st, e, reserve, user, amount) == Ok((st', r))
    ensures BurnReceipt(v, amount, r) && Updated(st', e, reserve) == Ok(v.Burnt(r.bTokens, r.shares))
    ensures Inv(st') && r.shares <= SharesOf(st, reserve, user)
    ensures st' == AfterBurn(st, reserve, user, v, r)
  {
    WithdrawParts(st, e, reserve, user, amount, st', r);
    WithdrawKeepsInv(st, e, reserve, user, amount, st', r);
    UpdatedFacts(st, e, reserve);
    WrittenIsUpdated(st', e, reserve);
  }

  lemma AfterClaim(st: State, e: Env, reserve: Address, v: Vault, st': State)
    requires Inv(st) && Updated(st, e, reserve) == Ok(v)
    requires ClaimFees(st, e, reserve).Ok? && st' == ClaimFees(st, e, reserve).value.0
    ensures Updated(st', e, reserve) == Ok(v.(accruedFees := 0)) && st'.shares == st.shares
  {
    UpdatedFacts(st, e, reserve);
    WrittenIsUpdated(st', e, reserve);
  }

  /** What any call at the same observation leaves of a reserve's vault: the rate, and at
      least the old value of every share. */
  lemma CallDoesNotDilute(st: State, e: Env, call: Call, reserve: Address, v: Vault)
    requires Inv(st) && Updated(st, e, reserve) == Ok(v)
    ensures var w := Updated(Exec(st, Tx(e, call)), e, reserve);
            w.Ok? && w.value.bRate == v.bRate && NotDiluted(v, w.value)
  {
    var tx := Tx(e, call);
    var st' := Exec(st, tx);
    UpdatedFacts(st, e, reserve);
    if Step(st, tx).Ok? {
      if call.SetFeeModeCall? {
        FeeModeChangeKeepsUpdated(st, e, call.isAprCapped, call.value, reserve);
      } else if call.reserve != reserve {
        OtherVaultsStay(st, tx, reserve);
      } else if call.ClaimFeesCall? {
        AfterClaim(st, e, reserve, v, st');
      } else if call.DepositCall? {
        var r := Deposit(st, e, reserve, call.user, call.amount).value.1;
        AfterDeposit(st, e, reserve, call.user, call.amount, v, st', r);
        MintIsSound(v, r.bTokens);
      } else {
        var r := Withdraw(st, e, reserve, call.user, call.amount).value.1;
        AfterWithdraw(st, e, reserve, call.user, call.amount, v, st', r);
        BurnIsSound(v, r.bTokens);
      }
    }
  }

  /** No successful or failed call lowers the value of a share, of any vault, when the rate
      it sees is not below the stored one. */
  lemma ShareValueNeverFalls(st: State, e: Env, call: Call, a: Address)
    requires Inv(st) && a in st.vaults
    requires a in e.rates ==> st.vaults[a].bRate <= e.rates[a]
    ensures a in Exec(st, Tx(e, call)).vaults
    ensures NotDevalued(st.vaults[a], Exec(st, Tx(e, call)).vaults[a])
  {
    var tx := Tx(e, call);
    var st' := Exec(st, tx);
    StepKeepsVaults(st, tx, a);
    if Step(st, tx).Ok? && (call.SetFeeModeCall? || call.reserve == a) {
      var v, w := st.vaults[a], st'.vaults[a];
      assert VaultOk(st, a);
      CalledVaultIsUpdated(st, e, call, a);
      var u := Updated(st, e, a).value;
      UpdatedFacts(st, e, a);
      CallDoesNotDilute(st, e, call, a, u);
      AccrualLaws.AccrualKeepsValue(v, st.mode, e.rates[a], e.now);
      AccruedThenUndiluted(v.totalShares, v.totalBTokens * v.bRate, u.totalBTokens, u.bRate,
                           w.totalShares, w.totalBTokens);
    } else if Step(st, tx).Ok? {
      OtherVaultsStay(st, tx, a);
    }
  }

  lemma CalledVaultIsUpdated(st: State, e: Env, call: Call, a: Address)
    requires Inv(st) && a in st.vaults && Step(st, Tx(e, call)).Ok?
    requires call.SetFeeModeCall? || call.reserve == a
    ensures var st' := Exec(st, Tx(e, call));
            && Updated(st, e, a).Ok? && a in st'.vaults && Updated(st', e, a) == Ok(st'.vaults[a])
  {
    var st' := Exec(st, Tx(e, call));
    if call.SetFeeModeCall? {
      FeeModeChangeAccrues(st, e, call.isAprCapped, call.value, st', a);
      FeeModeChangeKeepsUpdated(st, e, call.isAprCapped, call.value, a);
    } else {
      UpdatedFacts(st, e, a);
      WrittenIsUpdated(st', e, a);
    }
  }

  lemma AccruedThenUndiluted(s: nat, value: int, b: nat, rate: nat, s': nat, b': nat)
    requires value <= b * rate && s' * b <= s * b'
    ensures s' * value <= s * (b' * rate)
  {
    MulLe(value, b * rate, s');
    MulLe(s' * b, s * b', rate);
    assert s' * (b * rate) == s' * b * rate;
    assert s * (b' * rate) == s * b' * rate;
  }

  // ---- Bystanders ----

  lemma OthersKeepShares(st: State, e: Env, call: Call, reserve: Address, user: Address)
    requires !Trades(call, reserve, user)
    ensures SharesOf(Exec(st, Tx(e, call)), reserve, user) == SharesOf(st, reserve, user)
  {
    if SharesOf(Exec(st, Tx(e, call)), reserve, user) != SharesOf(st, reserve, user) {
      OtherPositionsStay(st, Tx(e, call), reserve, user);
    }
  }

  /** No call by anyone else lowers a holder's claim or quote. */
  lemma BystanderIsSafe(st: State, e: Env, call: Call, reserve: Address, user: Address)
    requires Inv(st) && Updated(st, e, reserve).Ok? && !Trades(call, reserve, user)
    ensures var st' := Exec(st, Tx(e, call));
            Inv(st') && Updated(st', e, reserve).Ok? && QuoteIn(st, e, reserve, user) <= QuoteIn(st', e, reserve, user)
  {
    var st', held := Exec(st, Tx(e, call)), SharesOf(st, reserve, user);
    var v := Updated(st, e, reserve).value;
    StepKeepsInv(st, Tx(e, call));
    CallDoesNotDilute(st, e, call, reserve, v);
    OthersKeepShares(st, e, call, reserve, user);
    var w := Updated(st', e, reserve).value;
    assert held <= w.totalShares by {
      UpdatedFacts(st', e, reserve);
      HolderWithinTotal(st', reserve, user);
    }
    ClaimMonotone(v, w, held);
    QuoteMonotone(v, w, held, held);
  }

  /** Nor does any number of them. */
  lemma {:induction false} BystanderIsSafeThroughout(
    st: State, e: Env, calls: seq<Call>, reserve: Address, user: Address)
    requires Inv(st) && Updated(st, e, reserve).Ok?
    requires forall call :: call in calls ==> !Trades(call, reserve, user)
    ensures var st' := RunAt(st, e, calls);
            Updated(st', e, reserve).Ok? && QuoteIn(st, e, reserve, user) <= QuoteIn(st', e, reserve, user)
    decreases |calls|
  {
    if calls != [] {
      RunAtStep(st, e, calls);
      BystanderIsSafe(st, e, calls[0], reserve, user);
      BystanderIsSafeThroughout(Exec(st, Tx(e, calls[0])), e, calls[1..], reserve, user);
    }
  }

  /** Across an accrual at a rate that did not fall, a holder's exact value does not fall and
      the rounded quote loses less than the value of one bToken. */
  lemma HolderAcrossAccrual(v: Vault, mode: FeeMode, newRate: Rate, now: Timestamp, held: nat)
    requires v.bRate <= newRate && v.ClockFits(mode, now)
    ensures var w := v.Accrued(mode, newRate, now);
            && held * v.totalBTokens * v.bRate <= held * w.totalBTokens * w.bRate
            && v.Quote(held) <= w.BTokensToUnderlyingDown(w.Claim(held) + 1)
  {
    AccrualLaws.AccrualKeepsValue(v, mode, newRate, now);
    HolderKeepsValue(v, v.Accrued(mode, newRate, now), held);
  }

  lemma HolderKeepsValue(v: Vault, w: Vault, held: nat)
    requires w.totalShares == v.totalShares && v.totalBTokens * v.bRate <= w.totalBTokens * w.bRate
    ensures held * v.totalBTokens * v.bRate <= held * w.totalBTokens * w.bRate
    ensures v.Quote(held) <= w.BTokensToUnderlyingDown(w.Claim(held) + 1)
  {
    ScaleProduct(v.totalBTokens, v.bRate, w.totalBTokens, w.bRate, held);
    if v.totalShares == 0 {
      ZeroQuote(v);
    } else {
      MulLe(v.totalBTokens * v.bRate, w.totalBTokens * w.bRate, v.totalShares);
      QuoteKeptWithinOneBToken(v, w, held);
    }
  }

  lemma ScaleProduct(b: int, r: int, b': int, r': int, k: nat)
    requires b * r <= b' * r'
    ensures k * b * r <= k * b' * r'
  {
    MulLe(b * r, b' * r', k);
  }

  /** The rounded quote itself can fall when the rate rises: one share in ten, worth one
      bToken of three units, is left with nothing after a fee of two bTokens. */
  lemma RoundedQuoteCanFall()
    ensures var v := Vault("asset", 3 * SCALAR_12, 0, 10, 10, 0);
            var w := v.Accrued(FeeMode(false, SCALAR_7), 4 * SCALAR_12, 0);
            v.Quote(1) == 3 && w.Quote(1) == 0
  {
    var v := Vault("asset", 3 * SCALAR_12, 0, 10, 10, 0);
    assert v.RateTake(SCALAR_7, 4 * SCALAR_12) == 2;
  }

  /** Exactly when a rise of the rate leaves the rounded quote no lower: when the bTokens that
      the old quote takes at the new rate, at the old number of shares, are covered by what
      the fee leaves of the vault. */
  lemma RoundedQuoteIsKeptExactlyWhenCovered(v: Vault, mode: FeeMode, newRate: Rate, now: Timestamp, held: nat)
    requires Sound(v) && held <= v.totalShares && v.bRate < newRate && v.ClockFits(mode, now)
    ensures var q, left := v.Quote(held), v.totalBTokens - v.AdminTake(mode, newRate, now);
            q <= v.Accrued(mode, newRate, now).Quote(held) <==>
              q == 0 || CeilDiv(q * SCALAR_12, newRate) * v.totalShares <= held * left
  {
    var w := v.Accrued(mode, newRate, now);
    if held == 0 {
      ZeroQuote(v);
    } else {
      QuoteReaches(w, held, v.Quote(held));
    }
  }

  lemma QuoteReaches(w: Vault, held: nat, quote: nat)
    requires held != 0 && w.totalShares != 0
    ensures quote <= w.Quote(held) <==> CeilDiv(quote * SCALAR_12, w.bRate) * w.totalShares <= held * w.totalBTokens
  {
    var needed := CeilDiv(quote * SCALAR_12, w.bRate);
    FloorAdjoint(quote, w.Claim(held) * w.bRate, SCALAR_12);
    CeilAdjoint(w.Claim(held), quote * SCALAR_12, w.bRate);
    FloorAdjoint(needed, held * w.totalBTokens, w.totalShares);
  }

  // ---- Trading does not pay ----

  lemma MintedQuote(v: Vault, held: nat, amount: int, r: Receipt, w: Vault, held': nat)
    requires Sound(v) && MintReceipt(v, amount, r) && held <= v.totalShares
    requires w == v.Minted(r.bTokens, r.shares) && held' == held + r.shares
    ensures w.Quote(held') <= v.Quote(held) + amount
  {
    DepositRaisesQuoteAtMostAmount(v, held, amount);
  }

  lemma BurntQuote(v: Vault, held: nat, amount: int, r: Receipt, w: Vault, held': nat)
    requires Sound(v) && BurnReceipt(v, amount, r) && held <= v.totalShares
    requires w == v.Burnt(r.bTokens, r.shares) && held' + r.shares == held
    ensures w.Quote(held') + amount <= v.Quote(held)
  {
    WithdrawalLowersQuoteAtLeastAmount(v, held, amount);
  }

  predicate TradesAmong(call: Call, reserve: Address, users: set<Address>) {
    (call.DepositCall? || call.WithdrawCall?) && call.reserve == reserve && call.user in users
  }

  // What a group would be quoted for all its shares together.
  ghost function PooledQuote(st: State, e: Env, reserve: Address, users: set<Address>): nat
    requires Updated(st, e, reserve).Ok?
  {
    Updated(st, e, reserve).value.Quote(Pooled(st, reserve, users))
  }

  lemma PooledAfterMint(st: State, reserve: Address, users: set<Address>, user: Address, v: Vault, r: Receipt)
    requires user in users
    ensures Pooled(AfterMint(st, reserve, user, v, r), reserve, users) == Pooled(st, reserve, users) + r.shares
  {
    PooledMoves(st, AfterMint(st, reserve, user, v, r), reserve, users, user, SharesOf(st, reserve, user) + r.shares);
  }

  lemma PooledAfterBurn(st: State, reserve: Address, users: set<Address>, user: Address, v: Vault, r: Receipt)
    requires user in users && r.shares <= SharesOf(st, reserve, user)
    requires r.bTokens <= v.totalBTokens && r.shares <= v.totalShares
    ensures Pooled(AfterBurn(st, reserve, user, v, r), reserve, users) + r.shares == Pooled(st, reserve, users)
  {
    PooledMoves(st, AfterBurn(st, reserve, user, v, r), reserve, users, user, SharesOf(st, reserve, user) - r.shares);
  }

  lemma DepositDoesNotPay(st: State, e: Env, reserve: Address, users: set<Address>, call: Call, st': State, r: Receipt)
    requires Inv(st) && Updated(st, e, reserve).Ok? && call.DepositCall? && TradesAmong(call, reserve, users)
    requires Deposit(st, e, reserve, call.user, call.amount) == Ok((st', r))
    ensures Inv(st') && Updated(st', e, reserve).Ok?
    ensures PooledQuote(st', e, reserve, users) <= PooledQuote(st, e, reserve, users) + call.amount
  {
    var v := Updated(st, e, reserve).value;
    UpdatedFacts(st, e, reserve);
    PooledBounds(st, reserve, users, call.user);
    AfterDeposit(st, e, reserve, call.user, call.amount, v, st', r);
    PooledAfterMint(st, reserve, users, call.user, v, r);
    MintedQuote(v, Pooled(st, reserve, users), call.amount, r,
                Updated(st', e, reserve).value, Pooled(st', reserve, users));
  }

  lemma WithdrawDoesNotPay(st: State, e: Env, reserve: Address, users: set<Address>, call: Call, st': State, r: Receipt)
    requires Inv(st) && Updated(st, e, reserve).Ok? && call.WithdrawCall? && TradesAmong(call, reserve, users)
    requires Withdraw(st, e, reserve, call.user, call.amount) == Ok((st', r))
    ensures Inv(st') && Updated(st', e, reserve).Ok?
    ensures PooledQuote(st', e, reserve, users) + call.amount <= PooledQuote(st, e, reserve, users)
  {
    var v := Updated(st, e, reserve).value;
    UpdatedFacts(st, e, reserve);
    PooledBounds(st, reserve, users, call.user);
    AfterWithdraw(st, e, reserve, call.user, call.amount, v, st', r);
    PooledAfterBurn(st, reserve, users, call.user, v, r);
    BurntQuote(v, Pooled(st, reserve, users), call.amount, r,
               Updated(st', e, reserve).value, Pooled(st', reserve, users));
  }

  lemma TradeDoesNotPay(st: State, e: Env, call: Call, reserve: Address, users: set<Address>)
    requires Inv(st) && Updated(st, e, reserve).Ok? && TradesAmong(call, reserve, users)
    ensures var st' := Exec(st, Tx(e, call));
            && Inv(st') && Updated(st', e, reserve).Ok?
            && PooledQuote(st', e, reserve, users) + Out(st, e, reserve, call)
               <= PooledQuote(st, e, reserve, users) + In(st, e, reserve, call)
  {
    var st' := Exec(st, Tx(e, call));
    if Succeeds(st, e, call) {
      if call.DepositCall? {
        var r := Deposit(st, e, reserve, call.user, call.amount).value.1;
        DepositDoesNotPay(st, e, reserve, users, call, st', r);
      } else {
        var r := Withdraw(st, e, reserve, call.user, call.amount).value.1;
        WithdrawDoesNotPay(st, e, reserve, users, call, st', r);
      }
    }
  }

  /** However a group of users deposits and withdraws, the final quote of their pooled shares
      and everything taken out come to no more than the initial one and everything paid in. */
  lemma {:induction false} NoProfitForAnyGroup(
    st: State, e: Env, calls: seq<Call>, reserve: Address, users: set<Address>)
    requires Inv(st) && Updated(st, e, reserve).Ok?
    requires forall call :: call in calls ==> TradesAmong(call, reserve, users)
    ensures var st' := RunAt(st, e, calls);
            && Updated(st', e, reserve).Ok?
            && PooledQuote(st', e, reserve, users) + PaidOut(st, e, reserve, calls)
               <= PooledQuote(st, e, reserve, users) + PaidIn(st, e, reserve, calls)
    decreases |calls|
  {
    if calls != [] {
      RunAtStep(st, e, calls);
      TradeDoesNotPay(st, e, calls[0], reserve, users);
      NoProfitForAnyGroup(Exec(st, Tx(e, calls[0])), e, calls[1..], reserve, users);
    }
  }

  /** In particular one user's own quote gains nothing. */
  lemma NoProfitFromChurning(st: State, e: Env, calls: seq<Call>, reserve: Address, user: Address)
    requires Inv(st) && Updated(st, e, reserve).Ok?
    requires forall call :: call in calls ==> Trades(call, reserve, user)
    ensures var st' := RunAt(st, e, calls);
            && Updated(st', e, reserve).Ok?
            && QuoteIn(st', e, reserve, user) + PaidOut(st, e, reserve, calls)
               <= QuoteIn(st, e, reserve, user) + PaidIn(st, e, reserve, calls)
  {
    NoProfitForAnyGroup(st, e, calls, reserve, {user});
    PoolOfOne(st, reserve, user);
    PoolOfOne(RunAt(st, e, calls), reserve, user);
  }

  // ---- Splitting does not help ----

  // How a vault looks after trades in one direction only: no dilution, and no more bTokens
  // in, no fewer out, than the amounts are worth.
  predicate Grown(v: Vault, w: Vault, paidIn: nat) {
    && w.bRate == v.bRate && Sound(w)
    && v.totalShares <= w.totalShares && v.totalBTokens <= w.totalBTokens
    && (w.totalBTokens - v.totalBTokens) * v.bRate <= paidIn * SCALAR_12
    && NotDiluted(v, w) && (!v.Funded() ==> w.totalShares == w.totalBTokens)
  }

  predicate Shrunk(v: Vault, w: Vault, paidOut: nat) {
    && w.bRate == v.bRate && Sound(w)
    && w.totalShares <= v.totalShares && w.totalBTokens <= v.totalBTokens
    && paidOut * SCALAR_12 <= (v.totalBTokens - w.totalBTokens) * v.bRate
    && NotDiluted(v, w)
  }

  lemma DilutionChain(s: nat, b: nat, s1: nat, b1: nat, s2: nat, b2: nat)
    requires 0 < b1 && s1 * b <= s * b1 && s2 * b1 <= s1 * b2
    ensures s2 * b <= s * b2
  {
    MulLe(s2 * b1, s1 * b2, b);
    MulLe(s1 * b, s * b1, b2);
    assert s2 * b1 * b == (s2 * b) * b1;
    assert s1 * b2 * b == s1 * b * b2;
    assert s * b1 * b2 == (s * b2) * b1;
    CancelLe(s2 * b, s * b2, b1);
  }

  lemma GrownChain(v: Vault, v1: Vault, w: Vault, x: nat, y: nat)
    requires Sound(v) && Grown(v, v1, x) && Grown(v1, w, y)
    ensures Grown(v, w, x + y)
  {
    Distribute(v1.totalBTokens - v.totalBTokens, w.totalBTokens - v1.totalBTokens, v.bRate);
    if v.Funded() {
      DilutionChain(v.totalShares, v.totalBTokens, v1.totalShares, v1.totalBTokens, w.totalShares, w.totalBTokens);
    } else if v1.Funded() {
      assert w.totalShares * v1.totalBTokens <= v1.totalBTokens * w.totalBTokens;
      CancelLe(w.totalShares, w.totalBTokens, v1.totalBTokens);
    }
  }

  lemma ShrunkChain(v: Vault, v1: Vault, w: Vault, x: nat, y: nat)
    requires Sound(v) && Shrunk(v, v1, x) && Shrunk(v1, w, y)
    ensures Shrunk(v, w, x + y)
  {
    Distribute(v.totalBTokens - v1.totalBTokens, v1.totalBTokens - w.totalBTokens, v.bRate);
    if 0 < v1.totalBTokens {
      DilutionChain(v.totalShares, v.totalBTokens, v1.totalShares, v1.totalBTokens, w.totalShares, w.totalBTokens);
    }
  }

  lemma MintGrows(v: Vault, amount: int, r: Receipt)
    requires Sound(v) && MintReceipt(v, amount, r)
    ensures Grown(v, v.Minted(r.bTokens, r.shares), amount)
  {
    MintIsSound(v, r.bTokens);
  }

  lemma BurnShrinks(v: Vault, amount: int, r: Receipt)
    requires Sound(v) && BurnReceipt(v, amount, r)
    ensures Shrunk(v, v.Burnt(r.bTokens, r.shares), amount)
  {
    BurnIsSound(v, r.bTokens);
  }

  lemma {:induction false} DepositsGrow(st: State, e: Env, calls: seq<Call>, reserve: Address, v: Vault)
    requires Inv(st) && Updated(st, e, reserve) == Ok(v)
    requires forall call :: call in calls ==> call.DepositCall? && call.reserve == reserve
    ensures var w := Updated(RunAt(st, e, calls), e, reserve);
            w.Ok? && Grown(v, w.value, PaidIn(st, e, reserve, calls))
    decreases |calls|
  {
    UpdatedFacts(st, e, reserve);
    if calls != [] {
      RunAtStep(st, e, calls);
      var call, st1 := calls[0], Exec(st, Tx(e, calls[0]));
      if Succeeds(st, e, call) {
        var r := Deposit(st, e, reserve, call.user, call.amount).value.1;
        AfterDeposit(st, e, reserve, call.user, call.amount, v, st1, r);
        var v1 := v.Minted(r.bTokens, r.shares);
        MintGrows(v, call.amount, r);
        DepositsGrow(st1, e, calls[1..], reserve, v1);
        var w := Updated(RunAt(st1, e, calls[1..]), e, reserve).value;
        GrownChain(v, v1, w, call.amount, PaidIn(st1, e, reserve, calls[1..]));
      } else {
        DepositsGrow(st, e, calls[1..], reserve, v);
      }
    }
  }

  lemma {:induction false} WithdrawalsShrink(st: State, e: Env, calls: seq<Call>, reserve: Address, v: Vault)
    requires Inv(st) && Updated(st, e, reserve) == Ok(v)
    requires forall call :: call in calls ==> call.WithdrawCall? && call.reserve == reserve
    ensures var w := Updated(RunAt(st, e, calls), e, reserve);
            w.Ok? && Shrunk(v, w.value, PaidOut(st, e, reserve, calls))
    decreases |calls|
  {
    UpdatedFacts(st, e, reserve);
    if calls != [] {
      RunAtStep(st, e, calls);
      var call, st1 := calls[0], Exec(st, Tx(e, calls[0]));
      if Succeeds(st, e, call) {
        var r := Withdraw(st, e, reserve, call.user, call.amount).value.1;
        AfterWithdraw(st, e, reserve, call.user, call.amount, v, st1, r);
        var v1 := v.Burnt(r.bTokens, r.shares);
        BurnShrinks(v, call.amount, r);
        WithdrawalsShrink(st1, e, calls[1..], reserve, v1);
        var w := Updated(RunAt(st1, e, calls[1..]), e, reserve).value;
        ShrunkChain(v, v1, w, call.amount, PaidOut(st1, e, reserve, calls[1..]));
      } else {
        WithdrawalsShrink(st, e, calls[1..], reserve, v);
      }
    }
  }

  /** Any number of deposits, by anyone, mint together at most the shares of a single deposit
      of the sum. */
  lemma SplittingDepositsDoesNotHelp(st: State, e: Env, calls: seq<Call>, reserve: Address)
    requires Inv(st) && Updated(st, e, reserve).Ok?
    requires forall call :: call in calls ==> call.DepositCall? && call.reserve == reserve
    ensures var v := Updated(st, e, reserve).value;
            var w := Updated(RunAt(st, e, calls), e, reserve);
            && w.Ok?
            && w.value.totalShares - v.totalShares
               <= v.BTokensToSharesDown(v.UnderlyingToBTokensDown(PaidIn(st, e, reserve, calls)))
  {
    var v := Updated(st, e, reserve).value;
    UpdatedFacts(st, e, reserve);
    DepositsGrow(st, e, calls, reserve, v);
    GrownAtMostSingle(v, Updated(RunAt(st, e, calls), e, reserve).value, PaidIn(st, e, reserve, calls));
  }

  /** Without dilution, shares move by at most the price of the bTokens that move. */
  lemma UndilutedMove(s: int, b: int, shares: int, bTokens: int)
    requires (s + shares) * b <= s * (b + bTokens)
    ensures shares * b <= bTokens * s
  {
    Distribute(s, shares, b);
    Distribute(b, bTokens, s);
  }

  lemma GrownAtMostSingle(v: Vault, w: Vault, paidIn: nat)
    requires Sound(v) && Grown(v, w, paidIn)
    ensures w.totalShares - v.totalShares <= v.BTokensToSharesDown(v.UnderlyingToBTokensDown(paidIn))
  {
    var bTokens := v.UnderlyingToBTokensDown(paidIn);
    var grown, minted := w.totalBTokens - v.totalBTokens, w.totalShares - v.totalShares;
    FloorAdjoint(grown, paidIn * SCALAR_12, v.bRate);
    if v.Funded() {
      UndilutedMove(v.totalShares, v.totalBTokens, minted, grown);
      MulLe(grown, bTokens, v.totalShares);
      FloorAdjoint(minted, bTokens * v.totalShares, v.totalBTokens);
    }
  }

  /** Any number of withdrawals burn together at least the shares of a single withdrawal of the sum. */
  lemma SplittingWithdrawalsDoesNotHelp(st: State, e: Env, calls: seq<Call>, reserve: Address)
    requires Inv(st) && Updated(st, e, reserve).Ok?
    requires forall call :: call in calls ==> call.WithdrawCall? && call.reserve == reserve
    ensures var v := Updated(st, e, reserve).value;
            var w := Updated(RunAt(st, e, calls), e, reserve);
            && w.Ok?
            && v.BTokensToSharesUp(v.UnderlyingToBTokensUp(PaidOut(st, e, reserve, calls)))
               <= v.totalShares - w.value.totalShares
  {
    var v := Updated(st, e, reserve).value;
    UpdatedFacts(st, e, reserve);
    WithdrawalsShrink(st, e, calls, reserve, v);
    ShrunkAtLeastSingle(v, Updated(RunAt(st, e, calls), e, reserve).value, PaidOut(st, e, reserve, calls));
  }

  lemma ShrunkAtLeastSingle(v: Vault, w: Vault, paidOut: nat)
    requires Sound(v) && Shrunk(v, w, paidOut)
    ensures v.BTokensToSharesUp(v.UnderlyingToBTokensUp(paidOut)) <= v.totalShares - w.totalShares
  {
    var bTokens := v.UnderlyingToBTokensUp(paidOut);
    var gone: int, burnt: int := v.totalBTokens - w.totalBTokens, v.totalShares - w.totalShares;
    CeilAdjoint(gone, paidOut * SCALAR_12, v.bRate);
    if v.Funded() {
      assert gone * v.totalShares <= burnt * v.totalBTokens by {
        UndilutedMove(v.totalShares, v.totalBTokens, 0 - burnt, 0 - gone);
      }
      MulLe(bTokens, gone, v.totalShares);
      BurnsAtMost(v, bTokens, burnt);
    }
  }

  lemma BurnsAtMost(v: Vault, bTokens: int, burnt: int)
    requires v.Funded() && bTokens * v.totalShares <= burnt * v.totalBTokens
    ensures v.BTokensToSharesUp(bTokens) <= burnt
  {
    CeilAdjoint(burnt, bTokens * v.totalShares, v.totalBTokens);
  }
}
