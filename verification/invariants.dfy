/** What holds in every state the contract can reach, whatever the pool's rates and the
    clock do, and what that says about the entry points. */
module Invariants {
  import opened Types
  import opened FixedPoint
  import opened Vaults
  import opened Ledger
  import opened ShareSums
  import opened ConversionLaws
  import AccrualLaws

  predicate NoDuplicates(reserves: seq<Address>) {
    forall i, j :: 0 <= i < j < |reserves| ==> reserves[i] != reserves[j]
  }

  ghost predicate VaultOk(st: State, a: Address)
    requires a in st.vaults
  {
    && st.vaults[a].address == a
    && Sound(st.vaults[a])
    && TotalShares(st, a) == st.vaults[a].totalShares
  }

  /** Vaults are sound, shares are conserved, and the reserves list names each vault once. */
  ghost predicate Inv(st: State) {
    && (forall a :: a in st.vaults ==> VaultOk(st, a))
    && (forall key :: key in st.shares ==> key.reserve in st.vaults)
    && NoDuplicates(st.reserves)
    && (forall a :: a in st.reserves <==> a in st.vaults)
  }

  // ---- Accrual within the ledger ----

  lemma RefreshedIsSound(v: Vault, mode: FeeMode, e: Env)
    requires Sound(v) && Refreshed(v, mode, e).Ok?
    ensures var w := Refreshed(v, mode, e).value;
            Sound(w) && w.address == v.address && w.totalShares == v.totalShares
            && w.bRate == e.rates[v.address] && w.lastUpdate == e.now
            && w.totalBTokens + w.accruedFees == v.totalBTokens + v.accruedFees
  {
    AccrualLaws.AccrualKeepsValue(v, mode, e.rates[v.address], e.now);
  }

  /** The accrual loop rewrites each listed vault once, with its own pending accrual, and
      fails only if one of them does. */
  lemma {:induction false} AccrueReservesPointwise(
    vaults: map<Address, Vault>, mode: FeeMode, e: Env, reserves: seq<Address>)
    requires NoDuplicates(reserves)
    requires forall a :: a in reserves ==> a in vaults
    ensures var r := AccrueReserves(vaults, mode, e, reserves);
            && (r.Ok? <==> forall a :: a in reserves ==> Refreshed(vaults[a], mode, e).Ok?)
            && (r.Ok? ==>
                  && r.value.Keys == vaults.Keys
                  && forall a :: a in vaults ==>
                       if a in reserves then Refreshed(vaults[a], mode, e) == Ok(r.value[a])
                       else r.value[a] == vaults[a])
    decreases |reserves|
  {
    if reserves != [] {
      var first, rest := reserves[0], reserves[1..];
      assert forall a :: a in reserves <==> a == first || a in rest;
      assert first !in rest;
      var v := UpdatedIn(vaults, mode, e, first);
      if v.Ok? {
        AccrueReservesPointwise(vaults[first := v.value], mode, e, rest);
      }
    }
  }

  // ---- Every call keeps the invariant ----

  lemma ReplaceVaultKeepsInv(st: State, reserve: Address, v: Vault)
    requires Inv(st) && reserve in st.vaults
    requires v.address == reserve && Sound(v) && v.totalShares == st.vaults[reserve].totalShares
    ensures Inv(st.(vaults := st.vaults[reserve := v]))
  {
    var st' := st.(vaults := st.vaults[reserve := v]);
    forall a | a in st'.vaults
      ensures VaultOk(st', a)
    {
      assert VaultOk(st, a);
    }
  }

  lemma MovePositionKeepsInv(st: State, reserve: Address, user: Address, v: Vault, held: nat, st': State)
    requires Inv(st) && reserve in st.vaults && v.address == reserve && Sound(v)
    requires v.totalShares + SharesOf(st, reserve, user) == st.vaults[reserve].totalShares + held
    requires st' == WithPosition(st, reserve, user, v, held)
    ensures Inv(st')
  {
    forall a | a in st'.vaults
      ensures VaultOk(st', a)
    {
      assert VaultOk(st, a);
      Update(st.shares, DepositKey(reserve, user), held, a, Identity());
    }
  }

  // `v` can stand for the vault of `reserve` in the state.
  ghost predicate Current(st: State, reserve: Address, v: Vault) {
    && reserve in st.vaults
    && v.address == reserve
    && Sound(v)
    && v.totalShares == st.vaults[reserve].totalShares == TotalShares(st, reserve)
  }

  lemma UpdatedFacts(st: State, e: Env, reserve: Address)
    requires Inv(st) && Updated(st, e, reserve).Ok?
    ensures var v := Updated(st, e, reserve).value;
            && Current(st, reserve, v) && reserve in e.rates
            && v.bRate == e.rates[reserve] && v.lastUpdate == e.now
            && v.totalBTokens + v.accruedFees == st.vaults[reserve].totalBTokens + st.vaults[reserve].accruedFees
  {
    assert VaultOk(st, reserve);
    RefreshedIsSound(st.vaults[reserve], st.mode, e);
  }

  // The states that minting and burning lead to.
  function AfterMint(st: State, reserve: Address, user: Address, v: Vault, r: Receipt): State {
    WithPosition(st, reserve, user, v.Minted(r.bTokens, r.shares), SharesOf(st, reserve, user) + r.shares)
  }

  function AfterBurn(st: State, reserve: Address, user: Address, v: Vault, r: Receipt): State
    requires r.bTokens <= v.totalBTokens && r.shares <= v.totalShares && r.shares <= SharesOf(st, reserve, user)
  {
    WithPosition(st, reserve, user, v.Burnt(r.bTokens, r.shares), SharesOf(st, reserve, user) - r.shares)
  }

  predicate MintReceipt(v: Vault, amount: int, r: Receipt) {
    && 0 < amount
    && r.bTokens == v.UnderlyingToBTokensDown(amount) && 0 < r.bTokens
    && r.shares == v.BTokensToSharesDown(r.bTokens) && 0 < r.shares
  }

  predicate BurnReceipt(v: Vault, amount: int, r: Receipt) {
    && 0 < amount
    && r.bTokens == v.UnderlyingToBTokensUp(amount) && 0 < r.bTokens <= v.totalBTokens
    && r.shares == v.BTokensToSharesUp(r.bTokens) && 0 < r.shares <= v.totalShares
  }

  /** What a successful deposit did. */
  lemma DepositParts(st: State, e: Env, reserve: Address, user: Address, amount: int, st': State, r: Receipt)
    requires Deposit(st, e, reserve, user, amount) == Ok((st', r))
    ensures Updated(st, e, reserve).Ok?
    ensures MintReceipt(Updated(st, e, reserve).value, amount, r)
    ensures st' == AfterMint(st, reserve, user, Updated(st, e, reserve).value, r)
  {
  }

  /** What a successful withdrawal did. */
  lemma WithdrawParts(st: State, e: Env, reserve: Address, user: Address, amount: int, st': State, r: Receipt)
    requires Withdraw(st, e, reserve, user, amount) == Ok((st', r))
    ensures Updated(st, e, reserve).Ok?
    ensures BurnReceipt(Updated(st, e, reserve).value, amount, r)
    ensures r.shares <= SharesOf(st, reserve, user)
    ensures st' == AfterBurn(st, reserve, user, Updated(st, e, reserve).value, r)
  {
  }

  lemma DepositKeepsInv(st: State, e: Env, reserve: Address, user: Address, amount: int, st': State, r: Receipt)
    requires Inv(st) && Deposit(st, e, reserve, user, amount) == Ok((st', r))
    ensures Inv(st')
  {
    DepositParts(st, e, reserve, user, amount, st', r);
    UpdatedFacts(st, e, reserve);
    MintKeepsInv(st, reserve, user, Updated(st, e, reserve).value, amount, r, st');
  }

  lemma MintKeepsInv(st: State, reserve: Address, user: Address, v: Vault, amount: int, r: Receipt, st': State)
    requires Inv(st) && Current(st, reserve, v) && MintReceipt(v, amount, r)
    requires st' == AfterMint(st, reserve, user, v, r)
    ensures Inv(st')
  {
    MintIsSound(v, r.bTokens);
    MovePositionKeepsInv(st, reserve, user, v.Minted(r.bTokens, r.shares), SharesOf(st, reserve, user) + r.shares, st');
  }

  lemma WithdrawKeepsInv(st: State, e: Env, reserve: Address, user: Address, amount: int, st': State, r: Receipt)
    requires Inv(st) && Withdraw(st, e, reserve, user, amount) == Ok((st', r))
    ensures Inv(st')
  {
    WithdrawParts(st, e, reserve, user, amount, st', r);
    UpdatedFacts(st, e, reserve);
    var v := Updated(st, e, reserve).value;
    BurnIsSound(v, r.bTokens);
    MovePositionKeepsInv(st, reserve, user, v.Burnt(r.bTokens, r.shares), SharesOf(st, reserve, user) - r.shares, st');
  }

  lemma ClaimFeesKeepsInv(st: State, e: Env, reserve: Address, st': State)
    requires Inv(st) && ClaimFees(st, e, reserve).Ok? && ClaimFees(st, e, reserve).value.0 == st'
    ensures Inv(st')
  {
    UpdatedFacts(st, e, reserve);
    ReplaceVaultKeepsInv(st, reserve, Updated(st, e, reserve).value.(accruedFees := 0));
  }

  lemma SetFeeModeKeepsInv(st: State, e: Env, isAprCapped: bool, value: int)
    requires Inv(st) && SetFeeMode(st, e, isAprCapped, value).Ok?
    ensures var st' := SetFeeMode(st, e, isAprCapped, value).value;
            Inv(st') && forall a :: a in st.vaults ==> a in st'.vaults && Updated(st, e, a) == Ok(st'.vaults[a])
  {
    var st' := SetFeeMode(st, e, isAprCapped, value).value;
    AccrueReservesPointwise(st.vaults, st.mode, e, st.reserves);
    forall a | a in st'.vaults
      ensures VaultOk(st', a)
    {
      UpdatedFacts(st, e, a);
    }
  }

  lemma FeeModeChangeAccrues(st: State, e: Env, isAprCapped: bool, value: int, st': State, a: Address)
    requires Inv(st) && SetFeeMode(st, e, isAprCapped, value) == Ok(st') && a in st.vaults
    ensures a in st'.vaults && Updated(st, e, a) == Ok(st'.vaults[a])
    ensures st'.vaults[a].totalBTokens + st'.vaults[a].accruedFees
            == st.vaults[a].totalBTokens + st.vaults[a].accruedFees
  {
    AccrueReservesPointwise(st.vaults, st.mode, e, st.reserves);
    UpdatedFacts(st, e, a);
  }

  lemma AddReserveVaultKeepsInv(st: State, e: Env, reserve: Address)
    requires Inv(st) && AddReserveVault(st, e, reserve).Ok?
    ensures Inv(AddReserveVault(st, e, reserve).value)
  {
    var st' := AddReserveVault(st, e, reserve).value;
    forall a | a in st'.vaults
      ensures VaultOk(st', a)
    {
      if a == reserve {
        SumOfNone(st.shares, reserve, Identity());
      } else {
        assert VaultOk(st, a);
      }
    }
  }

  lemma StepKeepsInv(st: State, tx: Tx)
    requires Inv(st)
    ensures Inv(Exec(st, tx))
  {
    var st' := Exec(st, tx);
    if Step(st, tx).Ok? {
      match tx.call
      case SetFeeModeCall(isAprCapped, value) => SetFeeModeKeepsInv(st, tx.env, isAprCapped, value);
      case AddReserveVaultCall(reserve) => AddReserveVaultKeepsInv(st, tx.env, reserve);
      case ClaimFeesCall(reserve) => ClaimFeesKeepsInv(st, tx.env, reserve, st');
      case DepositCall(reserve, user, amount) =>
        DepositKeepsInv(st, tx.env, reserve, user, amount, st', Deposit(st, tx.env, reserve, user, amount).value.1);
      case WithdrawCall(reserve, user, amount) =>
        WithdrawKeepsInv(st, tx.env, reserve, user, amount, st', Withdraw(st, tx.env, reserve, user, amount).value.1);
    }
  }

  /** Vaults are never removed, and a new one starts empty. */
  lemma StepKeepsVaults(st: State, tx: Tx, a: Address)
    requires Inv(st)
    ensures a in st.vaults ==> a in Exec(st, tx).vaults
    ensures a !in st.vaults && a in Exec(st, tx).vaults ==>
              && Step(st, tx).Ok? && tx.call == AddReserveVaultCall(a) && a in tx.env.rates
              && Exec(st, tx).vaults[a] == Vault(a, tx.env.rates[a], tx.env.now, 0, 0, 0)
  {
    if Step(st, tx).Ok? {
      if tx.call.SetFeeModeCall? {
        AccrueReservesPointwise(st.vaults, st.mode, tx.env, st.reserves);
      } else if tx.call.reserve != a {
        OtherVaultsStay(st, tx, a);
      }
    }
  }

  lemma {:induction false} RunKeepsInv(st: State, txs: seq<Tx>)
    requires Inv(st)
    ensures Inv(Run(st, txs))
    decreases |txs|
  {
    if txs != [] {
      StepKeepsInv(st, txs[0]);
      RunKeepsInv(Exec(st, txs[0]), txs[1..]);
    }
  }

  /** Every state reachable from a constructed contract satisfies the invariant. */
  lemma ReachableStatesAreSound(isAprCapped: bool, value: int, txs: seq<Tx>)
    requires Initialize(isAprCapped, value).Ok?
    ensures Inv(Run(Initialize(isAprCapped, value).value, txs))
  {
    RunKeepsInv(Initialize(isAprCapped, value).value, txs);
  }

  // ---- Solvency ----

  ghost function ClaimOf(v: Vault): nat -> nat {
    (held: nat) => v.Claim(held)
  }

  ghost function QuoteOf(v: Vault): nat -> nat {
    (held: nat) => v.Quote(held)
  }

  /** All holders' bToken claims together fit in the vault, and all their quotes together
      with the collected fees are worth no more than the bTokens behind them. */
  lemma Solvency(st: State, e: Env, reserve: Address)
    requires Inv(st) && Updated(st, e, reserve).Ok?
    ensures var v := Updated(st, e, reserve).value;
            && SumOver(st.shares, reserve, ClaimOf(v)) <= v.totalBTokens
            && SumOver(st.shares, reserve, QuoteOf(v)) + v.BTokensToUnderlyingDown(v.accruedFees)
               <= v.BTokensToUnderlyingDown(v.totalBTokens + v.accruedFees)
  {
    UpdatedFacts(st, e, reserve);
    VaultCoversHolders(st.shares, reserve, Updated(st, e, reserve).value);
  }

  lemma VaultCoversHolders(shares: map<DepositKey, nat>, reserve: Address, v: Vault)
    requires Sound(v) && SumOver(shares, reserve, Identity()) == v.totalShares
    ensures SumOver(shares, reserve, ClaimOf(v)) <= v.totalBTokens
    ensures SumOver(shares, reserve, QuoteOf(v)) + v.BTokensToUnderlyingDown(v.accruedFees)
            <= v.BTokensToUnderlyingDown(v.totalBTokens + v.accruedFees)
  {
    FullClaim(v);
    RoundingIsSuperadditive(v);
    SumOfParts(shares, reserve, ClaimOf(v));
    SumOfParts(shares, reserve, QuoteOf(v));
    UnderlyingSuperadditive(v, v.totalBTokens, v.accruedFees);
  }

  lemma RoundingIsSuperadditive(v: Vault)
    ensures Superadditive(ClaimOf(v)) && Superadditive(QuoteOf(v))
  {
    ZeroQuote(v);
    forall x: nat, y: nat
      ensures ClaimOf(v)(x) + ClaimOf(v)(y) <= ClaimOf(v)(x + y)
    {
      ClaimSuperadditive(v, x, y);
    }
    forall x: nat, y: nat
      ensures QuoteOf(v)(x) + QuoteOf(v)(y) <= QuoteOf(v)(x + y)
    {
      ClaimSuperadditive(v, x, y);
    }
  }

  // ---- Exactness of the views ----

  // What the holder would be quoted, on unbounded integers.
  function QuoteIn(st: State, e: Env, reserve: Address, user: Address): nat
    requires Updated(st, e, reserve).Ok?
  {
    Updated(st, e, reserve).value.Quote(SharesOf(st, reserve, user))
  }

  lemma ViewIsQuote(st: State, e: Env, reserve: Address, user: Address)
    requires Inv(st) && Updated(st, e, reserve).Ok? && GetUnderlyingTokens(st, e, reserve, user).Ok?
    ensures GetUnderlyingTokens(st, e, reserve, user) == Ok(QuoteIn(st, e, reserve, user))
  {
    var v := Updated(st, e, reserve).value;
    ZeroQuote(v);
  }

  /** The outcome of every withdrawal: it panics in arithmetic exactly when its products leave
      i128, and is otherwise decided by the views. It succeeds exactly up to the holder's
      quote, lacks balance above it, and lacks reserves above what the whole vault is worth. */
  lemma WithdrawExactlyUpToQuote(st: State, e: Env, reserve: Address, user: Address, amount: nat)
    requires Inv(st) && Updated(st, e, reserve).Ok? && 0 < amount
    ensures var v := Updated(st, e, reserve).value;
            var r := Withdraw(st, e, reserve, user, amount);
            var quote, worth := QuoteIn(st, e, reserve, user), v.BTokensToUnderlyingDown(v.totalBTokens);
            && (r == Err(ArithmeticError) <==> !v.WithdrawalFits(amount))
            && (v.WithdrawalFits(amount) ==>
                  && (r.Ok? <==> amount <= quote)
                  && (r == Err(BalanceError) <==> quote < amount <= worth)
                  && (r == Err(InsufficientReserves) <==> worth < amount))
  {
    UpdatedFacts(st, e, reserve);
    HolderWithinTotal(st, reserve, user);
    var v, held := Updated(st, e, reserve).value, SharesOf(st, reserve, user);
    BurnOutcome(v, held, amount);
  }

  lemma BurnOutcome(v: Vault, held: nat, amount: nat)
    requires Sound(v) && held <= v.totalShares && 0 < amount
    ensures var r := Burn(v, held, amount);
            var quote, worth := v.Quote(held), v.BTokensToUnderlyingDown(v.totalBTokens);
            && (r == Err(ArithmeticError) <==> !v.WithdrawalFits(amount))
            && (v.WithdrawalFits(amount) ==>
                  && (r.Ok? <==> amount <= quote)
                  && (r == Err(BalanceError) <==> quote < amount <= worth)
                  && (r == Err(InsufficientReserves) <==> worth < amount))
  {
    WithdrawalCostsQuote(v, amount, held);
    WithdrawalCostsQuote(v, amount, v.totalShares);
    FullClaim(v);
    BurnCoverage(v, v.UnderlyingToBTokensUp(amount));
    ClaimOrdered(v, held, v.totalShares);
  }

  // Whether the two products of a withdrawal of everything stay within i128.
  predicate ProductsFit(v: Vault) {
    InI128(v.totalBTokens * v.totalShares) && InI128(v.totalBTokens * v.bRate)
  }

  lemma QuoteFits(v: Vault, held: nat, amount: nat)
    requires Sound(v) && ProductsFit(v) && held <= v.totalShares && 0 < amount <= v.Quote(held)
    ensures v.WithdrawalFits(amount)
  {
    var bTokens := v.UnderlyingToBTokensUp(amount);
    assert bTokens <= v.totalBTokens by {
      WithdrawalCostsQuote(v, amount, held);
      BurnCoverage(v, bTokens);
    }
    ClaimOrdered(v, held, v.totalShares);
    FullClaim(v);
    MulLe(bTokens, v.totalBTokens, v.totalShares);
    MulLe(v.Claim(held), v.totalBTokens, v.bRate);
    MulLe(amount, v.Quote(held), SCALAR_12);
  }

  /** Where a withdrawal of everything stays within i128, the view decides with no further
      condition: a withdrawal succeeds exactly up to the quote. */
  lemma WithdrawDecidedByView(st: State, e: Env, reserve: Address, user: Address, amount: nat)
    requires Inv(st) && Updated(st, e, reserve).Ok? && ProductsFit(Updated(st, e, reserve).value) && 0 < amount
    ensures Withdraw(st, e, reserve, user, amount).Ok? <==> amount <= QuoteIn(st, e, reserve, user)
  {
    WithdrawExactlyUpToQuote(st, e, reserve, user, amount);
    if amount <= QuoteIn(st, e, reserve, user) {
      UpdatedFacts(st, e, reserve);
      HolderWithinTotal(st, reserve, user);
      QuoteFits(Updated(st, e, reserve).value, SharesOf(st, reserve, user), amount);
    }
  }

  /** The outcome of every deposit: it panics in arithmetic exactly when one of its products or
      sums leaves i128, and otherwise succeeds exactly when it is worth at least one bToken. */
  lemma DepositExactlyFromOneBToken(st: State, e: Env, reserve: Address, user: Address, amount: nat)
    requires Inv(st) && Updated(st, e, reserve).Ok? && 0 < amount
    ensures var v := Updated(st, e, reserve).value;
            var r := Deposit(st, e, reserve, user, amount);
            var fits := v.DepositFits(SharesOf(st, reserve, user), amount);
            && (r == Err(ArithmeticError) <==> !fits)
            && (fits ==> (r.Ok? <==> v.bRate <= amount * SCALAR_12))
            && (fits ==> (r == Err(InvalidBTokensMinted) <==> amount * SCALAR_12 < v.bRate))
  {
    UpdatedFacts(st, e, reserve);
    MintOutcome(Updated(st, e, reserve).value, SharesOf(st, reserve, user), amount);
  }

  lemma MintOutcome(v: Vault, held: nat, amount: nat)
    requires Sound(v) && 0 < amount
    ensures var r := Mint(v, held, amount);
            var fits := v.DepositFits(held, amount);
            && (r == Err(ArithmeticError) <==> !fits)
            && (fits ==> (r.Ok? <==> v.bRate <= amount * SCALAR_12))
            && (fits ==> (r == Err(InvalidBTokensMinted) <==> amount * SCALAR_12 < v.bRate))
  {
    FloorAdjoint(1, amount * SCALAR_12, v.bRate);
    var bTokens := v.UnderlyingToBTokensDown(amount);
    if bTokens > 0 {
      MintIsSound(v, bTokens);
    }
  }

  /** A deposit that mints any bTokens mints at least as many shares, so it is never refused
      for minting none; and a withdrawal is never refused for burning none. */
  lemma SharesChecksAreUnreachable(st: State, e: Env, reserve: Address, user: Address, amount: int)
    requires Inv(st)
    ensures Deposit(st, e, reserve, user, amount) != Err(InvalidSharesMinted)
    ensures Withdraw(st, e, reserve, user, amount) != Err(InvalidBTokensBurnt)
    ensures Deposit(st, e, reserve, user, amount).Ok? ==>
              var r := Deposit(st, e, reserve, user, amount).value.1; 0 < r.bTokens <= r.shares
  {
    if amount > 0 && Updated(st, e, reserve).Ok? {
      UpdatedFacts(st, e, reserve);
      var v := Updated(st, e, reserve).value;
      var bTokens := v.UnderlyingToBTokensDown(amount);
      if bTokens > 0 {
        MintIsSound(v, bTokens);
      }
    }
  }

  /** The admin is paid exactly the collected fees the view shows, and can claim exactly when
      there are any bTokens to claim. */
  lemma ClaimPaysCollectedFees(st: State, e: Env, reserve: Address)
    requires Inv(st) && GetCollectedFees(st, e, reserve).Ok? && reserve in st.vaults
    ensures var v := Updated(st, e, reserve);
            var r := ClaimFees(st, e, reserve);
            && v.Ok?
            && (r.Ok? <==> v.value.accruedFees > 0)
            && (r.Ok? ==> Ok(r.value.2) == GetCollectedFees(st, e, reserve)
                          && GetCollectedFees(r.value.0, e, reserve) == Ok(0))
  {
    UpdatedFacts(st, e, reserve);
    var r := ClaimFees(st, e, reserve);
    if r.Ok? {
      var v := Updated(st, e, reserve).value;
      assert Updated(r.value.0, e, reserve) == Ok(v.(accruedFees := 0));
      FloorAdjoint(1, 0, SCALAR_12);
    }
  }

  // ---- What a call leaves alone ----

  /** Only a fee-mode change, and a call about its own reserve, touch a vault or the mode. */
  lemma OtherVaultsStay(st: State, tx: Tx, a: Address)
    requires !tx.call.SetFeeModeCall?
    ensures var st' := Exec(st, tx);
            && st'.mode == st.mode
            && (tx.call.reserve != a ==>
                  && (a in st'.vaults <==> a in st.vaults)
                  && (a in st.vaults ==> st'.vaults[a] == st.vaults[a]))
  {
  }

  /** A position changes only when its own holder deposits into, or withdraws from, its reserve. */
  lemma OtherPositionsStay(st: State, tx: Tx, a: Address, holder: Address)
    requires SharesOf(Exec(st, tx), a, holder) != SharesOf(st, a, holder)
    ensures tx.call.DepositCall? || tx.call.WithdrawCall?
    ensures tx.call.reserve == a && tx.call.user == holder
  {
  }

  lemma FeeModeChangeKeepsUpdated(st: State, e: Env, isAprCapped: bool, value: int, reserve: Address)
    requires Inv(st) && SetFeeMode(st, e, isAprCapped, value).Ok?
    ensures Updated(SetFeeMode(st, e, isAprCapped, value).value, e, reserve) == Updated(st, e, reserve)
  {
    SetFeeModeKeepsInv(st, e, isAprCapped, value);
    AccrueReservesPointwise(st.vaults, st.mode, e, st.reserves);
    var st' := SetFeeMode(st, e, isAprCapped, value).value;
    if reserve in st.vaults {
      UpdatedFacts(st, e, reserve);
      AccrualLaws.AccrualIsIdempotent(st.vaults[reserve], st.mode, e.rates[reserve], e.now, st'.mode);
    }
  }

  /** A fee-mode change is not retroactive: at the moment of the change every quote and every
      collected fee is the same under the old mode, accrual pending, and under the new. */
  lemma FeeModeChangeIsNotRetroactive(st: State, e: Env, isAprCapped: bool, value: int, reserve: Address, user: Address)
    requires Inv(st) && SetFeeMode(st, e, isAprCapped, value).Ok?
    ensures var st' := SetFeeMode(st, e, isAprCapped, value).value;
            && Updated(st', e, reserve) == Updated(st, e, reserve)
            && GetBTokens(st', e, reserve, user) == GetBTokens(st, e, reserve, user)
            && GetUnderlyingTokens(st', e, reserve, user) == GetUnderlyingTokens(st, e, reserve, user)
            && GetCollectedFees(st', e, reserve) == GetCollectedFees(st, e, reserve)
            && st'.mode == FeeMode(isAprCapped, value) && st'.shares == st.shares
  {
    FeeModeChangeKeepsUpdated(st, e, isAprCapped, value, reserve);
    assert reserve in st.vaults <==> reserve in SetFeeMode(st, e, isAprCapped, value).value.vaults by {
      AccrueReservesPointwise(st.vaults, st.mode, e, st.reserves);
    }
  }
}
