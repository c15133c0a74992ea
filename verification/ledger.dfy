/** The contract's storage and the outcome of every entry point, as functions: which state
    and result a call returns, or which panic aborts it. A call sees one pool rate per
    reserve and one ledger time. */
module Ledger {
  import opened Types
  import opened FixedPoint
  import opened Vaults

  datatype DepositKey = DepositKey(reserve: Address, user: Address)

  datatype State = State(
    mode: FeeMode,
    vaults: map<Address, Vault>,
    shares: map<DepositKey, nat>,
    reserves: seq<Address>)

  // What a transaction observes: the ledger time, and the rate of every asset the pool lists.
  datatype Env = Env(now: Timestamp, rates: map<Address, Rate>)

  // The bTokens and shares moved by a deposit or a withdrawal.
  datatype Receipt = Receipt(bTokens: nat, shares: nat)

  function SharesOf(st: State, reserve: Address, user: Address): nat {
    var key := DepositKey(reserve, user);
    if key in st.shares then st.shares[key] else 0
  }

  function WithPosition(st: State, reserve: Address, user: Address, v: Vault, shares: nat): State {
    st.(vaults := st.vaults[reserve := v], shares := st.shares[DepositKey(reserve, user) := shares])
  }

  // ---- One vault ----

  /** The vault brought up to date with the pool. */
  function Refreshed(v: Vault, mode: FeeMode, e: Env): Result<Vault> {
    if v.address !in e.rates then Err(PoolError)
    else if !v.AccrualFits(mode, e.rates[v.address], e.now) then Err(ArithmeticError)
    else Ok(v.Accrued(mode, e.rates[v.address], e.now))
  }

  function UpdatedIn(vaults: map<Address, Vault>, mode: FeeMode, e: Env, reserve: Address): Result<Vault> {
    if reserve !in vaults then Err(ReserveNotFound) else Refreshed(vaults[reserve], mode, e)
  }

  function Updated(st: State, e: Env, reserve: Address): Result<Vault> {
    UpdatedIn(st.vaults, st.mode, e, reserve)
  }

  // What a deposit of `amount` mints in an up-to-date vault, for a holder of `held` shares.
  function Mint(v: Vault, held: nat, amount: int): Result<Receipt> {
    if !InI128(amount * SCALAR_12) then Err(ArithmeticError)
    else
      var bTokens := v.UnderlyingToBTokensDown(amount);
      if bTokens <= 0 then Err(InvalidBTokensMinted)
      else if !v.SharesFits(bTokens) then Err(ArithmeticError)
      else
        var shares := v.BTokensToSharesDown(bTokens);
        if shares <= 0 then Err(InvalidSharesMinted)
        else if InI128(v.totalShares + shares) && InI128(v.totalBTokens + bTokens) && InI128(held + shares) then
          Ok(Receipt(bTokens, shares))
        else Err(ArithmeticError)
  }

  // What a withdrawal of `amount` burns.
  function Burn(v: Vault, held: nat, amount: int): Result<Receipt> {
    if !InI128(amount * SCALAR_12) then Err(ArithmeticError)
    else
      var bTokens := v.UnderlyingToBTokensUp(amount);
      if !v.SharesFits(bTokens) then Err(ArithmeticError)
      else
        var shares := v.BTokensToSharesUp(bTokens);
        if shares <= 0 then Err(InvalidBTokensBurnt)
        else if v.totalShares < shares || v.totalBTokens < bTokens then Err(InsufficientReserves)
        else if shares > held then Err(BalanceError)
        else Ok(Receipt(bTokens, shares))
  }

  // ---- Entry points that write ----

  function Initialize(isAprCapped: bool, value: int): Result<State> {
    if value < 0 || value > SCALAR_7 then Err(InvalidFeeModeValue)
    else Ok(State(FeeMode(isAprCapped, value), map[], map[], []))
  }

  function AccrueReserves(vaults: map<Address, Vault>, mode: FeeMode, e: Env, reserves: seq<Address>)
    : Result<map<Address, Vault>>
  {
    if reserves == [] then Ok(vaults)
    else
      var v :- UpdatedIn(vaults, mode, e, reserves[0]);
      AccrueReserves(vaults[reserves[0] := v], mode, e, reserves[1..])
  }

  function SetFeeMode(st: State, e: Env, isAprCapped: bool, value: int): Result<State> {
    if value < 0 || value > SCALAR_7 then Err(InvalidFeeModeValue)
    else
      var vaults :- AccrueReserves(st.vaults, st.mode, e, st.reserves);
      Ok(st.(vaults := vaults, mode := FeeMode(isAprCapped, value)))
  }

  function AddReserveVault(st: State, e: Env, reserve: Address): Result<State> {
    if reserve in st.vaults then Err(ReserveAlreadyExists)
    else if reserve !in e.rates then Err(PoolError)
    else
      Ok(st.(vaults := st.vaults[reserve := Vault(reserve, e.rates[reserve], e.now, 0, 0, 0)],
             reserves := st.reserves + [reserve]))
  }

  // The new state, the bTokens burnt, and the underlying amount withdrawn from the pool.
  function ClaimFees(st: State, e: Env, reserve: Address): Result<(State, nat, nat)> {
    var v :- Updated(st, e, reserve);
    if v.accruedFees <= 0 then Err(InsufficientAccruedFees)
    else if !InI128(v.accruedFees * v.bRate) then Err(ArithmeticError)
    else
      Ok((st.(vaults := st.vaults[reserve := v.(accruedFees := 0)]),
          v.accruedFees,
          v.BTokensToUnderlyingDown(v.accruedFees)))
  }

  function Deposit(st: State, e: Env, reserve: Address, user: Address, amount: int): Result<(State, Receipt)> {
    if reserve !in st.vaults then Err(ReserveNotFound)
    else if amount <= 0 then Err(InvalidAmount)
    else
      var v :- Updated(st, e, reserve);
      var held := SharesOf(st, reserve, user);
      var r :- Mint(v, held, amount);
      Ok((WithPosition(st, reserve, user, v.Minted(r.bTokens, r.shares), held + r.shares), r))
  }

  function Withdraw(st: State, e: Env, reserve: Address, user: Address, amount: int): Result<(State, Receipt)> {
    if reserve !in st.vaults then Err(ReserveNotFound)
    else if amount <= 0 then Err(InvalidAmount)
    else
      var v :- Updated(st, e, reserve);
      var held := SharesOf(st, reserve, user);
      var r :- Burn(v, held, amount);
      Ok((WithPosition(st, reserve, user, v.Burnt(r.bTokens, r.shares), held - r.shares), r))
  }

  // ---- Entry points that only read ----

  function GetBTokens(st: State, e: Env, reserve: Address, user: Address): Result<nat> {
    var held := SharesOf(st, reserve, user);
    if held == 0 then Ok(0)
    else
      var v :- Updated(st, e, reserve);
      if v.totalShares == 0 || !InI128(held * v.totalBTokens) then Err(ArithmeticError)
      else Ok(v.SharesToBTokensDown(held))
  }

  function GetUnderlyingTokens(st: State, e: Env, reserve: Address, user: Address): Result<nat> {
    var held := SharesOf(st, reserve, user);
    if held == 0 then Ok(0)
    else
      var bTokens :- GetBTokens(st, e, reserve, user);
      var v :- Updated(st, e, reserve);
      if !InI128(bTokens * v.bRate) then Err(ArithmeticError)
      else Ok(v.BTokensToUnderlyingDown(bTokens))
  }

  function GetCollectedFees(st: State, e: Env, reserve: Address): Result<nat> {
    if reserve !in st.vaults then Ok(0)
    else
      var v :- Updated(st, e, reserve);
      if !InI128(v.accruedFees * v.bRate) then Err(ArithmeticError)
      else Ok(v.BTokensToUnderlyingDown(v.accruedFees))
  }

  // ---- Transactions ----

  datatype Call =
    | SetFeeModeCall(isAprCapped: bool, value: int)
    | AddReserveVaultCall(reserve: Address)
    | ClaimFeesCall(reserve: Address)
    | DepositCall(reserve: Address, user: Address, amount: int)
    | WithdrawCall(reserve: Address, user: Address, amount: int)

  datatype Tx = Tx(env: Env, call: Call)

  function Step(st: State, tx: Tx): Result<State> {
    match tx.call
    case SetFeeModeCall(isAprCapped, value) => SetFeeMode(st, tx.env, isAprCapped, value)
    case AddReserveVaultCall(reserve) => AddReserveVault(st, tx.env, reserve)
    case ClaimFeesCall(reserve) => var r :- ClaimFees(st, tx.env, reserve); Ok(r.0)
    case DepositCall(reserve, user, amount) => var r :- Deposit(st, tx.env, reserve, user, amount); Ok(r.0)
    case WithdrawCall(reserve, user, amount) => var r :- Withdraw(st, tx.env, reserve, user, amount); Ok(r.0)
  }

  // A panic aborts the whole transaction: the state is as before.
  function Exec(st: State, tx: Tx): State {
    match Step(st, tx)
    case Ok(st') => st'
    case Err(_) => st
  }

  function Run(st: State, txs: seq<Tx>): State
    decreases |txs|
  {
    if txs == [] then st else Run(Exec(st, txs[0]), txs[1..])
  }
}
