/** The contract as it runs: a working copy of a vault that is updated in place, and the
    storage that the entry points rewrite step by step in checked i128 arithmetic. Each
    method is proved to have exactly the outcome that the Ledger functions describe. */
module Contract {
  import opened Types
  import opened FixedPoint
  import opened Vaults
  import Ledger

  /** A vault loaded from storage. Changes reach storage only when its record is written back. */
  class ReserveVault {
    const address: Address
    var bRate: Rate
    var lastUpdateTimestamp: Timestamp
    var totalShares: nat
    var totalBTokens: nat
    var accruedFees: nat

    function Record(): Vault
      reads this
    {
      Vault(address, bRate, lastUpdateTimestamp, totalShares, totalBTokens, accruedFees)
    }

    constructor Load(v: Vault)
      ensures Record() == v
    {
      address, bRate, lastUpdateTimestamp := v.address, v.bRate, v.lastUpdate;
      totalShares, totalBTokens, accruedFees := v.totalShares, v.totalBTokens, v.accruedFees;
    }

    method BTokensToSharesDown(amount: int) returns (r: Result<int>)
      ensures r == if Record().SharesFits(amount) then Ok(Record().BTokensToSharesDown(amount))
                   else Err(ArithmeticError)
    {
      if totalShares == 0 || totalBTokens == 0 {
        return Ok(amount);
      }
      r := FixedMulFloor(amount, totalShares, totalBTokens);
    }

    method BTokensToSharesUp(amount: int) returns (r: Result<int>)
      ensures r == if Record().SharesFits(amount) then Ok(Record().BTokensToSharesUp(amount))
                   else Err(ArithmeticError)
    {
      if totalShares == 0 || totalBTokens == 0 {
        return Ok(amount);
      }
      r := FixedMulCeil(amount, totalShares, totalBTokens);
    }

    method SharesToBTokensDown(amount: nat) returns (r: Result<nat>)
      ensures r == if totalShares == 0 || !InI128(amount * totalBTokens) then Err(ArithmeticError)
                   else Ok(Record().SharesToBTokensDown(amount))
    {
      var bTokens :- FixedDivFloor(amount, totalShares, totalBTokens);
      assert bTokens == Record().SharesToBTokensDown(amount);
      return Ok(bTokens);
    }

    method BTokensToUnderlyingDown(amount: nat) returns (r: Result<nat>)
      ensures r == if InI128(amount * bRate) then Ok(Record().BTokensToUnderlyingDown(amount))
                   else Err(ArithmeticError)
    {
      var underlying :- FixedMulFloor(amount, bRate, SCALAR_12);
      assert underlying == Record().BTokensToUnderlyingDown(amount);
      return Ok(underlying);
    }

    method UnderlyingToBTokensDown(amount: int) returns (r: Result<int>)
      ensures r == if InI128(amount * SCALAR_12) then Ok(Record().UnderlyingToBTokensDown(amount))
                   else Err(ArithmeticError)
    {
      r := FixedDivFloor(amount, bRate, SCALAR_12);
    }

    method UnderlyingToBTokensUp(amount: int) returns (r: Result<int>)
      ensures r == if InI128(amount * SCALAR_12) then Ok(Record().UnderlyingToBTokensUp(amount))
                   else Err(ArithmeticError)
    {
      r := FixedDivCeil(amount, bRate, SCALAR_12);
    }

    /** Brings the rate up to date and moves the admin's part of the interest to the fees.
        On an error the working copy is abandoned. */
    method UpdateRate(e: Ledger.Env, mode: FeeMode) returns (r: Result<()>)
      modifies this
      ensures match Ledger.Refreshed(old(Record()), mode, e)
              case Ok(v) => r == Ok(()) && Record() == v
              case Err(error) => r == Err(error)
    {
      if address !in e.rates {
        return Err(PoolError);
      }
      var newRate := e.rates[address];
      if newRate <= bRate {
        lastUpdateTimestamp := e.now;
        bRate := newRate;
        return Ok(());
      }

      ghost var before := Record();
      var take: int;
      if mode.isAprCapped {
        if e.now < lastUpdateTimestamp {
          return Err(ArithmeticError);
        }
        var timeElapsed := e.now - lastUpdateTimestamp;
        var scaledApr :- CheckedI128(100_000 * mode.value * timeElapsed);
        var targetGrowthRate := FloorDiv(scaledApr, SECONDS_PER_YEAR) + SCALAR_12;
        assert targetGrowthRate == TargetGrowthRate(mode.value, timeElapsed);
        var targetBRate :- FixedMulCeil(bRate, targetGrowthRate, SCALAR_12);
        if targetBRate >= newRate {
          take := 0;
        } else {
          take :- FixedMulFloor(totalBTokens, newRate - targetBRate, newRate);
        }
      } else {
        var interest :- FixedMulFloor(totalBTokens, newRate - bRate, SCALAR_12);
        var cut :- FixedMulFloor(interest, mode.value, SCALAR_7);
        take :- FixedDivFloor(cut, newRate, SCALAR_12);
      }
      assert take == before.AdminTake(mode, newRate, e.now);

      lastUpdateTimestamp := e.now;
      bRate := newRate;
      if take <= 0 {
        return Ok(());
      }
      totalBTokens := totalBTokens - take;
      accruedFees :- CheckedI128(accruedFees + take);
      return Ok(());
    }

    /** Mints for a deposit by a holder of `held` shares. */
    method Mint(held: nat, amount: int) returns (r: Result<Ledger.Receipt>)
      modifies this
      ensures r == Ledger.Mint(old(Record()), held, amount)
      ensures Record() == if r.Ok? then old(Record()).Minted(r.value.bTokens, r.value.shares) else old(Record())
    {
      var bTokens :- UnderlyingToBTokensDown(amount);
      if bTokens <= 0 {
        return Err(InvalidBTokensMinted);
      }
      var shares :- BTokensToSharesDown(bTokens);
      if shares <= 0 {
        return Err(InvalidSharesMinted);
      }
      var shares' :- CheckedI128(totalShares + shares);
      var bTokens' :- CheckedI128(totalBTokens + bTokens);
      var _ :- CheckedI128(held + shares);
      totalShares, totalBTokens := shares', bTokens';
      return Ok(Ledger.Receipt(bTokens, shares));
    }

    /** Burns for a withdrawal by a holder of `held` shares. */
    method Burn(held: nat, amount: int) returns (r: Result<Ledger.Receipt>)
      modifies this
      ensures r == Ledger.Burn(old(Record()), held, amount)
      ensures r.Ok? ==> r.value.shares <= held
      ensures r.Ok? ==> r.value.shares <= old(totalShares) && r.value.bTokens <= old(totalBTokens)
      ensures Record() == if r.Ok? then old(Record()).Burnt(r.value.bTokens, r.value.shares) else old(Record())
    {
      var bTokens :- UnderlyingToBTokensUp(amount);
      var shares :- BTokensToSharesUp(bTokens);
      if shares <= 0 {
        return Err(InvalidBTokensBurnt);
      }
      if totalShares < shares || totalBTokens < bTokens {
        return Err(InsufficientReserves);
      }
      if shares > held {
        return Err(BalanceError);
      }
      totalShares, totalBTokens := totalShares - shares, totalBTokens - bTokens;
      return Ok(Ledger.Receipt(bTokens, shares));
    }
  }

  /** The contract's storage and its entry points. */
  class FeeVault {
    var feeMode: FeeMode
    var vaults: map<Address, Vault>
    var shares: map<Ledger.DepositKey, nat>
    var reserves: seq<Address>

    function Snapshot(): Ledger.State
      reads this
    {
      Ledger.State(feeMode, vaults, shares, reserves)
    }

    // Every vault is stored under its own address.
    predicate Valid()
      reads this
    {
      forall a :: a in vaults ==> vaults[a].address == a
    }

    constructor (mode: FeeMode)
      ensures Valid() && Snapshot() == Ledger.State(mode, map[], map[], [])
    {
      feeMode, vaults, shares, reserves := mode, map[], map[], [];
    }

    static method Construct(isAprCapped: bool, value: int) returns (r: Result<FeeVault>)
      ensures match Ledger.Initialize(isAprCapped, value)
              case Ok(st) => r.Ok? && fresh(r.value) && r.value.Valid() && r.value.Snapshot() == st
              case Err(error) => r == Err(error)
    {
      if value < 0 || value > SCALAR_7 {
        return Err(InvalidFeeModeValue);
      }
      var vault := new FeeVault(FeeMode(isAprCapped, value));
      return Ok(vault);
    }

    // ---- Storage ----

    method GetReserveVaultUpdated(e: Ledger.Env, reserve: Address) returns (r: Result<ReserveVault>)
      requires Valid()
      ensures match Ledger.Updated(Snapshot(), e, reserve)
              case Ok(v) => r.Ok? && fresh(r.value) && r.value.Record() == v && v.address == reserve
              case Err(error) => r == Err(error)
    {
      if reserve !in vaults {
        return Err(ReserveNotFound);
      }
      var vault := new ReserveVault.Load(vaults[reserve]);
      var _ :- vault.UpdateRate(e, feeMode);
      return Ok(vault);
    }

    method SetReserveVault(vault: ReserveVault)
      requires Valid()
      modifies this`vaults
      ensures Valid() && vaults == old(vaults)[vault.address := vault.Record()]
    {
      vaults := vaults[vault.address := vault.Record()];
    }

    method GetShares(reserve: Address, user: Address) returns (r: nat)
      ensures r == Ledger.SharesOf(Snapshot(), reserve, user)
    {
      var key := Ledger.DepositKey(reserve, user);
      r := if key in shares then shares[key] else 0;
    }

    // ---- Views ----

    method GetBTokens(e: Ledger.Env, reserve: Address, user: Address) returns (r: Result<nat>)
      requires Valid()
      ensures r == Ledger.GetBTokens(Snapshot(), e, reserve, user)
    {
      var held := GetShares(reserve, user);
      if held == 0 {
        return Ok(0);
      }
      var vault :- GetReserveVaultUpdated(e, reserve);
      var bTokens :- vault.SharesToBTokensDown(held);
      return Ok(bTokens);
    }

    method GetUnderlyingTokens(e: Ledger.Env, reserve: Address, user: Address) returns (r: Result<nat>)
      requires Valid()
      ensures r == Ledger.GetUnderlyingTokens(Snapshot(), e, reserve, user)
    {
      var held := GetShares(reserve, user);
      if held == 0 {
        return Ok(0);
      }
      var vault :- GetReserveVaultUpdated(e, reserve);
      var bTokens :- vault.SharesToBTokensDown(held);
      var underlying :- vault.BTokensToUnderlyingDown(bTokens);
      return Ok(underlying);
    }

    method GetCollectedFees(e: Ledger.Env, reserve: Address) returns (r: Result<nat>)
      requires Valid()
      ensures r == Ledger.GetCollectedFees(Snapshot(), e, reserve)
    {
      if reserve !in vaults {
        return Ok(0);
      }
      var vault :- GetReserveVaultUpdated(e, reserve);
      var underlying :- vault.BTokensToUnderlyingDown(vault.accruedFees);
      return Ok(underlying);
    }

    // ---- Entry points ----

    method AccrueInterestForAllReserves(e: Ledger.Env) returns (r: Result<()>)
      requires Valid()
      modifies this`vaults
      ensures Valid()
      ensures match Ledger.AccrueReserves(old(vaults), feeMode, e, reserves)
              case Ok(accrued) => r == Ok(()) && vaults == accrued
              case Err(error) => r == Err(error) && vaults == old(vaults)
    {
      var original := vaults;
      for i := 0 to |reserves|
        invariant Valid()
        invariant Ledger.AccrueReserves(vaults, feeMode, e, reserves[i..])
               == Ledger.AccrueReserves(original, feeMode, e, reserves)
      {
        assert reserves[i..][1..] == reserves[i + 1..];
        var vault := GetReserveVaultUpdated(e, reserves[i]);
        if vault.Err? {
          vaults := original;  // the transaction is aborted
          return Err(vault.error);
        }
        SetReserveVault(vault.value);
      }
      return Ok(());
    }

    method SetFeeMode(e: Ledger.Env, isAprCapped: bool, value: int) returns (r: Result<()>)
      requires Valid()
      modifies this
      ensures Valid()
      ensures match Ledger.SetFeeMode(old(Snapshot()), e, isAprCapped, value)
              case Ok(st) => r == Ok(()) && Snapshot() == st
              case Err(error) => r == Err(error) && Snapshot() == old(Snapshot())
    {
      if value < 0 || value > SCALAR_7 {
        return Err(InvalidFeeModeValue);
      }
      var _ :- AccrueInterestForAllReserves(e);
      feeMode := FeeMode(isAprCapped, value);
      return Ok(());
    }

    method AddReserveVault(e: Ledger.Env, reserve: Address) returns (r: Result<()>)
      requires Valid()
      modifies this
      ensures Valid()
      ensures match Ledger.AddReserveVault(old(Snapshot()), e, reserve)
              case Ok(st) => r == Ok(()) && Snapshot() == st
              case Err(error) => r == Err(error) && Snapshot() == old(Snapshot())
    {
      if reserve in vaults {
        return Err(ReserveAlreadyExists);
      }
      if reserve !in e.rates {
        return Err(PoolError);
      }
      var vault := new ReserveVault.Load(Vault(reserve, e.rates[reserve], e.now, 0, 0, 0));
      SetReserveVault(vault);
      reserves := reserves + [reserve];
      return Ok(());
    }

    /** Returns the bTokens burnt and the underlying amount that the pool pays the admin. */
    method ClaimFees(e: Ledger.Env, reserve: Address) returns (r: Result<(nat, nat)>)
      requires Valid()
      modifies this
      ensures Valid()
      ensures match Ledger.ClaimFees(old(Snapshot()), e, reserve)
              case Ok((st, bTokens, underlying)) => r == Ok((bTokens, underlying)) && Snapshot() == st
              case Err(error) => r == Err(error) && Snapshot() == old(Snapshot())
    {
      if reserve !in vaults {
        return Err(ReserveNotFound);
      }
      var vault :- GetReserveVaultUpdated(e, reserve);
      var bTokens := vault.accruedFees;
      if bTokens <= 0 {
        return Err(InsufficientAccruedFees);
      }
      var underlying :- vault.BTokensToUnderlyingDown(bTokens);
      vault.accruedFees := 0;
      SetReserveVault(vault);
      return Ok((bTokens, underlying));
    }

    method Deposit(e: Ledger.Env, reserve: Address, user: Address, amount: int) returns (r: Result<Ledger.Receipt>)
      requires Valid()
      modifies this
      ensures Valid()
      ensures match Ledger.Deposit(old(Snapshot()), e, reserve, user, amount)
              case Ok((st, receipt)) => r == Ok(receipt) && Snapshot() == st
              case Err(error) => r == Err(error) && Snapshot() == old(Snapshot())
    {
      if reserve !in vaults {
        return Err(ReserveNotFound);
      }
      if amount <= 0 {
        return Err(InvalidAmount);
      }
      var vault :- GetReserveVaultUpdated(e, reserve);
      var held := GetShares(reserve, user);
      var receipt :- vault.Mint(held, amount);
      SetReserveVault(vault);
      shares := shares[Ledger.DepositKey(reserve, user) := held + receipt.shares];
      return Ok(receipt);
    }

    method Withdraw(e: Ledger.Env, reserve: Address, user: Address, amount: int) returns (r: Result<Ledger.Receipt>)
      requires Valid()
      modifies this
      ensures Valid()
      ensures match Ledger.Withdraw(old(Snapshot()), e, reserve, user, amount)
              case Ok((st, receipt)) => r == Ok(receipt) && Snapshot() == st
              case Err(error) => r == Err(error) && Snapshot() == old(Snapshot())
    {
      if reserve !in vaults {
        return Err(ReserveNotFound);
      }
      if amount <= 0 {
        return Err(InvalidAmount);
      }
      var vault :- GetReserveVaultUpdated(e, reserve);
      var held := GetShares(reserve, user);
      var receipt :- vault.Burn(held, amount);
      SetReserveVault(vault);
      shares := shares[Ledger.DepositKey(reserve, user) := held - receipt.shares];
      return Ok(receipt);
    }
  }
}
