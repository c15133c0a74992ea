/** Runs against the pool. Beside the ledger a run tracks, per reserve, the rate at which
    the vault was added and the bTokens the contract holds in the pool, which mints them
    rounding down and burns them rounding up at the rate the transaction observes. */
module PoolMirror {
  import opened Types
  import opened FixedPoint
  import opened Vaults
  import opened Ledger
  import opened ConversionLaws
  import opened Invariants
  import AccrualLaws

  datatype World = World(ledger: State, base: map<Address, Rate>, position: map<Address, int>)

  function PoolMints(underlying: int, rate: Rate): int {
    FloorDiv(underlying * SCALAR_12, rate)
  }

  function PoolBurns(underlying: int, rate: Rate): int {
    CeilDiv(underlying * SCALAR_12, rate)
  }

  function Start(st: State): World {
    World(st, map[], map[])
  }

  // The bTokens that a successful call moves into the pool position of its reserve.
  function PoolMove(st: State, tx: Tx): int
    requires Step(st, tx).Ok?
  {
    match tx.call
    case DepositCall(reserve, _, amount) =>
      if reserve in tx.env.rates then PoolMints(amount, tx.env.rates[reserve]) else 0
    case WithdrawCall(reserve, _, amount) =>
      if reserve in tx.env.rates then 0 - PoolBurns(amount, tx.env.rates[reserve]) else 0
    case ClaimFeesCall(reserve) =>
      if reserve in tx.env.rates then
        0 - PoolBurns(ClaimFees(st, tx.env, reserve).value.2, tx.env.rates[reserve])
      else 0
    case _ => 0
  }

  function Moved(position: map<Address, int>, reserve: Address, bTokens: int): map<Address, int> {
    position[reserve := (if reserve in position then position[reserve] else 0) + bTokens]
  }

  function Advance(w: World, tx: Tx): World {
    if Step(w.ledger, tx).Err? then w
    else
      var st' := Step(w.ledger, tx).value;
      match tx.call
      case SetFeeModeCall(_, _) => w.(ledger := st')
      case AddReserveVaultCall(reserve) =>
        World(st', w.base[reserve := tx.env.rates[reserve]], Moved(w.position, reserve, 0))
      case _ => w.(ledger := st', position := Moved(w.position, tx.call.reserve, PoolMove(w.ledger, tx)))
  }

  function History(w: World, txs: seq<Tx>): World
    decreases |txs|
  {
    if txs == [] then w else History(Advance(w, txs[0]), txs[1..])
  }

  lemma {:induction false} HistoryIsRun(w: World, txs: seq<Tx>)
    ensures History(w, txs).ledger == Run(w.ledger, txs)
    decreases |txs|
  {
    if txs != [] {
      HistoryIsRun(Advance(w, txs[0]), txs[1..]);
    }
  }

  // ---- The pool position covers the ledger ----

  // The bTokens in the pool beyond those the ledger accounts for.
  function Slack(w: World, a: Address): int
    requires a in w.ledger.vaults && a in w.position
  {
    w.position[a] - w.ledger.vaults[a].totalBTokens - w.ledger.vaults[a].accruedFees
  }

  ghost predicate Mirrored(w: World) {
    && Inv(w.ledger)
    && (forall a :: a in w.position <==> a in w.ledger.vaults)
    && forall a :: a in w.ledger.vaults ==> 0 <= Slack(w, a)
  }

  // No slack at all: the position is exactly what the ledger says.
  ghost predicate Exact(w: World) {
    && Inv(w.ledger)
    && (forall a :: a in w.position <==> a in w.ledger.vaults)
    && forall a :: a in w.ledger.vaults ==> Slack(w, a) == 0
  }

  /** Burning what the floored value of some bTokens takes from the pool leaves a rest
      worth less than one unit of the underlying token, and leaves none exactly when the
      value's fraction of a unit is less than one bToken. */
  lemma ClaimRest(v: Vault, bTokens: nat)
    ensures var rest := bTokens - PoolBurns(v.BTokensToUnderlyingDown(bTokens), v.bRate);
            && 0 <= rest && rest * v.bRate < SCALAR_12
            && (rest == 0 <==> (bTokens * v.bRate) % SCALAR_12 < v.bRate)
  {
    var underlying := v.BTokensToUnderlyingDown(bTokens);
    var burnt := PoolBurns(underlying, v.bRate);
    CeilAdjoint(bTokens, underlying * SCALAR_12, v.bRate);
    CeilAdjoint(bTokens - 1, underlying * SCALAR_12, v.bRate);
    Distribute(bTokens - burnt, burnt, v.bRate);
    Distribute(bTokens - 1, 1, v.bRate);
  }

  // A claim below par can leave a rest: one bToken worth half a unit pays nothing and burns nothing.
  lemma ClaimBelowParCanLeaveRest()
    ensures var v := Vault("asset", SCALAR_12 / 2, 0, 0, 0, 1);
            v.accruedFees - PoolBurns(v.BTokensToUnderlyingDown(v.accruedFees), v.bRate) == 1
  {
    CeilAdjoint(0, 0, SCALAR_12 / 2);
  }

  // What a call leaves in the pool of the bTokens that it takes off the ledger of `a`: of a
  // claim's fees, those that their floored value does not burn.
  function RestOf(st: State, tx: Tx, a: Address): int {
    if tx.call == ClaimFeesCall(a) && Step(st, tx).Ok? then
      var v := Updated(st, tx.env, a).value;
      v.accruedFees - PoolBurns(v.BTokensToUnderlyingDown(v.accruedFees), v.bRate)
    else 0
  }

  // The value of the fees claimed, if any are, has a fraction of a unit less than one bToken.
  predicate LeavesNothing(st: State, tx: Tx) {
    tx.call.ClaimFeesCall? && Step(st, tx).Ok? ==>
      var v := Updated(st, tx.env, tx.call.reserve).value;
      (v.accruedFees * v.bRate) % SCALAR_12 < v.bRate
  }

  lemma RestFacts(st: State, tx: Tx, a: Address)
    requires Inv(st)
    ensures 0 <= RestOf(st, tx, a)
    ensures RestOf(st, tx, a) == 0 <==> (tx.call == ClaimFeesCall(a) ==> LeavesNothing(st, tx))
    ensures RestOf(st, tx, a) != 0 ==>
              a in tx.env.rates && tx.env.rates[a] < SCALAR_12 && RestOf(st, tx, a) * tx.env.rates[a] < SCALAR_12
  {
    if tx.call == ClaimFeesCall(a) && Step(st, tx).Ok? {
      UpdatedFacts(st, tx.env, a);
      var v := Updated(st, tx.env, a).value;
      ClaimRest(v, v.accruedFees);
    }
  }

  // A call adds `rest` to the slack of `a`.
  ghost predicate SlackGrows(w: World, tx: Tx, a: Address, rest: int)
    requires a in w.ledger.vaults && a in w.position
  {
    var w' := Advance(w, tx);
    && a in w'.ledger.vaults && a in w'.position
    && Slack(w', a) == Slack(w, a) + rest
  }

  lemma ClaimSlack(w: World, tx: Tx, reserve: Address)
    requires Mirrored(w) && tx.call == ClaimFeesCall(reserve) && Step(w.ledger, tx).Ok?
    ensures reserve in w.ledger.vaults && SlackGrows(w, tx, reserve, RestOf(w.ledger, tx, reserve))
    ensures 0 - PoolMove(w.ledger, tx) <= w.position[reserve]
  {
    UpdatedFacts(w.ledger, tx.env, reserve);
    RestFacts(w.ledger, tx, reserve);
    assert 0 <= Slack(w, reserve);
  }

  lemma DepositSlack(w: World, tx: Tx)
    requires Mirrored(w) && tx.call.DepositCall? && Step(w.ledger, tx).Ok?
    ensures tx.call.reserve in w.ledger.vaults && SlackGrows(w, tx, tx.call.reserve, 0)
  {
    var st, e, reserve := w.ledger, tx.env, tx.call.reserve;
    var (st', r) := Deposit(st, e, reserve, tx.call.user, tx.call.amount).value;
    DepositParts(st, e, reserve, tx.call.user, tx.call.amount, st', r);
    UpdatedFacts(st, e, reserve);
  }

  lemma WithdrawSlack(w: World, tx: Tx)
    requires Mirrored(w) && tx.call.WithdrawCall? && Step(w.ledger, tx).Ok?
    ensures tx.call.reserve in w.ledger.vaults && SlackGrows(w, tx, tx.call.reserve, 0)
    ensures 0 - PoolMove(w.ledger, tx) <= w.position[tx.call.reserve]
  {
    var st, e, reserve := w.ledger, tx.env, tx.call.reserve;
    var (st', r) := Withdraw(st, e, reserve, tx.call.user, tx.call.amount).value;
    WithdrawParts(st, e, reserve, tx.call.user, tx.call.amount, st', r);
    UpdatedFacts(st, e, reserve);
    assert 0 <= Slack(w, reserve);
  }

  /** Accrual moves bTokens within a vault, so it never touches the slack of any reserve. */
  lemma FeeModeSlack(w: World, tx: Tx, a: Address)
    requires Mirrored(w) && tx.call.SetFeeModeCall? && Step(w.ledger, tx).Ok? && a in w.ledger.vaults
    ensures SlackGrows(w, tx, a, 0)
  {
    FeeModeChangeAccrues(w.ledger, tx.env, tx.call.isAprCapped, tx.call.value, Exec(w.ledger, tx), a);
  }

  /** Only a claim changes the slack, only of its own reserve, and only upwards: by the fees
      that their floored value does not burn, together worth less than one unit of the
      underlying token, and none at par or above. */
  lemma SlackOnlyGrowsByClaims(w: World, tx: Tx, a: Address)
    requires Mirrored(w) && a in w.ledger.vaults
    ensures var rest := RestOf(w.ledger, tx, a);
            && SlackGrows(w, tx, a, rest) && 0 <= rest
            && (rest == 0 <==> (tx.call == ClaimFeesCall(a) ==> LeavesNothing(w.ledger, tx)))
            && (rest != 0 ==>
                  a in tx.env.rates && tx.env.rates[a] < SCALAR_12 && rest * tx.env.rates[a] < SCALAR_12)
  {
    RestFacts(w.ledger, tx, a);
    SlackGrowsByRest(w, tx, a);
  }

  lemma SlackGrowsByRest(w: World, tx: Tx, a: Address)
    requires Mirrored(w) && a in w.ledger.vaults
    ensures SlackGrows(w, tx, a, RestOf(w.ledger, tx, a))
  {
    if Step(w.ledger, tx).Ok? {
      if tx.call.SetFeeModeCall? {
        FeeModeSlack(w, tx, a);
      } else if tx.call.reserve != a {
        OtherVaultsStay(w.ledger, tx, a);
      } else if tx.call.ClaimFeesCall? {
        ClaimSlack(w, tx, a);
      } else if tx.call.DepositCall? {
        DepositSlack(w, tx);
      } else {
        WithdrawSlack(w, tx);
      }
    }
  }

  /** The pool is never asked to burn more than the contract holds there. */
  lemma PoolIsNeverShort(w: World, tx: Tx)
    requires Mirrored(w) && Step(w.ledger, tx).Ok?
    requires tx.call.WithdrawCall? || tx.call.ClaimFeesCall?
    ensures tx.call.reserve in w.position && 0 <= w.position[tx.call.reserve] + PoolMove(w.ledger, tx)
  {
    if tx.call.WithdrawCall? {
      WithdrawSlack(w, tx);
    } else {
      ClaimSlack(w, tx, tx.call.reserve);
    }
  }

  lemma StepNeedsVault(st: State, tx: Tx)
    requires Step(st, tx).Ok? && !tx.call.SetFeeModeCall? && !tx.call.AddReserveVaultCall?
    ensures tx.call.reserve in st.vaults
  {
  }

  lemma AdvanceKeepsKeys(w: World, tx: Tx, a: Address)
    requires Mirrored(w)
    ensures var w' := Advance(w, tx);
            && (a in w'.position <==> a in w'.ledger.vaults)
            && (a in w'.ledger.vaults && a !in w.ledger.vaults ==> Slack(w', a) == 0)
  {
    StepKeepsVaults(w.ledger, tx, a);
    if Step(w.ledger, tx).Ok? && !tx.call.SetFeeModeCall? && !tx.call.AddReserveVaultCall? {
      StepNeedsVault(w.ledger, tx);
    }
  }

  lemma AdvanceKeepsMirror(w: World, tx: Tx)
    requires Mirrored(w)
    ensures Mirrored(Advance(w, tx))
  {
    StepKeepsInv(w.ledger, tx);
    var w' := Advance(w, tx);
    forall a
      ensures a in w'.position <==> a in w'.ledger.vaults
      ensures a in w'.ledger.vaults ==> 0 <= Slack(w', a)
    {
      AdvanceKeepsKeys(w, tx, a);
      if a in w.ledger.vaults {
        SlackOnlyGrowsByClaims(w, tx, a);
      }
    }
  }

  /** On every run, whatever the rates, the pool position covers the depositors' bTokens and
      the fees. */
  lemma {:induction false} PositionCoversLedger(w: World, txs: seq<Tx>)
    requires Mirrored(w)
    ensures Mirrored(History(w, txs))
    decreases |txs|
  {
    if txs != [] {
      AdvanceKeepsMirror(w, txs[0]);
      PositionCoversLedger(Advance(w, txs[0]), txs[1..]);
    }
  }

  // Fees are claimed only when a bToken is worth at least one unit of the underlying token.
  predicate ClaimsAtPar(txs: seq<Tx>) {
    forall i :: 0 <= i < |txs| && txs[i].call.ClaimFeesCall? && txs[i].call.reserve in txs[i].env.rates ==>
      SCALAR_12 <= txs[i].env.rates[txs[i].call.reserve]
  }

  // Every successful claim of the run leaves nothing behind in the pool.
  predicate ClaimsLeaveNothing(st: State, txs: seq<Tx>)
    decreases |txs|
  {
    txs == [] || (LeavesNothing(st, txs[0]) && ClaimsLeaveNothing(Exec(st, txs[0]), txs[1..]))
  }

  lemma AdvanceKeepsExact(w: World, tx: Tx)
    requires Exact(w) && LeavesNothing(w.ledger, tx)
    ensures Exact(Advance(w, tx))
  {
    StepKeepsInv(w.ledger, tx);
    var w' := Advance(w, tx);
    forall a
      ensures a in w'.position <==> a in w'.ledger.vaults
      ensures a in w'.ledger.vaults ==> Slack(w', a) == 0
    {
      AdvanceKeepsKeys(w, tx, a);
      if a in w.ledger.vaults {
        SlackOnlyGrowsByClaims(w, tx, a);
      }
    }
  }

  lemma {:induction false} SlackNeverFalls(w: World, txs: seq<Tx>, a: Address)
    requires Mirrored(w) && a in w.ledger.vaults
    ensures var w' := History(w, txs);
            a in w'.ledger.vaults && a in w'.position && Slack(w, a) <= Slack(w', a)
    decreases |txs|
  {
    if txs != [] {
      AdvanceKeepsMirror(w, txs[0]);
      SlackOnlyGrowsByClaims(w, txs[0], a);
      SlackNeverFalls(Advance(w, txs[0]), txs[1..], a);
    }
  }

  /** Over a run the position stays exactly the ledger's if and only if every successful claim
      leaves nothing behind. */
  lemma {:induction false} PositionIsExactIffClaimsLeaveNothing(w: World, txs: seq<Tx>)
    requires Exact(w)
    ensures Exact(History(w, txs)) <==> ClaimsLeaveNothing(w.ledger, txs)
    decreases |txs|
  {
    if txs != [] {
      var tx, w' := txs[0], Advance(w, txs[0]);
      if LeavesNothing(w.ledger, tx) {
        AdvanceKeepsExact(w, tx);
        PositionIsExactIffClaimsLeaveNothing(w', txs[1..]);
      } else {
        var a := tx.call.reserve;
        StepNeedsVault(w.ledger, tx);
        SlackOnlyGrowsByClaims(w, tx, a);
        AdvanceKeepsMirror(w, tx);
        SlackNeverFalls(w', txs[1..], a);
        assert Slack(History(w', txs[1..]), a) > 0;
      }
    }
  }

  lemma {:induction false} AtParLeavesNothing(st: State, txs: seq<Tx>)
    requires Inv(st) && ClaimsAtPar(txs)
    ensures ClaimsLeaveNothing(st, txs)
    decreases |txs|
  {
    if txs != [] {
      var tx := txs[0];
      if tx.call.ClaimFeesCall? && Step(st, tx).Ok? {
        RestFacts(st, tx, tx.call.reserve);
        UpdatedFacts(st, tx.env, tx.call.reserve);
      }
      StepKeepsInv(st, tx);
      assert ClaimsAtPar(txs[1..]);
      AtParLeavesNothing(Exec(st, tx), txs[1..]);
    }
  }

  /** If all claims happen at par or above, the position is the ledger's to the last bToken. */
  lemma PositionIsExactAtPar(w: World, txs: seq<Tx>)
    requires Exact(w) && ClaimsAtPar(txs)
    ensures Exact(History(w, txs))
  {
    AtParLeavesNothing(w.ledger, txs);
    PositionIsExactIffClaimsLeaveNothing(w, txs);
  }

  // ---- Share value over a run ----

  // Every share of the vault is worth at least what a first share cost when it was added.
  predicate AboveBase(v: Vault, base: Rate) {
    v.totalShares * base <= v.totalBTokens * v.bRate && base <= v.bRate
  }

  ghost predicate NeverDiluted(w: World) {
    && Inv(w.ledger)
    && (forall a :: a in w.base <==> a in w.ledger.vaults)
    && forall a :: a in w.ledger.vaults ==> AboveBase(w.ledger.vaults[a], w.base[a])
  }

  // The transaction sees no rate below the one the ledger has stored.
  predicate SeesNoFall(st: State, e: Env) {
    forall a :: a in st.vaults && a in e.rates ==> st.vaults[a].bRate <= e.rates[a]
  }

  predicate RatesRise(st: State, txs: seq<Tx>)
    decreases |txs|
  {
    txs == [] || (SeesNoFall(st, txs[0].env) && RatesRise(Exec(st, txs[0]), txs[1..]))
  }

  lemma AccrualStaysAboveBase(v: Vault, mode: FeeMode, e: Env, base: Rate)
    requires Sound(v) && AboveBase(v, base) && Refreshed(v, mode, e).Ok? && v.bRate <= e.rates[v.address]
    ensures AboveBase(Refreshed(v, mode, e).value, base)
  {
    AccrualLaws.AccrualKeepsValue(v, mode, e.rates[v.address], e.now);
  }

  lemma UndilutedStaysAboveBase(v: Vault, w: Vault, base: Rate)
    requires Sound(v) && Sound(w) && AboveBase(v, base) && NotDiluted(v, w) && v.bRate == w.bRate
    requires v.totalBTokens == 0 ==> w.totalShares == w.totalBTokens
    ensures AboveBase(w, base)
  {
    if v.totalBTokens == 0 {
      MulLe(base, v.bRate, w.totalBTokens);
    } else {
      PriceChain(v.totalShares, v.totalBTokens, w.totalShares, w.totalBTokens, base, v.bRate);
    }
  }

  lemma PriceChain(s: nat, b: nat, s': nat, b': nat, base: int, rate: int)
    requires 0 < b && 0 < base
    requires s' * b <= s * b' && s * base <= b * rate
    ensures s' * base <= b' * rate
  {
    MulLe(s' * b, s * b', base);
    MulLe(s * base, b * rate, b');
    assert s' * b * base == (s' * base) * b;
    assert s * b' * base == s * base * b';
    assert b * rate * b' == (b' * rate) * b;
    CancelLe(s' * base, b' * rate, b);
  }

  /** The vault that a call leaves for its reserve. */
  lemma VaultAfterCall(st: State, tx: Tx, base: Rate)
    requires Inv(st) && Step(st, tx).Ok? && SeesNoFall(st, tx.env)
    requires tx.call.DepositCall? || tx.call.WithdrawCall? || tx.call.ClaimFeesCall?
    requires tx.call.reserve in st.vaults && AboveBase(st.vaults[tx.call.reserve], base)
    ensures AboveBase(Exec(st, tx).vaults[tx.call.reserve], base)
  {
    var reserve, e, st' := tx.call.reserve, tx.env, Exec(st, tx);
    UpdatedFacts(st, e, reserve);
    var v := Updated(st, e, reserve).value;
    assert VaultOk(st, reserve);
    AccrualStaysAboveBase(st.vaults[reserve], st.mode, e, base);
    if tx.call.DepositCall? {
      var r := Deposit(st, e, reserve, tx.call.user, tx.call.amount).value.1;
      DepositParts(st, e, reserve, tx.call.user, tx.call.amount, st', r);
      MintIsSound(v, r.bTokens);
      UndilutedStaysAboveBase(v, v.Minted(r.bTokens, r.shares), base);
    } else if tx.call.WithdrawCall? {
      var r := Withdraw(st, e, reserve, tx.call.user, tx.call.amount).value.1;
      WithdrawParts(st, e, reserve, tx.call.user, tx.call.amount, st', r);
      BurnIsSound(v, r.bTokens);
      UndilutedStaysAboveBase(v, v.Burnt(r.bTokens, r.shares), base);
    }
  }

  lemma AdvanceKeepsAboveBase(w: World, tx: Tx, a: Address)
    requires NeverDiluted(w) && SeesNoFall(w.ledger, tx.env)
    ensures var w' := Advance(w, tx);
            && (a in w'.base <==> a in w'.ledger.vaults)
            && (a in w'.ledger.vaults ==> AboveBase(w'.ledger.vaults[a], w'.base[a]))
  {
    var st := w.ledger;
    StepKeepsVaults(st, tx, a);
    if Step(st, tx).Ok? && a in st.vaults {
      if tx.call.SetFeeModeCall? {
        SetFeeModeKeepsInv(st, tx.env, tx.call.isAprCapped, tx.call.value);
        UpdatedFacts(st, tx.env, a);
        assert VaultOk(st, a);
        AccrualStaysAboveBase(st.vaults[a], st.mode, tx.env, w.base[a]);
      } else if tx.call.reserve != a {
        OtherVaultsStay(st, tx, a);
      } else {
        VaultAfterCall(st, tx, w.base[a]);
      }
    }
  }

  lemma AdvanceKeepsShareValue(w: World, tx: Tx)
    requires NeverDiluted(w) && SeesNoFall(w.ledger, tx.env)
    ensures NeverDiluted(Advance(w, tx))
  {
    StepKeepsInv(w.ledger, tx);
    var w' := Advance(w, tx);
    forall a
      ensures a in w'.base <==> a in w'.ledger.vaults
      ensures a in w'.ledger.vaults ==> AboveBase(w'.ledger.vaults[a], w'.base[a])
    {
      AdvanceKeepsAboveBase(w, tx, a);
    }
  }

  /** Along any run on which the pool's rate does not fall, in either fee mode and across
      mode changes, a share never becomes worth less than the rate at which its vault was
      added: S * r0 <= B * r. */
  lemma {:induction false} ShareValueNeverFallsBelowBase(w: World, txs: seq<Tx>)
    requires NeverDiluted(w) && RatesRise(w.ledger, txs)
    ensures NeverDiluted(History(w, txs))
    decreases |txs|
  {
    if txs != [] {
      AdvanceKeepsShareValue(w, txs[0]);
      ShareValueNeverFallsBelowBase(Advance(w, txs[0]), txs[1..]);
    }
  }

  // The pool's own rates never fall from one transaction to a later one.
  predicate PoolRises(txs: seq<Tx>) {
    forall i, j, a :: 0 <= i < j < |txs| && a in txs[i].env.rates && a in txs[j].env.rates ==>
      txs[i].env.rates[a] <= txs[j].env.rates[a]
  }

  /** The rate and time stored for a vault are either unchanged or the transaction's own. */
  lemma StoredIsOldOrSeen(st: State, tx: Tx, a: Address)
    requires Inv(st) && a in Exec(st, tx).vaults
    ensures var v := Exec(st, tx).vaults[a];
            || (a in st.vaults && v.bRate == st.vaults[a].bRate && v.lastUpdate == st.vaults[a].lastUpdate)
            || (a in tx.env.rates && v.bRate == tx.env.rates[a] && v.lastUpdate == tx.env.now)
  {
    var st' := Exec(st, tx);
    if Step(st, tx).Ok? {
      if tx.call.SetFeeModeCall? {
        AccrueReservesPointwise(st.vaults, st.mode, tx.env, st.reserves);
        UpdatedFacts(st, tx.env, a);
      } else if tx.call.reserve != a {
        OtherVaultsStay(st, tx, a);
      } else if !tx.call.AddReserveVaultCall? {
        UpdatedFacts(st, tx.env, a);
      }
    }
  }

  /** A pool whose rates never fall gives such a run: the ledger only ever stores rates it has seen. */
  lemma {:induction false} RisingPoolGivesRisingRun(st: State, txs: seq<Tx>)
    requires Inv(st) && PoolRises(txs)
    requires forall i :: 0 <= i < |txs| ==> SeesNoFall(st, txs[i].env)
    ensures RatesRise(st, txs)
    decreases |txs|
  {
    if txs != [] {
      var st', rest := Exec(st, txs[0]), txs[1..];
      assert SeesNoFall(st, txs[0].env);
      StepKeepsInv(st, txs[0]);
      forall i | 0 <= i < |rest|
        ensures SeesNoFall(st', rest[i].env)
      {
        assert rest[i] == txs[i + 1] && SeesNoFall(st, txs[i + 1].env);
        forall a | a in st'.vaults && a in rest[i].env.rates
          ensures st'.vaults[a].bRate <= rest[i].env.rates[a]
        {
          StoredIsOldOrSeen(st, txs[0], a);
        }
      }
      RisingPoolGivesRisingRun(st', rest);
    }
  }

  /** From construction on: mirrored whatever the pool does, exactly so if and only if claims
      leave nothing behind, and never diluted below the starting rate as long as the pool's
      rates do not fall. */
  lemma FromConstruction(isAprCapped: bool, value: int, txs: seq<Tx>)
    requires Initialize(isAprCapped, value).Ok?
    ensures var st := Initialize(isAprCapped, value).value;
            var w := History(Start(st), txs);
            && w.ledger == Run(st, txs)
            && Mirrored(w)
            && (Exact(w) <==> ClaimsLeaveNothing(st, txs))
            && (PoolRises(txs) ==> NeverDiluted(w))
  {
    var st := Initialize(isAprCapped, value).value;
    HistoryIsRun(Start(st), txs);
    PositionCoversLedger(Start(st), txs);
    PositionIsExactIffClaimsLeaveNothing(Start(st), txs);
    if PoolRises(txs) {
      RisingPoolGivesRisingRun(st, txs);
      ShareValueNeverFallsBelowBase(Start(st), txs);
    }
  }
}
