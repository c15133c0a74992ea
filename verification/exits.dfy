/** Everyone can leave, in any order: holders who each withdraw what they were first quoted,
    or less, all succeed, and together they are paid no more than the vault is worth. */
module Exits {
  import opened Types
  import opened FixedPoint
  import opened Vaults
  import opened Ledger
  import opened ShareSums
  import opened ConversionLaws
  import opened Invariants
  import opened Trading

  predicate Withdrawals(calls: seq<Call>, reserve: Address) {
    forall call :: call in calls ==> call.WithdrawCall? && call.reserve == reserve
  }

  // Withdrawals by different holders, each of something and of at most what they are quoted.
  ghost predicate WithinQuotes(st: State, e: Env, reserve: Address, calls: seq<Call>)
    requires Updated(st, e, reserve).Ok? && Withdrawals(calls, reserve)
  {
    && (forall i :: 0 <= i < |calls| ==> 0 < calls[i].amount <= QuoteIn(st, e, reserve, calls[i].user))
    && (forall i, j :: 0 <= i < j < |calls| ==> calls[i].user != calls[j].user)
  }

  // The arithmetic of each, taken alone, goes through.
  predicate EachFits(v: Vault, calls: seq<Call>)
    requires forall call :: call in calls ==> call.WithdrawCall?
  {
    forall i :: 0 <= i < |calls| ==> v.WithdrawalFits(calls[i].amount)
  }

  predicate AllSucceed(st: State, e: Env, calls: seq<Call>)
    decreases |calls|
  {
    calls == [] || (Succeeds(st, e, calls[0]) && AllSucceed(Exec(st, Tx(e, calls[0])), e, calls[1..]))
  }

  function Asked(calls: seq<Call>): int
    requires forall call :: call in calls ==> call.WithdrawCall?
  {
    if calls == [] then 0 else calls[0].amount + Asked(calls[1..])
  }

  /** A burn leaves a vault in which any withdrawal whose arithmetic fitted still fits. */
  lemma FitsAfterBurn(v: Vault, bTokens: nat, shares: nat, amount: nat)
    requires bTokens <= v.totalBTokens && shares <= v.totalShares && v.WithdrawalFits(amount)
    ensures v.Burnt(bTokens, shares).WithdrawalFits(amount)
  {
    var w := v.Burnt(bTokens, shares);
    CeilAdjoint(-1, amount * SCALAR_12, v.bRate);
    MulLe(w.totalShares, v.totalShares, v.UnderlyingToBTokensUp(amount));
  }

  lemma ExitSucceeds(st: State, e: Env, call: Call, reserve: Address, v: Vault, st1: State)
    requires Inv(st) && Updated(st, e, reserve) == Ok(v) && st1 == Exec(st, Tx(e, call))
    requires call.WithdrawCall? && call.reserve == reserve && 0 < call.amount <= QuoteIn(st, e, reserve, call.user)
    requires v.WithdrawalFits(call.amount)
    ensures Succeeds(st, e, call) && Inv(st1) && Updated(st1, e, reserve).Ok?
    ensures forall amount: nat :: v.WithdrawalFits(amount) ==> Updated(st1, e, reserve).value.WithdrawalFits(amount)
  {
    WithdrawExactlyUpToQuote(st, e, reserve, call.user, call.amount);
    var r := Withdraw(st, e, reserve, call.user, call.amount).value.1;
    AfterWithdraw(st, e, reserve, call.user, call.amount, v, st1, r);
    forall amount: nat | v.WithdrawalFits(amount)
      ensures v.Burnt(r.bTokens, r.shares).WithdrawalFits(amount)
    {
      FitsAfterBurn(v, r.bTokens, r.shares, amount);
    }
  }

  lemma OthersStayQuoted(st: State, e: Env, calls: seq<Call>, reserve: Address, st1: State)
    requires Inv(st) && Updated(st, e, reserve).Ok? && calls != [] && st1 == Exec(st, Tx(e, calls[0]))
    requires Withdrawals(calls, reserve) && WithinQuotes(st, e, reserve, calls)
    ensures Updated(st1, e, reserve).Ok?
    ensures Withdrawals(calls[1..], reserve) && WithinQuotes(st1, e, reserve, calls[1..])
  {
    CallDoesNotDilute(st, e, calls[0], reserve, Updated(st, e, reserve).value);
    var rest := calls[1..];
    forall i | 0 <= i < |rest|
      ensures 0 < rest[i].amount <= QuoteIn(st1, e, reserve, rest[i].user)
    {
      assert rest[i] == calls[i + 1];
      BystanderIsSafe(st, e, calls[0], reserve, rest[i].user);
    }
  }

  lemma {:induction false} ExitsSucceed(st: State, e: Env, calls: seq<Call>, reserve: Address)
    requires Inv(st) && Updated(st, e, reserve).Ok? && Withdrawals(calls, reserve)
    requires WithinQuotes(st, e, reserve, calls) && EachFits(Updated(st, e, reserve).value, calls)
    ensures AllSucceed(st, e, calls)
    decreases |calls|
  {
    if calls != [] {
      var st1 := Exec(st, Tx(e, calls[0]));
      ExitSucceeds(st, e, calls[0], reserve, Updated(st, e, reserve).value, st1);
      OthersStayQuoted(st, e, calls, reserve, st1);
      ExitsSucceed(st1, e, calls[1..], reserve);
    }
  }

  lemma {:induction false} AllPaid(st: State, e: Env, calls: seq<Call>, reserve: Address)
    requires AllSucceed(st, e, calls) && Withdrawals(calls, reserve)
    ensures PaidOut(st, e, reserve, calls) == Asked(calls)
    decreases |calls|
  {
    if calls != [] {
      AllPaid(Exec(st, Tx(e, calls[0])), e, calls[1..], reserve);
    }
  }

  /** Withdrawals, successful or not, together pay at most what the vault's bTokens are worth. */
  lemma ExitPaysWithinTheVault(st: State, e: Env, calls: seq<Call>, reserve: Address)
    requires Inv(st) && Updated(st, e, reserve).Ok? && Withdrawals(calls, reserve)
    ensures var v := Updated(st, e, reserve).value;
            PaidOut(st, e, reserve, calls) <= v.BTokensToUnderlyingDown(v.totalBTokens)
  {
    var v := Updated(st, e, reserve).value;
    WithdrawalsShrink(st, e, calls, reserve, v);
    ShrunkPaysWithin(v, Updated(RunAt(st, e, calls), e, reserve).value, PaidOut(st, e, reserve, calls));
  }

  lemma ShrunkPaysWithin(v: Vault, w: Vault, paidOut: nat)
    requires Shrunk(v, w, paidOut)
    ensures paidOut <= v.BTokensToUnderlyingDown(v.totalBTokens)
  {
    MulLe(v.totalBTokens - w.totalBTokens, v.totalBTokens, v.bRate);
    FloorAdjoint(paidOut, v.totalBTokens * v.bRate, SCALAR_12);
  }

  /** Holders can all withdraw what they were initially quoted, one after another in any
      order: every withdrawal succeeds, and all that they ask for is within the vault's worth. */
  lemma EveryoneCanLeave(st: State, e: Env, calls: seq<Call>, reserve: Address)
    requires Inv(st) && Updated(st, e, reserve).Ok? && Withdrawals(calls, reserve)
    requires WithinQuotes(st, e, reserve, calls) && EachFits(Updated(st, e, reserve).value, calls)
    ensures var v := Updated(st, e, reserve).value;
            AllSucceed(st, e, calls) && Asked(calls) <= v.BTokensToUnderlyingDown(v.totalBTokens)
  {
    ExitsSucceed(st, e, calls, reserve);
    AllPaid(st, e, calls, reserve);
    ExitPaysWithinTheVault(st, e, calls, reserve);
  }

  /** Each of them fits where a withdrawal of everything would. */
  lemma QuotesFit(st: State, e: Env, calls: seq<Call>, reserve: Address)
    requires Inv(st) && Updated(st, e, reserve).Ok? && Withdrawals(calls, reserve)
    requires WithinQuotes(st, e, reserve, calls) && ProductsFit(Updated(st, e, reserve).value)
    ensures EachFits(Updated(st, e, reserve).value, calls)
  {
    UpdatedFacts(st, e, reserve);
    forall i | 0 <= i < |calls|
      ensures Updated(st, e, reserve).value.WithdrawalFits(calls[i].amount)
    {
      HolderWithinTotal(st, reserve, calls[i].user);
      QuoteFits(Updated(st, e, reserve).value, SharesOf(st, reserve, calls[i].user), calls[i].amount);
    }
  }
}
