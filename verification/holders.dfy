/** A holder who does not trade, over a whole run: others may do anything, and fees may be
    charged under any mode, as long as the pool's rate does not fall. */
module Holders {
  import opened Types
  import opened Vaults
  import opened Ledger
  import opened ShareSums
  import opened ConversionLaws
  import opened Invariants
  import opened PoolMirror
  import opened Trading

  lemma HolderKeepsVaultFunded(st: State, a: Address, user: Address)
    requires Inv(st) && a in st.vaults && 0 < SharesOf(st, a, user)
    ensures st.vaults[a].totalShares != 0
  {
    assert VaultOk(st, a);
    HolderWithinTotal(st, a, user);
  }

  lemma {:induction false} SharesKeepTheirValue(st: State, txs: seq<Tx>, a: Address, user: Address)
    requires Inv(st) && RatesRise(st, txs) && a in st.vaults && 0 < SharesOf(st, a, user)
    requires forall tx :: tx in txs ==> !Trades(tx.call, a, user)
    ensures var st' := Run(st, txs);
            && Inv(st') && a in st'.vaults && SharesOf(st', a, user) == SharesOf(st, a, user)
            && NotDevalued(st.vaults[a], st'.vaults[a])
    decreases |txs|
  {
    if txs != [] {
      var tx, st1 := txs[0], Exec(st, txs[0]);
      assert tx == Tx(tx.env, tx.call) && tx in txs;
      StepKeepsInv(st, tx);
      ShareValueNeverFalls(st, tx.env, tx.call, a);
      OthersKeepShares(st, tx.env, tx.call, a, user);
      HolderKeepsVaultFunded(st1, a, user);
      SharesKeepTheirValue(st1, txs[1..], a, user);
      NotDevaluedChain(st.vaults[a], st1.vaults[a], Run(st1, txs[1..]).vaults[a]);
    }
  }

  /** Over any run without falling rates, a holder who does not trade keeps the shares, each
      share keeps its exact value, and the rounded quote loses in all, however many accruals
      there are, less than the value of one bToken. */
  lemma HolderIsSafeThroughRun(st: State, txs: seq<Tx>, a: Address, user: Address)
    requires Inv(st) && RatesRise(st, txs) && a in st.vaults && 0 < SharesOf(st, a, user)
    requires forall tx :: tx in txs ==> !Trades(tx.call, a, user)
    ensures var st' := Run(st, txs);
            var held := SharesOf(st, a, user);
            && a in st'.vaults && SharesOf(st', a, user) == held
            && NotDevalued(st.vaults[a], st'.vaults[a])
            && var w := st'.vaults[a];
               st.vaults[a].Quote(held) <= w.BTokensToUnderlyingDown(w.Claim(held) + 1)
  {
    SharesKeepTheirValue(st, txs, a, user);
    HeldQuote(st, Run(st, txs), a, user);
  }

  lemma HeldQuote(st: State, st': State, a: Address, user: Address)
    requires Inv(st') && a in st.vaults && a in st'.vaults && NotDevalued(st.vaults[a], st'.vaults[a])
    requires 0 < SharesOf(st, a, user) == SharesOf(st', a, user)
    ensures var held := SharesOf(st, a, user);
            var w := st'.vaults[a];
            st.vaults[a].Quote(held) <= w.BTokensToUnderlyingDown(w.Claim(held) + 1)
  {
    HolderKeepsVaultFunded(st', a, user);
    QuoteKeptWithinOneBToken(st.vaults[a], st'.vaults[a], SharesOf(st, a, user));
  }
}
