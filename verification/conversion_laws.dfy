/** What rounding costs and whom: the laws of minting and burning shares at a fixed rate,
    for one vault. They are first proved as facts about integers, with the quotients
    named, and then read off the vault's conversions. */
module ConversionLaws {
  import opened Types
  import opened FixedPoint
  import opened Vaults

  // ---- The vault's own invariant ----

  // Never more bTokens than shares, and no shares left on an empty vault.
  predicate Sound(v: Vault) {
    && v.totalBTokens <= v.totalShares
    && (v.totalBTokens == 0 ==> v.totalShares == 0)
  }

  // A share is worth at least as many bTokens in `w` as in `v`.
  predicate NotDiluted(v: Vault, w: Vault) {
    w.totalShares * v.totalBTokens <= v.totalShares * w.totalBTokens
  }

  /** In a sound vault a mint of positive bTokens gives at least as many shares, keeps the
      vault sound, and does not dilute anyone. */
  lemma MintIsSound(v: Vault, bTokens: nat)
    requires Sound(v)
    ensures var shares := v.BTokensToSharesDown(bTokens);
            bTokens <= shares && Sound(v.Minted(bTokens, shares)) && NotDiluted(v, v.Minted(bTokens, shares))
  {
    var shares := v.BTokensToSharesDown(bTokens);
    if v.Funded() {
      MulLe(v.totalBTokens, v.totalShares, bTokens);
      FloorAdjoint(bTokens, bTokens * v.totalShares, v.totalBTokens);
      Distribute(v.totalShares, shares, v.totalBTokens);
      Distribute(v.totalBTokens, bTokens, v.totalShares);
    }
  }

  /** Burning is exact about emptiness: it is covered by the supply in shares precisely when
      it is covered in bTokens, and it takes the last share precisely when it takes the last bToken. */
  lemma BurnCoverage(v: Vault, bTokens: nat)
    requires Sound(v)
    ensures var shares := v.BTokensToSharesUp(bTokens);
            && (shares <= v.totalShares <==> bTokens <= v.totalBTokens)
            && (bTokens <= v.totalBTokens ==> bTokens <= shares)
            && (bTokens <= v.totalBTokens ==> v.totalBTokens - bTokens <= v.totalShares - shares)
            && (bTokens < v.totalBTokens ==> shares < v.totalShares)
  {
    if v.Funded() {
      var s, b := v.totalShares, v.totalBTokens;
      var shares := v.BTokensToSharesUp(bTokens);
      CeilAdjoint(s, bTokens * s, b);
      if bTokens <= b {
        MulLe(bTokens, b, s);
        BurnFloor(s, b, bTokens, shares);
      } else {
        MulLe(b + 1, bTokens, s);
      }
    }
  }

  lemma BurnFloor(s: nat, b: nat, bTokens: nat, shares: nat)
    requires 0 < b <= s && bTokens <= b
    requires (shares - 1) * b < bTokens * s <= shares * b
    ensures bTokens <= shares
    ensures b - bTokens <= s - shares
  {
    MulLe(b, s, bTokens);
    CancelLe(bTokens, shares, b);
    // The unburnt bTokens are worth at least themselves in shares.
    MulLe(b, s, b - bTokens);
    assert (shares - 1) * b + (b - bTokens) * b < s * b by {
      assert (b - bTokens) * s == b * s - bTokens * s;
    }
    assert (shares - 1 + b - bTokens) * b < s * b;
    CancelLt(shares - 1 + b - bTokens, s, b);
  }

  /** A covered burn keeps the vault sound and does not dilute the shares that remain. */
  lemma BurnIsSound(v: Vault, bTokens: nat)
    requires Sound(v) && bTokens <= v.totalBTokens
    ensures var shares := v.BTokensToSharesUp(bTokens);
            shares <= v.totalShares && Sound(v.Burnt(bTokens, shares)) && NotDiluted(v, v.Burnt(bTokens, shares))
  {
    BurnCoverage(v, bTokens);
    if v.Funded() {
      BurnPrice(v.totalShares, v.totalBTokens, v.BTokensToSharesUp(bTokens), bTokens);
    }
  }

  lemma BurnPrice(s: int, b: int, shares: int, bTokens: int)
    requires (shares - 1) * b < bTokens * s <= shares * b
    requires 0 < b && bTokens <= b && shares <= s
    ensures (s - shares) * b <= s * (b - bTokens)
    ensures bTokens == b ==> shares == s
  {
    Distribute(s - shares, shares, b);
    Distribute(b - bTokens, bTokens, s);
    if bTokens == b {
      CancelLt(shares - 1, s, b);
      CancelLe(s, shares, b);
    }
  }

  // ---- Claims and quotes ----

  /** A holder's claim does not fall when shares are not diluted. */
  lemma ClaimMonotone(v: Vault, w: Vault, shares: nat)
    requires NotDiluted(v, w) && shares <= w.totalShares
    ensures v.Claim(shares) <= w.Claim(shares)
  {
    if v.Claim(shares) != 0 {
      var claim := v.Claim(shares);
      UndilutedClaim(v.totalShares, v.totalBTokens, w.totalShares, w.totalBTokens, shares, claim);
      FloorAdjoint(claim, shares * w.totalBTokens, w.totalShares);
    }
  }

  lemma UndilutedClaim(s: nat, b: nat, s': nat, b': nat, shares: nat, claim: nat)
    requires 0 < s && s' * b <= s * b'
    requires claim * s <= shares * b
    ensures claim * s' <= shares * b'
  {
    MulLe(claim * s, shares * b, s');
    MulLe(s' * b, s * b', shares);
    assert claim * s * s' == (claim * s') * s;
    assert shares * b * s' == s' * b * shares;
    assert s * b' * shares == (shares * b') * s;
    CancelLe(claim * s', shares * b', s);
  }

  lemma QuoteMonotone(v: Vault, w: Vault, shares: nat, shares': nat)
    requires v.bRate == w.bRate && v.Claim(shares) <= w.Claim(shares')
    ensures v.Quote(shares) <= w.Quote(shares')
  {
    MulLe(v.Claim(shares), w.Claim(shares'), v.bRate);
    FloorMonotone(v.Claim(shares) * v.bRate, w.Claim(shares') * v.bRate, SCALAR_12);
  }

  lemma ZeroQuote(v: Vault)
    ensures v.BTokensToUnderlyingDown(0) == v.Quote(0) == 0
  {
    FloorAdjoint(1, 0, SCALAR_12);
  }

  /** More shares, no smaller a claim. */
  lemma ClaimOrdered(v: Vault, shares: nat, shares': nat)
    requires shares <= shares'
    ensures v.Claim(shares) <= v.Claim(shares') && v.Quote(shares) <= v.Quote(shares')
  {
    if v.totalShares != 0 {
      MulLe(shares, shares', v.totalBTokens);
      FloorMonotone(shares * v.totalBTokens, shares' * v.totalBTokens, v.totalShares);
    }
    QuoteMonotone(v, v, shares, shares');
  }

  /** All the shares of a sound vault claim all its bTokens. */
  lemma FullClaim(v: Vault)
    requires Sound(v)
    ensures v.Claim(v.totalShares) == v.totalBTokens
  {
    if v.totalShares != 0 {
      FloorAdjoint(v.totalBTokens, v.totalShares * v.totalBTokens, v.totalShares);
      FloorAdjoint(v.totalBTokens + 1, v.totalShares * v.totalBTokens, v.totalShares);
      assert (v.totalBTokens + 1) * v.totalShares == v.totalShares * v.totalBTokens + v.totalShares;
    }
  }

  /** The two ceilings of a withdrawal are adjoint to the two floors of a quote: an amount
      costs at most the shares held exactly when it is at most the quote. */
  lemma WithdrawalCostsQuote(v: Vault, amount: nat, held: nat)
    requires Sound(v) && held <= v.totalShares && 0 < amount
    ensures v.BTokensToSharesUp(v.UnderlyingToBTokensUp(amount)) <= held <==> amount <= v.Quote(held)
  {
    var bTokens := v.UnderlyingToBTokensUp(amount);
    assert 0 < bTokens by { CeilAdjoint(0, amount * SCALAR_12, v.bRate); }
    assert v.BTokensToSharesUp(bTokens) <= held <==> bTokens <= v.Claim(held) by {
      if v.Funded() {
        CeilAdjoint(held, bTokens * v.totalShares, v.totalBTokens);
        if held > 0 {
          FloorAdjoint(bTokens, held * v.totalBTokens, v.totalShares);
        }
      }
    }
    CeilAdjoint(v.Claim(held), amount * SCALAR_12, v.bRate);
    FloorAdjoint(amount, v.Claim(held) * v.bRate, SCALAR_12);
  }

  // ---- What a trade does to the trader ----

  /** The trader's bToken claim after a trade is at most the claim before plus the bTokens the
      trade brought into the vault: the rest of the holders lost nothing. */
  lemma TraderBound(s: nat, b: nat, held: nat, s': nat, b': nat, held': nat, before: nat, after: nat)
    requires 0 < s && 0 < s' && held <= s && s' - held' == s - held
    requires s' * b <= s * b'
    requires held * b < (before + 1) * s
    requires after * s' <= held' * b'
    ensures after + b <= before + b'
  {
    var others: nat := s - held;
    OthersKeepTheirPart(s, b, s', b', others, after);
    Distribute(held, others, b);
    Distribute(after, b, s);
    Distribute(before + 1, b', s);
    CancelLt(after + b, before + 1 + b', s);
  }

  /** The same for the claims of two vaults. */
  lemma ClaimAfterTrade(v: Vault, w: Vault, held: nat, held': nat)
    requires v.totalShares != 0 && w.totalShares != 0 && NotDiluted(v, w)
    requires held <= v.totalShares && w.totalShares - held' == v.totalShares - held
    ensures w.Claim(held') + v.totalBTokens <= v.Claim(held) + w.totalBTokens
  {
    ClaimBounds(v, held);
    ClaimBounds(w, held');
    TraderBound(v.totalShares, v.totalBTokens, held, w.totalShares, w.totalBTokens, held',
                v.Claim(held), w.Claim(held'));
  }

  lemma OthersKeepTheirPart(s: int, b: int, s': int, b': int, others: nat, after: int)
    requires 0 < s' && 0 <= s
    requires s' * b <= s * b'
    requires after * s' <= (s' - others) * b'
    ensures after * s <= b' * s - b * others
  {
    var x, y := s' * b, s * b';
    assert (after * s') * s <= (s' - others) * b' * s by { MulLe(after * s', (s' - others) * b', s); }
    assert (s' - others) * b' * s == s' * y - others * y by { assert (s' - others) * b' * s == (s' - others) * y; }
    assert others * x <= others * y by { MulLe(x, y, others); }
    assert s' * y - others * x == (b' * s - b * others) * s';
    assert (after * s) * s' == (after * s') * s;
    CancelLe(after * s, b' * s - b * others, s');
  }

  /** And after a mint it is at least that, less one bToken, because a share is worth at most
      one bToken. */
  lemma TraderFloor(s: nat, b: nat, held: nat, shares: nat, bTokens: nat, before: nat)
    requires 0 < b <= s && held <= s
    requires shares * b <= bTokens * s < (shares + 1) * b
    requires before * s <= held * b
    ensures (before + bTokens - 1) * (s + shares) <= (held + shares) * (b + bTokens)
  {
    var lost := bTokens * s - shares * b;  // what rounding leaves to the whole vault
    TraderShare(s, b, held, shares, bTokens);
    assert lost <= s by { assert (shares + 1) * b == shares * b + b; }
    assert (before + bTokens - 1) * s <= held * b + bTokens * s - s by {
      assert (before + bTokens - 1) * s == before * s + bTokens * s - s;
    }
    LessThanOneLost(s, s + shares, s - held, lost, held * b + bTokens * s, before + bTokens - 1,
                    (held + shares) * (b + bTokens));
  }

  lemma LessThanOneLost(s: nat, s': nat, others: nat, lost: nat, x: int, lhs: int, rhs: int)
    requires 0 < s <= s' && others <= s && lost <= s
    requires lhs * s <= x - s
    requires rhs * s == x * s' - others * lost
    ensures lhs * s' <= rhs
  {
    MulLe(others, s, lost);
    MulLe(lost, s', s);
    MulLe(lhs * s, x - s, s');
    Distribute(x - s, s, s');
    Swap(lhs, s', s);
    CancelLe(lhs * s', rhs, s);
  }

  lemma TraderShare(s: int, b: int, held: int, shares: int, bTokens: int)
    ensures (held + shares) * (b + bTokens) * s
            == (held * b + bTokens * s) * (s + shares) - (s - held) * (bTokens * s - shares * b)
  {
    var s', others, lost := s + shares, s - held, bTokens * s - shares * b;
    var total := (b + bTokens) * s;
    assert total == b * s' + lost;
    assert (held + shares) * total == s' * total - others * total;
    assert others * total == others * b * s' + others * lost;
    assert total - others * b == held * b + bTokens * s;
    assert (total - others * b) * s' == s' * total - others * b * s';
  }

  /** Right after a deposit of b bTokens the depositor's bToken claim has grown by b or b - 1. */
  lemma MintGrowsClaim(v: Vault, held: nat, bTokens: nat)
    requires Sound(v) && held <= v.totalShares
    ensures var shares := v.BTokensToSharesDown(bTokens);
            var w := v.Minted(bTokens, shares);
            v.Claim(held) + bTokens - 1 <= w.Claim(held + shares) <= v.Claim(held) + bTokens
  {
    var shares := v.BTokensToSharesDown(bTokens);
    var w := v.Minted(bTokens, shares);
    if !v.Funded() {
      FullClaim(w);
    } else {
      MintIsSound(v, bTokens);
      ClaimAfterTrade(v, w, held, held + shares);
      ClaimAfterMint(v, w, held, shares, bTokens);
    }
  }

  lemma ClaimAfterMint(v: Vault, w: Vault, held: nat, shares: nat, bTokens: nat)
    requires Sound(v) && v.Funded() && held <= v.totalShares && w == v.Minted(bTokens, shares)
    requires shares * v.totalBTokens <= bTokens * v.totalShares < (shares + 1) * v.totalBTokens
    ensures v.Claim(held) + bTokens - 1 <= w.Claim(held + shares)
  {
    ClaimBounds(v, held);
    TraderFloor(v.totalShares, v.totalBTokens, held, shares, bTokens, v.Claim(held));
    ReachesClaim(w, held + shares, v.Claim(held) + bTokens - 1);
  }

  lemma ClaimAfterBurn(v: Vault, w: Vault, held: nat, held': nat, burnt: nat)
    requires v.totalShares != 0 && w.totalShares != 0 && v.totalBTokens <= v.totalShares && NotDiluted(v, w)
    requires held == held' + burnt
    requires (burnt - 1) * v.totalBTokens < (v.totalBTokens - w.totalBTokens) * v.totalShares
    ensures v.Claim(held) - (v.totalBTokens - w.totalBTokens) - 1 <= w.Claim(held')
  {
    var kept := v.Claim(held) - (v.totalBTokens - w.totalBTokens) - 1;
    ClaimBounds(v, held);
    TraderKeeps(v.totalShares, v.totalBTokens, held, w.totalShares, w.totalBTokens, held', burnt, v.Claim(held));
    ReachesClaim(w, held', kept);
  }

  lemma ReachesClaim(v: Vault, held: nat, claim: int)
    requires v.totalShares != 0 && claim * v.totalShares <= held * v.totalBTokens
    ensures claim <= v.Claim(held)
  {
    FloorAdjoint(claim, held * v.totalBTokens, v.totalShares);
    FloorAdjoint(0, held * v.totalBTokens, v.totalShares);
  }

  lemma ClaimBounds(v: Vault, held: nat)
    requires v.totalShares != 0
    ensures v.Claim(held) * v.totalShares <= held * v.totalBTokens < (v.Claim(held) + 1) * v.totalShares
  {
  }

  /** A burn rounds against the trader by less than one share, hence by less than one bToken. */
  lemma TraderKeeps(s: nat, b: nat, held: nat, s': nat, b': nat, held': nat, burnt: nat, before: nat)
    requires 0 < s && b <= s && held == held' + burnt
    requires (burnt - 1) * b < (b - b') * s
    requires s' * b <= s * b'
    requires before * s <= held * b
    ensures (before - (b - b') - 1) * s' <= held' * b'
  {
    var lhs := before - (b - b') - 1;
    assert lhs * s <= held' * b by {
      Distribute(burnt - 1, 1, b);
      Distribute(held', burnt, b);
      Distribute(lhs, b - b', s);
      Distribute(lhs + (b - b'), 1, s);
    }
    AtBetterPrice(s, b, s', b', held', lhs);
  }

  lemma AtBetterPrice(s: nat, b: nat, s': nat, b': nat, left: nat, lhs: int)
    requires 0 < s && s' * b <= s * b'
    requires lhs * s <= left * b
    ensures lhs * s' <= left * b'
  {
    MulLe(lhs * s, left * b, s');
    MulLe(s' * b, s * b', left);
    assert lhs * s * s' == (lhs * s') * s;
    assert left * b * s' == s' * b * left;
    assert s * b' * left == (left * b') * s;
    CancelLe(lhs * s', left * b', s);
  }

  /** After a covered burn of b bTokens the claim has fallen by b or b + 1. */
  lemma BurnShrinksClaim(v: Vault, held: nat, bTokens: nat)
    requires Sound(v) && held <= v.totalShares && bTokens <= v.totalBTokens
    requires v.BTokensToSharesUp(bTokens) <= held
    ensures var shares := v.BTokensToSharesUp(bTokens);
            var w := v.Burnt(bTokens, shares);
            v.Claim(held) - bTokens - 1 <= w.Claim(held - shares) <= v.Claim(held) - bTokens
  {
    var shares: nat := v.BTokensToSharesUp(bTokens);
    BurnIsSound(v, bTokens);
    if v.Funded() {
      var w, left := v.Burnt(bTokens, shares), held - shares;
      if w.totalShares == 0 {
        FullClaim(v);
      } else {
        ClaimAfterTrade(v, w, held, left);
        ClaimAfterBurn(v, w, held, left, shares);
      }
    }
  }

  /** Between two claims the quotes differ as their values do, to within one unit. */
  lemma QuoteGap(v: Vault, w: Vault, x: nat, y: nat, gap: int)
    requires v.bRate == w.bRate && v.Claim(x) <= w.Claim(y) + gap
    ensures (v.Quote(x) - w.Quote(y)) * SCALAR_12 < gap * v.bRate + SCALAR_12
  {
    MulLe(v.Claim(x), w.Claim(y) + gap, v.bRate);
    Distribute(w.Claim(y), gap, v.bRate);
    Distribute(v.Quote(x) - w.Quote(y), w.Quote(y), SCALAR_12);
    Distribute(w.Quote(y), 1, SCALAR_12);
  }

  /** A deposit costs the depositor less than two bTokens and one underlying unit. */
  lemma DepositCostsLessThanTwoBTokens(v: Vault, held: nat, amount: nat)
    requires Sound(v) && held <= v.totalShares
    ensures var bTokens := v.UnderlyingToBTokensDown(amount);
            var shares := v.BTokensToSharesDown(bTokens);
            (v.Quote(held) + amount - v.Minted(bTokens, shares).Quote(held + shares)) * SCALAR_12
            < 2 * v.bRate + SCALAR_12
  {
    var bTokens := v.UnderlyingToBTokensDown(amount);
    var shares := v.BTokensToSharesDown(bTokens);
    var w := v.Minted(bTokens, shares);
    MintGrowsClaim(v, held, bTokens);
    QuoteGap(v, w, held, held + shares, 1 - bTokens);
    Distribute(bTokens, 1, v.bRate);
    Distribute(1 - bTokens, bTokens, v.bRate);
    Distribute(v.Quote(held) - w.Quote(held + shares), amount, SCALAR_12);
  }

  /** And so does a withdrawal. */
  lemma WithdrawalCostsLessThanTwoBTokens(v: Vault, held: nat, amount: nat)
    requires Sound(v) && held <= v.totalShares
    requires v.UnderlyingToBTokensUp(amount) <= v.totalBTokens
    requires v.BTokensToSharesUp(v.UnderlyingToBTokensUp(amount)) <= held
    ensures var bTokens := v.UnderlyingToBTokensUp(amount);
            var shares := v.BTokensToSharesUp(bTokens);
            && shares <= v.totalShares
            && (v.Quote(held) - amount - v.Burnt(bTokens, shares).Quote(held - shares)) * SCALAR_12
               < 2 * v.bRate + SCALAR_12
  {
    var bTokens := v.UnderlyingToBTokensUp(amount);
    var shares := v.BTokensToSharesUp(bTokens);
    BurnShrinksClaim(v, held, bTokens);
    var w, left := v.Burnt(bTokens, shares), held - shares;
    QuoteGap(v, w, held, left, bTokens + 1);
    AmountLeaves(v.Quote(held) - w.Quote(left), amount, bTokens, v.bRate);
  }

  lemma AmountLeaves(gap: int, amount: int, bTokens: int, rate: int)
    requires gap * SCALAR_12 < (bTokens + 1) * rate + SCALAR_12
    requires (bTokens - 1) * rate < amount * SCALAR_12
    ensures (gap - amount) * SCALAR_12 < 2 * rate + SCALAR_12
  {
    Distribute(bTokens - 1, 2, rate);
  }

  /** A deposit raises the depositor's quote by at most the amount paid in. */
  lemma DepositRaisesQuoteAtMostAmount(v: Vault, held: nat, amount: nat)
    requires Sound(v) && held <= v.totalShares
    ensures var bTokens := v.UnderlyingToBTokensDown(amount);
            var shares := v.BTokensToSharesDown(bTokens);
            v.Minted(bTokens, shares).Quote(held + shares) <= v.Quote(held) + amount
  {
    var bTokens := v.UnderlyingToBTokensDown(amount);
    var shares := v.BTokensToSharesDown(bTokens);
    var before, after := v.Claim(held), v.Minted(bTokens, shares).Claim(held + shares);
    MintGrowsClaim(v, held, bTokens);
    MulLe(after, before + bTokens, v.bRate);
    Distribute(before, bTokens, v.bRate);
    Distribute(v.Quote(held) + 1, amount, SCALAR_12);
    CancelLt(v.Minted(bTokens, shares).Quote(held + shares), v.Quote(held) + amount + 1, SCALAR_12);
  }

  /** A withdrawal lowers the holder's quote by at least the amount paid out. */
  lemma WithdrawalLowersQuoteAtLeastAmount(v: Vault, held: nat, amount: nat)
    requires Sound(v) && held <= v.totalShares
    requires v.UnderlyingToBTokensUp(amount) <= v.totalBTokens
    requires v.BTokensToSharesUp(v.UnderlyingToBTokensUp(amount)) <= held
    ensures var bTokens := v.UnderlyingToBTokensUp(amount);
            var shares := v.BTokensToSharesUp(bTokens);
            v.Burnt(bTokens, shares).Quote(held - shares) + amount <= v.Quote(held)
  {
    var bTokens := v.UnderlyingToBTokensUp(amount);
    var shares := v.BTokensToSharesUp(bTokens);
    BurnShrinksClaim(v, held, bTokens);
    BurnIsSound(v, bTokens);
    var w := v.Burnt(bTokens, shares);
    var before, after := v.Claim(held), w.Claim(held - shares);
    MulLe(after + bTokens, before, v.bRate);
    Distribute(after, bTokens, v.bRate);
    Distribute(w.Quote(held - shares), amount, SCALAR_12);
    CancelLt(w.Quote(held - shares) + amount, v.Quote(held) + 1, SCALAR_12);
  }

  /** Claims and quotes of separate holdings add up to no more than those of the sum. */
  lemma ClaimSuperadditive(v: Vault, x: nat, y: nat)
    ensures v.Claim(x) + v.Claim(y) <= v.Claim(x + y)
    ensures v.Quote(x) + v.Quote(y) <= v.Quote(x + y)
  {
    if v.totalShares != 0 {
      assert (x + y) * v.totalBTokens == x * v.totalBTokens + y * v.totalBTokens;
      FloorSuperadditive(x * v.totalBTokens, y * v.totalBTokens, v.totalShares);
    }
    UnderlyingSuperadditive(v, v.Claim(x), v.Claim(y));
    MulLe(v.Claim(x) + v.Claim(y), v.Claim(x + y), v.bRate);
    FloorMonotone((v.Claim(x) + v.Claim(y)) * v.bRate, v.Claim(x + y) * v.bRate, SCALAR_12);
  }

  lemma UnderlyingSuperadditive(v: Vault, x: nat, y: nat)
    ensures v.BTokensToUnderlyingDown(x) + v.BTokensToUnderlyingDown(y) <= v.BTokensToUnderlyingDown(x + y)
  {
    assert (x + y) * v.bRate == x * v.bRate + y * v.bRate;
    FloorSuperadditive(x * v.bRate, y * v.bRate, SCALAR_12);
  }

  // ---- Value across time ----

  // A share is worth at least as much in underlying tokens in `w` as in `v`.
  predicate NotDevalued(v: Vault, w: Vault) {
    w.totalShares * (v.totalBTokens * v.bRate) <= v.totalShares * (w.totalBTokens * w.bRate)
  }

  lemma NotDevaluedChain(x: Vault, y: Vault, z: Vault)
    requires y.totalShares != 0 && NotDevalued(x, y) && NotDevalued(y, z)
    ensures NotDevalued(x, z)
  {
    ShareChain(x.totalShares, x.totalBTokens * x.bRate, y.totalShares, y.totalBTokens * y.bRate,
               z.totalShares, z.totalBTokens * z.bRate);
  }

  lemma ShareChain(s: nat, x: int, s1: nat, x1: int, s2: nat, x2: int)
    requires 0 < s1 && s1 * x <= s * x1 && s2 * x1 <= s1 * x2
    ensures s2 * x <= s * x2
  {
    MulLe(s1 * x, s * x1, s2);
    MulLe(s2 * x1, s1 * x2, s);
    Swap(s2, x, s1);
    assert s1 * x * s2 == s2 * x * s1;
    assert s * x1 * s2 == s2 * x1 * s;
    assert s1 * x2 * s == s * x2 * s1;
    CancelLe(s2 * x, s * x2, s1);
  }

  /** Where shares are not devalued, a holder's rounded quote falls short of the old one by
      less than the value of one bToken. */
  lemma QuoteKeptWithinOneBToken(v: Vault, w: Vault, held: nat)
    requires NotDevalued(v, w) && w.totalShares != 0
    ensures v.Quote(held) <= w.BTokensToUnderlyingDown(w.Claim(held) + 1)
  {
    var claim, next := v.Claim(held), w.Claim(held) + 1;
    if claim == 0 {
      MulLe(0, next, w.bRate);
    } else {
      ClaimBounds(v, held);
      ClaimBounds(w, held);
      assert claim * v.bRate * v.totalShares <= held * (v.totalBTokens * v.bRate) by {
        MulLe(claim * v.totalShares, held * v.totalBTokens, v.bRate);
        Swap(claim, v.totalShares, v.bRate);
        Regroup(held, v.totalBTokens, v.bRate);
      }
      assert held * (w.totalBTokens * w.bRate) <= next * w.bRate * w.totalShares by {
        MulLe(held * w.totalBTokens, next * w.totalShares, w.bRate);
        Swap(next, w.totalShares, w.bRate);
        Regroup(held, w.totalBTokens, w.bRate);
      }
      WorthChain(v.totalShares, v.totalBTokens * v.bRate, w.totalShares, w.totalBTokens * w.bRate, held,
                 claim * v.bRate, next * w.bRate);
    }
    FloorMonotone(claim * v.bRate, next * w.bRate, SCALAR_12);
  }

  // What `worth` and `worth'` are for a holder of `held` out of `s` and `s'` shares.
  lemma WorthChain(s: int, x: int, s': int, x': int, held: int, worth: int, worth': int)
    requires 0 < s && 0 < s' && 0 <= held && s' * x <= s * x'
    requires worth * s <= held * x && held * x' <= worth' * s'
    ensures worth <= worth'
  {
    MulLe(worth * s, held * x, s');
    MulLe(s' * x, s * x', held);
    MulLe(held * x', worth' * s', s);
    Swap(held, x, s');
    Swap(held, x', s);
    Swap(worth', s', s);
    Swap(worth, s, s');
    Regroup(held, s', x);
    Regroup(held, s, x');
    CancelLe(worth * s', worth' * s', s);
    CancelLe(worth, worth', s');
  }
}
