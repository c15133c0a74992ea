/** Sums over all the holders of one reserve. */
module ShareSums {
  import opened Types
  import opened Ledger

  // What one entry of the share map adds to the sum over `reserve` of f of each holding.
  function Part(key: DepositKey, held: nat, reserve: Address, f: nat -> nat): nat {
    if key.reserve == reserve then f(held) else 0
  }

  ghost function SumOver(m: map<DepositKey, nat>, reserve: Address, f: nat -> nat): nat {
    if m == map[] then 0
    else
      var key :| key in m;
      Part(key, m[key], reserve, f) + SumOver(m - {key}, reserve, f)
  }

  function Identity(): nat -> nat {
    (held: nat) => held
  }

  ghost function TotalShares(st: State, reserve: Address): nat {
    SumOver(st.shares, reserve, Identity())
  }

  /** The sum does not depend on the order: any entry can be taken out first. */
  lemma {:induction false} TakeOut(m: map<DepositKey, nat>, key: DepositKey, reserve: Address, f: nat -> nat)
    requires key in m
    ensures SumOver(m, reserve, f) == Part(key, m[key], reserve, f) + SumOver(m - {key}, reserve, f)
    decreases |m|
  {
    var first :| first in m
      && SumOver(m, reserve, f) == Part(first, m[first], reserve, f) + SumOver(m - {first}, reserve, f);
    if first != key {
      TakeOut(m - {first}, key, reserve, f);
      assert m - {first} - {key} == m - {key} - {first};
      TakeOut(m - {key}, first, reserve, f);
    }
  }

  lemma Update(m: map<DepositKey, nat>, key: DepositKey, held: nat, reserve: Address, f: nat -> nat)
    requires f(0) == 0
    ensures SumOver(m[key := held], reserve, f) + Part(key, if key in m then m[key] else 0, reserve, f)
            == SumOver(m, reserve, f) + Part(key, held, reserve, f)
  {
    TakeOut(m[key := held], key, reserve, f);
    assert m[key := held] - {key} == m - {key};
    if key in m {
      TakeOut(m, key, reserve, f);
    } else {
      assert m - {key} == m;
    }
  }

  /** No holder has more than the whole. */
  lemma HolderWithinTotal(st: State, reserve: Address, user: Address)
    ensures SharesOf(st, reserve, user) <= TotalShares(st, reserve)
  {
    var key := DepositKey(reserve, user);
    if key in st.shares {
      TakeOut(st.shares, key, reserve, Identity());
    }
  }

  ghost predicate Superadditive(f: nat -> nat) {
    f(0) == 0 && forall x: nat, y: nat :: f(x) + f(y) <= f(x + y)
  }

  /** Rounding each holding down separately gives no more than rounding the total down. */
  lemma {:induction false} SumOfParts(m: map<DepositKey, nat>, reserve: Address, f: nat -> nat)
    requires Superadditive(f)
    ensures SumOver(m, reserve, f) <= f(SumOver(m, reserve, Identity()))
    decreases |m|
  {
    if m != map[] {
      var key :| key in m;
      TakeOut(m, key, reserve, f);
      TakeOut(m, key, reserve, Identity());
      SumOfParts(m - {key}, reserve, f);
      assert f(Part(key, m[key], reserve, Identity())) + f(SumOver(m - {key}, reserve, Identity()))
          <= f(SumOver(m, reserve, Identity()));
    }
  }

  lemma {:induction false} SumOfNone(m: map<DepositKey, nat>, reserve: Address, f: nat -> nat)
    requires forall key :: key in m ==> key.reserve != reserve
    ensures SumOver(m, reserve, f) == 0
    decreases |m|
  {
    if m != map[] {
      var key :| key in m;
      TakeOut(m, key, reserve, f);
      SumOfNone(m - {key}, reserve, f);
    }
  }

  // ---- Pooled holdings ----

  function Among(m: map<DepositKey, nat>, users: set<Address>): map<DepositKey, nat> {
    map key | key in m && key.user in users :: m[key]
  }

  // The shares of a reserve that a group of users holds together.
  ghost function Pooled(st: State, reserve: Address, users: set<Address>): nat {
    SumOver(Among(st.shares, users), reserve, Identity())
  }

  lemma AmongWithout(m: map<DepositKey, nat>, users: set<Address>, key: DepositKey)
    ensures Among(m, users) - {key} == Among(m - {key}, users)
  {
  }

  lemma {:induction false} PartOfTotal(m: map<DepositKey, nat>, reserve: Address, users: set<Address>)
    ensures SumOver(Among(m, users), reserve, Identity()) <= SumOver(m, reserve, Identity())
    decreases |m|
  {
    if m != map[] {
      var key :| key in m;
      var some := Among(m, users);
      TakeOut(m, key, reserve, Identity());
      PartOfTotal(m - {key}, reserve, users);
      AmongWithout(m, users, key);
      if key in some {
        TakeOut(some, key, reserve, Identity());
      } else {
        assert some - {key} == some;
      }
    }
  }

  /** A group holds no more than everybody, and its members no more than the group. */
  lemma PooledBounds(st: State, reserve: Address, users: set<Address>, member: Address)
    ensures Pooled(st, reserve, users) <= TotalShares(st, reserve)
    ensures member in users ==> SharesOf(st, reserve, member) <= Pooled(st, reserve, users)
  {
    PartOfTotal(st.shares, reserve, users);
    var key := DepositKey(reserve, member);
    if member in users && key in st.shares {
      TakeOut(Among(st.shares, users), key, reserve, Identity());
    }
  }

  /** When a member's position changes, the group's holding changes with it. */
  lemma PooledMoves(st: State, st': State, reserve: Address, users: set<Address>, member: Address, held: nat)
    requires member in users && st'.shares == st.shares[DepositKey(reserve, member) := held]
    ensures Pooled(st', reserve, users) + SharesOf(st, reserve, member) == Pooled(st, reserve, users) + held
  {
    var key := DepositKey(reserve, member);
    assert Among(st'.shares, users) == Among(st.shares, users)[key := held];
    Update(Among(st.shares, users), key, held, reserve, Identity());
  }

  lemma PoolOfOne(st: State, reserve: Address, user: Address)
    ensures Pooled(st, reserve, {user}) == SharesOf(st, reserve, user)
  {
    var key, mine := DepositKey(reserve, user), Among(st.shares, {user});
    if key in mine {
      TakeOut(mine, key, reserve, Identity());
    }
    SumOfNone(mine - {key}, reserve, Identity());
    if key !in mine {
      assert mine - {key} == mine;
    }
  }
}
