/** Account state as transaction processing sees it, and the total ether it holds. */
module Accounts {
  import opened Words

  type Address = nat

  /** `contracts` are the accounts with code; `rest` stands for code, storage and everything else. */
  datatype World = World(balances: map<Address, nat>, nonces: map<Address, nat>, contracts: set<Address>, rest: nat)

  function Balance(w: World, a: Address): nat {
    if a in w.balances then w.balances[a] else 0
  }

  function Nonce(w: World, a: Address): nat {
    if a in w.nonces then w.nonces[a] else 0
  }

  /** Balances are 256-bit words and arithmetic on them wraps. */
  function AddBalance(w: World, a: Address, amount: nat): World {
    w.(balances := w.balances[a := (Balance(w, a) + amount) % U256])
  }

  function SubBalance(w: World, a: Address, amount: nat): World {
    w.(balances := w.balances[a := (Balance(w, a) - amount) % U256])
  }

  /** Nonces are 64-bit words: the successor of the last one is zero. */
  function BumpNonce(w: World, a: Address): World {
    w.(nonces := w.nonces[a := (Nonce(w, a) + 1) % U64])
  }

  ghost function Sum(m: map<Address, nat>): nat {
    if m == map[] then 0 else
    var a :| a in m;
    m[a] + Sum(m - {a})
  }

  ghost function Total(w: World): nat {
    Sum(w.balances)
  }

  lemma {:induction false} SumSplit(m: map<Address, nat>, a: Address)
    requires a in m
    ensures Sum(m) == m[a] + Sum(m - {a})
    decreases |m|
  {
    var b :| b in m && Sum(m) == m[b] + Sum(m - {b});
    if b != a {
      SumSplit(m - {b}, a);
      SumSplit(m - {a}, b);
      assert m - {a} - {b} == m - {b} - {a};
    }
  }

  lemma TotalSet(m: map<Address, nat>, a: Address, v: nat)
    ensures Sum(m[a := v]) == Sum(m) - (if a in m then m[a] else 0) + v
  {
    SumSplit(m[a := v], a);
    assert m[a := v] - {a} == m - {a};
    if a in m {
      SumSplit(m, a);
    } else {
      assert m - {a} == m;
    }
  }

  lemma BalanceBelowTotal(w: World, a: Address)
    ensures Balance(w, a) <= Total(w)
  {
    if a in w.balances {
      SumSplit(w.balances, a);
    }
  }

  /** Adding to an account adds to the total exactly when the account's word does not overflow. */
  lemma AddTotal(w: World, a: Address, amount: nat)
    requires Balance(w, a) < U256 && amount < U256
    ensures Total(AddBalance(w, a, amount)) == Total(w) + amount <==> Balance(w, a) + amount < U256
  {
    TotalSet(w.balances, a, (Balance(w, a) + amount) % U256);
  }

  lemma SubTotal(w: World, a: Address, amount: nat)
    requires amount <= Balance(w, a) < U256
    ensures Total(SubBalance(w, a, amount)) == Total(w) - amount
    ensures Balance(SubBalance(w, a, amount), a) == Balance(w, a) - amount
  {
    TotalSet(w.balances, a, Balance(w, a) - amount);
  }
}
