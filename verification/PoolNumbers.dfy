/** Pools are numbered in the order they are built; each number is issued once. */
module PoolNumbers {
  type PoolId = nat

  /** The numbers issued by `n` builds, once each. */
  ghost function Issued(n: nat): multiset<PoolId> {
    if n == 0 then multiset{} else Issued(n - 1) + multiset{n - 1}
  }

  lemma {:induction false} IssuedOnce(n: nat, p: PoolId)
    ensures Issued(n)[p] == if p < n then 1 else 0
  {
    if n > 0 { IssuedOnce(n - 1, p); }
  }
}
