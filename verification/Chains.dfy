/** Chains of accounts, each with a link to the next: of parents, or of delegates. */
module Chains {
  import opened Host

  /** Each account may lead to one other. */
  type Links = map<Address, Address>

  /** The `k`-th account after `x`, if the chain is that long. */
  function Up(p: Links, x: Address, k: nat): Option<Address> {
    if k == 0 then Some(x)
    else
      match Up(p, x, k - 1)
      case None => None
      case Some(y) => if y in p then Some(p[y]) else None
  }

  lemma {:induction false} UpUp(p: Links, x: Address, i: nat, j: nat)
    requires Up(p, x, i).Some?
    ensures Up(p, x, i + j) == Up(p, Up(p, x, i).value, j)
  {
    if j == 0 {
    } else {
      UpUp(p, x, i, j - 1);
      assert i + j - 1 == i + (j - 1);
    }
  }

  lemma {:induction false} UpShorter(p: Links, x: Address, i: nat, k: nat)
    requires i <= k && Up(p, x, k).Some?
    ensures Up(p, x, i).Some? && (i < k ==> Up(p, x, i).value in p)
    decreases k - i
  {
    if i == k {
    } else {
      UpShorter(p, x, i + 1, k);
    }
  }
}
