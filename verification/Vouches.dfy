/** The records of who vouches for a borrower, as slash votes and appeals read them. */
module Vouches {
  import opened Host

  /** A voucher may have one record per token: only the same voucher and token are refused twice. */
  datatype Vouch = Vouch(voucher: Address, token: Address, stake: i128)

  function StakeSum(vs: seq<Vouch>): int {
    if vs == [] then 0 else StakeSum(vs[..|vs| - 1]) + vs[|vs| - 1].stake
  }
}
