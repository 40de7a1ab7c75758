/** Appeals of a slash: the escrowed stake goes back to the vouchers pro rata, or to the treasury. */
module Appeal {
  import opened Host
  import opened Arith
  import opened TokenLedger
  import opened Vouches

  const BPS: int := 10_000
  const OVERRIDE_QUORUM_BPS: int := 6_667

  datatype Status = Pending | Approved | Rejected

  datatype Escrow = Escrow(amount: i128, status: Status)

  /** The escrows, the stake recorded for approving each appeal, the treasury and the token balances. */
  datatype State = State(
    escrows: map<Address, Escrow>, approvals: map<Address, i128>, vouches: map<Address, seq<Vouch>>,
    treasury: int, ledger: Ledger)

  predicate NonNegative(vs: seq<Vouch>) {
    forall i :: 0 <= i < |vs| ==> vs[i].stake >= 0
  }

  // ---------- the shares ----------

  /** A voucher's part of the total stake, in whole basis points. */
  function Proportion(stake: int, total: int): int
    requires total > 0
  {
    TruncDiv(stake * BPS, total)
  }

  /** The share of a voucher that is not the last. */
  function Share(stake: int, total: int, escrow: int): int
    requires total > 0
  {
    TruncDiv(escrow * Proportion(stake, total), BPS)
  }

  /** What the first `n` vouchers receive when none of them is the last. */
  function Distributed(vs: seq<Vouch>, n: nat, total: int, escrow: int): int
    requires n <= |vs| && total > 0
  {
    if n == 0 then 0 else Distributed(vs, n - 1, total, escrow) + Share(vs[n - 1].stake, total, escrow)
  }

  /** What voucher `i` receives: its share, or for the last one whatever remains. */
  function Payout(vs: seq<Vouch>, i: nat, total: int, escrow: int): int
    requires i < |vs| && total > 0
  {
    if i == |vs| - 1 then escrow - Distributed(vs, i, total, escrow) else Share(vs[i].stake, total, escrow)
  }

  function SumPayouts(vs: seq<Vouch>, n: nat, total: int, escrow: int): int
    requires n <= |vs| && total > 0
  {
    if n == 0 then 0 else SumPayouts(vs, n - 1, total, escrow) + Payout(vs, n - 1, total, escrow)
  }

  lemma {:induction false} SharesSoFar(vs: seq<Vouch>, n: nat, total: int, escrow: int)
    requires n < |vs| && total > 0
    ensures SumPayouts(vs, n, total, escrow) == Distributed(vs, n, total, escrow)
  {
    if n == 0 {
    } else {
      SharesSoFar(vs, n - 1, total, escrow);
    }
  }

  /** The payouts add up to exactly the escrowed amount. */
  lemma PaysOutExactly(vs: seq<Vouch>, total: int, escrow: int)
    requires vs != [] && total > 0
    ensures SumPayouts(vs, |vs|, total, escrow) == escrow
  {
    SharesSoFar(vs, |vs| - 1, total, escrow);
  }

  /** A share is not negative, is at most the exact pro-rata share `escrow * stake / total`, and falls
      short of it by less than `escrow / 10000 + 1`. */
  lemma ShareNearExact(stake: nat, total: int, escrow: nat)
    requires total > 0 && stake <= total
    ensures var share := Share(stake, total, escrow);
            && 0 <= Proportion(stake, total) <= BPS
            && 0 <= share && share * total <= escrow * stake
            && BPS * (escrow * stake - share * total) < (escrow + BPS) * total
  {
    var p := Proportion(stake, total);
    var share := Share(stake, total, escrow);
    DivBounds(stake * BPS, total);
    ProportionInRange(stake, total);
    MulNonNeg(escrow, p);
    DivBounds(escrow * p, BPS);
    // p * total <= stake * BPS < p * total + total, each scaled by escrow
    MulMono(p * total, stake * BPS, escrow);
    MulMono(stake * BPS, p * total + total, escrow);
    MulAdd(p * total, total, escrow);
    MulAssoc(escrow, p, total);
    MulAssoc(escrow, stake, BPS);
    // share * BPS <= escrow * p < share * BPS + BPS, each scaled by total
    MulMono(BPS * share, escrow * p, total);
    MulMono(escrow * p + 1, BPS * share + BPS, total);
    MulAdd(escrow * p, 1, total);
    MulAdd(BPS * share, BPS, total);
    MulAssoc(BPS, share, total);
    MulAdd(escrow, BPS, total);
    hide Share, Proportion;
  }

  lemma ProportionInRange(stake: nat, total: int)
    requires total > 0 && stake <= total
    ensures 0 <= Proportion(stake, total) <= BPS
  {
    MulMono(stake, total, BPS);
    DivMono(stake * BPS, total * BPS, total);
    DivUnique(total * BPS, total, BPS);
  }

  lemma {:induction false} StakeWithinTotal(vs: seq<Vouch>, i: nat)
    requires NonNegative(vs) && i < |vs|
    ensures 0 <= vs[i].stake <= StakeSum(vs)
  {
    var front := vs[..|vs| - 1];
    if i < |front| {
      StakeWithinTotal(front, i);
      assert front[i] == vs[i];
    } else {
      TotalNonNegative(front);
    }
  }

  lemma {:induction false} TotalNonNegative(vs: seq<Vouch>)
    requires NonNegative(vs)
    ensures StakeSum(vs) >= 0
  {
    if vs == [] {
    } else {
      TotalNonNegative(vs[..|vs| - 1]);
    }
  }

  /** The first `n` shares together: at most their exact shares, and short of them by less than
      `n * (escrow / 10000 + 1)`. */
  lemma {:induction false} DistributedNearExact(vs: seq<Vouch>, n: nat, total: int, escrow: nat)
    requires NonNegative(vs) && total == StakeSum(vs) > 0 && n <= |vs|
    ensures var exact, paid := escrow * StakeSum(vs[..n]), Distributed(vs, n, total, escrow) * total;
            paid <= exact && BPS * (exact - paid) <= n * ((escrow + BPS) * total)
    ensures n > 0 ==> var exact, paid := escrow * StakeSum(vs[..n]), Distributed(vs, n, total, escrow) * total;
                      BPS * (exact - paid) < n * ((escrow + BPS) * total)
  {
    if n == 0 {
      assert vs[..0] == [];
    } else {
      DistributedNearExact(vs, n - 1, total, escrow);
      StakeWithinTotal(vs, n - 1);
      var stake, step := vs[n - 1].stake, (escrow + BPS) * total;
      ShareNearExact(stake, total, escrow);
      assert vs[..n][..n - 1] == vs[..n - 1] && vs[..n][n - 1] == vs[n - 1];
      MulAdd(StakeSum(vs[..n - 1]), stake, escrow);
      MulAdd(Distributed(vs, n - 1, total, escrow), Share(stake, total, escrow), total);
      MulAdd(n - 1, 1, step);
      hide Share, StakeSum, NonNegative;
    }
  }

  /** The last voucher receives at least its exact share, and exceeds it by less than
      `(n - 1) * (escrow / 10000 + 1)` for `n` vouchers. */
  lemma LastGetsRemainder(vs: seq<Vouch>, total: int, escrow: nat)
    requires NonNegative(vs) && total == StakeSum(vs) > 0
    ensures vs != []
    ensures var last := |vs| - 1;
            var payout := Payout(vs, last, total, escrow);
            && payout >= 0 && payout * total >= escrow * vs[last].stake
            && BPS * (payout * total - escrow * vs[last].stake) <= last * ((escrow + BPS) * total)
            && (last > 0 ==> BPS * (payout * total - escrow * vs[last].stake) < last * ((escrow + BPS) * total))
  {
    var last := |vs| - 1;
    DistributedNearExact(vs, last, total, escrow);
    StakeWithinTotal(vs, last);
    var stake, others := vs[last].stake, StakeSum(vs[..last]);
    var paid := Distributed(vs, last, total, escrow);
    assert total == others + stake;
    MulAdd(others, stake, escrow);
    MulSub(escrow, paid, total);
    MulNonNeg(escrow, stake);
    hide StakeSum, Distributed;
    if escrow - paid < 0 {
      MulMono(escrow - paid, -1, total);
    }
  }

  /** The distribution: it pays out exactly the escrow, no payout is negative, each voucher but the last
      gets at most its exact pro-rata share and less than `escrow / 10000 + 1` below it, and the last
      one gets at least its own. */
  lemma DistributionIsFair(vs: seq<Vouch>, i: nat, escrow: nat)
    requires NonNegative(vs) && StakeSum(vs) > 0 && i < |vs|
    ensures var total := StakeSum(vs);
            var payout, exact := Payout(vs, i, total, escrow), escrow * vs[i].stake;
            && SumPayouts(vs, |vs|, total, escrow) == escrow
            && payout >= 0
            && (i < |vs| - 1 ==> payout * total <= exact && BPS * (exact - payout * total) < (escrow + BPS) * total)
            && (i == |vs| - 1 ==> payout * total >= exact)
            && (0 < i == |vs| - 1 ==> BPS * (payout * total - exact) < i * ((escrow + BPS) * total))
  {
    PaysOutExactly(vs, StakeSum(vs), escrow);
    StakeWithinTotal(vs, i);
    LastGetsRemainder(vs, StakeSum(vs), escrow);
    ShareNearExact(vs[i].stake, StakeSum(vs), escrow);
    hide Share, StakeSum, Distributed, SumPayouts;
  }

  // ---------- finalizing an appeal ----------

  function Payments(vs: seq<Vouch>, total: int, escrow: int, token: Address): seq<Payment>
    requires total > 0
  {
    seq(|vs|, i requires 0 <= i < |vs| => Payment((token, vs[i].voucher), Payout(vs, i, total, escrow)))
  }

  predicate QuorumReached(approve: int, total: int) {
    total > 0 && TruncDiv(approve * BPS, total) >= OVERRIDE_QUORUM_BPS
  }

  function VouchesOf(s: State, borrower: Address): seq<Vouch> {
    if borrower in s.vouches then s.vouches[borrower] else []
  }

  /** `token` is that of the borrower's latest loan, if there is one. */
  function Finalize(s: State, contract: Address, borrower: Address, token: Option<Address>): (State, Result<()>) {
    var vs := VouchesOf(s, borrower);
    var total := StakeSum(vs);
    if borrower !in s.escrows then (s, Err(AppealNotFound))
    else if !s.escrows[borrower].status.Pending? then (s, Err(InvalidStateTransition))
    else if borrower !in s.approvals then (s, Err(AppealNotFound))
    else if total > I128_MAX then (s, Err(Overflow))
    else if total > 0 && !FitsI128(s.approvals[borrower] * BPS) then (s, Err(ArithmeticError))
    else
      var escrow := s.escrows[borrower];
      if QuorumReached(s.approvals[borrower], total) then
        if token.None? then (s, Err(NoActiveLoan))
        else
          match PayShares(s.ledger, contract, vs, total, escrow.amount, token.value)
          case Err(e) => (s, Err(e))
          case Ok(l) => (s.(ledger := l, escrows := s.escrows[borrower := escrow.(status := Approved)]), Ok(()))
      else if !FitsI128(s.treasury + escrow.amount) then (s, Err(ArithmeticError))
      else
        (s.(treasury := s.treasury + escrow.amount,
            escrows := s.escrows[borrower := escrow.(status := Rejected)]), Ok(()))
  }

  /** Pays the shares one by one; the first overflow or refused transfer fails the whole call. */
  function PayShares(l: Ledger, contract: Address, vs: seq<Vouch>, total: int, escrow: int, token: Address)
    : Result<Ledger>
    requires total > 0
  {
    PaySharesFrom(l, contract, vs, 0, total, escrow, token)
  }

  function PaySharesFrom(
    l: Ledger, contract: Address, vs: seq<Vouch>, i: nat, total: int, escrow: int, token: Address): Result<Ledger>
    requires total > 0 && i <= |vs|
    decreases |vs| - i
  {
    if i == |vs| then Ok(l)
    else if i < |vs| - 1 && !(FitsI128(vs[i].stake * BPS) && FitsI128(escrow * Proportion(vs[i].stake, total)))
    then Err(ArithmeticError)
    else if Payout(vs, i, total, escrow) <= 0 then PaySharesFrom(l, contract, vs, i + 1, total, escrow, token)
    else
      match Send(l, Transfer(token, contract, vs[i].voucher, Payout(vs, i, total, escrow)))
      case Err(e) => Err(e)
      case Ok(l') => PaySharesFrom(l', contract, vs, i + 1, total, escrow, token)
  }

  /** The products that the shares before the last are computed from stay in the type. */
  predicate SharesFit(vs: seq<Vouch>, total: int, escrow: int)
    requires total > 0
  {
    forall i :: 0 <= i < |vs| - 1 ==>
      FitsI128(vs[i].stake * BPS) && FitsI128(escrow * Proportion(vs[i].stake, total))
  }

  lemma {:induction false} PaySharesIsPay(
    l: Ledger, contract: Address, vs: seq<Vouch>, i: nat, total: int, escrow: int, token: Address)
    requires total > 0 && i <= |vs| && SharesFit(vs, total, escrow)
    ensures PaySharesFrom(l, contract, vs, i, total, escrow, token)
            == Pay(l, contract, Payments(vs, total, escrow, token)[i..])
    decreases |vs| - i
  {
    var ps := Payments(vs, total, escrow, token);
    if i == |vs| {
    } else {
      assert ps[i..][1..] == ps[i + 1..] && ps[i..][0] == ps[i];
      var sent := Send(l, Transfer(token, contract, vs[i].voucher, ps[i].amount));
      if ps[i].amount <= 0 || sent.Ok? {
        PaySharesIsPay(if ps[i].amount <= 0 then l else sent.value, contract, vs, i + 1, total, escrow, token);
      }
      hide Payout, Proportion, Send;
    }
  }

  /** Shares that are paid had their products in the type. */
  lemma {:induction false} PaidSharesFit(
    l: Ledger, contract: Address, vs: seq<Vouch>, i: nat, total: int, escrow: int, token: Address)
    requires total > 0 && i <= |vs| && PaySharesFrom(l, contract, vs, i, total, escrow, token).Ok?
    ensures forall j :: i <= j < |vs| - 1 ==>
              FitsI128(vs[j].stake * BPS) && FitsI128(escrow * Proportion(vs[j].stake, total))
    decreases |vs| - i
  {
    if i == |vs| {
    } else {
      var amount := Payout(vs, i, total, escrow);
      var sent := Send(l, Transfer(token, contract, vs[i].voucher, amount));
      PaidSharesFit(if amount <= 0 then l else sent.value, contract, vs, i + 1, total, escrow, token);
    }
  }

  /** What `who` receives from the first `n` payouts. */
  function ReceivedBy(vs: seq<Vouch>, n: nat, total: int, escrow: int, who: Address): int
    requires n <= |vs| && total > 0
  {
    if n == 0 then 0
    else
      ReceivedBy(vs, n - 1, total, escrow, who)
      + if vs[n - 1].voucher == who then Payout(vs, n - 1, total, escrow) else 0
  }

  lemma {:induction false} SumReceived(
    vs: seq<Vouch>, n: nat, total: int, escrow: nat, token: Address, other: Address, who: Address)
    requires NonNegative(vs) && total == StakeSum(vs) > 0 && n <= |vs|
    ensures Sum(Payments(vs, total, escrow, token)[..n], ForKey(other, who))
            == if other == token then ReceivedBy(vs, n, total, escrow, who) else 0
  {
    if n == 0 {
    } else {
      SumReceived(vs, n - 1, total, escrow, token, other, who);
      DistributionIsFair(vs, n - 1, escrow);
      var ps := Payments(vs, total, escrow, token);
      assert ps[..n][..n - 1] == ps[..n - 1];
      hide Payout, StakeSum, NonNegative;
      assert ps[..n][n - 1] == ps[n - 1];
    }
  }

  lemma {:induction false} NeedOfOtherToken(ps: seq<Payment>, payer: Address, token: Address)
    requires forall i :: 0 <= i < |ps| ==> ps[i].key.0 != token
    ensures Need(ps, payer, token) == 0
    decreases |ps|
  {
    if ps == [] {
    } else {
      NeedOfOtherToken(ps[1..], payer, token);
    }
  }

  lemma {:induction false} SumOfPayments(vs: seq<Vouch>, n: nat, total: int, escrow: nat, token: Address)
    requires NonNegative(vs) && total == StakeSum(vs) > 0 && n <= |vs|
    ensures Sum(Payments(vs, total, escrow, token)[..n], ForToken(token)) == SumPayouts(vs, n, total, escrow)
  {
    if n == 0 {
    } else {
      SumOfPayments(vs, n - 1, total, escrow, token);
      DistributionIsFair(vs, n - 1, escrow);
      var ps := Payments(vs, total, escrow, token);
      assert ps[..n][..n - 1] == ps[..n - 1];
      hide Payout, StakeSum, NonNegative;
      assert ps[..n][n - 1] == ps[n - 1];
    }
  }

  /** The quorum is reached exactly when the approving stake is at least 66.67 % of all stake. */
  lemma QuorumMeaning(approve: int, total: int)
    ensures QuorumReached(approve, total) <==> total > 0 && 10_000 * approve >= 6_667 * total
  {
    if total > 0 {
      DivIsLargest(approve * 10_000, total, 6_667);
      if approve < 0 {
        DivIsLargest(-approve * 10_000, total, 0);
      }
    }
  }

  /** Paying the shares succeeds exactly when their products fit and the contract has the escrowed amount;
      every other account then has what it receives, and the contract has paid the whole amount. */
  lemma PaySharesOutcome(l: Ledger, contract: Address, vs: seq<Vouch>, escrow: nat, token: Address)
    requires NonNegative(vs) && StakeSum(vs) > 0
    requires forall i :: 0 <= i < |vs| ==> vs[i].voucher != contract
    requires forall t :: Balance(l, t, contract) >= 0
    ensures var total := StakeSum(vs);
            var result := PayShares(l, contract, vs, total, escrow, token);
            && (result.Ok? <==> SharesFit(vs, total, escrow) && escrow <= Balance(l, token, contract))
            && (result.Ok? ==>
                  forall t, who :: Balance(result.value, t, who) ==
                    if t != token then Balance(l, t, who)
                    else if who == contract then Balance(l, t, who) - escrow
                    else Balance(l, t, who) + ReceivedBy(vs, |vs|, total, escrow, who))
  {
    var total := StakeSum(vs);
    var ps := Payments(vs, total, escrow, token);
    assert ps[0..] == ps && ps[..|vs|] == ps;
    if SharesFit(vs, total, escrow) {
      PaySharesIsPay(l, contract, vs, 0, total, escrow, token);
      PayOutcome(l, contract, ps);
      SumOfPayments(vs, |vs|, total, escrow, token);
      PaysOutExactly(vs, total, escrow);
      forall t ensures Need(ps, contract, t) == Sum(ps, ForOthers(t, contract)) == if t == token then escrow else 0 {
        NeedBounds(ps, contract, t);
        if t != token {
          NeedOfOtherToken(ps, contract, t);
        }
      }
      forall t, who ensures Sum(ps, ForKey(t, who)) ==
                            if t == token then ReceivedBy(vs, |vs|, total, escrow, who) else 0 {
        SumReceived(vs, |vs|, total, escrow, token, t, who);
      }
      hide StakeSum, PaySharesFrom, Pay, SumPayouts, Payments, SharesFit, Sum, Need, ReceivedBy, Balance;
    } else if PayShares(l, contract, vs, total, escrow, token).Ok? {
      PaidSharesFit(l, contract, vs, 0, total, escrow, token);
      assert false;
    }
  }

  /** When finalizing succeeds.  The appeal is upheld exactly with 66.67 % of the stake, and needs the
      borrower's loan, products that fit and the escrowed tokens; otherwise the treasury must have room. */
  ghost predicate CanFinalize(s: State, contract: Address, borrower: Address, token: Option<Address>) {
    var vs := VouchesOf(s, borrower);
    var total := StakeSum(vs);
    && borrower in s.escrows && s.escrows[borrower].status == Pending && borrower in s.approvals
    && total <= I128_MAX && (total > 0 ==> FitsI128(10_000 * (s.approvals[borrower] as int)))
    && var amount := s.escrows[borrower].amount;
       if total > 0 && 10_000 * (s.approvals[borrower] as int) >= 6_667 * total then
         && token.Some? && SharesFit(vs, total, amount)
         && amount <= Balance(s.ledger, token.value, contract)
       else FitsI128(s.treasury + amount)
  }

  /** Finalizing conserves the escrow.  With approval of 66.67 % of the stake it moves exactly the escrowed
      amount from the contract's account to the vouchers, each of whom receives its payouts, and the appeal
      is approved; otherwise exactly that amount is added to the treasury and the appeal is rejected.  It can
      happen only once, and a refused call changes nothing. */
  lemma FinalizeConserves(s: State, contract: Address, borrower: Address, token: Option<Address>)
    requires NonNegative(VouchesOf(s, borrower))
    requires forall i :: 0 <= i < |VouchesOf(s, borrower)| ==> VouchesOf(s, borrower)[i].voucher != contract
    requires forall t :: Balance(s.ledger, t, contract) >= 0
    requires borrower in s.escrows ==> s.escrows[borrower].amount >= 0
    ensures var (t, result) := Finalize(s, contract, borrower, token);
            && (result.Ok? <==> CanFinalize(s, contract, borrower, token))
            && (result.Err? ==> t == s)
            && (result.Ok? ==>
                  var vs, escrow := VouchesOf(s, borrower), s.escrows[borrower];
                  var total := StakeSum(vs);
                  && Finalize(t, contract, borrower, token) == (t, Err(InvalidStateTransition))
                  && t.approvals == s.approvals && t.vouches == s.vouches
                  && if total > 0 && 10_000 * (s.approvals[borrower] as int) >= 6_667 * total then
                       && t.escrows == s.escrows[borrower := Escrow(escrow.amount, Approved)]
                       && t.treasury == s.treasury
                       && forall k, who :: Balance(t.ledger, k, who) ==
                            if k != token.value then Balance(s.ledger, k, who)
                            else if who == contract then Balance(s.ledger, k, who) - escrow.amount
                            else Balance(s.ledger, k, who) + ReceivedBy(vs, |vs|, total, escrow.amount, who)
                     else
                       && t.escrows == s.escrows[borrower := Escrow(escrow.amount, Rejected)]
                       && t.treasury == s.treasury + escrow.amount && t.ledger == s.ledger)
  {
    var vs := VouchesOf(s, borrower);
    if borrower in s.escrows && borrower in s.approvals {
      QuorumMeaning(s.approvals[borrower], StakeSum(vs));
      if StakeSum(vs) > 0 && token.Some? {
        PaySharesOutcome(s.ledger, contract, vs, s.escrows[borrower].amount, token.value);
      }
    }
    hide StakeSum, PayShares, QuorumReached, ReceivedBy, Balance, SharesFit;
  }

  // ---------- the contract ----------

  class AppealCourt {
    const contract: Address
    var escrows: map<Address, Escrow>
    var approvals: map<Address, i128>
    var vouches: map<Address, seq<Vouch>>
    var treasury: int
    var ledger: Ledger

    ghost function Contents(): State
      reads this
    {
      State(escrows, approvals, vouches, treasury, ledger)
    }

    constructor (contract: Address, ledger: Ledger)
      ensures this.contract == contract && Contents() == State(map[], map[], map[], 0, ledger)
    {
      this.contract, this.ledger := contract, ledger;
      escrows, approvals, vouches, treasury := map[], map[], map[], 0;
    }

    method TotalStake(vs: seq<Vouch>) returns (total: int)
      ensures total == StakeSum(vs)
    {
      total := 0;
      for i := 0 to |vs|
        invariant total == StakeSum(vs[..i])
      {
        assert vs[..i + 1][..i] == vs[..i];
        total := total + vs[i].stake;
      }
      assert vs[..|vs|] == vs;
    }

    /** The distribution loop: it tracks what was distributed and pays the last voucher the remainder. */
    method Distribute(vs: seq<Vouch>, total: int, escrow: i128, token: Address) returns (r: Result<Ledger>)
      requires NonNegative(vs) && total == StakeSum(vs) > 0 && escrow >= 0
      ensures r == PayShares(ledger, contract, vs, total, escrow, token)
    {
      var paid, distributed := ledger, 0;
      for i := 0 to |vs|
        invariant PayShares(ledger, contract, vs, total, escrow, token)
               == PaySharesFrom(paid, contract, vs, i, total, escrow, token)
        invariant i < |vs| ==> distributed == Distributed(vs, i, total, escrow)
      {
        var amount: int;
        if i + 1 == |vs| {
          amount := escrow - distributed;
        } else {
          if !FitsI128(vs[i].stake * BPS) {
            return Err(ArithmeticError);
          }
          var proportion := TruncDiv(vs[i].stake * BPS, total);
          if !FitsI128(escrow * proportion) {
            return Err(ArithmeticError);
          }
          amount := TruncDiv(escrow * proportion, BPS);
        }
        distributed := distributed + amount;
        if amount > 0 {
          var sent := Send(paid, Transfer(token, contract, vs[i].voucher, amount));
          if sent.Err? {
            return Err(sent.error);
          }
          paid := sent.value;
        }
      }
      return Ok(paid);
    }

    method FinalizeAppeal(borrower: Address, token: Option<Address>) returns (r: Result<()>)
      requires borrower in vouches ==> NonNegative(vouches[borrower])
      requires borrower in escrows ==> escrows[borrower].amount >= 0
      modifies this
      ensures (Contents(), r) == Finalize(old(Contents()), contract, borrower, token)
    {
      if borrower !in escrows {
        return Err(AppealNotFound);
      }
      var escrow := escrows[borrower];
      if escrow.status != Pending {
        return Err(InvalidStateTransition);
      }
      if borrower !in approvals {
        return Err(AppealNotFound);
      }
      var vs := if borrower in vouches then vouches[borrower] else [];
      var total := TotalStake(vs);
      if total > I128_MAX {
        return Err(Overflow);
      }
      if total > 0 && !FitsI128(approvals[borrower] * BPS) {
        return Err(ArithmeticError);
      }
      if total > 0 && TruncDiv(approvals[borrower] * BPS, total) >= OVERRIDE_QUORUM_BPS {
        if token.None? {
          return Err(NoActiveLoan);
        }
        var paid := Distribute(vs, total, escrow.amount, token.value);
        if paid.Err? {
          return Err(paid.error);
        }
        ledger := paid.value;
        escrows := escrows[borrower := escrow.(status := Approved)];
      } else {
        if !FitsI128(treasury + escrow.amount) {
          return Err(ArithmeticError);
        }
        treasury := treasury + escrow.amount;
        escrows := escrows[borrower := escrow.(status := Rejected)];
      }
      return Ok(());
    }
  }
}
