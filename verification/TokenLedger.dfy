/** The balances that token contracts keep, and the transfers made between accounts. */
module TokenLedger {
  import opened Host

  datatype Transfer = Transfer(token: Address, from: Address, to: Address, amount: int)

  datatype Ledger = Ledger(balances: map<(Address, Address), int>, transfers: seq<Transfer>)

  function Balance(l: Ledger, token: Address, who: Address): int {
    if (token, who) in l.balances then l.balances[(token, who)] else 0
  }

  /** A token contract refuses a negative amount and an amount the payer does not have. */
  function Send(l: Ledger, t: Transfer): Result<Ledger> {
    if t.amount < 0 || Balance(l, t.token, t.from) < t.amount then Err(TransferFailed)
    else
      var debited := l.balances[(t.token, t.from) := Balance(l, t.token, t.from) - t.amount];
      var received := if (t.token, t.to) in debited then debited[(t.token, t.to)] else 0;
      Ok(Ledger(debited[(t.token, t.to) := received + t.amount], l.transfers + [t]))
  }

  // ---------- payments ----------

  /** A token and a recipient. */
  type Key = (Address, Address)

  datatype Payment = Payment(key: Key, amount: int)

  /** Payments out of `payer`'s account, one after the other, skipping amounts that are not positive. */
  function Pay(l: Ledger, payer: Address, ps: seq<Payment>): Result<Ledger>
    decreases |ps|
  {
    if ps == [] then Ok(l)
    else if ps[0].amount <= 0 then Pay(l, payer, ps[1..])
    else
      match Send(l, Transfer(ps[0].key.0, payer, ps[0].key.1, ps[0].amount))
      case Err(e) => Err(e)
      case Ok(l') => Pay(l', payer, ps[1..])
  }

  // ---------- sums of payments ----------

  /** The total of the positive payments whose key satisfies `f`. */
  function Sum(ps: seq<Payment>, f: Key -> bool): int {
    if ps == [] then 0
    else Sum(ps[..|ps| - 1], f) + Weight(ps[|ps| - 1], f)
  }

  function Weight(p: Payment, f: Key -> bool): int {
    if p.amount > 0 && f(p.key) then p.amount else 0
  }

  lemma {:induction false} SumFirst(ps: seq<Payment>, f: Key -> bool)
    requires ps != []
    ensures Sum(ps, f) == Weight(ps[0], f) + Sum(ps[1..], f)
  {
    if |ps| > 1 {
      SumFirst(ps[..|ps| - 1], f);
      assert ps[..|ps| - 1][1..] == ps[1..][..|ps| - 2];
    } else {
      assert ps[1..] == [] && ps[..0] == [];
    }
  }

  lemma SumAppend(ps: seq<Payment>, p: Payment, f: Key -> bool)
    ensures Sum(ps + [p], f) == Sum(ps, f) + Weight(p, f)
  {
    assert (ps + [p])[..|ps|] == ps;
  }

  lemma {:induction false} SumNonNegative(ps: seq<Payment>, f: Key -> bool)
    ensures Sum(ps, f) >= 0
  {
    if ps == [] {
    } else {
      SumNonNegative(ps[..|ps| - 1], f);
    }
  }

  lemma {:induction false} SumUpdate(ps: seq<Payment>, i: nat, p: Payment, f: Key -> bool)
    requires i < |ps|
    ensures Sum(ps[i := p], f) == Sum(ps, f) - Weight(ps[i], f) + Weight(p, f)
  {
    var last := |ps| - 1;
    if i < last {
      SumUpdate(ps[..last], i, p, f);
      assert ps[i := p][..last] == ps[..last][i := p];
    } else {
      assert ps[i := p][..last] == ps[..last];
    }
  }

  // ---------- what payments do to balances ----------

  function ForKey(token: Address, to: Address): Key -> bool {
    k => k == (token, to)
  }

  function ForToken(token: Address): Key -> bool {
    (k: Key) => k.0 == token
  }

  /** The payments in a token to accounts other than the payer. */
  function ForOthers(token: Address, payer: Address): Key -> bool {
    (k: Key) => k.0 == token && k.1 != payer
  }

  predicate PaysOthers(ps: seq<Payment>, payer: Address) {
    forall i :: 0 <= i < |ps| ==> ps[i].key.1 != payer
  }

  /** What `payer` needs to have of a token to make the payments in turn.  A payment to itself has to be
      there when it is made, and is there again afterwards. */
  function Need(ps: seq<Payment>, payer: Address, token: Address): (n: nat)
    decreases |ps|
  {
    if ps == [] then 0
    else if ps[0].key.0 != token || ps[0].amount <= 0 then Need(ps[1..], payer, token)
    else if ps[0].key.1 == payer then Max(ps[0].amount, Need(ps[1..], payer, token))
    else ps[0].amount + Need(ps[1..], payer, token)
  }

  /** The payer has what it needs of every token. */
  ghost predicate Covers(l: Ledger, payer: Address, ps: seq<Payment>) {
    forall token :: Need(ps, payer, token) <= Balance(l, token, payer)
  }

  /** Without payments to the payer itself, the need is the sum; with them it is at least the sum of the rest. */
  lemma {:induction false} NeedBounds(ps: seq<Payment>, payer: Address, token: Address)
    ensures Need(ps, payer, token) >= Sum(ps, ForOthers(token, payer)) >= 0
    ensures PaysOthers(ps, payer) ==>
              Need(ps, payer, token) == Sum(ps, ForToken(token)) == Sum(ps, ForOthers(token, payer))
    decreases |ps|
  {
    if ps == [] {
    } else {
      NeedBounds(ps[1..], payer, token);
      SumFirst(ps, ForOthers(token, payer));
      SumFirst(ps, ForToken(token));
    }
  }

  /** The balance of `who` once `ps` are paid in full by `payer`. */
  function BalanceAfter(l: Ledger, payer: Address, ps: seq<Payment>, token: Address, who: Address): int {
    if who == payer then Balance(l, token, payer) - Sum(ps, ForOthers(token, payer))
    else Balance(l, token, who) + Sum(ps, ForKey(token, who))
  }

  /** Payments go through exactly when the payer has what it needs of every token; then each recipient has
      received its sum, and the payer has paid the sum of all payments to others. */
  lemma {:induction false} PayOutcome(l: Ledger, payer: Address, ps: seq<Payment>)
    requires forall token :: Balance(l, token, payer) >= 0
    ensures Pay(l, payer, ps).Ok? <==> Covers(l, payer, ps)
    ensures Pay(l, payer, ps).Ok? ==> forall token, who ::
              Balance(Pay(l, payer, ps).value, token, who) == BalanceAfter(l, payer, ps, token, who)
    decreases |ps|
  {
    if ps == [] {
    } else {
      var p, rest := ps[0], ps[1..];
      var sent := Send(l, Transfer(p.key.0, payer, p.key.1, p.amount));
      SumsFirst(ps, payer);
      hide Sum;
      if p.amount <= 0 {
        PayOutcome(l, payer, rest);
        assert forall token :: Need(ps, payer, token) == Need(rest, payer, token);
      } else if sent.Ok? {
        var paid := if p.key.1 == payer then 0 else p.amount;
        assert forall token ::
            Balance(sent.value, token, payer) == Balance(l, token, payer) - if token == p.key.0 then paid else 0;
        assert forall token :: Need(ps, payer, token) <= Balance(l, token, payer)
                               <==> Need(rest, payer, token) <= Balance(sent.value, token, payer);
        PayOutcome(sent.value, payer, rest);
      } else {
        assert Need(ps, payer, p.key.0) > Balance(l, p.key.0, payer);
      }
    }
  }

  lemma SumsFirst(ps: seq<Payment>, payer: Address)
    requires ps != []
    ensures forall token :: Sum(ps, ForOthers(token, payer)) ==
                            Weight(ps[0], ForOthers(token, payer)) + Sum(ps[1..], ForOthers(token, payer))
    ensures forall token, who ::
              Sum(ps, ForKey(token, who)) == Weight(ps[0], ForKey(token, who)) + Sum(ps[1..], ForKey(token, who))
  {
    forall token ensures Sum(ps, ForOthers(token, payer)) ==
                         Weight(ps[0], ForOthers(token, payer)) + Sum(ps[1..], ForOthers(token, payer)) {
      SumFirst(ps, ForOthers(token, payer));
    }
    forall token, who ensures Sum(ps, ForKey(token, who)) ==
                              Weight(ps[0], ForKey(token, who)) + Sum(ps[1..], ForKey(token, who)) {
      SumFirst(ps, ForKey(token, who));
    }
  }

  /** The transfers that making the payments `ps` consists of. */
  function Transfers(payer: Address, ps: seq<Payment>): seq<Transfer> {
    seq(|ps|, i requires 0 <= i < |ps| => Transfer(ps[i].key.0, payer, ps[i].key.1, ps[i].amount))
  }

  lemma {:induction false} PayTransfers(l: Ledger, payer: Address, ps: seq<Payment>)
    requires Pay(l, payer, ps).Ok? && forall i :: 0 <= i < |ps| ==> ps[i].amount > 0
    ensures Pay(l, payer, ps).value.transfers == l.transfers + Transfers(payer, ps)
    decreases |ps|
  {
    var made := Transfers(payer, ps);
    if ps == [] {
      assert l.transfers + made == l.transfers;
    } else {
      PayTransfers(Send(l, made[0]).value, payer, ps[1..]);
      assert made == [made[0]] + Transfers(payer, ps[1..]);
      assert l.transfers + [made[0]] + Transfers(payer, ps[1..]) == l.transfers + made;
    }
  }
}
