/** Token transfers queued per token and recipient and carried out together. */
module BatchTransfer {
  import opened Host
  import opened TokenLedger

  datatype State = State(pending: map<Key, i128>, keys: seq<Key>, ledger: Ledger)

  function PendingOf(s: State, k: Key): i128 {
    if k in s.pending then s.pending[k] else 0
  }

  /** Queueing an amount.  An amount that is not positive is ignored. */
  function Queue(s: State, p: Payment): (State, Result<()>) {
    var existing := PendingOf(s, p.key);
    if p.amount <= 0 then (s, Ok(()))
    else if !FitsI128(existing + p.amount) then (s, Err(Overflow))
    else
      var keys := if existing == 0 then s.keys + [p.key] else s.keys;
      (s.(keys := keys, pending := s.pending[p.key := existing + p.amount]), Ok(()))
  }

  /** One payment per queued key. */
  function Owed(pending: map<Key, i128>, keys: seq<Key>): seq<Payment> {
    seq(|keys|, i requires 0 <= i < |keys| => Payment(keys[i], if keys[i] in pending then pending[keys[i]] else 0))
  }

  function Flush(s: State, payer: Address): (State, Result<()>) {
    match Pay(s.ledger, payer, Owed(s.pending, s.keys))
    case Err(e) => (s, Err(e))
    case Ok(l) => (State(s.pending - (set k | k in s.keys), [], l), Ok(()))
  }

  function QueueAll(s: State, ps: seq<Payment>): Result<State>
    decreases |ps|
  {
    if ps == [] then Ok(s)
    else
      match Queue(s, ps[0])
      case (_, Err(e)) => Err(e)
      case (s', Ok(_)) => QueueAll(s', ps[1..])
  }

  // ---------- the queue between flushes ----------

  /** The queue lists every pair with a positive pending amount exactly once, and no other pair. */
  ghost predicate Sound(s: State) {
    && (forall i, j :: 0 <= i < j < |s.keys| ==> s.keys[i] != s.keys[j])
    && (forall k :: k in s.keys <==> k in s.pending)
    && (forall k :: k in s.pending ==> s.pending[k] > 0)
  }

  lemma QueueKeepsSound(s: State, p: Payment)
    requires Sound(s)
    ensures Sound(Queue(s, p).0)
  {
  }

  /** After a flush the queue is empty, so flushing again moves nothing. */
  lemma FlushEmptiesQueue(s: State, payer: Address)
    requires Sound(s) && Flush(s, payer).1.Ok?
    ensures var s' := Flush(s, payer).0;
            s'.pending == map[] && s'.keys == [] && Flush(s', payer) == (s', Ok(()))
  {
    var s' := Flush(s, payer).0;
    assert Owed(s'.pending, s'.keys) == [];
    assert s'.pending == map[];
  }

  // ---------- what is owed ----------

  /** Queueing a payment adds it to the total owed, whichever keys are counted. */
  lemma QueueAddsToOwed(s: State, p: Payment, f: Key -> bool)
    requires Sound(s) && Queue(s, p).1.Ok?
    ensures var s' := Queue(s, p).0;
            Sum(Owed(s'.pending, s'.keys), f) == Sum(Owed(s.pending, s.keys), f) + Weight(p, f)
  {
    var s' := Queue(s, p).0;
    var owed, owed' := Owed(s.pending, s.keys), Owed(s'.pending, s'.keys);
    hide Sum;
    if p.amount > 0 {
      if p.key in s.pending {
        var i :| 0 <= i < |s.keys| && s.keys[i] == p.key;
        assert owed' == owed[i := Payment(p.key, s.pending[p.key] + p.amount)];
        SumUpdate(owed, i, owed'[i], f);
      } else {
        assert owed' == owed + [p];
        SumAppend(owed, p, f);
      }
    }
  }

  lemma {:induction false} QueueAllOwed(s: State, ps: seq<Payment>, f: Key -> bool)
    requires Sound(s) && QueueAll(s, ps).Ok?
    ensures var t := QueueAll(s, ps).value;
            && Sound(t) && t.ledger == s.ledger
            && Sum(Owed(t.pending, t.keys), f) == Sum(Owed(s.pending, s.keys), f) + Sum(ps, f)
    decreases |ps|
  {
    if ps == [] {
    } else {
      QueueKeepsSound(s, ps[0]);
      QueueAddsToOwed(s, ps[0], f);
      QueueAllOwed(Queue(s, ps[0]).0, ps[1..], f);
      SumFirst(ps, f);
    }
  }

  // ---------- the main results ----------

  /** Queueing succeeds exactly when every pair's sum stays in the type of the pending amounts. */
  lemma {:induction false} QueueAllOutcome(s: State, ps: seq<Payment>)
    requires Sound(s)
    ensures QueueAll(s, ps).Ok? <==>
            forall token, to :: PendingOf(s, (token, to)) + Sum(ps, ForKey(token, to)) <= I128_MAX
    decreases |ps|
  {
    if ps == [] {
      assert forall token, to :: Sum(ps, ForKey(token, to)) == 0;
    } else {
      var (s', r) := Queue(s, ps[0]);
      SumsFirst(ps, ps[0].key.1);
      QueueKeepsSound(s, ps[0]);
      hide Sum;
      if r.Ok? {
        QueueAllOutcome(s', ps[1..]);
        assert forall token, to ::
            PendingOf(s', (token, to)) == PendingOf(s, (token, to)) + Weight(ps[0], ForKey(token, to));
      } else {
        var (token, to) := ps[0].key;
        SumNonNegative(ps[1..], ForKey(token, to));
        assert PendingOf(s, (token, to)) + Sum(ps, ForKey(token, to)) > I128_MAX;
      }
    }
  }

  /** Queueing all payments and flushing once: the ledger that results. */
  function Deferred(l: Ledger, payer: Address, ps: seq<Payment>): Result<Ledger> {
    match QueueAll(State(map[], [], l), ps)
    case Err(e) => Err(e)
    case Ok(s) =>
      match Flush(s, payer)
      case (_, Err(e)) => Err(e)
      case (t, Ok(_)) => Ok(t.ledger)
  }

  /** The aggregated payments: one for each queued pair, in the order in which the pairs were first queued. */
  function Aggregated(l: Ledger, ps: seq<Payment>): seq<Payment>
    requires QueueAll(State(map[], [], l), ps).Ok?
  {
    var s := QueueAll(State(map[], [], l), ps).value;
    Owed(s.pending, s.keys)
  }

  lemma AggregatedSums(l: Ledger, ps: seq<Payment>)
    requires QueueAll(State(map[], [], l), ps).Ok?
    ensures QueueAll(State(map[], [], l), ps).value.ledger == l && Sound(QueueAll(State(map[], [], l), ps).value)
    ensures forall f: Key -> bool :: Sum(Aggregated(l, ps), f) == Sum(ps, f)
  {
    var empty := State(map[], [], l);
    assert Owed(map[], []) == [];
    forall f: Key -> bool
      ensures Sum(Aggregated(l, ps), f) == Sum(ps, f)
      ensures QueueAll(empty, ps).value.ledger == l && Sound(QueueAll(empty, ps).value)
    {
      QueueAllOwed(empty, ps, f);
    }
    QueueAllOwed(empty, ps, ForToken(Account(0)));
  }

  /** Queueing and flushing goes through exactly when no pair's sum overflows and the payer has what the
      aggregated payments need of every token; the balances are those of the sums. */
  lemma DeferredOutcome(l: Ledger, payer: Address, ps: seq<Payment>)
    requires forall token :: Balance(l, token, payer) >= 0
    ensures Deferred(l, payer, ps).Ok? <==>
            && (forall token, to :: Sum(ps, ForKey(token, to)) <= I128_MAX)
            && QueueAll(State(map[], [], l), ps).Ok? && Covers(l, payer, Aggregated(l, ps))
    ensures Deferred(l, payer, ps).Ok? ==> forall token, who ::
              Balance(Deferred(l, payer, ps).value, token, who) == BalanceAfter(l, payer, ps, token, who)
  {
    QueueAllOutcome(State(map[], [], l), ps);
    if QueueAll(State(map[], [], l), ps).Ok? {
      AggregatedSums(l, ps);
      PayOutcome(l, payer, Aggregated(l, ps));
      hide Sum, Owed, QueueAll;
      assert forall token, who ::
          BalanceAfter(l, payer, Aggregated(l, ps), token, who) == BalanceAfter(l, payer, ps, token, who);
    }
  }

  /** Queueing any payments and flushing comes to the same as making each positive payment at once: both
      succeed or both fail if and only if the payer covers both lists or neither; where both succeed, every
      balance is the same; and without payments to the payer itself they always agree.  Then a queue that
      overflows is one whose payments no balance in the type covers. */
  lemma FlushEqualsImmediateExactlyWhen(l: Ledger, payer: Address, ps: seq<Payment>)
    requires forall token :: 0 <= Balance(l, token, payer) <= I128_MAX
    ensures var covered := QueueAll(State(map[], [], l), ps).Ok? && Covers(l, payer, Aggregated(l, ps));
            (Deferred(l, payer, ps).Ok? <==> Pay(l, payer, ps).Ok?) <==> (covered <==> Covers(l, payer, ps))
    ensures Deferred(l, payer, ps).Ok? && Pay(l, payer, ps).Ok? ==> forall token, who ::
              Balance(Deferred(l, payer, ps).value, token, who) == Balance(Pay(l, payer, ps).value, token, who)
    ensures PaysOthers(ps, payer) ==> (Deferred(l, payer, ps).Ok? <==> Pay(l, payer, ps).Ok?)
  {
    DeferredOutcome(l, payer, ps);
    PayOutcome(l, payer, ps);
    QueueAllOutcome(State(map[], [], l), ps);
    hide Deferred;
    if PaysOthers(ps, payer) {
      OthersAgree(l, payer, ps);
    }
  }

  lemma OthersAgree(l: Ledger, payer: Address, ps: seq<Payment>)
    requires PaysOthers(ps, payer) && forall token :: 0 <= Balance(l, token, payer) <= I128_MAX
    ensures Covers(l, payer, ps) <==>
            QueueAll(State(map[], [], l), ps).Ok? && Covers(l, payer, Aggregated(l, ps))
  {
    QueueAllOutcome(State(map[], [], l), ps);
    forall token ensures Need(ps, payer, token) == Sum(ps, ForToken(token)) {
      NeedBounds(ps, payer, token);
    }
    if QueueAll(State(map[], [], l), ps).Ok? {
      AggregatedSums(l, ps);
      var owed := Aggregated(l, ps);
      QueueAllKeepsRecipients(State(map[], [], l), ps, payer);
      forall token ensures Need(owed, payer, token) == Sum(ps, ForToken(token)) {
        NeedBounds(owed, payer, token);
        assert Sum(owed, ForToken(token)) == Sum(ps, ForToken(token));
      }
    } else {
      var token, to :| Sum(ps, ForKey(token, to)) > I128_MAX;
      KeyWithinToken(ps, token, to);
      assert Need(ps, payer, token) > Balance(l, token, payer);
    }
  }

  lemma {:induction false} KeyWithinToken(ps: seq<Payment>, token: Address, to: Address)
    ensures Sum(ps, ForKey(token, to)) <= Sum(ps, ForToken(token))
  {
    if ps == [] {
    } else {
      KeyWithinToken(ps[..|ps| - 1], token, to);
    }
  }

  lemma QueueAllKeepsRecipients(s: State, ps: seq<Payment>, payer: Address)
    requires Sound(s) && QueueAll(s, ps).Ok? && PaysOthers(ps, payer)
    requires forall i :: 0 <= i < |s.keys| ==> s.keys[i].1 != payer
    ensures var t := QueueAll(s, ps).value; forall i :: 0 <= i < |t.keys| ==> t.keys[i].1 != payer
    decreases |ps|
  {
    if ps == [] {
    } else {
      QueueKeepsSound(s, ps[0]);
      QueueAllKeepsRecipients(Queue(s, ps[0]).0, ps[1..], payer);
    }
  }

  lemma AggregatedSum(l: Ledger, ps: seq<Payment>, f: Key -> bool)
    requires QueueAll(State(map[], [], l), ps).Ok?
    ensures Sum(Aggregated(l, ps), f) == Sum(ps, f)
  {
    AggregatedSums(l, ps);
  }

  /** The aggregated payments have distinct keys and positive amounts. */
  lemma AggregatedKeys(l: Ledger, ps: seq<Payment>)
    requires QueueAll(State(map[], [], l), ps).Ok?
    ensures var owed := Aggregated(l, ps);
            && (forall i :: 0 <= i < |owed| ==> owed[i].amount > 0)
            && (forall i, j :: 0 <= i < j < |owed| ==> owed[i].key != owed[j].key)
  {
    AggregatedSums(l, ps);
    hide QueueAll, Sum;
  }

  /** Aggregated, a self-payment at position `i` has to be there with its whole sum once the pairs queued
      before it are paid; so the need in a token is the larger of that and the sum of the payments to others. */
  lemma AggregatedNeed(l: Ledger, payer: Address, ps: seq<Payment>, token: Address, i: nat)
    requires QueueAll(State(map[], [], l), ps).Ok?
    requires i < |Aggregated(l, ps)| && Aggregated(l, ps)[i].key == (token, payer)
    ensures Need(Aggregated(l, ps), payer, token)
         == Max(Sum(ps, ForOthers(token, payer)),
                Sum(Aggregated(l, ps)[..i], ForToken(token)) + Sum(ps, ForKey(token, payer)))
  {
    AggregatedKeys(l, ps);
    hide *;
    AggregatedSum(l, ps, ForOthers(token, payer));
    AggregatedSum(l, ps, ForKey(token, payer));
    NeedWithOneSelf(Aggregated(l, ps), payer, token, i);
  }

  lemma {:induction false} NeedWithoutSelf(ps: seq<Payment>, payer: Address, token: Address)
    requires forall i :: 0 <= i < |ps| ==> ps[i].key != (token, payer)
    ensures Need(ps, payer, token) == Sum(ps, ForOthers(token, payer))
    decreases |ps|
  {
    if ps == [] {
    } else {
      NeedWithoutSelf(ps[1..], payer, token);
      SumFirst(ps, ForOthers(token, payer));
    }
  }

  lemma {:induction false} NeedWithOneSelf(ps: seq<Payment>, payer: Address, token: Address, i: nat)
    requires i < |ps| && ps[i].key == (token, payer) && ps[i].amount > 0
    requires forall j :: 0 <= j < |ps| && j != i ==> ps[j].key != (token, payer)
    ensures Need(ps, payer, token) == Max(Sum(ps, ForOthers(token, payer)),
                                          Sum(ps[..i], ForToken(token)) + Sum(ps, ForKey(token, payer)))
    decreases |ps|
  {
    var rest := ps[1..];
    SumFirst(ps, ForOthers(token, payer));
    SumFirst(ps, ForKey(token, payer));
    SumNonNegative(rest, ForOthers(token, payer));
    if i == 0 {
      NeedWithoutSelf(rest, payer, token);
      SumWithoutKey(rest, token, payer);
      assert ps[..0] == [];
    } else {
      NeedWithOneSelf(rest, payer, token, i - 1);
      assert ps[..i][1..] == rest[..i - 1];
      SumFirst(ps[..i], ForToken(token));
    }
  }

  lemma {:induction false} SumWithoutKey(ps: seq<Payment>, token: Address, to: Address)
    requires forall i :: 0 <= i < |ps| ==> ps[i].key != (token, to)
    ensures Sum(ps, ForKey(token, to)) == 0
  {
    if ps == [] {
    } else {
      SumWithoutKey(ps[..|ps| - 1], token, to);
    }
  }

  /** Between flushes, what is pending for a pair is the sum queued for it, and exactly the pairs with a
      positive sum are listed. */
  lemma PendingIsSum(l: Ledger, ps: seq<Payment>, token: Address, to: Address)
    requires QueueAll(State(map[], [], l), ps).Ok?
    ensures var s, sum := QueueAll(State(map[], [], l), ps).value, Sum(ps, ForKey(token, to));
            && Sound(s) && s.ledger == l
            && PendingOf(s, (token, to)) == sum
            && ((token, to) in s.keys <==> sum > 0)
  {
    assert Owed(map[], []) == [];
    QueueAllOwed(State(map[], [], l), ps, ForKey(token, to));
    SumOfKey(QueueAll(State(map[], [], l), ps).value, token, to);
    SumNonNegative(ps, ForKey(token, to));
  }

  /** A flush makes exactly one transfer for each distinct pair of token and recipient with a positive
      queued amount, and that transfer carries the whole sum queued for the pair. */
  lemma FlushTransfersOncePerKey(l: Ledger, ps: seq<Payment>, payer: Address) returns (made: seq<Transfer>)
    requires QueueAll(State(map[], [], l), ps).Ok?
    ensures var r := Flush(QueueAll(State(map[], [], l), ps).value, payer);
            r.1.Ok? ==> r.0.ledger.transfers == l.transfers + made
    ensures forall i, j :: 0 <= i < j < |made| ==> (made[i].token, made[i].to) != (made[j].token, made[j].to)
    ensures forall i :: 0 <= i < |made| ==>
              made[i].from == payer && made[i].amount == Sum(ps, ForKey(made[i].token, made[i].to)) > 0
    ensures forall token, to :: Sum(ps, ForKey(token, to)) > 0 ==>
              exists i :: 0 <= i < |made| && made[i].token == token && made[i].to == to
  {
    var s := QueueAll(State(map[], [], l), ps).value;
    var owed := Owed(s.pending, s.keys);
    made := Transfers(payer, owed);
    forall token, to
      ensures Sound(s) && s.ledger == l && PendingOf(s, (token, to)) == Sum(ps, ForKey(token, to))
      ensures (token, to) in s.keys <==> Sum(ps, ForKey(token, to)) > 0
    {
      PendingIsSum(l, ps, token, to);
    }
    assert PendingOf(s, (payer, payer)) == Sum(ps, ForKey(payer, payer));
    hide Sum, QueueAll;
    if Flush(s, payer).1.Ok? {
      PayTransfers(l, payer, owed);
    }
    hide Pay;
    forall i | 0 <= i < |made|
      ensures made[i].from == payer && made[i].amount == Sum(ps, ForKey(made[i].token, made[i].to)) > 0
    {
      assert (made[i].token, made[i].to) == s.keys[i];
    }
    forall token, to | Sum(ps, ForKey(token, to)) > 0
      ensures exists i :: 0 <= i < |made| && made[i].token == token && made[i].to == to
    {
      var i :| 0 <= i < |s.keys| && s.keys[i] == (token, to);
      assert made[i].token == token && made[i].to == to;
    }
  }

  lemma SumOfKey(s: State, token: Address, to: Address)
    requires Sound(s)
    ensures Sum(Owed(s.pending, s.keys), ForKey(token, to))
         == if (token, to) in s.pending then s.pending[(token, to)] else 0
  {
    SumOfDistinct(s.pending, s.keys, token, to);
  }

  lemma {:induction false} SumOfDistinct(pending: map<Key, i128>, keys: seq<Key>, token: Address, to: Address)
    requires forall i, j :: 0 <= i < j < |keys| ==> keys[i] != keys[j]
    requires forall k :: k in keys ==> k in pending && pending[k] > 0
    ensures Sum(Owed(pending, keys), ForKey(token, to)) == if (token, to) in keys then pending[(token, to)] else 0
  {
    if keys == [] {
    } else {
      var front := keys[..|keys| - 1];
      SumOfDistinct(pending, front, token, to);
      assert Owed(pending, keys)[..|front|] == Owed(pending, front);
      assert keys == front + [keys[|front|]];
    }
  }

  /** With payments to the payer itself, immediate ones may go through alone: two payments of 10 need a
      balance of 10, aggregated they need 20. */
  lemma SelfPaymentsDiffer(token: Address, payer: Address)
    ensures var l, p := Ledger(map[(token, payer) := 10], []), Payment((token, payer), 10);
            Pay(l, payer, [p, p]).Ok? && Deferred(l, payer, [p, p]).Err?
  {
    var l, self := Ledger(map[(token, payer) := 10], []), (token, payer);
    var p := Payment(self, 10);
    QueueTwice(State(map[], [], l), p);
    assert Owed(map[self := 20], [self]) == [Payment(self, 20)];
    PayTwice(l, payer, p);
  }

  /** Or the aggregated ones alone: with a payment of 10 to another account between two of 5, the immediate
      ones need 15 and the aggregated ones 10. */
  lemma AggregatedMayNeedLess(token: Address, payer: Address, other: Address)
    requires payer != other
    ensures var l := Ledger(map[(token, payer) := 10], []);
            var p, q := Payment((token, payer), 5), Payment((token, other), 10);
            Pay(l, payer, [p, q, p]).Err? && Deferred(l, payer, [p, q, p]).Ok?
  {
    var l, self := Ledger(map[(token, payer) := 10], []), (token, payer);
    var p, q := Payment(self, 5), Payment((token, other), 10);
    var ps, owed := [p, q, p], [Payment(self, 10), q];
    QueueAround(State(map[], [], l), p, q);
    assert Owed(map[self := 10, q.key := 10], [self, q.key]) == owed;
    hide QueueAll, Owed;
    assert ps[1..] == [q, p] && [q, p][1..] == [p] && [p][1..] == [];
    assert owed[1..] == [q] && [q][1..] == [];
    assert Need([p], payer, token) == 5;
    assert Need([q, p], payer, token) == 15;
    assert Need(ps, payer, token) == 15;
    assert Need([q], payer, token) == 10;
    assert Need(owed, payer, token) == 10;
    PayOutcome(l, payer, ps);
    PayOutcome(l, payer, owed);
    forall t ensures Need(owed, payer, t) <= Balance(l, t, payer) {
      assert t != token ==> Need([q], payer, t) == 0;
    }
  }

  lemma QueueAround(s: State, p: Payment, q: Payment)
    requires s.pending == map[] && s.keys == [] && p.key != q.key
    requires 0 < p.amount && 0 < q.amount <= I128_MAX && 2 * p.amount <= I128_MAX
    ensures QueueAll(s, [p, q, p]) == Ok(State(map[p.key := 2 * p.amount, q.key := q.amount], [p.key, q.key], s.ledger))
  {
    var s1 := State(map[p.key := p.amount], [p.key], s.ledger);
    var s2 := State(map[p.key := p.amount, q.key := q.amount], [p.key, q.key], s.ledger);
    var s3 := State(map[p.key := 2 * p.amount, q.key := q.amount], [p.key, q.key], s.ledger);
    assert [p, q, p][1..] == [q, p] && [q, p][1..] == [p] && [p][1..] == [];
    assert Queue(s, p).0 == s1 && Queue(s1, q).0 == s2 && Queue(s2, p).0 == s3;
    assert QueueAll(s2, [p]) == Ok(s3);
    assert QueueAll(s1, [q, p]) == Ok(s3);
  }

  lemma QueueTwice(s: State, p: Payment)
    requires s.pending == map[] && s.keys == [] && 0 < p.amount && 2 * p.amount <= I128_MAX
    ensures QueueAll(s, [p, p]) == Ok(State(map[p.key := 2 * p.amount], [p.key], s.ledger))
  {
    var s1 := State(map[p.key := p.amount], [p.key], s.ledger);
    var s2 := State(map[p.key := 2 * p.amount], [p.key], s.ledger);
    assert [p, p][1..] == [p] && [p][1..] == [];
    assert Queue(s, p).0 == s1 && Queue(s1, p).0 == s2;
    assert QueueAll(s1, [p]) == Ok(s2);
  }

  /** A payment to the payer itself can be made as often as it can be made once. */
  lemma PayTwice(l: Ledger, payer: Address, p: Payment)
    requires p.key.1 == payer && 0 < p.amount <= Balance(l, p.key.0, payer)
    ensures Pay(l, payer, [p, p]).Ok?
  {
    var once := Send(l, Transfer(p.key.0, payer, payer, p.amount)).value;
    assert [p, p][1..] == [p] && [p][1..] == [];
    assert Pay(once, payer, [p]).Ok?;
  }

  // ---------- the store ----------

  class TransferQueue {
    const contract: Address
    var pending: map<Key, i128>
    var keys: seq<Key>
    var ledger: Ledger

    ghost function Contents(): State
      reads this
    {
      State(pending, keys, ledger)
    }

    constructor (contract: Address, ledger: Ledger)
      ensures this.contract == contract && Contents() == State(map[], [], ledger)
    {
      this.contract, this.ledger := contract, ledger;
      pending, keys := map[], [];
    }

    method QueueTransfer(to: Address, amount: i128, token: Address) returns (r: Result<()>)
      modifies this
      ensures (Contents(), r) == Queue(old(Contents()), Payment((token, to), amount))
    {
      if amount <= 0 {
        return Ok(());
      }
      var key := (token, to);
      var existing: i128 := if key in pending then pending[key] else 0;
      if existing + amount > I128_MAX {
        return Err(Overflow);
      }
      if existing == 0 {
        keys := keys + [key];
      }
      pending := pending[key := existing + amount];
      return Ok(());
    }

    /** Pays the queued amounts one key at a time.  A refused transfer fails the whole call, of which
        the host then keeps nothing. */
    method FlushTransfers() returns (r: Result<()>)
      requires Sound(Contents())
      modifies this
      ensures (Contents(), r) == Flush(old(Contents()), contract)
    {
      ghost var owed := Owed(pending, keys);
      var paid, left := ledger, pending;
      assert owed[0..] == owed;
      for i := 0 to |keys|
        invariant Pay(ledger, contract, owed) == Pay(paid, contract, owed[i..])
        invariant left == pending - (set k | k in keys[..i])
      {
        assert owed[i..][1..] == owed[i + 1..];
        var key := keys[i];
        assert key !in keys[..i];
        var amount: i128 := if key in left then left[key] else 0;
        if amount > 0 {
          var sent := Send(paid, Transfer(key.0, contract, key.1, amount));
          if sent.Err? {
            return Err(sent.error);
          }
          paid := sent.value;
        }
        left := left - {key};
      }
      assert keys[..|keys|] == keys;
      ledger, pending, keys := paid, left, [];
      return Ok(());
    }
  }
}
