/** Bonds that protect vouches against slashing, with optional insurance. */
module BondProtection {
  import opened Host
  import opened Arith
  import opened Sums

  const BPS: int := 10_000
  const PREMIUM_BPS: int := 300
  const MAX_COVERAGE_BPS: int := 5000
  const FULL_TERM_SECS: u64 := 30 * 24 * 60 * 60

  datatype BondStatus = Active | PartiallyUsed | Exhausted | Released

  datatype InsuranceStatus = Insured | Claimed | Ended

  datatype Bond = Bond(
    vouchId: u64, amount: i128, protected: i128, createdAt: u64, used: i128,
    releasedAt: Option<u64>, status: BondStatus, insured: bool)

  datatype Insurance = Insurance(
    amount: i128, premium: i128, maxCoverage: i128, claimed: i128, status: InsuranceStatus, purchasedAt: u64)

  datatype Stats = Stats(
    totalBonded: i128, totalUsed: i128, activeBonds: u32, timesUsed: u32, premiums: i128,
    claimsPaid: u32, payouts: i128, lastActivity: u64)

  /** What storage holds for one voucher, bonds and insurance by loan. */
  datatype Portfolio = Portfolio(bonds: map<u64, Bond>, insurance: map<u64, Insurance>, stats: Option<Stats>)

  type State = map<Address, Portfolio>

  const EMPTY := Portfolio(map[], map[], None)

  const NO_STATS := Stats(0, 0, 0, 0, 0, 0, 0, 0)

  function PortfolioOf(s: State, v: Address): Portfolio {
    if v in s then s[v] else EMPTY
  }

  // ---------- rates ----------

  /** A basis-point rate of an amount, or the error of an overflowing product. */
  function ApplyBps(amount: int, bps: int): Result<int> {
    if FitsI128(amount * bps) then Ok(TruncDiv(amount * bps, BPS)) else Err(ArithmeticError)
  }

  /** The part of a premium that pays for the unused time of the term. */
  function PremiumRefund(premium: int, purchasedAt: u64, releasedAt: u64): Result<int> {
    var held := Max(0, releasedAt - purchasedAt);
    if premium <= 0 || held >= FULL_TERM_SECS then Ok(0)
    else if !FitsI128(premium * (FULL_TERM_SECS - held)) then Err(ArithmeticError)
    else Ok(Min(Max(0, TruncDiv(premium * (FULL_TERM_SECS - held), FULL_TERM_SECS)), premium))
  }

  /** The refund lies between nothing and the whole premium; it is the whole premium when nothing of the
      term was used and nothing once all of it was. */
  lemma PremiumRefundInRange(premium: nat, purchasedAt: u64, releasedAt: u64)
    requires PremiumRefund(premium, purchasedAt, releasedAt).Ok?
    ensures 0 <= PremiumRefund(premium, purchasedAt, releasedAt).value <= premium
    ensures releasedAt <= purchasedAt ==> PremiumRefund(premium, purchasedAt, releasedAt).value == premium
    ensures releasedAt >= purchasedAt + FULL_TERM_SECS ==> PremiumRefund(premium, purchasedAt, releasedAt).value == 0
  {
    if releasedAt <= purchasedAt {
      DivUnique(premium * FULL_TERM_SECS, FULL_TERM_SECS, premium);
    }
  }

  /** The refund is the unused part of a thirty-day term, rounded down; it fails exactly when that product
      leaves the type. */
  lemma PremiumRefundExact(premium: nat, purchasedAt: u64, releasedAt: u64)
    ensures var held := if releasedAt < purchasedAt then 0 else releasedAt - purchasedAt;
            var unused := if held >= 2_592_000 then 0 else 2_592_000 - held;
            var r := PremiumRefund(premium, purchasedAt, releasedAt);
            && (r.Ok? <==> premium * unused <= I128_MAX)
            && (r.Ok? ==> 2_592_000 * r.value <= premium * unused < 2_592_000 * (r.value + 1))
  {
    var held := Max(0, releasedAt - purchasedAt);
    if held < FULL_TERM_SECS {
      var unused := FULL_TERM_SECS - held;
      MulNonNeg(premium, unused);
      MulMono(unused, FULL_TERM_SECS, premium);
      DivBounds(premium * unused, FULL_TERM_SECS);
      DivMono(premium * unused, premium * FULL_TERM_SECS, FULL_TERM_SECS);
      DivUnique(premium * FULL_TERM_SECS, FULL_TERM_SECS, premium);
    }
  }

  /** A later release never refunds more. */
  lemma PremiumRefundAntitone(premium: nat, purchasedAt: u64, first: u64, second: u64)
    requires first <= second
    requires PremiumRefund(premium, purchasedAt, first).Ok?
    ensures PremiumRefund(premium, purchasedAt, second).Ok?
    ensures PremiumRefund(premium, purchasedAt, second).value <= PremiumRefund(premium, purchasedAt, first).value
  {
    var early, late := Max(0, first - purchasedAt), Max(0, second - purchasedAt);
    if premium > 0 && late < FULL_TERM_SECS {
      MulMono(FULL_TERM_SECS - late, FULL_TERM_SECS - early, premium);
      MulNonNeg(premium, FULL_TERM_SECS - late);
      DivMono(premium * (FULL_TERM_SECS - late), premium * (FULL_TERM_SECS - early), FULL_TERM_SECS);
    } else {
      PremiumRefundInRange(premium, purchasedAt, first);
    }
  }

  /** How much of the bonded capital was used, clamped to a valid rate. */
  function UtilizationBps(used: int, bonded: int): Result<int>
    requires bonded >= 0
  {
    if bonded == 0 then Ok(0)
    else if !FitsI128(used * BPS) then Err(ArithmeticError)
    else Ok(Min(Max(0, TruncDiv(used * BPS, bonded)), BPS))
  }

  // ---------- the transitions of one voucher ----------

  function StatsOr(p: Portfolio): Stats {
    if p.stats.Some? then p.stats.value else NO_STATS
  }

  function Stake(p: Portfolio, loan: u64, vouchId: u64, protected: i128, amount: i128, now: u64)
    : (Portfolio, Result<()>)
  {
    if amount <= 0 then (p, Err(InvalidAmount))
    else
      match ApplyBps(protected, MAX_COVERAGE_BPS)
      case Err(e) => (p, Err(e))
      case Ok(most) =>
        var stats := StatsOr(p);
        if amount > most then (p, Err(InvalidAmount))
        else if loan in p.bonds && !p.bonds[loan].status.Released? then (p, Err(BondAlreadyActive))
        else if !FitsI128(stats.totalBonded + amount) then (p, Err(ArithmeticError))
        else if stats.activeBonds == U32_MAX then (p, Err(Overflow))
        else
          (p.(bonds := p.bonds[loan := Bond(vouchId, amount, protected, now, 0, None, Active, false)],
              stats := Some(stats.(totalBonded := stats.totalBonded + amount,
                                   activeBonds := stats.activeBonds + 1, lastActivity := now))),
           Ok(()))
  }

  function Insure(p: Portfolio, loan: u64, amount: i128, now: u64): (Portfolio, Result<()>) {
    if loan !in p.bonds || p.bonds[loan].insured then (p, Err(InvalidAmount))
    else
      match ApplyBps(amount, PREMIUM_BPS)
      case Err(e) => (p, Err(e))
      case Ok(premium) =>
        if p.stats.None? then (p, Err(InvalidAmount))
        else
          var stats := p.stats.value;
          if !FitsI128(premium) || !FitsI128(stats.premiums + premium) then (p, Err(ArithmeticError))
          else
            (Portfolio(p.bonds[loan := p.bonds[loan].(insured := true)],
                       p.insurance[loan := Insurance(amount, premium, amount, 0, Insured, now)],
                       Some(stats.(premiums := stats.premiums + premium, lastActivity := now))),
             Ok(()))
  }

  /** What the bond itself pays towards a slash. */
  function BondPart(b: Bond, slash: int): int {
    Min(slash, b.amount - b.used)
  }

  /** What the insurance pays towards the shortfall of a slash. */
  function InsurancePart(p: Portfolio, loan: u64, slash: int): int
    requires loan in p.bonds
  {
    var b := p.bonds[loan];
    var shortfall := slash - BondPart(b, slash);
    if b.insured && shortfall > 0 && loan in p.insurance && p.insurance[loan].status.Insured?
    then Max(0, Min(shortfall, p.insurance[loan].maxCoverage - p.insurance[loan].claimed))
    else 0
  }

  function UsedBond(b: Bond, part: int): Bond
    requires FitsI128(b.used + part)
  {
    b.(used := b.used + part, status := if b.used + part >= b.amount then Exhausted else PartiallyUsed)
  }

  function ClaimedOn(i: Insurance, paid: int): Insurance
    requires FitsI128(i.claimed + paid)
  {
    i.(claimed := i.claimed + paid, status := if i.claimed + paid >= i.maxCoverage then Claimed else i.status)
  }

  /** Covering a slash: the bond first, then its insurance. */
  function Cover(p: Portfolio, loan: u64, slash: i128, now: u64): (Portfolio, Result<int>) {
    if loan !in p.bonds || p.bonds[loan].status.Released? || p.bonds[loan].status.Exhausted?
    then (p, Err(InvalidAmount))
    else
      var b := p.bonds[loan];
      var part, paid := BondPart(b, slash), InsurancePart(p, loan, slash);
      if !FitsI128(b.amount - b.used) || !FitsI128(b.used + part) then (p, Err(ArithmeticError))
      else if p.stats.None? then (p, Err(InvalidAmount))
      else
        var stats := p.stats.value;
        if !FitsI128(stats.totalUsed + part) then (p, Err(ArithmeticError))
        else if stats.timesUsed == U32_MAX then (p, Err(Overflow))
        else
          var covered := stats.(totalUsed := stats.totalUsed + part, timesUsed := stats.timesUsed + 1,
                                lastActivity := now);
          var bonds := p.bonds[loan := UsedBond(b, part)];
          if paid == 0 then (p.(bonds := bonds, stats := Some(covered)), Ok(part))
          else if !FitsI128(p.insurance[loan].claimed + paid) then (p, Err(ArithmeticError))
          else if stats.claimsPaid == U32_MAX then (p, Err(Overflow))
          else if !FitsI128(stats.payouts + paid) then (p, Err(ArithmeticError))
          else
            (Portfolio(bonds, p.insurance[loan := ClaimedOn(p.insurance[loan], paid)],
                       Some(covered.(claimsPaid := stats.claimsPaid + 1, payouts := stats.payouts + paid))),
             Ok(part + paid))
  }

  /** The result is what is paid back: the unused principal and, if no claim was ever paid, part of the
      premium. */
  function Release(p: Portfolio, loan: u64, now: u64): (Portfolio, Result<int>) {
    if loan !in p.bonds || p.bonds[loan].status.Released? then (p, Err(InvalidAmount))
    else
      var b := p.bonds[loan];
      var principal := b.amount - b.used;
      if !FitsI128(principal) then (p, Err(Overflow))
      else if b.insured && loan !in p.insurance then (p, Err(InvalidAmount))
      else
        match RefundDue(p, loan, now)
        case Err(e) => (p, Err(e))
        case Ok(refund) =>
          if p.stats.None? then (p, Err(InvalidAmount))
          else if !FitsI128(principal + refund) then (p, Err(ArithmeticError))
          else
            var stats := p.stats.value;
            (Portfolio(p.bonds[loan := b.(status := Released, releasedAt := Some(now))],
                       if b.insured && p.insurance[loan].status.Insured?
                       then p.insurance[loan := p.insurance[loan].(status := Ended)] else p.insurance,
                       Some(stats.(activeBonds := Max(0, stats.activeBonds - 1),
                                   premiums := ClampI128(stats.premiums - refund), lastActivity := now))),
             Ok(principal + refund))
  }

  function RefundDue(p: Portfolio, loan: u64, now: u64): Result<int>
    requires loan in p.bonds && (p.bonds[loan].insured ==> loan in p.insurance)
  {
    if p.bonds[loan].insured && p.insurance[loan].claimed == 0
    then PremiumRefund(p.insurance[loan].premium, p.insurance[loan].purchasedAt, now)
    else Ok(0)
  }

  // ---------- runs ----------

  datatype Op =
    | DoStake(v: Address, loan: u64, now: u64, vouchId: u64, protected: i128, amount: i128)
    | DoInsure(v: Address, loan: u64, now: u64, amount: i128)
    | DoCover(v: Address, loan: u64, now: u64, slash: i128)
    | DoRelease(v: Address, loan: u64, now: u64)

  function StepOf(p: Portfolio, op: Op): Portfolio {
    match op
    case DoStake(_, loan, now, vouchId, protected, amount) => Stake(p, loan, vouchId, protected, amount, now).0
    case DoInsure(_, loan, now, amount) => Insure(p, loan, amount, now).0
    case DoCover(_, loan, now, slash) => Cover(p, loan, slash, now).0
    case DoRelease(_, loan, now) => Release(p, loan, now).0
  }

  function Step(s: State, op: Op): State {
    s[op.v := StepOf(PortfolioOf(s, op.v), op)]
  }

  function Run(s: State, ops: seq<Op>): State
    decreases |ops|
  {
    if ops == [] then s else Run(Step(s, ops[0]), ops[1..])
  }

  /** The principal that `op` pays back from a portfolio. */
  function PrincipalOf(p: Portfolio, op: Op): int {
    if op.DoRelease? && Release(p, op.loan, op.now).1.Ok?
    then p.bonds[op.loan].amount - p.bonds[op.loan].used else 0
  }

  /** The principal that `op` pays back to `v`. */
  function PrincipalBy(s: State, op: Op, v: Address): int {
    if op.v == v then PrincipalOf(PortfolioOf(s, v), op) else 0
  }

  function Principal(s: State, ops: seq<Op>, v: Address): int
    decreases |ops|
  {
    if ops == [] then 0 else PrincipalBy(s, ops[0], v) + Principal(Step(s, ops[0]), ops[1..], v)
  }

  // ---------- the invariant ----------

  predicate GoodBond(b: Bond) {
    && 0 <= b.used <= b.amount && b.amount > 0
    && (b.status.Exhausted? ==> b.used == b.amount)
    && (b.status.Active? || b.status.PartiallyUsed? ==> b.used < b.amount)
  }

  predicate GoodInsurance(i: Insurance) {
    0 <= i.claimed <= i.maxCoverage && 0 <= i.premium
  }

  predicate GoodRecords(p: Portfolio) {
    && (forall l :: l in p.bonds ==> GoodBond(p.bonds[l]) && (p.bonds[l].insured ==> l in p.insurance))
    && (forall l :: l in p.insurance ==> GoodInsurance(p.insurance[l]))
    && (p.bonds != map[] ==> p.stats.Some?)
  }

  ghost function Unreleased(p: Portfolio): set<u64> {
    set l | l in p.bonds && !p.bonds[l].status.Released?
  }

  /** The principal still bonded, by loan. */
  ghost function Remaining(p: Portfolio): map<u64, int> {
    map l | l in p.bonds && !p.bonds[l].status.Released? :: p.bonds[l].amount - p.bonds[l].used
  }

  /** What slashes have used of the bonds not yet released, by loan. */
  ghost function UsedNow(p: Portfolio): map<u64, int> {
    map l | l in p.bonds && !p.bonds[l].status.Released? :: p.bonds[l].used
  }

  /** All capital ever bonded is accounted for: used for slashes, still bonded or paid back; and the number
      of active bonds is that of the unreleased ones. */
  ghost predicate Balanced(p: Portfolio, released: int) {
    && StatsOr(p).activeBonds == |Unreleased(p)|
    && StatsOr(p).totalBonded == StatsOr(p).totalUsed + Total(Remaining(p)) + released
  }

  /** Records are good, and the total used is at least what the unreleased bonds have used. */
  ghost predicate WithinBounds(p: Portfolio) {
    GoodRecords(p) && StatsOr(p).totalUsed >= Total(UsedNow(p))
  }

  // ---------- what the transitions keep ----------

  lemma RemainingChanged(p: Portfolio, q: Portfolio, loan: u64, b: Bond)
    requires q.bonds == p.bonds[loan := b]
    ensures Total(Remaining(q)) == Total(Remaining(p)) - Value(Remaining(p), loan)
                                   + if b.status.Released? then 0 else b.amount - b.used
  {
    if b.status.Released? {
      assert Remaining(q) == Remaining(p) - {loan};
      Removed(Remaining(p), loan);
    } else {
      assert Remaining(q) == Remaining(p)[loan := b.amount - b.used];
      Updated(Remaining(p), loan, b.amount - b.used);
    }
  }

  lemma UsedChanged(p: Portfolio, q: Portfolio, loan: u64, b: Bond)
    requires q.bonds == p.bonds[loan := b]
    ensures Total(UsedNow(q)) == Total(UsedNow(p)) - Value(UsedNow(p), loan) + if b.status.Released? then 0 else b.used
  {
    if b.status.Released? {
      assert UsedNow(q) == UsedNow(p) - {loan};
      Removed(UsedNow(p), loan);
    } else {
      assert UsedNow(q) == UsedNow(p)[loan := b.used];
      Updated(UsedNow(p), loan, b.used);
    }
  }

  lemma UnreleasedChanged(p: Portfolio, q: Portfolio, loan: u64, b: Bond)
    requires q.bonds == p.bonds[loan := b]
    ensures |Unreleased(q)| == |Unreleased(p)| - (if loan in Unreleased(p) then 1 else 0)
                               + if b.status.Released? then 0 else 1
  {
    if b.status.Released? {
      assert Unreleased(q) == Unreleased(p) - {loan};
    } else {
      assert Unreleased(q) == Unreleased(p) - {loan} + {loan};
    }
  }

  lemma BondChanged(p: Portfolio, q: Portfolio, loan: u64, b: Bond)
    requires q.bonds == p.bonds[loan := b]
    ensures Total(Remaining(q)) == Total(Remaining(p)) - Value(Remaining(p), loan)
                                   + if b.status.Released? then 0 else b.amount - b.used
    ensures |Unreleased(q)| == |Unreleased(p)| - (if loan in Unreleased(p) then 1 else 0)
                               + if b.status.Released? then 0 else 1
  {
    hide Remaining, Unreleased;
    RemainingChanged(p, q, loan, b);
    UnreleasedChanged(p, q, loan, b);
  }

  lemma StakeBalances(p: Portfolio, loan: u64, vouchId: u64, protected: i128, amount: i128, now: u64, released: int)
    requires Balanced(p, released)
    ensures Balanced(Stake(p, loan, vouchId, protected, amount, now).0, released)
  {
    var (q, r) := Stake(p, loan, vouchId, protected, amount, now);
    if r.Ok? {
      BondChanged(p, q, loan, q.bonds[loan]);
    }
  }

  lemma InsureBalances(p: Portfolio, loan: u64, amount: i128, now: u64, released: int)
    requires Balanced(p, released)
    ensures Balanced(Insure(p, loan, amount, now).0, released)
  {
    var (q, r) := Insure(p, loan, amount, now);
    if r.Ok? {
      BondChanged(p, q, loan, q.bonds[loan]);
    }
  }

  lemma CoverBalances(p: Portfolio, loan: u64, slash: i128, now: u64, released: int)
    requires Balanced(p, released)
    ensures Balanced(Cover(p, loan, slash, now).0, released)
  {
    var (q, r) := Cover(p, loan, slash, now);
    if r.Ok? {
      BondChanged(p, q, loan, q.bonds[loan]);
    }
  }

  lemma ReleaseBalances(p: Portfolio, loan: u64, now: u64, released: int)
    requires Balanced(p, released)
    ensures var (q, r) := Release(p, loan, now);
            Balanced(q, released + if r.Ok? then p.bonds[loan].amount - p.bonds[loan].used else 0)
  {
    var (q, r) := Release(p, loan, now);
    if r.Ok? {
      BondChanged(p, q, loan, q.bonds[loan]);
      assert loan in Unreleased(p);
    }
  }

  lemma PortfolioBalances(p: Portfolio, op: Op, released: int)
    requires Balanced(p, released)
    ensures Balanced(StepOf(p, op), released + PrincipalOf(p, op))
  {
    hide Balanced, Stake, Insure, Cover, Release;
    match op
    case DoStake(_, loan, now, vouchId, protected, amount) =>
      StakeBalances(p, loan, vouchId, protected, amount, now, released);
    case DoInsure(_, loan, now, amount) => InsureBalances(p, loan, amount, now, released);
    case DoCover(_, loan, now, slash) => CoverBalances(p, loan, slash, now, released);
    case DoRelease(_, loan, now) => ReleaseBalances(p, loan, now, released);
  }

  // ---------- which calls keep the records within their bounds ----------

  /** A call that fails; or a slash that gives back no more than slashes took from the bond, and an insured
      amount that is not negative. */
  predicate Harmless(p: Portfolio, op: Op) {
    match op
    case DoStake(_, _, _, _, _, _) => true
    case DoInsure(_, loan, now, amount) => Insure(p, loan, amount, now).1.Ok? ==> amount >= 0
    case DoCover(_, loan, now, slash) => Cover(p, loan, slash, now).1.Ok? ==> p.bonds[loan].used + slash >= 0
    case DoRelease(_, _, _) => true
  }

  lemma InsureKeepsRecordsExactlyWhen(p: Portfolio, loan: u64, amount: i128, now: u64)
    requires GoodRecords(p) && Insure(p, loan, amount, now).1.Ok?
    ensures GoodRecords(Insure(p, loan, amount, now).0) <==> amount >= 0
  {
    var q := Insure(p, loan, amount, now).0;
    if amount < 0 {
      assert loan in q.insurance && !GoodInsurance(q.insurance[loan]);
    }
  }

  lemma CoverKeepsRecordsExactlyWhen(p: Portfolio, loan: u64, slash: i128, now: u64)
    requires GoodRecords(p) && Cover(p, loan, slash, now).1.Ok?
    ensures GoodRecords(Cover(p, loan, slash, now).0) <==> p.bonds[loan].used + slash >= 0
  {
    var q := Cover(p, loan, slash, now).0;
    assert GoodBond(p.bonds[loan]);
    if p.bonds[loan].used + slash < 0 {
      assert loan in q.bonds && !GoodBond(q.bonds[loan]);
    }
  }

  /** Exactly when a call keeps the records within their bounds: when it is harmless. */
  lemma RecordsKeptExactlyWhen(p: Portfolio, op: Op)
    requires GoodRecords(p)
    ensures GoodRecords(StepOf(p, op)) <==> Harmless(p, op)
  {
    match op
    case DoStake(_, loan, now, vouchId, protected, amount) =>
    case DoInsure(_, loan, now, amount) =>
      hide GoodRecords;
      if Insure(p, loan, amount, now).1.Ok? {
        InsureKeepsRecordsExactlyWhen(p, loan, amount, now);
      }
    case DoCover(_, loan, now, slash) =>
      hide GoodRecords;
      if Cover(p, loan, slash, now).1.Ok? {
        CoverKeepsRecordsExactlyWhen(p, loan, slash, now);
      }
    case DoRelease(_, loan, now) =>
  }

  lemma UsedKept(p: Portfolio, op: Op)
    requires WithinBounds(p) && Harmless(p, op)
    ensures WithinBounds(StepOf(p, op)) && PrincipalOf(p, op) >= 0
  {
    var q := StepOf(p, op);
    RecordsKeptExactlyWhen(p, op);
    if op.loan in q.bonds && q != p {
      assert op.loan in p.bonds ==> GoodBond(p.bonds[op.loan]);
      UsedChanged(p, q, op.loan, q.bonds[op.loan]);
    }
    hide GoodRecords, GoodInsurance, PremiumRefund;
  }

  // ---------- the main results ----------

  /** The voucher's portfolio balances, or nothing was ever bonded and nothing released. */
  ghost predicate BalancedFor(s: State, v: Address, released: int) {
    if v in s then Balanced(s[v], released) else released == 0
  }

  lemma NothingBonded()
    ensures Balanced(EMPTY, 0)
  {
    assert Remaining(EMPTY) == map[] && Unreleased(EMPTY) == {};
  }

  lemma NothingUsed()
    ensures WithinBounds(EMPTY)
  {
    assert UsedNow(EMPTY) == map[];
  }

  lemma StepBalances(s: State, op: Op, v: Address, released: int)
    requires BalancedFor(s, v, released)
    ensures BalancedFor(Step(s, op), v, released + PrincipalBy(s, op, v))
  {
    hide Balanced, StepOf, PrincipalOf;
    NothingBonded();
    if op.v == v {
      PortfolioBalances(PortfolioOf(s, v), op, released);
    }
  }

  lemma {:induction false} RunBalances(s: State, ops: seq<Op>, v: Address, released: int)
    requires BalancedFor(s, v, released)
    ensures BalancedFor(Run(s, ops), v, released + Principal(s, ops, v))
    decreases |ops|
  {
    hide BalancedFor;
    if ops == [] {
    } else {
      StepBalances(s, ops[0], v, released);
      hide Step, PrincipalBy;
      RunBalances(Step(s, ops[0]), ops[1..], v, released + PrincipalBy(s, ops[0], v));
    }
  }

  /** Over every run from before a voucher's first bond, all capital it ever bonded is used, still bonded or
      paid back, and the active bonds are the unreleased ones. */
  lemma CapitalConserved(s: State, ops: seq<Op>, v: Address)
    requires v !in s
    ensures Balanced(PortfolioOf(Run(s, ops), v), Principal(s, ops, v))
  {
    hide Balanced, Run, Principal;
    NothingBonded();
    RunBalances(s, ops, v, 0);
  }

  /** All calls of the run on the records of `v` are harmless where they are made. */
  predicate HarmlessRun(s: State, ops: seq<Op>, v: Address)
    decreases |ops|
  {
    ops != [] ==> (ops[0].v == v ==> Harmless(PortfolioOf(s, v), ops[0])) && HarmlessRun(Step(s, ops[0]), ops[1..], v)
  }

  /** In every state of the run the records of `v` are good. */
  predicate AlwaysGood(s: State, ops: seq<Op>, v: Address)
    decreases |ops|
  {
    GoodRecords(PortfolioOf(s, v)) && (ops != [] ==> AlwaysGood(Step(s, ops[0]), ops[1..], v))
  }

  /** Exactly when the records of a voucher stay within their bounds over a whole run: when every call on
      them is harmless where it is made. */
  lemma {:induction false} AlwaysGoodExactlyWhen(s: State, ops: seq<Op>, v: Address)
    requires GoodRecords(PortfolioOf(s, v))
    ensures AlwaysGood(s, ops, v) <==> HarmlessRun(s, ops, v)
    decreases |ops|
  {
    hide GoodRecords, Harmless, StepOf;
    if ops == [] {
    } else {
      var t := Step(s, ops[0]);
      if ops[0].v == v {
        RecordsKeptExactlyWhen(PortfolioOf(s, v), ops[0]);
        assert PortfolioOf(t, v) == StepOf(PortfolioOf(s, v), ops[0]);
      } else {
        assert PortfolioOf(t, v) == PortfolioOf(s, v);
      }
      hide Step, PortfolioOf;
      if GoodRecords(PortfolioOf(t, v)) {
        AlwaysGoodExactlyWhen(t, ops[1..], v);
      } else {
        assert !AlwaysGood(t, ops[1..], v);
      }
    }
  }

  /** Slashes and insured amounts that are not negative. */
  predicate Sensible(op: Op) {
    (op.DoCover? ==> op.slash >= 0) && (op.DoInsure? ==> op.amount >= 0)
  }

  /** Without negative slashes and insured amounts every run is harmless. */
  lemma {:induction false} SensibleRunHarmless(s: State, ops: seq<Op>, v: Address)
    requires GoodRecords(PortfolioOf(s, v)) && forall i :: 0 <= i < |ops| ==> Sensible(ops[i])
    ensures HarmlessRun(s, ops, v)
    decreases |ops|
  {
    if ops == [] {
    } else {
      var p, op, t := PortfolioOf(s, v), ops[0], Step(s, ops[0]);
      assert Sensible(op);
      assert forall l :: l in p.bonds ==> GoodBond(p.bonds[l]);
      if op.v == v {
        SensibleHarmless(p, op);
        RecordsKeptExactlyWhen(p, op);
        assert PortfolioOf(t, v) == StepOf(p, op);
      } else {
        assert PortfolioOf(t, v) == p;
      }
      hide GoodRecords, Harmless, StepOf, Step, PortfolioOf;
      SensibleRunHarmless(t, ops[1..], v);
    }
  }

  lemma SensibleHarmless(p: Portfolio, op: Op)
    requires GoodRecords(p) && Sensible(op)
    ensures Harmless(p, op)
  {
    if op.DoCover? && op.loan in p.bonds {
      assert GoodBond(p.bonds[op.loan]);
    }
  }

  lemma {:induction false} RunWithinBounds(s: State, ops: seq<Op>, v: Address)
    requires WithinBounds(PortfolioOf(s, v)) && HarmlessRun(s, ops, v)
    ensures WithinBounds(PortfolioOf(Run(s, ops), v)) && Principal(s, ops, v) >= 0
    decreases |ops|
  {
    hide WithinBounds, Harmless, StepOf, PrincipalOf;
    if ops == [] {
    } else {
      var p, t := PortfolioOf(s, v), Step(s, ops[0]);
      if ops[0].v == v {
        UsedKept(p, ops[0]);
        assert PortfolioOf(t, v) == StepOf(p, ops[0]);
      } else {
        assert PortfolioOf(t, v) == p;
      }
      hide Step, PortfolioOf;
      RunWithinBounds(t, ops[1..], v);
    }
  }

  /** No bond is used and no insurance claimed beyond its amount, and the capital used is within the capital
      bonded. */
  ghost predicate Bounded(p: Portfolio) {
    && 0 <= StatsOr(p).totalUsed <= StatsOr(p).totalBonded
    && (forall l :: l in p.bonds ==> 0 <= p.bonds[l].used <= p.bonds[l].amount)
    && (forall l :: l in p.insurance ==> 0 <= p.insurance[l].claimed <= p.insurance[l].maxCoverage)
  }

  lemma BoundedWhenSound(p: Portfolio, released: nat)
    requires Balanced(p, released) && WithinBounds(p)
    ensures Bounded(p)
  {
    assert forall l :: l in p.bonds ==> GoodBond(p.bonds[l]);
    assert forall l :: l in p.insurance ==> GoodInsurance(p.insurance[l]);
    NonNegative(Remaining(p));
    NonNegative(UsedNow(p));
  }

  /** Over every harmless run from before a voucher's first bond, every bond, every claim and the capital
      used stay within their bounds. */
  lemma BoundsKept(s: State, ops: seq<Op>, v: Address)
    requires v !in s && HarmlessRun(s, ops, v)
    ensures Bounded(PortfolioOf(Run(s, ops), v))
  {
    hide Balanced, WithinBounds, Bounded, Run, Principal, HarmlessRun;
    NothingUsed();
    CapitalConserved(s, ops, v);
    RunWithinBounds(s, ops, v);
    BoundedWhenSound(PortfolioOf(Run(s, ops), v), Principal(s, ops, v));
  }

  lemma UtilizationInRange(used: int, bonded: int)
    requires 0 <= used <= bonded && bonded > 0
    ensures 0 <= TruncDiv(used * BPS, bonded) <= BPS
    ensures FitsI128(used * BPS) ==> UtilizationBps(used, bonded) == Ok(TruncDiv(used * BPS, bonded))
  {
    MulMono(used, bonded, BPS);
    DivMono(used * BPS, bonded * BPS, bonded);
    DivUnique(bonded * BPS, bonded, BPS);
    DivIsLargest(used * BPS, bonded, 0);
  }

  /** The clamp of the utilization rate is never needed. */
  lemma UtilizationNeedsNoClamp(s: State, ops: seq<Op>, v: Address)
    requires v !in s && HarmlessRun(s, ops, v)
    ensures var stats := StatsOr(PortfolioOf(Run(s, ops), v));
            && stats.totalBonded >= 0
            && (stats.totalBonded > 0 && FitsI128(stats.totalUsed * BPS) ==>
                  && 0 <= TruncDiv(stats.totalUsed * BPS, stats.totalBonded) <= BPS
                  && UtilizationBps(stats.totalUsed, stats.totalBonded)
                     == Ok(TruncDiv(stats.totalUsed * BPS, stats.totalBonded)))
  {
    hide Run, PortfolioOf, StatsOr, UtilizationBps, TruncDiv, HarmlessRun;
    BoundsKept(s, ops, v);
    var stats := StatsOr(PortfolioOf(Run(s, ops), v));
    if stats.totalBonded > 0 {
      UtilizationInRange(stats.totalUsed, stats.totalBonded);
    }
  }

  /** A coverage call pays the slash, or all that the bond and an active insurance have left if that is
      less; so it pays between nothing and the slash exactly when the slash is not negative. */
  lemma CoverageWithinSlash(p: Portfolio, loan: u64, slash: i128, now: u64)
    requires GoodRecords(p) && Cover(p, loan, slash, now).1.Ok?
    ensures var paid, b := Cover(p, loan, slash, now).1.value, p.bonds[loan];
            var cover := if b.insured && p.insurance[loan].status.Insured?
                         then p.insurance[loan].maxCoverage - p.insurance[loan].claimed else 0;
            paid == Min(slash, b.amount - b.used + cover) && (0 <= paid <= slash <==> slash >= 0)
  {
    assert GoodBond(p.bonds[loan]);
    assert p.bonds[loan].insured ==> GoodInsurance(p.insurance[loan]);
  }

  /** Calls that leave the bond of `v` on `loan` in its current life: no release of it and no new one. */
  predicate SameLife(ops: seq<Op>, v: Address, loan: u64) {
    forall i :: 0 <= i < |ops| && (ops[i].DoStake? || ops[i].DoRelease?) ==> (ops[i].v, ops[i].loan) != (v, loan)
  }

  /** What the coverage calls of a run take from the bond itself. */
  function CoveredByBond(s: State, ops: seq<Op>, v: Address, loan: u64): int
    decreases |ops|
  {
    if ops == [] then 0
    else
      var p, op := PortfolioOf(s, v), ops[0];
      (if op.DoCover? && op.v == v && op.loan == loan && Cover(p, loan, op.slash, op.now).1.Ok?
       then BondPart(p.bonds[loan], op.slash) else 0)
      + CoveredByBond(Step(s, ops[0]), ops[1..], v, loan)
  }

  lemma {:induction false} UsedIsCovered(s: State, ops: seq<Op>, v: Address, loan: u64)
    requires loan in PortfolioOf(s, v).bonds && SameLife(ops, v, loan)
    ensures var p, q := PortfolioOf(s, v), PortfolioOf(Run(s, ops), v);
            && loan in q.bonds && q.bonds[loan].amount == p.bonds[loan].amount
            && q.bonds[loan].used == p.bonds[loan].used + CoveredByBond(s, ops, v, loan)
    decreases |ops|
  {
    if ops == [] {
    } else {
      var p, q := PortfolioOf(s, v), PortfolioOf(Step(s, ops[0]), v);
      assert SameLife(ops[1..], v, loan);
      OneStepOfLife(s, ops[0], v, loan);
      hide Step, SameLife, Cover, BondPart;
      UsedIsCovered(Step(s, ops[0]), ops[1..], v, loan);
    }
  }

  lemma OneStepOfLife(s: State, op: Op, v: Address, loan: u64)
    requires loan in PortfolioOf(s, v).bonds
    requires op.DoStake? || op.DoRelease? ==> (op.v, op.loan) != (v, loan)
    ensures var p, q := PortfolioOf(s, v), PortfolioOf(Step(s, op), v);
            && loan in q.bonds && q.bonds[loan].amount == p.bonds[loan].amount
            && q.bonds[loan].used == p.bonds[loan].used
               + if op.DoCover? && op.v == v && op.loan == loan && Cover(p, loan, op.slash, op.now).1.Ok?
                 then BondPart(p.bonds[loan], op.slash) else 0
  {
  }

  /** The life of a bond: from its staking to its release, what coverage took from it and the principal
      paid back add up to the bonded amount. */
  lemma BondLifetime(s: State, v: Address, loan: u64, vouchId: u64, protected: i128, amount: i128, start: u64,
                     ops: seq<Op>, end: u64)
    requires Stake(PortfolioOf(s, v), loan, vouchId, protected, amount, start).1.Ok? && SameLife(ops, v, loan)
    ensures var staked := Step(s, DoStake(v, loan, start, vouchId, protected, amount));
            var before := Run(staked, ops);
            Release(PortfolioOf(before, v), loan, end).1.Ok? ==>
              CoveredByBond(staked, ops, v, loan) + PrincipalBy(before, DoRelease(v, loan, end), v) == amount
  {
    var staked := Step(s, DoStake(v, loan, start, vouchId, protected, amount));
    assert PortfolioOf(staked, v).bonds[loan].used == 0 && PortfolioOf(staked, v).bonds[loan].amount == amount;
    hide Step, Stake, SameLife, CoveredByBond, Run;
    UsedIsCovered(staked, ops, v, loan);
  }

  /** A release pays back the unused principal and a premium refund between nothing and the premium,
      which is nothing once a claim was paid. */
  lemma ReleasePaysBack(p: Portfolio, loan: u64, now: u64)
    requires GoodRecords(p) && Release(p, loan, now).1.Ok?
    ensures var b, paid := p.bonds[loan], Release(p, loan, now).1.value;
            var refund := paid - (b.amount - b.used);
            && 0 <= refund
            && (!b.insured ==> refund == 0)
            && (b.insured ==> refund <= p.insurance[loan].premium)
            && (b.insured && p.insurance[loan].claimed > 0 ==> refund == 0)
  {
    var b := p.bonds[loan];
    if b.insured && p.insurance[loan].claimed == 0 {
      assert GoodInsurance(p.insurance[loan]);
      PremiumRefundInRange(p.insurance[loan].premium, p.insurance[loan].purchasedAt, now);
      hide PremiumRefund;
    }
  }

  // ---------- what each call does ----------

  /** A bond is staked exactly with a positive amount of at most half of what it protects, while the loan has
      no live bond and the totals have room; it is then active, unused and uninsured. */
  lemma StakeOutcome(p: Portfolio, loan: u64, vouchId: u64, protected: i128, amount: i128, now: u64)
    ensures var (t, r) := Stake(p, loan, vouchId, protected, amount, now);
            var old_ := if p.stats.Some? then p.stats.value else Stats(0, 0, 0, 0, 0, 0, 0, 0);
            && (r.Ok? <==>
                  && 0 < amount && 2 * (amount as int) <= protected && protected * 5000 <= I128_MAX
                  && (loan in p.bonds ==> p.bonds[loan].status == Released)
                  && old_.totalBonded + amount <= I128_MAX && old_.activeBonds < U32_MAX)
            && (r.Err? ==> t == p)
            && (r.Ok? ==>
                  && t.bonds == p.bonds[loan := Bond(vouchId, amount, protected, now, 0, None, Active, false)]
                  && t.insurance == p.insurance
                  && t.stats == Some(old_.(totalBonded := old_.totalBonded + amount,
                                           activeBonds := old_.activeBonds + 1, lastActivity := now)))
  {
    if protected >= 0 {
      DivIsLargest(protected * 5000, 10_000, amount);
    }
  }

  /** A bond is insured exactly when it exists and is not insured yet, and the sums fit; the premium is three
      per cent of the insured amount, all of which can be claimed. */
  lemma InsureOutcome(p: Portfolio, loan: u64, amount: i128, now: u64)
    ensures var ((t, r), premium) := (Insure(p, loan, amount, now), TruncDiv(3 * amount, 100));
            && (r.Ok? <==>
                  && loan in p.bonds && !p.bonds[loan].insured && p.stats.Some?
                  && FitsI128(300 * amount) && FitsI128(p.stats.value.premiums + premium))
            && (r.Err? ==> t == p)
            && (r.Ok? ==>
                  && t.bonds == p.bonds[loan := p.bonds[loan].(insured := true)]
                  && t.insurance == p.insurance[loan := Insurance(amount, premium, amount, 0, Insured, now)]
                  && t.stats == Some(p.stats.value.(premiums := p.stats.value.premiums + premium, lastActivity := now)))
  {
    PremiumOf(amount);
  }

  lemma PremiumOf(amount: int)
    ensures TruncDiv(amount * 300, 10_000) == TruncDiv(3 * amount, 100)
    ensures FitsI128(300 * amount) ==> FitsI128(TruncDiv(3 * amount, 100))
  {
    if amount >= 0 {
      DivBounds(3 * amount, 100);
      DivUnique(amount * 300, 10_000, 3 * amount / 100);
    } else {
      DivBounds(3 * -amount, 100);
      DivUnique(-(amount * 300), 10_000, 3 * -amount / 100);
    }
  }

  /** With good records a slash is covered exactly on a live bond while the totals have room.  The bond pays
      first, up to what is left of it, then its insurance, up to what is left of that; both remember it, and
      each is used up exactly when nothing is left. */
  lemma CoverOutcome(p: Portfolio, loan: u64, slash: i128, now: u64)
    requires GoodRecords(p) && loan in p.bonds
    ensures var (t, r) := Cover(p, loan, slash, now);
            var b, stats := p.bonds[loan], p.stats.value;
            var part := if slash <= b.amount - b.used then slash else b.amount - b.used;
            var insured := b.insured && p.insurance[loan].status == Insured;
            var left := if insured then p.insurance[loan].maxCoverage - p.insurance[loan].claimed else 0;
            var paid := if slash - part <= left then slash - part else left;
            && (r.Ok? <==>
                  && (b.status == Active || b.status == PartiallyUsed)
                  && FitsI128(stats.totalUsed + part) && stats.timesUsed < U32_MAX
                  && (paid > 0 ==> stats.claimsPaid < U32_MAX && FitsI128(stats.payouts + paid)))
            && (r.Err? ==> t == p)
            && (r.Ok? ==>
                  && r.value == part + paid
                  && t.bonds == p.bonds[loan := b.(used := b.used + part,
                                                   status := if part == b.amount - b.used then Exhausted
                                                             else PartiallyUsed)]
                  && t.insurance ==
                     (if paid == 0 then p.insurance
                      else p.insurance[loan := p.insurance[loan].(claimed := p.insurance[loan].claimed + paid,
                                                                  status := if paid == left then Claimed else Insured)])
                  && t.stats == Some(stats.(totalUsed := stats.totalUsed + part, timesUsed := stats.timesUsed + 1,
                                            claimsPaid := stats.claimsPaid + (if paid > 0 then 1 else 0),
                                            payouts := stats.payouts + paid, lastActivity := now)))
  {
    assert GoodBond(p.bonds[loan]);
    assert p.bonds[loan].insured ==> GoodInsurance(p.insurance[loan]);
  }

  /** With good records a bond is released exactly once, unless its refund or the sum does not fit; it is
      then over for good, and so is insurance that was not used up. */
  lemma ReleaseOutcome(p: Portfolio, loan: u64, now: u64)
    requires GoodRecords(p) && loan in p.bonds
    ensures var (t, r) := Release(p, loan, now);
            var b, stats := p.bonds[loan], p.stats.value;
            var refund := if b.insured && p.insurance[loan].claimed == 0
                          then PremiumRefund(p.insurance[loan].premium, p.insurance[loan].purchasedAt, now) else Ok(0);
            && (r.Ok? <==> b.status != Released && refund.Ok? && FitsI128(b.amount - b.used + refund.value))
            && (r.Err? ==> t == p)
            && (r.Ok? ==>
                  && r.value == b.amount - b.used + refund.value
                  && t.bonds == p.bonds[loan := b.(status := Released, releasedAt := Some(now))]
                  && t.insurance ==
                     (if b.insured && p.insurance[loan].status == Insured
                      then p.insurance[loan := p.insurance[loan].(status := Ended)] else p.insurance)
                  && t.stats.Some?
                  && t.stats.value.activeBonds == (if stats.activeBonds == 0 then 0 else stats.activeBonds - 1)
                  && (stats.premiums >= 0 ==> t.stats.value.premiums == stats.premiums - refund.value)
                  && t.stats == Some(stats.(activeBonds := t.stats.value.activeBonds,
                                            premiums := t.stats.value.premiums, lastActivity := now))
                  && (forall later :: Release(t, loan, later) == (t, Err(InvalidAmount)))
                  && (forall slash: i128, later :: Cover(t, loan, slash, later) == (t, Err(InvalidAmount))))
  {
    assert GoodBond(p.bonds[loan]);
    if p.bonds[loan].insured && p.insurance[loan].claimed == 0 {
      assert GoodInsurance(p.insurance[loan]);
      PremiumRefundFits(p.insurance[loan].premium, p.insurance[loan].purchasedAt, now);
    }
    hide PremiumRefund;
  }

  lemma PremiumRefundFits(premium: nat, purchasedAt: u64, releasedAt: u64)
    requires premium <= I128_MAX
    ensures var r := PremiumRefund(premium, purchasedAt, releasedAt); r.Ok? ==> 0 <= r.value <= premium
  {
    if PremiumRefund(premium, purchasedAt, releasedAt).Ok? {
      PremiumRefundInRange(premium, purchasedAt, releasedAt);
    }
  }

  // ---------- the contract ----------

  class BondStore {
    var bonds: map<Address, map<u64, Bond>>
    var insurance: map<Address, map<u64, Insurance>>
    var stats: map<Address, Stats>

    ghost function View(v: Address): Portfolio
      reads this
    {
      Portfolio(if v in bonds then bonds[v] else map[],
                if v in insurance then insurance[v] else map[],
                if v in stats then Some(stats[v]) else None)
    }

    constructor ()
      ensures forall v :: View(v) == EMPTY
    {
      bonds, insurance, stats := map[], map[], map[];
    }

    method SaveBond(v: Address, loan: u64, bond: Bond)
      modifies `bonds
      ensures View(v) == old(View(v)).(bonds := old(View(v)).bonds[loan := bond])
      ensures forall w :: w != v ==> View(w) == old(View(w))
    {
      bonds := bonds[v := (if v in bonds then bonds[v] else map[])[loan := bond]];
    }

    method SaveInsurance(v: Address, loan: u64, record: Insurance)
      modifies `insurance
      ensures View(v) == old(View(v)).(insurance := old(View(v)).insurance[loan := record])
      ensures forall w :: w != v ==> View(w) == old(View(w))
    {
      insurance := insurance[v := (if v in insurance then insurance[v] else map[])[loan := record]];
    }

    method StakeBond(v: Address, loan: u64, vouchId: u64, protected: i128, amount: i128, now: u64)
      returns (r: Result<()>)
      modifies this
      ensures (View(v), r) == Stake(old(View(v)), loan, vouchId, protected, amount, now)
      ensures forall w :: w != v ==> View(w) == old(View(w))
    {
      if amount <= 0 {
        return Err(InvalidAmount);
      }
      var most := ApplyBps(protected, MAX_COVERAGE_BPS);
      if most.Err? {
        return Err(most.error);
      }
      if amount > most.value {
        return Err(InvalidAmount);
      }
      if v in bonds && loan in bonds[v] && bonds[v][loan].status != Released {
        return Err(BondAlreadyActive);
      }
      var record := if v in stats then stats[v] else NO_STATS;
      if !FitsI128(record.totalBonded + amount) {
        return Err(ArithmeticError);
      }
      if record.activeBonds == U32_MAX {
        return Err(Overflow);
      }
      SaveBond(v, loan, Bond(vouchId, amount, protected, now, 0, None, Active, false));
      record := record.(totalBonded := record.totalBonded + amount);
      record := record.(activeBonds := record.activeBonds + 1, lastActivity := now);
      stats := stats[v := record];
      return Ok(());
    }

    method PurchaseInsurance(v: Address, loan: u64, amount: i128, now: u64) returns (r: Result<()>)
      modifies this
      ensures (View(v), r) == Insure(old(View(v)), loan, amount, now)
      ensures forall w :: w != v ==> View(w) == old(View(w))
    {
      if v !in bonds || loan !in bonds[v] {
        return Err(InvalidAmount);
      }
      var bond := bonds[v][loan];
      if bond.insured {
        return Err(InvalidAmount);
      }
      var premium := ApplyBps(amount, PREMIUM_BPS);
      if premium.Err? {
        return Err(premium.error);
      }
      if v !in stats {
        return Err(InvalidAmount);
      }
      var record := stats[v];
      if !FitsI128(premium.value) || !FitsI128(record.premiums + premium.value) {
        return Err(ArithmeticError);
      }
      SaveInsurance(v, loan, Insurance(amount, premium.value, amount, 0, Insured, now));
      SaveBond(v, loan, bond.(insured := true));
      stats := stats[v := record.(premiums := record.premiums + premium.value, lastActivity := now)];
      return Ok(());
    }

    /** What an active insurance of the bond has to pay towards a shortfall. */
    method InsurancePayout(v: Address, loan: u64, slash: int, part: int) returns (paid: int)
      requires v in bonds && loan in bonds[v] && part == BondPart(bonds[v][loan], slash)
      ensures paid == InsurancePart(View(v), loan, slash)
    {
      paid := 0;
      if bonds[v][loan].insured && part < slash {
        if v in insurance && loan in insurance[v] {
          var record := insurance[v][loan];
          if record.status == Insured {
            var shortfall := slash - part;
            var left := record.maxCoverage - record.claimed;
            var payout := if shortfall < left then shortfall else left;
            if payout > 0 {
              paid := payout;
            }
          }
        }
      }
    }

    method ApplyBondCoverage(v: Address, loan: u64, slash: i128, now: u64) returns (r: Result<int>)
      modifies this
      ensures (View(v), r) == Cover(old(View(v)), loan, slash, now)
      ensures forall w :: w != v ==> View(w) == old(View(w))
    {
      if v !in bonds || loan !in bonds[v] {
        return Err(InvalidAmount);
      }
      var bond := bonds[v][loan];
      if bond.status == Released || bond.status == Exhausted {
        return Err(InvalidAmount);
      }
      var available: int := bond.amount - bond.used;
      var part := Min(slash, available);
      var paid := InsurancePayout(v, loan, slash, part);
      if !FitsI128(available) || !FitsI128(bond.used + part) {
        return Err(ArithmeticError);
      }
      if v !in stats {
        return Err(InvalidAmount);
      }
      var record := stats[v];
      if !FitsI128(record.totalUsed + part) {
        return Err(ArithmeticError);
      }
      if record.timesUsed == U32_MAX {
        return Err(Overflow);
      }
      var covered := record.(totalUsed := record.totalUsed + part, timesUsed := record.timesUsed + 1,
                             lastActivity := now);
      hide InsurancePart;
      if paid != 0 {
        assert v in insurance && loan in insurance[v] by { PayoutNeedsInsurance(View(v), loan, slash); }
        if !FitsI128(insurance[v][loan].claimed + paid) {
          return Err(ArithmeticError);
        }
        if record.claimsPaid == U32_MAX {
          return Err(Overflow);
        }
        if !FitsI128(record.payouts + paid) {
          return Err(ArithmeticError);
        }
        SaveInsurance(v, loan, ClaimedOn(insurance[v][loan], paid));
        covered := covered.(claimsPaid := record.claimsPaid + 1, payouts := record.payouts + paid);
      }
      assert forall w :: w != v ==> View(w) == old(View(w));
      SaveBond(v, loan, UsedBond(bond, part));
      assert forall w :: w != v ==> View(w) == old(View(w));
      stats := stats[v := covered];
      return Ok(part + paid);
    }

    method ReleaseBond(v: Address, loan: u64, now: u64) returns (r: Result<int>)
      modifies this
      ensures (View(v), r) == Release(old(View(v)), loan, now)
      ensures forall w :: w != v ==> View(w) == old(View(w))
    {
      if v !in bonds || loan !in bonds[v] {
        return Err(InvalidAmount);
      }
      var bond := bonds[v][loan];
      if bond.status == Released {
        return Err(InvalidAmount);
      }
      var principal: int := bond.amount - bond.used;
      if !FitsI128(principal) {
        return Err(Overflow);
      }
      var refund := 0;
      if bond.insured {
        if v !in insurance || loan !in insurance[v] {
          return Err(InvalidAmount);
        }
        var record := insurance[v][loan];
        if record.claimed == 0 {
          var due := PremiumRefund(record.premium, record.purchasedAt, now);
          if due.Err? {
            return Err(due.error);
          }
          refund := due.value;
        }
      }
      hide PremiumRefund;
      if v !in stats {
        return Err(InvalidAmount);
      }
      var record := stats[v];
      if !FitsI128(principal + refund) {
        return Err(ArithmeticError);
      }
      if bond.insured && insurance[v][loan].status == Insured {
        SaveInsurance(v, loan, insurance[v][loan].(status := Ended));
      }
      SaveBond(v, loan, bond.(status := Released, releasedAt := Some(now)));
      record := record.(activeBonds := if record.activeBonds > 0 then record.activeBonds - 1 else 0);
      record := record.(premiums := ClampI128(record.premiums - refund), lastActivity := now);
      stats := stats[v := record];
      return Ok(principal + refund);
    }

    /** The rate is a valid one, and for capital used within the bonded capital the exact one, rounded down. */
    method GetBondUtilizationRate(v: Address) returns (r: Result<int>)
      requires v in stats ==> stats[v].totalBonded >= 0
      ensures v !in stats ==> r == Err(InvalidAmount)
      ensures r.Ok? ==> 0 <= r.value <= BPS
      ensures r.Ok? && 0 <= stats[v].totalUsed <= stats[v].totalBonded != 0 ==>
                r.value * stats[v].totalBonded <= stats[v].totalUsed * BPS < (r.value + 1) * stats[v].totalBonded
      ensures r == if v in stats then UtilizationBps(stats[v].totalUsed, stats[v].totalBonded) else Err(InvalidAmount)
    {
      if v !in stats {
        return Err(InvalidAmount);
      }
      var record := stats[v];
      if record.totalBonded == 0 {
        return Ok(0);
      }
      if !FitsI128(record.totalUsed * BPS) {
        return Err(ArithmeticError);
      }
      var bps := TruncDiv(record.totalUsed * BPS, record.totalBonded);
      if 0 <= record.totalUsed <= record.totalBonded {
        UtilizationInRange(record.totalUsed, record.totalBonded);
        DivBounds(record.totalUsed * BPS, record.totalBonded);
        MulAdd(bps, 1, record.totalBonded);
      }
      return Ok(if bps < 0 then 0 else if bps > BPS then BPS else bps);
    }
  }

  lemma PayoutNeedsInsurance(p: Portfolio, loan: u64, slash: int)
    requires loan in p.bonds && InsurancePart(p, loan, slash) != 0
    ensures loan in p.insurance
  {
  }
}
