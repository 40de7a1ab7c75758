/** The vouching component of a credit score: stake-time weight with diminishing returns. */
module CreditScore {
  import opened Host
  import opened Arith
  import opened IntegerSqrt

  const MIN_STAKE: i128 := 1_000_000
  const MIN_AGE_SECS: u64 := 24 * 60 * 60
  const SATURATION: u64 := 100
  const DECI_XLM: int := 1_000_000
  const SECS_PER_DAY: int := 86_400

  datatype Vouch = Vouch(stake: i128, since: u64)

  function AgeSecs(v: Vouch, now: u64): u64 {
    Max(0, now - v.since)
  }

  /** The stake in tenths of a token, cut to 64 bits as the contract's cast does. */
  function StakeUnits(v: Vouch): u64
    requires v.stake >= 0
  {
    v.stake / DECI_XLM % (U64_MAX + 1)
  }

  /** Stake units times days, saturating; a vouch below either floor weighs nothing. */
  function Weight(v: Vouch, now: u64): u64 {
    if v.stake < MIN_STAKE || AgeSecs(v, now) < MIN_AGE_SECS then 0
    else
      MulNonNeg(StakeUnits(v), AgeSecs(v, now) / SECS_PER_DAY);
      Min(StakeUnits(v) * (AgeSecs(v, now) / SECS_PER_DAY), U64_MAX)
  }

  function Contribution(v: Vouch, now: u64): (c: nat)
    ensures c <= SATURATION
  {
    Min(Root(Weight(v, now)), SATURATION)
  }

  function Total(vs: seq<Vouch>, now: u64): nat {
    if vs == [] then 0 else Total(vs[..|vs| - 1], now) + Contribution(vs[|vs| - 1], now)
  }

  /** The score aborts exactly when some weight saturates, because the square root cannot take it. */
  function Score(vs: seq<Vouch>, now: u64): (r: Result<u32>)
    ensures r.Ok? ==> 0 <= r.value <= 1000
  {
    if exists i :: 0 <= i < |vs| && Weight(vs[i], now) == U64_MAX then Err(Overflow)
    else Ok(10 * Min(Total(vs, now), SATURATION))
  }

  // ---------- what a score is made of ----------

  /** From a stake of a million and an age of a day on, a vouch weighs its whole units, cut to 64 bits, times
      its whole days, up to the largest number of 64 bits; below either it weighs nothing. */
  lemma WeightMeaning(v: Vouch, now: u64, units: int, days: nat)
    requires 1_000_000 * units <= v.stake < 1_000_000 * units + 1_000_000
    requires var age := if now < v.since then 0 else now - v.since; 86_400 * days <= age < 86_400 * days + 86_400
    ensures units <= 0 || days == 0 ==> Weight(v, now) == 0
    ensures units > 0 && days > 0 ==>
              var product := units % 0x1_0000_0000_0000_0000 * days;
              Weight(v, now) == if product <= 0xFFFF_FFFF_FFFF_FFFF then product else 0xFFFF_FFFF_FFFF_FFFF
  {
    DivUnique(v.stake, 1_000_000, units);
    DivUnique(AgeSecs(v, now), 86_400, days);
    assert v.stake >= 1_000_000 ==> StakeUnits(v) == units % 0x1_0000_0000_0000_0000;
  }

  /** A vouch contributes the whole square root of its weight, up to a hundred. */
  lemma ContributionMeaning(v: Vouch, now: u64)
    ensures var w, c := Weight(v, now), Contribution(v, now);
            if w >= 10_000 then c == 100 else c < 100 && c * c <= w < (c + 1) * (c + 1)
  {
    hide Weight, Root;
    if Weight(v, now) >= 10_000 {
      RootMono(10_000, Weight(v, now));
      RootUnique(10_000, 100);
    } else {
      RootMono(Weight(v, now), 9_999);
      RootUnique(9_999, 99);
    }
  }

  /** The score is ten for each point contributed, up to a thousand; it aborts exactly when some weight is the
      largest number of 64 bits. */
  lemma ScoreMeaning(vs: seq<Vouch>, now: u64)
    ensures Score(vs, now) ==
            if exists i :: 0 <= i < |vs| && Weight(vs[i], now) == 0xFFFF_FFFF_FFFF_FFFF then Err(Overflow)
            else if Total(vs, now) >= 100 then Ok(1000)
            else Ok(10 * Total(vs, now))
    ensures Total([], now) == 0
    ensures forall v :: Total(vs + [v], now) == Total(vs, now) + Contribution(v, now)
  {
    assert forall v :: (vs + [v])[..|vs|] == vs;
  }

  // ---------- the main results ----------

  /** The stake is small enough for the cast to keep it whole. */
  predicate StakeFits(v: Vouch) {
    v.stake / DECI_XLM <= U64_MAX
  }

  /** At time `now` the stake is whole where it counts: a vouch younger than a day weighs nothing. */
  predicate CountsWhole(v: Vouch, now: u64) {
    AgeSecs(v, now) >= MIN_AGE_SECS ==> StakeFits(v)
  }

  lemma WeightMono(v: Vouch, v': Vouch, now: u64, now': u64)
    requires v.since == v'.since && v.stake <= v'.stake && now <= now' && CountsWhole(v', now')
    ensures Weight(v, now) <= Weight(v', now')
  {
    if v.stake >= MIN_STAKE && AgeSecs(v, now) >= MIN_AGE_SECS {
      var units, units' := StakeUnits(v), StakeUnits(v');
      var days, days' := AgeSecs(v, now) / SECS_PER_DAY, AgeSecs(v', now') / SECS_PER_DAY;
      UnitsMono(v, v');
      DivMono(AgeSecs(v, now), AgeSecs(v', now'), SECS_PER_DAY);
      hide StakeUnits;
      MulMono(units, units', days);
      MulMono(days, days', units');
    }
  }

  lemma UnitsMono(v: Vouch, v': Vouch)
    requires 0 <= v.stake <= v'.stake && StakeFits(v')
    ensures StakeUnits(v) <= StakeUnits(v')
  {
    DivMono(v.stake, v'.stake, DECI_XLM);
  }

  lemma ContributionMono(v: Vouch, v': Vouch, now: u64, now': u64)
    requires v.since == v'.since && v.stake <= v'.stake && now <= now' && CountsWhole(v', now')
    ensures Contribution(v, now) <= Contribution(v', now')
  {
    WeightMono(v, v', now, now');
    RootMono(Weight(v, now), Weight(v', now'));
  }

  /** `vs'` has the vouches of `vs`, each with at least the same stake, and possibly more. */
  predicate Grown(vs: seq<Vouch>, vs': seq<Vouch>) {
    && |vs| <= |vs'|
    && forall i :: 0 <= i < |vs| ==> vs[i].since == vs'[i].since && vs[i].stake <= vs'[i].stake
  }

  lemma {:induction false} TotalMono(vs: seq<Vouch>, vs': seq<Vouch>, now: u64, now': u64)
    requires Grown(vs, vs') && now <= now' && forall i :: 0 <= i < |vs'| ==> CountsWhole(vs'[i], now')
    ensures Total(vs, now) <= Total(vs', now')
    decreases |vs'|
  {
    if vs' == [] {
    } else {
      var front' := vs'[..|vs'| - 1];
      if |vs| == |vs'| {
        TotalMono(vs[..|vs| - 1], front', now, now');
        ContributionMono(vs[|vs| - 1], vs'[|vs'| - 1], now, now');
      } else {
        TotalMono(vs, front', now, now');
      }
    }
  }

  /** While no stake that counts is cut by the cast, the score never decreases when time passes, stakes
      rise or vouches are added. */
  lemma ScoreMono(vs: seq<Vouch>, vs': seq<Vouch>, now: u64, now': u64)
    requires Grown(vs, vs') && now <= now' && forall i :: 0 <= i < |vs'| ==> CountsWhole(vs'[i], now')
    requires Score(vs', now').Ok?
    ensures Score(vs, now).Ok? && Score(vs, now).value <= Score(vs', now').value
  {
    TotalMono(vs, vs', now, now');
    forall i | 0 <= i < |vs| ensures Weight(vs[i], now) < U64_MAX {
      WeightMono(vs[i], vs'[i], now, now');
      assert Weight(vs'[i], now') != U64_MAX;
    }
  }

  /** Every earlier list of vouches, with lower stakes or fewer vouches, has a score and no higher one. */
  ghost predicate NoEarlierScoreHigher(vs': seq<Vouch>, now': u64)
    requires Score(vs', now').Ok?
  {
    forall vs: seq<Vouch>, now: u64 :: Grown(vs, vs') && now <= now' ==>
      Score(vs, now).Ok? && Score(vs, now).value <= Score(vs', now').value
  }

  /** Exactly when a score is no lower than all those before it: every vouch that is at least a day old has
      a stake that the cast keeps whole. */
  lemma ScoreMonoExactlyWhen(vs': seq<Vouch>, now': u64)
    requires Score(vs', now').Ok?
    ensures NoEarlierScoreHigher(vs', now') <==> forall i :: 0 <= i < |vs'| ==> CountsWhole(vs'[i], now')
  {
    if forall i :: 0 <= i < |vs'| ==> CountsWhole(vs'[i], now') {
      forall vs: seq<Vouch>, now: u64 | Grown(vs, vs') && now <= now'
        ensures Score(vs, now).Ok? && Score(vs, now).value <= Score(vs', now').value
      {
        ScoreMono(vs, vs', now, now');
      }
    } else {
      var i :| 0 <= i < |vs'| && !CountsWhole(vs'[i], now');
      var vs := LowerStake(vs', i, now');
    }
  }

  /** Before a cut stake rose to where the cast cuts it, it stood at the largest number of units, and the
      score aborted. */
  lemma LowerStake(vs': seq<Vouch>, i: nat, now: u64) returns (vs: seq<Vouch>)
    requires i < |vs'| && !CountsWhole(vs'[i], now)
    ensures Grown(vs, vs') && Score(vs, now).Err?
  {
    var v := Vouch(DECI_XLM * U64_MAX, vs'[i].since);
    vs := vs'[i := v];
    var days := AgeSecs(v, now) / SECS_PER_DAY;
    DivIsLargest(AgeSecs(v, now), SECS_PER_DAY, 1);
    DivIsLargest(vs'[i].stake, DECI_XLM, U64_MAX);
    assert StakeUnits(v) == U64_MAX;
    MulMono(1, days, U64_MAX);
    assert Weight(vs[i], now) == U64_MAX;
  }

  /** A score that is computed can also be lower: a day-old stake of 2^64 units is cut to nothing and scores less
      than a stake of one unit. */
  lemma CutStakeScoresLess()
    ensures var small, large := Vouch(DECI_XLM, 0), Vouch(DECI_XLM * (U64_MAX + 1), 0);
            && small.stake < large.stake && !StakeFits(large)
            && Score([small], 86_400) == Ok(10) && Score([large], 86_400) == Ok(0)
  {
    var small, large := Vouch(DECI_XLM, 0), Vouch(DECI_XLM * (U64_MAX + 1), 0);
    assert Weight(small, 86_400) == 1 && Weight(large, 86_400) == 0;
    RootUnique(1, 1);
    RootUnique(0, 0);
    assert [small][..0] == [] && [large][..0] == [];
    assert Total([small], 86_400) == Total([small][..0], 86_400) + Contribution(small, 86_400) == 1;
    assert Total([large], 86_400) == Total([large][..0], 86_400) + Contribution(large, 86_400) == 0;
    assert [small][0] == small && [large][0] == large;
  }

  // ---------- the computation ----------

  /** A vouch below either floor contributes nothing. */
  lemma NoWeight(v: Vouch, now: u64)
    requires v.stake < MIN_STAKE || AgeSecs(v, now) < MIN_AGE_SECS
    ensures Weight(v, now) == 0 && Contribution(v, now) == 0
  {
    RootUnique(0, 0);
  }

  /** Nor does one without whole units or days; any other weighs their product, up to the largest number. */
  lemma WeightOf(v: Vouch, now: u64, units: u64, days: u64)
    requires v.stake >= MIN_STAKE && AgeSecs(v, now) >= MIN_AGE_SECS
    requires units == StakeUnits(v) && days == AgeSecs(v, now) / SECS_PER_DAY
    ensures units == 0 || days == 0 ==> Weight(v, now) == 0 && Contribution(v, now) == 0
    ensures 0 <= units * days && Weight(v, now) == Min(units * days, U64_MAX)
  {
    MulNonNeg(units, days);
    RootUnique(0, 0);
  }

  /** The score of a borrower's vouches at time `now`. */
  method CalculateVouchingScore(vs: seq<Vouch>, now: u64) returns (r: Result<u32>)
    ensures r == Score(vs, now)
  {
    var total: u64 := 0;
    for i := 0 to |vs|
      invariant forall j :: 0 <= j < i ==> Weight(vs[j], now) != U64_MAX
      invariant total == Min(Total(vs[..i], now), U64_MAX)
    {
      var v := vs[i];
      assert vs[..i + 1][..i] == vs[..i];
      assert Total(vs[..i + 1], now) == Total(vs[..i], now) + Contribution(v, now);
      assert AgeSecs(v, now) == if now >= v.since then now - v.since else 0;
      assert v.stake >= 0 ==> StakeUnits(v) == v.stake / DECI_XLM % (U64_MAX + 1);
      hide Weight, Total, Root, AgeSecs, StakeUnits;
      if v.stake < MIN_STAKE {
        NoWeight(v, now);
        continue;
      }
      var ageSecs := if now >= v.since then now - v.since else 0;
      if ageSecs < MIN_AGE_SECS {
        NoWeight(v, now);
        continue;
      }
      var units: u64 := v.stake / DECI_XLM % (U64_MAX + 1);
      var days: u64 := ageSecs / SECS_PER_DAY;
      WeightOf(v, now, units, days);
      if units == 0 || days == 0 {
        continue;
      }
      var weight: u64 := if units * days > U64_MAX then U64_MAX else units * days;
      var root := SqrtU64(weight);
      if root.Err? {
        return Err(root.error);
      }
      var contribution := if root.value < SATURATION then root.value else SATURATION;
      total := if total + contribution > U64_MAX then U64_MAX else total + contribution;
    }
    assert vs[..|vs|] == vs;
    var capped := if total < SATURATION then total else SATURATION;
    var score: u32 := capped * 1000 / SATURATION;
    return Ok(if score < 1000 then score else 1000);
  }
}
