/** The stake-weighted, delegated vote on slashing a borrower. */
module SlashVote {
  import opened Host
  import opened Arith
  import opened Chains
  import opened Sequences
  import opened Vouches

  const BPS: int := 10_000
  const MAX_HOPS: nat := 10

  datatype Vote = Vote(approve: i128, reject: i128, voters: seq<Address>, executed: bool)

  datatype VoteOutcome = VoteCounted | DelegateWillVote

  const NO_VOTES := Vote(0, 0, [], false)

  predicate PositiveStakes(vs: seq<Vouch>) {
    forall i :: 0 <= i < |vs| ==> vs[i].stake > 0
  }

  // ---------- delegation ----------

  /** Follows at most `hops` delegations from `current`, stopping before an account seen already. */
  function Follow(d: Links, current: Address, visited: seq<Address>, hops: nat): Address
    decreases hops
  {
    if hops == 0 || current !in d || d[current] in visited then current
    else Follow(d, d[current], visited + [d[current]], hops - 1)
  }

  /** The account that votes for `voucher`. */
  function Resolve(d: Links, voucher: Address): Address {
    Follow(d, voucher, [voucher], MAX_HOPS)
  }

  /** After `n` steps from `start` the chain of delegates ends, or its next member was seen before. */
  ghost predicate EndsAt(d: Links, start: Address, n: nat) {
    Up(d, start, n + 1) == None || exists i :: 0 <= i <= n && Up(d, start, i) == Up(d, start, n + 1)
  }

  lemma {:induction false} FollowMeaning(d: Links, start: Address, visited: seq<Address>, k: nat) returns (n: nat)
    requires k <= MAX_HOPS && |visited| == k + 1
    requires forall i :: 0 <= i <= k ==> Up(d, start, i) == Some(visited[i])
    requires forall i, j :: 0 <= i < j <= k ==> visited[i] != visited[j]
    ensures k <= n <= MAX_HOPS && Up(d, start, n) == Some(Follow(d, visited[k], visited, MAX_HOPS - k))
    ensures forall i, j :: 0 <= i < j <= n ==> Up(d, start, i) != Up(d, start, j)
    ensures n < MAX_HOPS ==> EndsAt(d, start, n)
    decreases MAX_HOPS - k
  {
    var current := visited[k];
    if k == MAX_HOPS || current !in d {
      n := k;
    } else if d[current] in visited {
      n := k;
      var i :| 0 <= i <= k && visited[i] == d[current];
      assert Up(d, start, k + 1) == Some(d[current]);
      assert Up(d, start, i) == Up(d, start, n + 1);
    } else {
      var longer := visited + [d[current]];
      assert Up(d, start, k + 1) == Some(d[current]);
      n := FollowMeaning(d, start, longer, k + 1);
      assert Follow(d, current, visited, MAX_HOPS - k) == Follow(d, longer[k + 1], longer, MAX_HOPS - (k + 1));
    }
  }

  /** The resolved account is the last of the first ten delegates before the chain ends or meets itself. */
  lemma ResolveMeaning(d: Links, voucher: Address) returns (n: nat)
    ensures n <= MAX_HOPS && Up(d, voucher, n) == Some(Resolve(d, voucher))
    ensures forall i, j :: 0 <= i < j <= n ==> Up(d, voucher, i) != Up(d, voucher, j)
    ensures n < MAX_HOPS ==> EndsAt(d, voucher, n)
  {
    n := FollowMeaning(d, voucher, [voucher], 0);
  }

  // ---------- sums of stakes ----------

  /** The voucher has a record in `vs`. */
  predicate HasRecord(vs: seq<Vouch>, w: Address) {
    exists i :: 0 <= i < |vs| && vs[i].voucher == w
  }

  /** The stake of the vouchers that resolve to an account of `ws`. */
  function StakeEntrusted(d: Links, vs: seq<Vouch>, ws: set<Address>): int {
    if vs == [] then 0
    else StakeEntrusted(d, vs[..|vs| - 1], ws)
         + if Resolve(d, vs[|vs| - 1].voucher) in ws then vs[|vs| - 1].stake else 0
  }

  /** The stake that the votes of `ws` cast: of a voucher that votes for itself only the first record
      counts, of one that delegates all do. */
  function StakeCastBy(d: Links, vs: seq<Vouch>, ws: set<Address>): int {
    if vs == [] then 0
    else
      var front, last := vs[..|vs| - 1], vs[|vs| - 1];
      var delegate := Resolve(d, last.voucher);
      StakeCastBy(d, front, ws)
      + if delegate in ws && !(delegate == last.voucher && HasRecord(front, last.voucher)) then last.stake else 0
  }

  /** The stake of the vouchers other than `w` whose vote `w` casts. */
  function StakeDelegated(d: Links, vs: seq<Vouch>, w: Address): int {
    if vs == [] then 0
    else StakeDelegated(d, vs[..|vs| - 1], w)
         + if vs[|vs| - 1].voucher != w && Resolve(d, vs[|vs| - 1].voucher) == w then vs[|vs| - 1].stake else 0
  }

  lemma {:induction false} CastWithinTotal(d: Links, vs: seq<Vouch>, ws: set<Address>)
    requires PositiveStakes(vs)
    ensures 0 <= StakeCastBy(d, vs, ws) <= StakeSum(vs)
  {
    hide Resolve;
    if vs == [] {
    } else {
      CastWithinTotal(d, vs[..|vs| - 1], ws);
    }
  }

  lemma {:induction false} CastSplit(d: Links, vs: seq<Vouch>, xs: set<Address>, ys: set<Address>)
    requires xs * ys == {}
    ensures StakeCastBy(d, vs, xs + ys) == StakeCastBy(d, vs, xs) + StakeCastBy(d, vs, ys)
  {
    hide Resolve;
    if vs == [] {
    } else {
      CastSplit(d, vs[..|vs| - 1], xs, ys);
      var r := Resolve(d, vs[|vs| - 1].voucher);
      assert !(r in xs && r in ys) by { assert r in xs && r in ys ==> r in xs * ys; }
    }
  }

  lemma {:induction false} CastByNobody(d: Links, vs: seq<Vouch>)
    ensures StakeCastBy(d, vs, {}) == 0
  {
    if vs == [] {
    } else {
      CastByNobody(d, vs[..|vs| - 1]);
    }
  }

  lemma {:induction false} OneWithinTotal(vs: seq<Vouch>, i: nat)
    requires PositiveStakes(vs) && i < |vs|
    ensures 0 < vs[i].stake <= StakeSum(vs)
  {
    if i == |vs| - 1 {
      CastWithinTotal(map[], vs[..i], {});
    } else {
      OneWithinTotal(vs[..|vs| - 1], i);
    }
  }

  /** A voucher that votes for itself casts its first own record and everything that others delegated to it. */
  lemma {:induction false} OwnPlusDelegated(d: Links, vs: seq<Vouch>, w: Address)
    requires Resolve(d, w) == w
    ensures StakeCastBy(d, vs, {w}) == StakeDelegated(d, vs, w)
            + match IndexOf(vs, w) case Some(i) => vs[i].stake case None => 0
  {
    hide Resolve;
    if vs == [] {
    } else {
      var front, last := vs[..|vs| - 1], vs[|vs| - 1];
      OwnPlusDelegated(d, front, w);
      IndexOfAppend(front, last, w);
      assert vs == front + [last];
    }
  }

  /** The voucher has more than one record. */
  predicate HasSecondRecord(vs: seq<Vouch>, w: Address) {
    exists i, j :: 0 <= i < j < |vs| && vs[i].voucher == w && vs[j].voucher == w
  }

  /** Voters that vote for themselves cast all the stake that resolves to them exactly when none of them
      has a second record. */
  lemma {:induction false} CastsAllExactlyWhen(d: Links, vs: seq<Vouch>, ws: set<Address>)
    requires PositiveStakes(vs) && forall w :: w in ws ==> Resolve(d, w) == w
    ensures StakeCastBy(d, vs, ws) <= StakeEntrusted(d, vs, ws)
    ensures StakeCastBy(d, vs, ws) == StakeEntrusted(d, vs, ws) <==> forall w :: w in ws ==> !HasSecondRecord(vs, w)
  {
    hide Resolve;
    if vs == [] {
    } else {
      var front, last := vs[..|vs| - 1], vs[|vs| - 1];
      CastsAllExactlyWhen(d, front, ws);
      forall w ensures HasSecondRecord(vs, w) <==>
                       HasSecondRecord(front, w) || (last.voucher == w && HasRecord(front, w)) {
        SecondRecordAppend(front, last, w);
        assert vs == front + [last];
      }
      hide HasSecondRecord, HasRecord;
    }
  }

  lemma SecondRecordAppend(vs: seq<Vouch>, v: Vouch, w: Address)
    ensures HasSecondRecord(vs + [v], w) <==> HasSecondRecord(vs, w) || (v.voucher == w && HasRecord(vs, w))
  {
    var all := vs + [v];
    if i, j :| 0 <= i < j < |vs| && vs[i].voucher == w && vs[j].voucher == w {
      assert all[i].voucher == w && all[j].voucher == w;
    }
    if HasRecord(vs, w) && v.voucher == w {
      var i :| 0 <= i < |vs| && vs[i].voucher == w;
      assert all[i].voucher == w && all[|vs|].voucher == w;
    }
  }

  lemma IndexOfAppend(vs: seq<Vouch>, v: Vouch, w: Address)
    ensures IndexOf(vs + [v], w) ==
            if IndexOf(vs, w).Some? then IndexOf(vs, w) else if v.voucher == w then Some(|vs|) else None
  {
    var all := vs + [v];
    if IndexOf(vs, w).Some? {
      var i := IndexOf(vs, w).value;
      assert all[i].voucher == w && all[..i] == vs[..i];
    } else if v.voucher == w {
      assert all[|vs|].voucher == w;
    }
  }

  // ---------- the quorum ----------

  /** The test made when a vote is cast: the approving share, rounded up, reaches the quorum. */
  predicate VoteQuorum(approve: int, total: int, quorum: u32) {
    total > 0 && TruncDiv(approve * BPS + total - 1, total) >= quorum
  }

  /** The stake that executing a vote requires, with the clamps of its overflow checks. */
  function QuorumStake(total: int, quorum: u32): int {
    var scaled := if FitsI128(total * quorum) then total * quorum else I128_MAX;
    var raised := if scaled + (BPS - 1) <= I128_MAX then scaled + (BPS - 1) else I128_MAX;
    TruncDiv(raised, BPS)
  }

  predicate ExecutionQuorum(approve: int, total: int, quorum: u32) {
    approve >= QuorumStake(total, quorum)
  }

  /** The rounded-up test fires exactly when the approving stake exceeds the share one basis point below
      the quorum. */
  lemma VoteQuorumMeaning(approve: int, total: int, quorum: u32)
    requires approve >= 0 && total > 0
    ensures VoteQuorum(approve, total, quorum) <==> approve * BPS > (quorum - 1) * total
  {
    DivIsLargest(approve * BPS + total - 1, total, quorum);
    MulSub(quorum, 1, total);
  }

  lemma ExecutionQuorumMeaning(approve: int, total: int, quorum: u32)
    requires approve >= 0 && total >= 0 && total * quorum + (BPS - 1) <= I128_MAX
    ensures ExecutionQuorum(approve, total, quorum) <==> approve * BPS >= quorum * total
  {
    MulNonNeg(total, quorum);
    assert total * quorum == quorum * total;
  }

  /** The execution test implies the voting test, which falls short of it by less than one basis point
      of the total stake. */
  lemma QuorumsCompared(approve: int, total: int, quorum: u32)
    requires approve >= 0 && total > 0 && total * quorum + (BPS - 1) <= I128_MAX
    ensures ExecutionQuorum(approve, total, quorum) ==> VoteQuorum(approve, total, quorum)
    ensures VoteQuorum(approve, total, quorum) ==> quorum * total - approve * BPS < total
  {
    VoteQuorumMeaning(approve, total, quorum);
    ExecutionQuorumMeaning(approve, total, quorum);
    MulSub(quorum, 1, total);
  }

  /** Exactly when rounding up decides a vote: when the approving share is less than the quorum by less than
      one basis point. */
  lemma RoundingDecidesExactlyWhen(approve: int, total: int, quorum: u32)
    requires approve >= 0 && total > 0
    ensures (VoteQuorum(approve, total, quorum) <==> approve * BPS / total >= quorum)
       <==> !((quorum - 1) * total < approve * BPS < quorum * total)
  {
    VoteQuorumMeaning(approve, total, quorum);
    DivIsLargest(approve * BPS, total, quorum);
    MulSub(quorum, 1, total);
  }

  /** With a quorum of 6667 basis points, two of three equal stakes pass the vote although they are less
      than that share and do not pass the execution test. */
  lemma TwoOfThreePassesTheVoteOnly()
    ensures VoteQuorum(2, 3, 6_667) && !ExecutionQuorum(2, 3, 6_667) && 2 * BPS / 3 < 6_667
  {
  }

  // ---------- the transitions ----------

  /** The first record of a voucher. */
  function IndexOf(vs: seq<Vouch>, w: Address): (r: Option<nat>)
    ensures r.Some? ==> r.value < |vs| && vs[r.value].voucher == w && !HasRecord(vs[..r.value], w)
    ensures r.None? <==> !HasRecord(vs, w)
  {
    First(vs, (v: Vouch) => v.voucher == w)
  }

  /** Some recorded voter's vote is now cast by `voter`. */
  predicate HasVoted(d: Links, voters: seq<Address>, voter: Address) {
    exists i :: 0 <= i < |voters| && Resolve(d, voters[i]) == voter
  }

  /** Casting a vote, once the borrower is found slashable. */
  function Cast(d: Links, vs: seq<Vouch>, quorum: u32, record: Option<Vote>, voter: Address, approve: bool)
    : (Option<Vote>, Result<VoteOutcome>)
    requires PositiveStakes(vs)
  {
    var vote := if record.Some? then record.value else NO_VOTES;
    var total, cast := StakeSum(vs), StakeCastBy(d, vs, {voter});
    if vote.executed then (record, Err(SlashAlreadyExecuted))
    else if Resolve(d, voter) != voter then (record, Ok(DelegateWillVote))
    else if IndexOf(vs, voter).None? then (record, Err(VoucherNotFound))
    else if total > I128_MAX then (record, Err(Overflow))
    else if HasVoted(d, vote.voters, voter) then (record, Err(AlreadyVoted))
    else
      match Counted(vote, voter, approve, cast, total, quorum)
      case Err(e) => (record, Err(e))
      case Ok(counted) => (Some(counted), Ok(VoteCounted))
  }

  /** The record after `cast` stake was added on one side, with the overflow checks on the way. */
  function Counted(vote: Vote, voter: Address, approve: bool, cast: int, total: int, quorum: u32): Result<Vote> {
    var ayes := vote.approve + if approve then cast else 0;
    var noes := vote.reject + if approve then 0 else cast;
    if !FitsI128(ayes) || !FitsI128(noes) then Err(ArithmeticError)
    else if !FitsI128(ayes * BPS) || !FitsI128(ayes * BPS + total) then Err(ArithmeticError)
    else Ok(Vote(ayes, noes, vote.voters + [voter], VoteQuorum(ayes, total, quorum)))
  }

  /** Executing a vote.  The slash itself is not part of this model. */
  function Execute(vs: seq<Vouch>, quorum: u32, record: Option<Vote>): (Option<Vote>, Result<()>) {
    if record.None? then (record, Err(SlashVoteNotFound))
    else if record.value.executed then (record, Err(SlashAlreadyExecuted))
    else if StakeSum(vs) > I128_MAX then (record, Err(Overflow))
    else if !ExecutionQuorum(record.value.approve, StakeSum(vs), quorum) then (record, Err(QuorumNotMet))
    else (Some(record.value.(executed := true)), Ok(()))
  }

  // ---------- what casting a vote does ----------

  /** The stake of a voter's first record. */
  function OwnStake(vs: seq<Vouch>, w: Address): int {
    match IndexOf(vs, w) case Some(i) => vs[i].stake case None => 0
  }

  /** A vote counts, whether it approves or rejects, exactly when the slash is not executed yet, the voter
      votes for itself, has a record, no earlier voter's vote is its own now, and the sums fit.  Then its own
      and its delegated stake go to its side alone and it joins the voters; any other vote changes nothing. */
  lemma CastOutcome(d: Links, vs: seq<Vouch>, quorum: u32, record: Option<Vote>, voter: Address, approve: bool,
                    vote: Vote, ayes: int, noes: int)
    requires PositiveStakes(vs) && vote == if record.Some? then record.value else Vote(0, 0, [], false)
    requires var stake := OwnStake(vs, voter) + StakeDelegated(d, vs, voter);
             && ayes == vote.approve + (if approve then stake else 0)
             && noes == vote.reject + (if approve then 0 else stake)
    ensures var (t, r) := Cast(d, vs, quorum, record, voter, approve);
            && r == (
                 if vote.executed then Err(SlashAlreadyExecuted)
                 else if Resolve(d, voter) != voter then Ok(DelegateWillVote)
                 else if forall i :: 0 <= i < |vs| ==> vs[i].voucher != voter then Err(VoucherNotFound)
                 else if StakeSum(vs) > I128_MAX then Err(Overflow)
                 else if exists w :: w in vote.voters && Resolve(d, w) == voter then Err(AlreadyVoted)
                 else if FitsI128(ayes) && FitsI128(noes)
                         && FitsI128(10_000 * ayes) && FitsI128(10_000 * ayes + StakeSum(vs)) then Ok(VoteCounted)
                 else Err(ArithmeticError))
            && (r != Ok(VoteCounted) ==> t == record)
            && (r == Ok(VoteCounted) ==>
                  && t.Some? && t.value.approve == ayes && t.value.reject == noes
                  && t.value.voters == vote.voters + [voter]
                  && (ayes >= 0 ==> (t.value.executed <==> 10_000 * ayes > (quorum - 1) * StakeSum(vs))))
  {
    hide *;
    VoterRecord(d, vs, vote.voters, voter);
    var counted := Counted(vote, voter, approve, StakeCastBy(d, vs, {voter}), StakeSum(vs), quorum);
    CastCases(d, vs, quorum, record, voter, approve, vote, counted);
    if Resolve(d, voter) == voter {
      CountedOutcome(vote, voter, approve, StakeCastBy(d, vs, {voter}), StakeSum(vs), quorum, ayes, noes);
    }
  }

  lemma CastCases(d: Links, vs: seq<Vouch>, quorum: u32, record: Option<Vote>, voter: Address, approve: bool,
                  vote: Vote, counted: Result<Vote>)
    requires PositiveStakes(vs) && vote == if record.Some? then record.value else Vote(0, 0, [], false)
    requires counted == Counted(vote, voter, approve, StakeCastBy(d, vs, {voter}), StakeSum(vs), quorum)
    ensures Cast(d, vs, quorum, record, voter, approve) ==
            if vote.executed then (record, Err(SlashAlreadyExecuted))
            else if Resolve(d, voter) != voter then (record, Ok(DelegateWillVote))
            else if IndexOf(vs, voter).None? then (record, Err(VoucherNotFound))
            else if StakeSum(vs) > I128_MAX then (record, Err(Overflow))
            else if HasVoted(d, vote.voters, voter) then (record, Err(AlreadyVoted))
            else if counted.Err? then (record, Err(counted.error))
            else (Some(counted.value), Ok(VoteCounted))
  {
    hide Resolve, StakeCastBy, StakeSum, IndexOf, Counted, HasVoted, HasRecord;
  }

  /** What is looked up for a voter: whether it has a record and its vote was cast, and what it casts. */
  lemma VoterRecord(d: Links, vs: seq<Vouch>, voters: seq<Address>, w: Address)
    requires PositiveStakes(vs)
    ensures IndexOf(vs, w).None? <==> forall i :: 0 <= i < |vs| ==> vs[i].voucher != w
    ensures IndexOf(vs, w).Some? ==> StakeSum(vs) > 0
    ensures HasVoted(d, voters, w) <==> exists v :: v in voters && Resolve(d, v) == w
    ensures Resolve(d, w) == w ==> StakeCastBy(d, vs, {w}) == OwnStake(vs, w) + StakeDelegated(d, vs, w)
  {
    hide Resolve;
    if IndexOf(vs, w).Some? {
      OneWithinTotal(vs, IndexOf(vs, w).value);
    }
    if Resolve(d, w) == w {
      OwnPlusDelegated(d, vs, w);
    }
  }

  lemma CountedOutcome(vote: Vote, voter: Address, approve: bool, stake: int, total: int, quorum: u32,
                       ayes: int, noes: int)
    requires ayes == vote.approve + if approve then stake else 0
    requires noes == vote.reject + if approve then 0 else stake
    ensures var r := Counted(vote, voter, approve, stake, total, quorum);
            && (r.Err? ==> r.error == ArithmeticError)
            && (r.Ok? <==> FitsI128(ayes) && FitsI128(noes)
                           && FitsI128(10_000 * ayes) && FitsI128(10_000 * ayes + total))
            && (r.Ok? ==>
                  && r.value.approve == ayes && r.value.reject == noes && r.value.voters == vote.voters + [voter]
                  && (ayes >= 0 && total > 0 ==> (r.value.executed <==> 10_000 * ayes > (quorum - 1) * total)))
  {
    if ayes >= 0 && total > 0 {
      VoteQuorumMeaning(ayes, total, quorum);
    }
    hide VoteQuorum;
  }

  /** Executing a vote succeeds exactly once, with approving stake that reaches the quorum's share of all
      stake, while that product fits; it only marks the vote. */
  lemma ExecuteOutcome(vs: seq<Vouch>, quorum: u32, record: Option<Vote>)
    requires PositiveStakes(vs) && (record.Some? ==> record.value.approve >= 0)
    ensures var (t, r) := Execute(vs, quorum, record);
            && (record == None ==> r == Err(SlashVoteNotFound))
            && (record.Some? && record.value.executed ==> r == Err(SlashAlreadyExecuted))
            && (record.Some? && !record.value.executed && StakeSum(vs) > I128_MAX ==> r == Err(Overflow))
            && (record.Some? && !record.value.executed && StakeSum(vs) * quorum + 9_999 <= I128_MAX
                && StakeSum(vs) <= I128_MAX ==>
                  r == if 10_000 * (record.value.approve as int) >= quorum * StakeSum(vs) then Ok(())
                       else Err(QuorumNotMet))
            && t == if r.Ok? then Some(record.value.(executed := true)) else record
  {
    CastWithinTotal(map[], vs, {});
    if record.Some? && StakeSum(vs) * quorum + 9_999 <= I128_MAX {
      ExecutionQuorumMeaning(record.value.approve, StakeSum(vs), quorum);
    }
    hide ExecutionQuorum, StakeSum, StakeCastBy;
  }

  // ---------- runs with vouches and quorum fixed ----------

  /** A vote is cast under the delegations of the time: they may change between votes. */
  datatype Op = DoVote(delegations: Links, voter: Address, approve: bool) | DoExecute

  function Step(vs: seq<Vouch>, quorum: u32, record: Option<Vote>, op: Op): Option<Vote>
    requires PositiveStakes(vs)
  {
    match op
    case DoVote(d, voter, approve) => Cast(d, vs, quorum, record, voter, approve).0
    case DoExecute => Execute(vs, quorum, record).0
  }

  function Run(vs: seq<Vouch>, quorum: u32, record: Option<Vote>, ops: seq<Op>): Option<Vote>
    requires PositiveStakes(vs)
    decreases |ops|
  {
    if ops == [] then record else Run(vs, quorum, Step(vs, quorum, record, ops[0]), ops[1..])
  }

  /** A vote that was counted, with the delegations under which it was. */
  datatype Ballot = Ballot(delegations: Links, voter: Address, approve: bool)

  function BallotOf(vs: seq<Vouch>, quorum: u32, record: Option<Vote>, op: Op): seq<Ballot>
    requires PositiveStakes(vs)
  {
    match op
    case DoVote(d, voter, approve) =>
      if Cast(d, vs, quorum, record, voter, approve).1 == Ok(VoteCounted) then [Ballot(d, voter, approve)] else []
    case DoExecute => []
  }

  /** The votes of a run that were counted, in order. */
  function Ballots(vs: seq<Vouch>, quorum: u32, record: Option<Vote>, ops: seq<Op>): seq<Ballot>
    requires PositiveStakes(vs)
    decreases |ops|
  {
    if ops == [] then []
    else BallotOf(vs, quorum, record, ops[0]) + Ballots(vs, quorum, Step(vs, quorum, record, ops[0]), ops[1..])
  }

  function VotersOf(bs: seq<Ballot>): seq<Address> {
    seq(|bs|, i requires 0 <= i < |bs| => bs[i].voter)
  }

  /** The stake that a vote casts. */
  function Weight(vs: seq<Vouch>, b: Ballot): int {
    StakeCastBy(b.delegations, vs, {b.voter})
  }

  /** What the votes on one side cast, each at its time. */
  function SideSum(vs: seq<Vouch>, bs: seq<Ballot>, approve: bool): int {
    if bs == [] then 0
    else SideSum(vs, bs[..|bs| - 1], approve)
         + if bs[|bs| - 1].approve == approve then Weight(vs, bs[|bs| - 1]) else 0
  }

  /** Each voter votes for itself, has a record, and no voter before it resolved to it. */
  predicate ProperBallots(vs: seq<Vouch>, bs: seq<Ballot>) {
    && (forall i :: 0 <= i < |bs| ==> Resolve(bs[i].delegations, bs[i].voter) == bs[i].voter
                                      && IndexOf(vs, bs[i].voter).Some?)
    && (forall i, j :: 0 <= i < j < |bs| ==> Resolve(bs[j].delegations, bs[i].voter) != bs[j].voter)
  }

  /** The record is that of the votes counted so far. */
  predicate Tallied(vs: seq<Vouch>, vote: Vote, bs: seq<Ballot>) {
    && ProperBallots(vs, bs) && vote.voters == VotersOf(bs)
    && vote.approve == SideSum(vs, bs, true) && vote.reject == SideSum(vs, bs, false)
  }

  /** A vote that did not execute the slash was below the voting quorum, with sums that fit the type. */
  predicate BelowQuorum(vs: seq<Vouch>, quorum: u32, vote: Vote) {
    && vote.voters != []
    && vote.approve * BPS + StakeSum(vs) <= I128_MAX
    && (vote.executed <==> VoteQuorum(vote.approve, StakeSum(vs), quorum))
  }

  function VoteOr(record: Option<Vote>): Vote {
    if record.Some? then record.value else NO_VOTES
  }

  lemma CastKeepsTally(
    d: Links, vs: seq<Vouch>, quorum: u32, record: Option<Vote>, voter: Address, approve: bool, bs: seq<Ballot>)
    requires PositiveStakes(vs) && Tallied(vs, VoteOr(record), bs)
    requires Cast(d, vs, quorum, record, voter, approve).1 == Ok(VoteCounted)
    ensures var vote := Cast(d, vs, quorum, record, voter, approve).0.value;
            Tallied(vs, vote, bs + [Ballot(d, voter, approve)]) && BelowQuorum(vs, quorum, vote)
  {
    hide Resolve, StakeCastBy, IndexOf, VoteQuorum, StakeSum, PositiveStakes;
    var b := Ballot(d, voter, approve);
    SideSumAppend(vs, bs, b, true);
    SideSumAppend(vs, bs, b, false);
    hide SideSum;
    ProperAppend(vs, bs, b);
    assert VotersOf(bs + [b]) == VotersOf(bs) + [voter];
    hide ProperBallots, HasVoted, VotersOf;
  }

  lemma SideSumAppend(vs: seq<Vouch>, bs: seq<Ballot>, b: Ballot, approve: bool)
    ensures SideSum(vs, bs + [b], approve)
         == SideSum(vs, bs, approve) + if b.approve == approve then Weight(vs, b) else 0
  {
    hide Weight;
    assert (bs + [b])[..|bs|] == bs;
  }

  lemma ProperAppend(vs: seq<Vouch>, bs: seq<Ballot>, b: Ballot)
    requires ProperBallots(vs, bs) && Resolve(b.delegations, b.voter) == b.voter && IndexOf(vs, b.voter).Some?
    requires !HasVoted(b.delegations, VotersOf(bs), b.voter)
    ensures ProperBallots(vs, bs + [b])
  {
    hide Resolve, IndexOf;
    forall i | 0 <= i < |bs| ensures Resolve(b.delegations, bs[i].voter) != b.voter {
      assert VotersOf(bs)[i] == bs[i].voter;
    }
  }

  lemma {:induction false} SideSumNonNegative(vs: seq<Vouch>, bs: seq<Ballot>, approve: bool)
    requires PositiveStakes(vs)
    ensures SideSum(vs, bs, approve) >= 0
  {
    if bs == [] {
    } else {
      SideSumNonNegative(vs, bs[..|bs| - 1], approve);
      CastWithinTotal(bs[|bs| - 1].delegations, vs, {bs[|bs| - 1].voter});
    }
  }

  /** With positive stakes and a voter on record, the total is positive and executing is out of reach
      below the voting quorum. */
  lemma ExecutionOutOfReach(vs: seq<Vouch>, quorum: u32, vote: Vote, bs: seq<Ballot>)
    requires PositiveStakes(vs) && quorum <= BPS && Tallied(vs, vote, bs) && BelowQuorum(vs, quorum, vote)
    ensures Execute(vs, quorum, Some(vote)).1.Err?
  {
    hide Resolve, StakeCastBy;
    var total := StakeSum(vs);
    assert vote.voters[0] == bs[0].voter;
    OneWithinTotal(vs, IndexOf(vs, bs[0].voter).value);
    SideSumNonNegative(vs, bs, true);
    hide IndexOf, Tallied, StakeSum;
    MulMono(quorum, BPS, total);
    MulNonNeg(total, quorum);
    if total * quorum + (BPS - 1) <= I128_MAX {
      QuorumsCompared(vote.approve, total, quorum);
    }
  }

  lemma StepKeeps(vs: seq<Vouch>, quorum: u32, record: Option<Vote>, op: Op, bs: seq<Ballot>)
    requires PositiveStakes(vs) && quorum <= BPS && Tallied(vs, VoteOr(record), bs)
    requires record.Some? ==> BelowQuorum(vs, quorum, record.value)
    ensures var record' := Step(vs, quorum, record, op);
            && Tallied(vs, VoteOr(record'), bs + BallotOf(vs, quorum, record, op))
            && (record'.Some? ==> BelowQuorum(vs, quorum, record'.value))
    ensures op.DoExecute? ==> Execute(vs, quorum, record).1.Err?
  {
    hide Tallied, BelowQuorum, StakeCastBy, Resolve, HasVoted, StakeSum, Counted, IndexOf;
    assert bs + [] == bs;
    match op
    case DoVote(d, voter, approve) =>
      if Cast(d, vs, quorum, record, voter, approve).1 == Ok(VoteCounted) {
        CastKeepsTally(d, vs, quorum, record, voter, approve, bs);
      }
    case DoExecute =>
      if record.Some? {
        ExecutionOutOfReach(vs, quorum, record.value, bs);
      }
  }

  lemma {:induction false} RunKeeps(vs: seq<Vouch>, quorum: u32, record: Option<Vote>, ops: seq<Op>, bs: seq<Ballot>)
    requires PositiveStakes(vs) && quorum <= BPS && Tallied(vs, VoteOr(record), bs)
    requires record.Some? ==> BelowQuorum(vs, quorum, record.value)
    ensures var record' := Run(vs, quorum, record, ops);
            && Tallied(vs, VoteOr(record'), bs + Ballots(vs, quorum, record, ops))
            && (record'.Some? ==> BelowQuorum(vs, quorum, record'.value))
    decreases |ops|
  {
    hide Tallied, BelowQuorum, PositiveStakes, VoteOr;
    if ops == [] {
      assert bs + [] == bs;
    } else {
      StepKeeps(vs, quorum, record, ops[0], bs);
      hide Step, BallotOf;
      var first, t := BallotOf(vs, quorum, record, ops[0]), Step(vs, quorum, record, ops[0]);
      RunKeeps(vs, quorum, t, ops[1..], bs + first);
      assert bs + first + Ballots(vs, quorum, t, ops[1..]) == bs + (first + Ballots(vs, quorum, t, ops[1..]));
    }
  }

  lemma RunTallied(vs: seq<Vouch>, quorum: u32, ops: seq<Op>)
    requires PositiveStakes(vs) && quorum <= BPS
    ensures var record := Run(vs, quorum, None, ops);
            && Tallied(vs, VoteOr(record), Ballots(vs, quorum, None, ops))
            && (record.Some? ==> BelowQuorum(vs, quorum, record.value))
  {
    hide Run, Ballots;
    RunKeeps(vs, quorum, None, ops, []);
    assert [] + Ballots(vs, quorum, None, ops) == Ballots(vs, quorum, None, ops);
  }

  // ---------- how often a record counts ----------

  /** The vote casts record `i`. */
  predicate Casts(vs: seq<Vouch>, b: Ballot, i: nat)
    requires i < |vs|
  {
    var w := vs[i].voucher;
    Resolve(b.delegations, w) == b.voter && !(Resolve(b.delegations, w) == w && HasRecord(vs[..i], w))
  }

  /** The number of votes that cast record `i`. */
  function TimesCast(vs: seq<Vouch>, bs: seq<Ballot>, i: nat): nat
    requires i < |vs|
  {
    if bs == [] then 0
    else TimesCast(vs, bs[..|bs| - 1], i) + if Casts(vs, bs[|bs| - 1], i) then 1 else 0
  }

  /** The stakes of the first `n` records, each as often as it was cast. */
  function SumOfTimes(vs: seq<Vouch>, bs: seq<Ballot>, n: nat): int
    requires n <= |vs|
  {
    if n == 0 then 0 else SumOfTimes(vs, bs, n - 1) + vs[n - 1].stake * TimesCast(vs, bs, n - 1)
  }

  /** The stakes of the first `n` records that were cast at all. */
  function SumOfCast(vs: seq<Vouch>, bs: seq<Ballot>, n: nat): int
    requires n <= |vs|
  {
    if n == 0 then 0
    else SumOfCast(vs, bs, n - 1) + if TimesCast(vs, bs, n - 1) > 0 then vs[n - 1].stake else 0
  }

  lemma {:induction false} WeightIsSum(vs: seq<Vouch>, bs: seq<Ballot>, b: Ballot, n: nat)
    requires n <= |vs|
    ensures SumOfTimes(vs, bs + [b], n) == SumOfTimes(vs, bs, n) + StakeCastBy(b.delegations, vs[..n], {b.voter})
  {
    hide Resolve, HasRecord;
    if n == 0 {
    } else {
      WeightIsSum(vs, bs, b, n - 1);
      assert (bs + [b])[..|bs|] == bs;
      assert vs[..n][..n - 1] == vs[..n - 1];
      MulAdd(TimesCast(vs, bs, n - 1), 1, vs[n - 1].stake);
    }
  }

  lemma {:induction false} SidesAreSum(vs: seq<Vouch>, bs: seq<Ballot>)
    ensures SideSum(vs, bs, true) + SideSum(vs, bs, false) == SumOfTimes(vs, bs, |vs|)
  {
    if bs == [] {
      NothingCast(vs, |vs|);
    } else {
      var front, b := bs[..|bs| - 1], bs[|bs| - 1];
      SidesAreSum(vs, front);
      WeightIsSum(vs, front, b, |vs|);
      hide SumOfTimes, StakeCastBy;
      assert front + [b] == bs && vs[..|vs|] == vs;
    }
  }

  lemma {:induction false} NothingCast(vs: seq<Vouch>, n: nat)
    requires n <= |vs|
    ensures SumOfTimes(vs, [], n) == 0
  {
    if n == 0 {
    } else {
      NothingCast(vs, n - 1);
    }
  }

  /** No record is cast by two votes: no voucher resolved to two voters at the times they voted. */
  predicate NoneCastTwice(vs: seq<Vouch>, bs: seq<Ballot>) {
    forall i, j, k :: 0 <= i < |vs| && 0 <= j < k < |bs| ==> !(Casts(vs, bs[j], i) && Casts(vs, bs[k], i))
  }

  lemma {:induction false} TimesMeaning(vs: seq<Vouch>, bs: seq<Ballot>, i: nat)
    requires i < |vs|
    ensures TimesCast(vs, bs, i) > 0 <==> exists j :: 0 <= j < |bs| && Casts(vs, bs[j], i)
    ensures TimesCast(vs, bs, i) > 1 <==> exists j, k :: 0 <= j < k < |bs| && Casts(vs, bs[j], i) && Casts(vs, bs[k], i)
  {
    hide Casts;
    if bs == [] {
    } else {
      var n := |bs| - 1;
      var front := bs[..n];
      TimesMeaning(vs, front, i);
      if TimesCast(vs, front, i) > 1 {
        var j, k :| 0 <= j < k < n && Casts(vs, front[j], i) && Casts(vs, front[k], i);
        assert Casts(vs, bs[j], i) && Casts(vs, bs[k], i);
      } else if TimesCast(vs, front, i) > 0 {
        var j :| 0 <= j < n && Casts(vs, front[j], i);
        assert Casts(vs, bs[j], i);
      }
      if j, k :| 0 <= j < k < n && Casts(vs, bs[j], i) && Casts(vs, bs[k], i) {
        assert Casts(vs, front[j], i) && Casts(vs, front[k], i);
      }
      if j :| 0 <= j < n && Casts(vs, bs[j], i) {
        assert Casts(vs, front[j], i);
      }
    }
  }

  lemma {:induction false} CastOnceExactlyWhen(vs: seq<Vouch>, bs: seq<Ballot>, n: nat)
    requires PositiveStakes(vs) && n <= |vs|
    ensures SumOfCast(vs, bs, n) <= SumOfTimes(vs, bs, n) && SumOfCast(vs, bs, n) <= StakeSum(vs[..n])
    ensures SumOfCast(vs, bs, n) == SumOfTimes(vs, bs, n) <==> forall i :: 0 <= i < n ==> TimesCast(vs, bs, i) <= 1
  {
    hide TimesCast;
    if n == 0 {
    } else {
      CastOnceExactlyWhen(vs, bs, n - 1);
      assert vs[..n][..n - 1] == vs[..n - 1];
      assert vs[n - 1].stake > 0;
      OnceOrMore(vs[n - 1].stake, TimesCast(vs, bs, n - 1));
      assert (forall i :: 0 <= i < n ==> TimesCast(vs, bs, i) <= 1)
        <==> (forall i :: 0 <= i < n - 1 ==> TimesCast(vs, bs, i) <= 1) && TimesCast(vs, bs, n - 1) <= 1;
    }
  }

  lemma OnceOrMore(stake: int, times: nat)
    requires stake > 0
    ensures var once := if times > 0 then stake else 0;
            once <= stake * times && (once == stake * times <==> times <= 1)
  {
    if times > 1 {
      MulMono(2, times, stake);
    }
  }

  // ---------- the main results ----------

  /** After any sequence of votes, under delegations that may change in between, each side of the record is
      the sum of what its voters cast at their times, and the vote is executed exactly when its quorum test
      passes.  Every record counts once at most, so that the sides together are the stake of the records
      cast and within the total, if and only if no voucher resolved to two voters at the times they voted. */
  lemma TallyIsExact(vs: seq<Vouch>, quorum: u32, ops: seq<Op>)
    requires PositiveStakes(vs) && quorum <= BPS && Run(vs, quorum, None, ops).Some?
    ensures var vote, bs := Run(vs, quorum, None, ops).value, Ballots(vs, quorum, None, ops);
            && vote.voters == VotersOf(bs) && ProperBallots(vs, bs)
            && vote.approve == SideSum(vs, bs, true) && vote.reject == SideSum(vs, bs, false)
            && (vote.executed <==> VoteQuorum(vote.approve, StakeSum(vs), quorum))
            && SumOfCast(vs, bs, |vs|) <= vote.approve + vote.reject && SumOfCast(vs, bs, |vs|) <= StakeSum(vs)
            && (vote.approve + vote.reject == SumOfCast(vs, bs, |vs|) <==> NoneCastTwice(vs, bs))
  {
    RunTallied(vs, quorum, ops);
    var bs := Ballots(vs, quorum, None, ops);
    hide Run, Ballots, ProperBallots, VoteQuorum, NoneCastTwice, SideSum, SumOfCast, SumOfTimes, StakeSum;
    SidesAreSum(vs, bs);
    TwiceMeaning(vs, bs);
    hide TimesCast;
    CastOnceExactlyWhen(vs, bs, |vs|);
    assert vs[..|vs|] == vs;
  }

  lemma TwiceMeaning(vs: seq<Vouch>, bs: seq<Ballot>)
    ensures NoneCastTwice(vs, bs) <==> forall i :: 0 <= i < |vs| ==> TimesCast(vs, bs, i) <= 1
  {
    hide Casts, TimesCast;
    if NoneCastTwice(vs, bs) {
      forall i | 0 <= i < |vs| ensures TimesCast(vs, bs, i) <= 1 {
        TimesMeaning(vs, bs, i);
      }
    } else {
      var i, j, k :| 0 <= i < |vs| && 0 <= j < k < |bs| && Casts(vs, bs[j], i) && Casts(vs, bs[k], i);
      TimesMeaning(vs, bs, i);
      assert TimesCast(vs, bs, i) > 1;
    }
  }

  function SetOf(s: seq<Address>): set<Address> {
    set v | v in s
  }

  function SideOf(bs: seq<Ballot>, approve: bool): set<Address> {
    set i | 0 <= i < |bs| && bs[i].approve == approve :: bs[i].voter
  }

  lemma {:induction false} SideSumUnder(d: Links, vs: seq<Vouch>, bs: seq<Ballot>, approve: bool)
    requires ProperBallots(vs, bs) && forall i :: 0 <= i < |bs| ==> bs[i].delegations == d
    ensures SideSum(vs, bs, approve) == StakeCastBy(d, vs, SideOf(bs, approve))
  {
    hide Resolve, IndexOf, StakeCastBy;
    if bs == [] {
      CastByNobody(d, vs);
      assert SideOf(bs, approve) == {};
    } else {
      var front, b := bs[..|bs| - 1], bs[|bs| - 1];
      SideSumUnder(d, vs, front, approve);
      if b.approve == approve {
        assert SideOf(bs, approve) == SideOf(front, approve) + {b.voter};
        assert forall i :: 0 <= i < |front| ==> front[i].voter != b.voter;
        CastSplit(d, vs, SideOf(front, approve), {b.voter});
      } else {
        assert SideOf(bs, approve) == SideOf(front, approve);
      }
    }
  }

  /** While delegations stay the same, the recorded stakes are those that the recorded voters cast, on one
      side each; together they never exceed the total stake.  They are all the stake that resolves to the
      recorded voters if and only if none of these has a second record. */
  lemma TallyUnderFixedDelegations(d: Links, vs: seq<Vouch>, quorum: u32, ops: seq<Op>)
    returns (ayes: set<Address>, noes: set<Address>)
    requires PositiveStakes(vs) && quorum <= BPS && Run(vs, quorum, None, ops).Some?
    requires forall i :: 0 <= i < |ops| && ops[i].DoVote? ==> ops[i].delegations == d
    ensures var vote := Run(vs, quorum, None, ops).value;
            var voters := SetOf(vote.voters);
            && ayes + noes == voters && ayes * noes == {}
            && vote.approve == StakeCastBy(d, vs, ayes) && vote.reject == StakeCastBy(d, vs, noes)
            && vote.approve + vote.reject == StakeCastBy(d, vs, voters) <= StakeSum(vs)
            && (vote.approve + vote.reject == StakeEntrusted(d, vs, voters) <==>
                forall w :: w in voters ==> !HasSecondRecord(vs, w))
  {
    var bs := Ballots(vs, quorum, None, ops);
    RunTallied(vs, quorum, ops);
    BallotsUnder(d, vs, quorum, None, ops);
    hide Run, Ballots, Resolve, IndexOf, StakeCastBy, StakeEntrusted, HasSecondRecord;
    ayes, noes := SideOf(bs, true), SideOf(bs, false);
    SideSumUnder(d, vs, bs, true);
    SideSumUnder(d, vs, bs, false);
    SidesOfBallots(vs, bs);
    CastSplit(d, vs, ayes, noes);
    CastWithinTotal(d, vs, ayes + noes);
    CastsAllExactlyWhen(d, vs, ayes + noes);
  }

  lemma SidesOfBallots(vs: seq<Vouch>, bs: seq<Ballot>)
    requires ProperBallots(vs, bs)
    requires forall i, j :: 0 <= i < |bs| && 0 <= j < |bs| ==> bs[i].delegations == bs[j].delegations
    ensures SideOf(bs, true) + SideOf(bs, false) == SetOf(VotersOf(bs))
    ensures SideOf(bs, true) * SideOf(bs, false) == {}
  {
    hide Resolve, IndexOf;
    forall w ensures w in SetOf(VotersOf(bs)) <==> w in SideOf(bs, true) + SideOf(bs, false) {
      if w in SetOf(VotersOf(bs)) {
        var i :| 0 <= i < |bs| && VotersOf(bs)[i] == w;
        assert bs[i].voter == w;
      }
      if i :| 0 <= i < |bs| && bs[i].voter == w {
        assert VotersOf(bs)[i] == w;
      }
    }
  }

  lemma {:induction false} BallotsUnder(d: Links, vs: seq<Vouch>, quorum: u32, record: Option<Vote>, ops: seq<Op>)
    requires PositiveStakes(vs) && forall i :: 0 <= i < |ops| && ops[i].DoVote? ==> ops[i].delegations == d
    ensures var bs := Ballots(vs, quorum, record, ops); forall i :: 0 <= i < |bs| ==> bs[i].delegations == d
    decreases |ops|
  {
    hide PositiveStakes, Cast, Step;
    if ops == [] {
    } else {
      var first, t := BallotOf(vs, quorum, record, ops[0]), Step(vs, quorum, record, ops[0]);
      BallotsUnder(d, vs, quorum, t, ops[1..]);
      assert ops[0].DoVote? ==> ops[0].delegations == d;
      assert forall i :: 0 <= i < |first| ==> first[i].delegations == d;
      hide BallotOf;
      assert Ballots(vs, quorum, record, ops) == first + Ballots(vs, quorum, t, ops[1..]);
    }
  }

  /** A voucher with records in two tokens casts only the first, while both count towards the total: even
      alone it may not reach the quorum. */
  lemma SecondRecordNotCast(voucher: Address, token: Address, other: Address)
    requires token != other
    ensures var vs := [Vouch(voucher, token, 1), Vouch(voucher, other, 9)];
            var (record, r) := Cast(map[], vs, 6_667, None, voucher, true);
            && r == Ok(VoteCounted) && record == Some(Vote(1, 0, [voucher], false))
            && StakeEntrusted(map[], vs, {voucher}) == StakeSum(vs) == 10
  {
    var first, second := Vouch(voucher, token, 1), Vouch(voucher, other, 9);
    var vs := [first, second];
    assert vs[..1] == [first] && vs[..1][..0] == [];
    assert Resolve(map[], voucher) == voucher;
    assert HasRecord([first], voucher) by { assert [first][0].voucher == voucher; }
    assert !HasRecord([], voucher);
    assert StakeSum(vs[..1]) == 1 && StakeCastBy(map[], vs[..1], {voucher}) == 1;
    assert StakeEntrusted(map[], vs[..1], {voucher}) == 1;
    assert StakeSum(vs) == 10 && StakeCastBy(map[], vs, {voucher}) == 1;
    assert !VoteQuorum(1, 10, 6_667);
    assert IndexOf(vs, voucher).Some? && !HasVoted(map[], [], voucher);
    assert NO_VOTES.voters + [voucher] == [voucher];
    assert Counted(NO_VOTES, voucher, true, 1, 10, 6_667) == Ok(Vote(1, 0, [voucher], false));
  }

  lemma StakeCastAppend(d: Links, vs: seq<Vouch>, v: Vouch, w: Address)
    requires !HasRecord(vs, v.voucher)
    ensures StakeCastBy(d, vs + [v], {w}) == StakeCastBy(d, vs, {w}) + if Resolve(d, v.voucher) == w then v.stake else 0
    ensures StakeSum(vs + [v]) == StakeSum(vs) + v.stake
  {
    hide Resolve;
    assert (vs + [v])[..|vs|] == vs;
  }

  /** Four vouchers, of which the first one's stake can move between the second and the third. */
  function FourVouches(token: Address): seq<Vouch> {
    [Vouch(Account(0), token, 3), Vouch(Account(1), token, 1), Vouch(Account(2), token, 1), Vouch(Account(3), token, 5)]
  }

  lemma ResolveOne(from: Address, to: Address, other: Address)
    requires from != to && other != from
    ensures Resolve(map[from := to], from) == to && Resolve(map[from := to], other) == other
  {
    var d := map[from := to];
    assert Follow(d, to, [from] + [to], MAX_HOPS - 1) == to;
    assert Follow(d, other, [other], MAX_HOPS) == other;
  }

  lemma FourVouchesCast(token: Address, to: nat)
    requires to == 1 || to == 2
    ensures StakeCastBy(map[Account(0) := Account(to)], FourVouches(token), {Account(to)}) == 4
    ensures StakeSum(FourVouches(token)) == 10
  {
    var d, vs, w := map[Account(0) := Account(to)], FourVouches(token), Account(to);
    ResolveOne(Account(0), w, Account(1));
    ResolveOne(Account(0), w, Account(2));
    ResolveOne(Account(0), w, Account(3));
    var one, two, three := [vs[0]], [vs[0], vs[1]], [vs[0], vs[1], vs[2]];
    assert [] + [vs[0]] == one && one + [vs[1]] == two && two + [vs[2]] == three && three + [vs[3]] == vs;
    hide Resolve;
    assert StakeCastBy(d, [], {w}) == 0 && StakeSum([]) == 0;
    hide StakeCastBy, StakeSum;
    StakeCastAppend(d, [], vs[0], w);
    StakeCastAppend(d, one, vs[1], w);
    StakeCastAppend(d, two, vs[2], w);
    StakeCastAppend(d, three, vs[3], w);
  }

  /** A stake that is delegated anew between two votes counts in both: with half of the stake behind them,
      two vouchers pass a vote with a quorum of two thirds. */
  lemma RedelegatedStakeCountsTwice(token: Address)
    ensures var first := DoVote(map[Account(0) := Account(1)], Account(1), true);
            var second := DoVote(map[Account(0) := Account(2)], Account(2), true);
            && Run(FourVouches(token), 6_667, None, [first, second]) == Some(Vote(8, 0, [Account(1), Account(2)], true))
            && StakeSum(FourVouches(token)) == 10
  {
    var vs := FourVouches(token);
    var first := DoVote(map[Account(0) := Account(1)], Account(1), true);
    var second := DoVote(map[Account(0) := Account(2)], Account(2), true);
    FourVouchesCast(token, 1);
    FourVouchesCast(token, 2);
    ResolveOne(Account(0), Account(1), Account(1));
    ResolveOne(Account(0), Account(2), Account(2));
    ResolveOne(Account(0), Account(2), Account(1));
    assert vs[1].voucher == Account(1) && vs[2].voucher == Account(2);
    assert IndexOf(vs, Account(1)).Some? && IndexOf(vs, Account(2)).Some?;
    hide Resolve, StakeCastBy, StakeSum, IndexOf;
    var one, two := Vote(4, 0, [Account(1)], false), Vote(8, 0, [Account(1), Account(2)], true);
    assert !HasVoted(first.delegations, [], Account(1)) && [] + [Account(1)] == [Account(1)];
    assert Step(vs, 6_667, None, first) == Some(one);
    assert !HasVoted(second.delegations, [Account(1)], Account(2));
    assert [Account(1)] + [Account(2)] == [Account(1), Account(2)];
    assert Step(vs, 6_667, Some(one), second) == Some(two);
    assert [first, second][1..] == [second] && [second][1..] == [];
    assert Run(vs, 6_667, Some(one), [second]) == Some(two);
  }

  /** While vouches and quorum stay the same, executing a vote never succeeds, however delegations change:
      whenever its test would pass, the vote that got there has already been marked executed. */
  lemma ExecuteNeverSucceeds(vs: seq<Vouch>, quorum: u32, ops: seq<Op>)
    requires PositiveStakes(vs) && quorum <= BPS
    ensures Execute(vs, quorum, Run(vs, quorum, None, ops)).1.Err?
  {
    RunTallied(vs, quorum, ops);
    var record := Run(vs, quorum, None, ops);
    hide Run, Tallied, BelowQuorum;
    if record.Some? {
      ExecutionOutOfReach(vs, quorum, record.value, Ballots(vs, quorum, None, ops));
    }
  }

  // ---------- the contract ----------

  class SlashVoting {
    var delegations: Links
    var vouches: map<Address, seq<Vouch>>
    var votes: map<Address, Vote>
    var quorum: u32

    ghost function RecordOf(borrower: Address): Option<Vote>
      reads this
    {
      if borrower in votes then Some(votes[borrower]) else None
    }

    function VouchesOf(borrower: Address): seq<Vouch>
      reads this
    {
      if borrower in vouches then vouches[borrower] else []
    }

    constructor (quorum: u32)
      ensures this.quorum == quorum && delegations == map[] && vouches == map[] && votes == map[]
    {
      this.quorum := quorum;
      delegations, vouches, votes := map[], map[], map[];
    }

    /** Follows the chain of delegations, ten hops at most. */
    method ResolveVoteDelegation(voucher: Address) returns (current: Address)
      ensures current == Resolve(delegations, voucher)
    {
      current := voucher;
      var visited := [voucher];
      for hop := 0 to MAX_HOPS
        invariant Resolve(delegations, voucher) == Follow(delegations, current, visited, MAX_HOPS - hop)
      {
        if current !in delegations {
          return;
        }
        var delegate := delegations[current];
        if delegate in visited {
          return;
        }
        current := delegate;
        visited := visited + [current];
      }
    }

    /** The total stake, and the stake that `voter` casts: its own and what was delegated to it. */
    method CountStakes(vs: seq<Vouch>, voter: Address, own: nat) returns (total: int, effective: int)
      requires PositiveStakes(vs) && IndexOf(vs, voter) == Some(own) && Resolve(delegations, voter) == voter
      ensures total == StakeSum(vs) && effective == StakeCastBy(delegations, vs, {voter})
      ensures 0 <= effective <= total
    {
      total, effective := 0, vs[own].stake;
      for i := 0 to |vs|
        invariant total == StakeSum(vs[..i])
        invariant effective == vs[own].stake + StakeDelegated(delegations, vs[..i], voter)
      {
        assert vs[..i + 1][..i] == vs[..i];
        var v := vs[i];
        var resolved := ResolveVoteDelegation(v.voucher);
        if resolved == v.voucher {
          total := total + v.stake;
        } else if resolved == voter {
          effective := effective + v.stake;
          total := total + v.stake;
        } else {
          total := total + v.stake;
        }
      }
      assert vs[..|vs|] == vs;
      OwnPlusDelegated(delegations, vs, voter);
      CastWithinTotal(delegations, vs, {voter});
    }

    method FindVouch(vs: seq<Vouch>, voter: Address) returns (index: Option<nat>)
      ensures index == IndexOf(vs, voter)
    {
      for i := 0 to |vs|
        invariant forall j :: 0 <= j < i ==> vs[j].voucher != voter
      {
        if vs[i].voucher == voter {
          return Some(i);
        }
      }
      return None;
    }

    method CheckVoted(voters: seq<Address>, voter: Address) returns (voted: bool)
      ensures voted <==> HasVoted(delegations, voters, voter)
    {
      for i := 0 to |voters|
        invariant forall j :: 0 <= j < i ==> Resolve(delegations, voters[j]) != voter
      {
        var resolved := ResolveVoteDelegation(voters[i]);
        if resolved == voter {
          return true;
        }
      }
      return false;
    }

    method VoteSlash(voter: Address, borrower: Address, approve: bool) returns (r: Result<VoteOutcome>)
      requires PositiveStakes(VouchesOf(borrower))
      modifies `votes
      ensures (RecordOf(borrower), r) ==
              Cast(delegations, VouchesOf(borrower), quorum, old(RecordOf(borrower)), voter, approve)
      ensures forall b :: b != borrower ==> RecordOf(b) == old(RecordOf(b))
    {
      hide Resolve, StakeCastBy, StakeSum, Counted, IndexOf, PositiveStakes, HasVoted;
      if borrower in votes && votes[borrower].executed {
        return Err(SlashAlreadyExecuted);
      }
      var vs := VouchesOf(borrower);
      var effectiveVoter := ResolveVoteDelegation(voter);
      if effectiveVoter != voter {
        return Ok(DelegateWillVote);
      }
      var own := FindVouch(vs, voter);
      if own.None? {
        return Err(VoucherNotFound);
      }
      var total, effective := CountStakes(vs, voter, own.value);
      if total > I128_MAX {
        return Err(Overflow);
      }
      var vote := if borrower in votes then votes[borrower] else NO_VOTES;
      var voted := CheckVoted(vote.voters, voter);
      if voted {
        return Err(AlreadyVoted);
      }
      var counted := AddStake(vote, voter, approve, effective, total);
      if counted.Err? {
        return Err(counted.error);
      }
      votes := votes[borrower := counted.value];
      return Ok(VoteCounted);
    }

    /** Adds the stake on one side and tests the quorum, with checked arithmetic. */
    method AddStake(vote: Vote, voter: Address, approve: bool, effective: int, total: int) returns (r: Result<Vote>)
      ensures r.Ok? ==>
                && r.value.approve + r.value.reject == vote.approve + vote.reject + effective
                && (if approve then r.value.reject == vote.reject else r.value.approve == vote.approve)
                && (r.value.approve >= 0 && total > 0 ==>
                      (r.value.executed <==> r.value.approve * BPS > (quorum - 1) * total))
      ensures r == Counted(vote, voter, approve, effective, total, quorum)
    {
      var ayes: int, noes: int := vote.approve, vote.reject;
      if approve {
        ayes := ayes + effective;
      } else {
        noes := noes + effective;
      }
      if !FitsI128(ayes) || !FitsI128(noes) {
        return Err(ArithmeticError);
      }
      if !FitsI128(ayes * BPS) || !FitsI128(ayes * BPS + total) {
        return Err(ArithmeticError);
      }
      var reached := VoteQuorum(ayes, total, quorum);
      if ayes >= 0 && total > 0 {
        VoteQuorumMeaning(ayes, total, quorum);
      }
      return Ok(Vote(ayes, noes, vote.voters + [voter], reached));
    }

    method ExecuteSlashVote(borrower: Address) returns (r: Result<()>)
      modifies `votes
      ensures (RecordOf(borrower), r) == Execute(VouchesOf(borrower), quorum, old(RecordOf(borrower)))
      ensures forall b :: b != borrower ==> RecordOf(b) == old(RecordOf(b))
    {
      if borrower !in votes {
        return Err(SlashVoteNotFound);
      }
      var vote := votes[borrower];
      if vote.executed {
        return Err(SlashAlreadyExecuted);
      }
      var vs := VouchesOf(borrower);
      var total := 0;
      for i := 0 to |vs|
        invariant total == StakeSum(vs[..i])
      {
        assert vs[..i + 1][..i] == vs[..i];
        total := total + vs[i].stake;
      }
      assert vs[..|vs|] == vs;
      if total > I128_MAX {
        return Err(Overflow);
      }
      if vote.approve < QuorumStake(total, quorum) {
        return Err(QuorumNotMet);
      }
      votes := votes[borrower := vote.(executed := true)];
      return Ok(());
    }
  }
}
