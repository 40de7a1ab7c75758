/** Auctions of slashed collateral with escrowed bids. */
module Auction {
  import opened Host
  import opened Sums

  datatype Lot = Lot(
    borrower: Address, collateral: i128, token: Address, start: u64, end: u64, reserve: i128,
    highestBid: i128, highestBidder: Option<Address>, bidCount: u32, settled: bool, chains: seq<u32>)

  datatype Bid = Bid(amount: i128, timestamp: u64, chainId: u32, refunded: bool)

  datatype Settlement = Settlement(
    winningBid: i128, winner: Address, proceeds: i128, settledAt: u64, voucherPayout: i128, treasuryPayout: i128)

  /** What storage holds for one auction. */
  datatype Room = Room(lot: Lot, bids: map<Address, Bid>, settlement: Option<Settlement>)

  /** `held` is, per token, what bidders transferred in less what was transferred back to them. */
  datatype State = State(rooms: map<u64, Room>, held: map<Address, int>)

  const EMPTY := State(map[], map[])

  /** The chain a bid claims to come from: the local one, or one with a bridge that may be inactive and
      an attestation that may be absent or may not verify. */
  datatype Origin = Local | Remote(chainId: u32, bridgeActive: bool, attestation: Option<bool>)

  // ---------- the transitions of one auction ----------

  /** What `bidder` has in escrow. */
  function Escrowed(r: Room, bidder: Address): int {
    if bidder in r.bids && !r.bids[bidder].refunded then r.bids[bidder].amount else 0
  }

  function Leads(r: Room, bidder: Address): bool {
    r.lot.highestBidder == Some(bidder)
  }

  /** The result is what the bidder transfers in; `pays` tells whether the token contract lets that
      transfer pass. */
  function RoomBid(r: Room, bidder: Address, amount: i128, chainId: u32, pays: bool, now: u64): (Room, Result<int>) {
    var lot := r.lot;
    if now < lot.start || now >= lot.end then (r, Err(InvalidStateTransition))
    else if amount < lot.reserve || amount <= lot.highestBid then (r, Err(InsufficientFunds))
    else
      var due := amount - Escrowed(r, bidder);
      if due > 0 && !pays then (r, Err(TransferFailed))
      else if lot.bidCount == U32_MAX then (r, Err(Overflow))
      else
        (r.(bids := r.bids[bidder := Bid(amount, now, chainId, false)],
            lot := lot.(highestBid := amount, highestBidder := Some(bidder), bidCount := lot.bidCount + 1)),
         Ok(Max(due, 0)))
  }

  /** The result is what is transferred back to the bidder. */
  function RoomClaim(r: Room, bidder: Address): (Room, Result<int>) {
    if bidder !in r.bids || r.bids[bidder].refunded then (r, Err(NoRefundAvailable))
    else if Leads(r, bidder) && (r.settlement.Some? || !r.lot.settled) then (r, Err(NoRefundAvailable))
    else (r.(bids := r.bids[bidder := r.bids[bidder].(refunded := true)]), Ok(r.bids[bidder].amount))
  }

  function VoucherPayout(winningBid: i128): int {
    TruncDiv(winningBid * 80, 100)
  }

  lemma PayoutsFit(winningBid: i128)
    ensures FitsI128(VoucherPayout(winningBid)) && FitsI128(winningBid - VoucherPayout(winningBid))
  {
  }

  /** Without a bid the call fails, so that the host discards the settled mark it had set. */
  function RoomSettle(r: Room, now: u64): (Room, Result<()>) {
    var lot := r.lot;
    if now < lot.end || lot.settled then (r, Err(InvalidStateTransition))
    else if lot.highestBidder == None || lot.highestBid < lot.reserve then (r, Err(InsufficientFunds))
    else if !FitsI128(lot.highestBid * 80) then (r, Err(Overflow))
    else
      PayoutsFit(lot.highestBid);
      var vouchers := VoucherPayout(lot.highestBid);
      (r.(lot := lot.(settled := true),
          settlement := Some(Settlement(lot.highestBid, lot.highestBidder.value, lot.highestBid, now,
                                        vouchers, lot.highestBid - vouchers))),
       Ok(()))
  }

  function RoomExtend(r: Room, newEnd: u64, now: u64): (Room, Result<()>) {
    if (r.lot.bidCount > 0 && now >= r.lot.end) || newEnd <= r.lot.end then (r, Err(InvalidStateTransition))
    else (r.(lot := r.lot.(end := newEnd)), Ok(()))
  }

  /** The leader's bid is marked refunded, but nothing is transferred. */
  function RoomCancel(r: Room): (Room, Result<()>) {
    if r.lot.settled then (r, Err(InvalidStateTransition))
    else
      var cancelled := r.(lot := r.lot.(settled := true));
      match r.lot.highestBidder
      case Some(leader) =>
        if leader in r.bids
        then (cancelled.(bids := r.bids[leader := r.bids[leader].(refunded := true)]), Ok(()))
        else (cancelled, Ok(()))
      case None => (cancelled, Ok(()))
  }

  // ---------- the transitions of the contract ----------

  function Create(s: State, lot: Lot, duration: u64, now: u64): (State, Result<u64>) {
    if lot.collateral <= 0 || duration == 0 || lot.reserve < 0 then (s, Err(InvalidAmount))
    else if now + duration > U64_MAX then (s, Err(Overflow))
    else
      var started := lot.(start := now, end := now + duration, highestBid := 0, highestBidder := None,
                          bidCount := 0, settled := false);
      var room := if now in s.rooms then s.rooms[now].(lot := started) else Room(started, map[], None);
      (s.(rooms := s.rooms[now := room]), Ok(now))
  }

  function OriginError(origin: Origin): Option<ContractError> {
    if origin.Local? then None
    else if !origin.bridgeActive then Some(InvalidChain)
    else if origin.attestation == None then Some(BridgeAttestationRequired)
    else if !origin.attestation.value then Some(AttestationRejected)
    else None
  }

  function ChainOf(origin: Origin): u32 {
    if origin.Local? then 0 else origin.chainId
  }

  /** What is held in `token`. */
  function Held(s: State, token: Address): int {
    Value(s.held, token)
  }

  function PlaceBid(s: State, id: u64, bidder: Address, amount: i128, origin: Origin, pays: bool, now: u64)
    : (State, Result<()>)
  {
    if amount <= 0 then (s, Err(InvalidAmount))
    else if OriginError(origin).Some? then (s, Err(OriginError(origin).value))
    else if id !in s.rooms then (s, Err(NoActiveLoan))
    else
      var token := s.rooms[id].lot.token;
      match RoomBid(s.rooms[id], bidder, amount, ChainOf(origin), pays, now)
      case (_, Err(e)) => (s, Err(e))
      case (r, Ok(paid)) => (State(s.rooms[id := r], s.held[token := Held(s, token) + paid]), Ok(()))
  }

  /** A refund fails in the transfer when less is held than it pays. */
  function ClaimRefund(s: State, id: u64, bidder: Address): (State, Result<()>) {
    if id !in s.rooms then (s, Err(NoActiveLoan))
    else
      var token := s.rooms[id].lot.token;
      match RoomClaim(s.rooms[id], bidder)
      case (_, Err(e)) => (s, Err(e))
      case (r, Ok(paid)) =>
        if Held(s, token) < paid then (s, Err(TransferFailed))
        else (State(s.rooms[id := r], s.held[token := Held(s, token) - paid]), Ok(()))
  }

  /** A call that only touches the auction's own records. */
  function OnRoom(s: State, id: u64, change: Room -> (Room, Result<()>)): (State, Result<()>) {
    if id !in s.rooms then (s, Err(NoActiveLoan))
    else
      var (r, result) := change(s.rooms[id]);
      (if result.Ok? then s.(rooms := s.rooms[id := r]) else s, result)
  }

  function Settle(s: State, id: u64, now: u64): (State, Result<()>) {
    OnRoom(s, id, r => RoomSettle(r, now))
  }

  function Extend(s: State, id: u64, newEnd: u64, now: u64): (State, Result<()>) {
    OnRoom(s, id, r => RoomExtend(r, newEnd, now))
  }

  function Cancel(s: State, id: u64): (State, Result<()>) {
    OnRoom(s, id, r => RoomCancel(r))
  }

  // ---------- runs ----------

  datatype Op =
    | DoCreate(id: u64, now: u64, lot: Lot, duration: u64)
    | DoBid(id: u64, now: u64, bidder: Address, amount: i128, origin: Origin, pays: bool)
    | DoClaim(id: u64, now: u64, bidder: Address)
    | DoSettle(id: u64, now: u64)
    | DoExtend(id: u64, now: u64, newEnd: u64)
    | DoCancel(id: u64, now: u64)

  function Step(s: State, op: Op): State {
    match op
    case DoCreate(_, now, lot, duration) => Create(s, lot, duration, now).0
    case DoBid(id, now, bidder, amount, origin, pays) => PlaceBid(s, id, bidder, amount, origin, pays, now).0
    case DoClaim(id, _, bidder) => ClaimRefund(s, id, bidder).0
    case DoSettle(id, now) => Settle(s, id, now).0
    case DoExtend(id, now, newEnd) => Extend(s, id, newEnd, now).0
    case DoCancel(id, _) => Cancel(s, id).0
  }

  function Run(s: State, ops: seq<Op>): State
    decreases |ops|
  {
    if ops == [] then s else Run(Step(s, ops[0]), ops[1..])
  }

  /** At `clock`, `op` may come next: the clock does not run backwards, and an auction is not created at
      a second that already named one.  The id of an auction is the second of its creation. */
  predicate MayCome(s: State, op: Op, clock: u64) {
    clock <= op.now && (op.DoCreate? ==> op.id == op.now && op.now !in s.rooms)
  }

  predicate Proper(s: State, ops: seq<Op>, clock: u64)
    decreases |ops|
  {
    ops == [] || (MayCome(s, ops[0], clock) && Proper(Step(s, ops[0]), ops[1..], ops[0].now))
  }

  // ---------- the invariant of an auction ----------

  /** Bids are positive and do not exceed the highest bid. */
  predicate GoodBids(r: Room) {
    forall b :: b in r.bids ==> 0 < r.bids[b].amount <= r.lot.highestBid
  }

  /** The leader's bid record is the highest bid and meets the reserve; until the auction is settled or
      cancelled it is unrefunded. */
  predicate GoodLead(r: Room) {
    && (r.lot.bidCount > 0 <==> r.lot.highestBidder.Some?)
    && (r.lot.highestBidder == None ==> r.lot.highestBid == 0)
    && (r.lot.highestBidder.Some? ==>
          var leader := r.lot.highestBidder.value;
          && leader in r.bids && r.bids[leader].amount == r.lot.highestBid >= r.lot.reserve
          && (!r.lot.settled ==> Escrowed(r, leader) == r.lot.highestBid))
  }

  /** A settlement is that of a settled auction that ended before, and its winner's bid is in escrow. */
  predicate GoodSettlement(r: Room, t: Settlement, clock: u64) {
    && r.lot.settled && r.lot.end <= t.settledAt <= clock
    && Leads(r, t.winner) && r.lot.highestBid == t.winningBid
    && Escrowed(r, t.winner) == t.winningBid
    && t.voucherPayout + t.treasuryPayout == t.winningBid == t.proceeds
    && 5 * t.voucherPayout <= 4 * t.winningBid < 5 * t.voucherPayout + 5
  }

  predicate GoodRoom(r: Room, clock: u64) {
    GoodBids(r) && GoodLead(r) && (r.settlement.Some? ==> GoodSettlement(r, r.settlement.value, clock))
  }

  predicate Orderly(s: State, clock: u64) {
    forall id :: id in s.rooms ==> GoodRoom(s.rooms[id], clock)
  }

  /** The unrefunded bids of an auction. */
  ghost function Unrefunded(r: Room): map<Address, int> {
    map b | b in r.bids && !r.bids[b].refunded :: r.bids[b].amount
  }

  ghost function Owed(r: Room): int {
    Total(Unrefunded(r))
  }

  /** The auctions in `token` with the sum of their unrefunded bids. */
  ghost function OwedPerAuction(s: State, token: Address): map<u64, int> {
    map id | id in s.rooms && s.rooms[id].lot.token == token :: Owed(s.rooms[id])
  }

  /** The sum of all unrefunded bids in `token`. */
  ghost function OwedIn(s: State, token: Address): int {
    Total(OwedPerAuction(s, token))
  }

  // ---------- what the transitions keep ----------

  lemma RecordChanged(r: Room, t: Room, bidder: Address, b: Bid)
    requires t.bids == r.bids[bidder := b]
    ensures Owed(t) == Owed(r) + Escrowed(t, bidder) - Escrowed(r, bidder)
  {
    if b.refunded {
      assert Unrefunded(t) == Unrefunded(r) - {bidder};
      Removed(Unrefunded(r), bidder);
    } else {
      assert Unrefunded(t) == Unrefunded(r)[bidder := b.amount];
      Updated(Unrefunded(r), bidder, b.amount);
    }
  }

  /** A bid transfers in exactly what it adds to the unrefunded bids. */
  lemma BidKeeps(r: Room, bidder: Address, amount: i128, chainId: u32, pays: bool, now: u64, clock: u64)
    requires GoodRoom(r, clock) && clock <= now && amount > 0
    ensures var (t, result) := RoomBid(r, bidder, amount, chainId, pays, now);
            && GoodRoom(t, now) && t.lot.token == r.lot.token
            && (result.Ok? ==> Owed(t) == Owed(r) + result.value)
  {
    var (t, result) := RoomBid(r, bidder, amount, chainId, pays, now);
    if result.Ok? {
      RecordChanged(r, t, bidder, t.bids[bidder]);
    }
  }

  lemma ClaimKeeps(r: Room, bidder: Address, clock: u64)
    requires GoodRoom(r, clock)
    ensures var (t, result) := RoomClaim(r, bidder);
            && GoodRoom(t, clock) && t.lot == r.lot
            && (result.Ok? ==> Owed(t) == Owed(r) - result.value)
  {
    var (t, result) := RoomClaim(r, bidder);
    if result.Ok? {
      RecordChanged(r, t, bidder, t.bids[bidder]);
    }
  }

  lemma SettleKeeps(r: Room, now: u64, clock: u64)
    requires GoodRoom(r, clock) && clock <= now
    ensures var t := RoomSettle(r, now).0;
            GoodRoom(t, now) && t.lot.token == r.lot.token && Owed(t) == Owed(r)
  {
    assert Unrefunded(RoomSettle(r, now).0) == Unrefunded(r);
  }

  lemma ExtendKeeps(r: Room, newEnd: u64, now: u64, clock: u64)
    requires GoodRoom(r, clock) && clock <= now
    ensures var t := RoomExtend(r, newEnd, now).0;
            GoodRoom(t, now) && t.lot.token == r.lot.token && Owed(t) == Owed(r)
  {
    assert Unrefunded(RoomExtend(r, newEnd, now).0) == Unrefunded(r);
  }

  /** What a cancellation leaves in escrow without a record: the leader's bid. */
  function StrandedIn(r: Room): int {
    if !r.lot.settled && r.lot.highestBidder.Some? then Escrowed(r, r.lot.highestBidder.value) else 0
  }

  /** A cancellation takes the leader's bid off the unrefunded bids. */
  lemma CancelKeeps(r: Room, clock: u64)
    requires GoodRoom(r, clock)
    ensures var t := RoomCancel(r).0;
            GoodRoom(t, clock) && t.lot.token == r.lot.token && Owed(t) == Owed(r) - StrandedIn(r)
  {
    var t := RoomCancel(r).0;
    if t.bids != r.bids {
      var leader := r.lot.highestBidder.value;
      RecordChanged(r, t, leader, t.bids[leader]);
    } else {
      assert Unrefunded(t) == Unrefunded(r);
    }
  }

  /** What is held in `token` beyond the unrefunded bids. */
  ghost function Surplus(s: State, token: Address): int {
    Held(s, token) - OwedIn(s, token)
  }

  /** Changing one auction, and what is held in its token, changes the surplus of that token alone. */
  lemma RoomChanged(s: State, id: u64, r: Room, held: map<Address, int>, paid: int, token: Address)
    requires id in s.rooms && r.lot.token == s.rooms[id].lot.token
    requires held == s.held[r.lot.token := Held(s, r.lot.token) + paid] || (held == s.held && paid == 0)
    ensures Surplus(State(s.rooms[id := r], held), token) == Surplus(s, token)
            + if r.lot.token == token then paid - (Owed(r) - Owed(s.rooms[id])) else 0
  {
    var before, after := OwedPerAuction(s, token), OwedPerAuction(State(s.rooms[id := r], held), token);
    if r.lot.token == token {
      assert after == before[id := Owed(r)];
      Updated(before, id, Owed(r));
    } else {
      assert after == before;
    }
  }

  lemma NewRoom(s: State, id: u64, r: Room, token: Address)
    requires id !in s.rooms && r.bids == map[]
    ensures Surplus(State(s.rooms[id := r], s.held), token) == Surplus(s, token)
  {
    var before, after := OwedPerAuction(s, token), OwedPerAuction(State(s.rooms[id := r], s.held), token);
    assert Unrefunded(r) == map[];
    if r.lot.token == token {
      assert after == before[id := 0];
      Updated(before, id, 0);
    } else {
      assert after == before;
    }
  }

  lemma LaterStillOrderly(s: State, clock: u64, now: u64)
    requires Orderly(s, clock) && clock <= now
    ensures Orderly(s, now)
  {
    forall id | id in s.rooms ensures GoodRoom(s.rooms[id], now) {
      assert GoodRoom(s.rooms[id], clock);
    }
  }

  lemma CreateStep(s: State, lot: Lot, duration: u64, now: u64, token: Address)
    requires Orderly(s, now) && now !in s.rooms
    ensures var t := Create(s, lot, duration, now).0; Orderly(t, now) && Surplus(t, token) == Surplus(s, token)
  {
    var t := Create(s, lot, duration, now).0;
    if t != s {
      NewRoom(s, now, t.rooms[now], token);
      assert GoodRoom(t.rooms[now], now);
    }
  }

  lemma BidStep(s: State, id: u64, bidder: Address, amount: i128, origin: Origin, pays: bool, now: u64, token: Address)
    requires Orderly(s, now)
    ensures var t := PlaceBid(s, id, bidder, amount, origin, pays, now).0;
            Orderly(t, now) && Surplus(t, token) == Surplus(s, token)
  {
    var t := PlaceBid(s, id, bidder, amount, origin, pays, now).0;
    if t != s {
      var r := s.rooms[id];
      var (r', result) := RoomBid(r, bidder, amount, ChainOf(origin), pays, now);
      assert t == State(s.rooms[id := r'], s.held[r.lot.token := Held(s, r.lot.token) + result.value]);
      BidKeeps(r, bidder, amount, ChainOf(origin), pays, now, now);
      hide PlaceBid, RoomBid, GoodRoom, Surplus, Owed;
      RoomChanged(s, id, r', t.held, result.value, token);
    }
  }

  lemma ClaimStep(s: State, id: u64, bidder: Address, now: u64, token: Address)
    requires Orderly(s, now)
    ensures var t := ClaimRefund(s, id, bidder).0; Orderly(t, now) && Surplus(t, token) == Surplus(s, token)
  {
    if id in s.rooms {
      var r := s.rooms[id];
      ClaimKeeps(r, bidder, now);
      hide RoomClaim, GoodRoom, Surplus, Owed;
      var (r', result) := RoomClaim(r, bidder);
      if result.Ok? {
        RoomChanged(s, id, r', s.held[r.lot.token := Held(s, r.lot.token) + -result.value], -result.value, token);
      }
    }
  }

  lemma RecordsStep(s: State, id: u64, r: Room, now: u64, token: Address)
    requires Orderly(s, now) && id in s.rooms && GoodRoom(r, now) && r.lot.token == s.rooms[id].lot.token
    ensures var t := s.(rooms := s.rooms[id := r]);
            && Orderly(t, now)
            && Surplus(t, token) == Surplus(s, token)
               + if r.lot.token == token then Owed(s.rooms[id]) - Owed(r) else 0
  {
    hide Surplus, Owed, GoodRoom;
    RoomChanged(s, id, r, s.held, 0, token);
  }

  /** What `op` strands in `token`. */
  function StrandedBy(s: State, op: Op, token: Address): int {
    if op.DoCancel? && op.id in s.rooms && s.rooms[op.id].lot.token == token then StrandedIn(s.rooms[op.id]) else 0
  }

  /** What the cancellations of a run strand in `token`. */
  function Stranded(s: State, ops: seq<Op>, token: Address): int
    decreases |ops|
  {
    if ops == [] then 0 else StrandedBy(s, ops[0], token) + Stranded(Step(s, ops[0]), ops[1..], token)
  }

  lemma StepKeeps(s: State, op: Op, clock: u64, token: Address)
    requires Orderly(s, clock) && MayCome(s, op, clock)
    ensures Orderly(Step(s, op), op.now)
    ensures Surplus(Step(s, op), token) == Surplus(s, token) + StrandedBy(s, op, token)
  {
    LaterStillOrderly(s, clock, op.now);
    hide Surplus, Owed, GoodRoom, StrandedIn;
    match op {
      case DoCreate(_, now, lot, duration) => CreateStep(s, lot, duration, now, token);
      case DoBid(id, now, bidder, amount, origin, pays) =>
        BidStep(s, id, bidder, amount, origin, pays, now, token);
      case DoClaim(id, now, bidder) => ClaimStep(s, id, bidder, now, token);
      case DoSettle(id, now) =>
        if id in s.rooms {
          SettleKeeps(s.rooms[id], now, now);
          RecordsStep(s, id, RoomSettle(s.rooms[id], now).0, now, token);
        }
      case DoExtend(id, now, newEnd) =>
        if id in s.rooms {
          ExtendKeeps(s.rooms[id], newEnd, now, now);
          RecordsStep(s, id, RoomExtend(s.rooms[id], newEnd, now).0, now, token);
        }
      case DoCancel(id, now) =>
        if id in s.rooms {
          CancelKeeps(s.rooms[id], now);
          RecordsStep(s, id, RoomCancel(s.rooms[id]).0, now, token);
        }
    }
  }

  // ---------- the main results ----------

  lemma {:induction false} RunKeeps(s: State, ops: seq<Op>, clock: u64, token: Address) returns (end: u64)
    requires Orderly(s, clock) && Proper(s, ops, clock)
    ensures clock <= end && Orderly(Run(s, ops), end)
    ensures Surplus(Run(s, ops), token) == Surplus(s, token) + Stranded(s, ops, token)
    decreases |ops|
  {
    end := clock;
    if ops == [] {
    } else {
      StepKeeps(s, ops[0], clock, token);
      hide Step, Orderly, Surplus, StrandedBy;
      end := RunKeeps(Step(s, ops[0]), ops[1..], ops[0].now, token);
    }
  }

  lemma {:induction false} StrandedNonNegative(s: State, ops: seq<Op>, clock: u64, token: Address)
    requires Orderly(s, clock) && Proper(s, ops, clock)
    ensures Stranded(s, ops, token) >= 0
    ensures (forall i :: 0 <= i < |ops| ==> !ops[i].DoCancel?) ==> Stranded(s, ops, token) == 0
    decreases |ops|
  {
    if ops == [] {
    } else {
      assert StrandedBy(s, ops[0], token) >= 0 by {
        assert ops[0].id in s.rooms ==> GoodRoom(s.rooms[ops[0].id], clock);
      }
      StepKeeps(s, ops[0], clock, token);
      hide Step, Orderly;
      StrandedNonNegative(Step(s, ops[0]), ops[1..], ops[0].now, token);
    }
  }

  /** Solvency: over every run with fresh auction ids, the tokens transferred in less those transferred
      back are the unrefunded bids plus what cancellations stranded.  So they cover the unrefunded bids,
      and equal them when nothing was cancelled. */
  lemma Solvent(ops: seq<Op>, token: Address)
    requires Proper(EMPTY, ops, 0)
    ensures var s := Run(EMPTY, ops);
            && Held(s, token) == OwedIn(s, token) + Stranded(EMPTY, ops, token)
            && Held(s, token) >= OwedIn(s, token)
            && ((forall i :: 0 <= i < |ops| ==> !ops[i].DoCancel?) ==> Held(s, token) == OwedIn(s, token))
  {
    var end := RunKeeps(EMPTY, ops, 0, token);
    StrandedNonNegative(EMPTY, ops, 0, token);
    assert OwedPerAuction(EMPTY, token) == map[];
  }

  lemma ReachableRoom(ops: seq<Op>, id: u64) returns (end: u64)
    requires Proper(EMPTY, ops, 0) && id in Run(EMPTY, ops).rooms
    ensures GoodRoom(Run(EMPTY, ops).rooms[id], end)
  {
    hide GoodRoom;
    end := RunKeeps(EMPTY, ops, 0, Account(0));
  }

  lemma OneBidWithinOwed(s: State, id: u64, bidder: Address)
    requires id in s.rooms && bidder in s.rooms[id].bids && !s.rooms[id].bids[bidder].refunded
    requires forall j :: j in s.rooms ==> GoodBids(s.rooms[j])
    ensures s.rooms[id].bids[bidder].amount <= OwedIn(s, s.rooms[id].lot.token)
  {
    var r := s.rooms[id];
    AtLeastOne(Unrefunded(r), bidder);
    var owed := OwedPerAuction(s, r.lot.token);
    forall j | j in owed ensures owed[j] >= 0 {
      NonNegative(Unrefunded(s.rooms[j]));
    }
    AtLeastOne(owed, id);
  }

  lemma EscrowCovered(ops: seq<Op>, id: u64, bidder: Address)
    requires Proper(EMPTY, ops, 0) && id in Run(EMPTY, ops).rooms
    requires var r := Run(EMPTY, ops).rooms[id]; bidder in r.bids && !r.bids[bidder].refunded
    ensures var s := Run(EMPTY, ops); s.rooms[id].bids[bidder].amount <= Held(s, s.rooms[id].lot.token)
  {
    var s := Run(EMPTY, ops);
    Solvent(ops, s.rooms[id].lot.token);
    forall j | j in s.rooms ensures GoodBids(s.rooms[j]) {
      var end := ReachableRoom(ops, j);
    }
    OneBidWithinOwed(s, id, bidder);
  }

  /** A refund that the rules allow is always covered by what is held. */
  lemma RefundAlwaysCovered(ops: seq<Op>, id: u64, bidder: Address)
    requires Proper(EMPTY, ops, 0)
    ensures ClaimRefund(Run(EMPTY, ops), id, bidder).1 != Err(TransferFailed)
  {
    var s := Run(EMPTY, ops);
    if id in s.rooms && RoomClaim(s.rooms[id], bidder).1.Ok? {
      EscrowCovered(ops, id, bidder);
    }
  }

  /** A bidder who does not lead and has an unrefunded bid can claim it at once, and not again. */
  lemma NonLeaderClaimsOnce(ops: seq<Op>, id: u64, bidder: Address)
    requires Proper(EMPTY, ops, 0) && id in Run(EMPTY, ops).rooms
    requires var r := Run(EMPTY, ops).rooms[id];
             !Leads(r, bidder) && bidder in r.bids && !r.bids[bidder].refunded
    ensures var (t, result) := ClaimRefund(Run(EMPTY, ops), id, bidder);
            result == Ok(()) && ClaimRefund(t, id, bidder) == (t, Err(NoRefundAvailable))
  {
    RefundAlwaysCovered(ops, id, bidder);
  }

  /** The leader of a cancelled auction has no way to reclaim the bid: it is marked refunded although
      nothing was transferred, and the whole highest bid stays behind. */
  lemma CancelStrandsLeader(ops: seq<Op>, id: u64, leader: Address)
    requires Proper(EMPTY, ops, 0) && id in Run(EMPTY, ops).rooms
    requires Leads(Run(EMPTY, ops).rooms[id], leader) && !Run(EMPTY, ops).rooms[id].lot.settled
    ensures var s := Run(EMPTY, ops);
            var (t, result) := Cancel(s, id);
            && result == Ok(()) && t.held == s.held
            && Owed(t.rooms[id]) == Owed(s.rooms[id]) - s.rooms[id].lot.highestBid
            && ClaimRefund(t, id, leader).1 == Err(NoRefundAvailable)
  {
    var end := ReachableRoom(ops, id);
    CancelKeeps(Run(EMPTY, ops).rooms[id], end);
  }

  /** Right after a cancellation a bidder with an unrefunded bid can reclaim it if and only if it did not
      lead. */
  lemma CancelledClaimExactlyWhen(ops: seq<Op>, id: u64, bidder: Address)
    requires Proper(EMPTY, ops, 0) && id in Run(EMPTY, ops).rooms
    requires var r := Run(EMPTY, ops).rooms[id]; !r.lot.settled && bidder in r.bids && !r.bids[bidder].refunded
    ensures ClaimRefund(Cancel(Run(EMPTY, ops), id).0, id, bidder).1.Ok? <==> !Leads(Run(EMPTY, ops).rooms[id], bidder)
  {
    if Leads(Run(EMPTY, ops).rooms[id], bidder) {
      CancelStrandsLeader(ops, id, bidder);
    } else {
      EscrowCovered(ops, id, bidder);
      hide Run;
    }
  }

  lemma StepKeepsRefunded(s: State, op: Op, id: u64, bidder: Address)
    requires id in s.rooms && bidder in s.rooms[id].bids && s.rooms[id].bids[bidder].refunded
    requires op.DoBid? ==> (op.id, op.bidder) != (id, bidder)
    ensures id in Step(s, op).rooms && bidder in Step(s, op).rooms[id].bids
    ensures Step(s, op).rooms[id].bids[bidder] == s.rooms[id].bids[bidder]
  {
  }

  /** A refunded bid stays refunded, and cannot be claimed again, until its bidder bids anew. */
  lemma {:induction false} RefundedUntilNextBid(s: State, ops: seq<Op>, id: u64, bidder: Address)
    requires id in s.rooms && bidder in s.rooms[id].bids && s.rooms[id].bids[bidder].refunded
    requires forall i :: 0 <= i < |ops| && ops[i].DoBid? ==> (ops[i].id, ops[i].bidder) != (id, bidder)
    ensures ClaimRefund(Run(s, ops), id, bidder).1 == Err(NoRefundAvailable)
    decreases |ops|
  {
    if ops == [] {
    } else {
      StepKeepsRefunded(s, ops[0], id, bidder);
      hide Step;
      RefundedUntilNextBid(Step(s, ops[0]), ops[1..], id, bidder);
    }
  }

  /** Before an auction is settled or cancelled, the highest bid bounds every recorded bid and is the
      leader's unrefunded record. */
  lemma LeaderHoldsHighestBid(ops: seq<Op>, id: u64)
    requires Proper(EMPTY, ops, 0) && id in Run(EMPTY, ops).rooms
    ensures var r := Run(EMPTY, ops).rooms[id];
            && (forall b :: b in r.bids ==> r.bids[b].amount <= r.lot.highestBid)
            && (r.lot.highestBidder.Some? && !r.lot.settled ==>
                  r.lot.highestBid >= r.lot.reserve && Escrowed(r, r.lot.highestBidder.value) == r.lot.highestBid)
  {
    var end := ReachableRoom(ops, id);
  }

  /** Two states differ at most in one auction. */
  predicate OthersKept(s: State, t: State, id: u64) {
    && t.rooms.Keys == s.rooms.Keys + {id}
    && forall j :: j in s.rooms && j != id ==> t.rooms[j] == s.rooms[j]
  }

  /** What a token's holdings become when `paid` comes in. */
  ghost predicate HeldGrows(s: State, t: State, token: Address, paid: int) {
    forall k :: Value(t.held, k) == Value(s.held, k) + if k == token then paid else 0
  }

  /** In every reachable state a bid is accepted exactly when its amount is positive, its origin is cleared,
      the auction is open, the amount meets the reserve and is more than every recorded bid, the transfer
      passes and the count fits; then it leads, it replaces the bidder's record, and the bidder has
      transferred in what it adds to an unrefunded bid of its own.  A refused bid changes nothing. */
  lemma BidOutcome(ops: seq<Op>, id: u64, bidder: Address, amount: i128, origin: Origin, pays: bool, now: u64)
    requires Proper(EMPTY, ops, 0)
    ensures var s := Run(EMPTY, ops);
            var (t, result) := PlaceBid(s, id, bidder, amount, origin, pays, now);
            && result == (
                 if amount <= 0 then Err(InvalidAmount)
                 else if origin.Remote? && !origin.bridgeActive then Err(InvalidChain)
                 else if origin.Remote? && origin.attestation == None then Err(BridgeAttestationRequired)
                 else if origin.Remote? && origin.attestation == Some(false) then Err(AttestationRejected)
                 else if id !in s.rooms then Err(NoActiveLoan)
                 else
                   var lot, bids := s.rooms[id].lot, s.rooms[id].bids;
                   if now < lot.start || lot.end <= now then Err(InvalidStateTransition)
                   else if amount < lot.reserve then Err(InsufficientFunds)
                   else if exists b :: b in bids && amount <= bids[b].amount then Err(InsufficientFunds)
                   else if !pays then Err(TransferFailed)
                   else if lot.bidCount == 0xFFFF_FFFF then Err(Overflow)
                   else Ok(()))
            && (result.Err? ==> t == s)
            && (result.Ok? ==>
                  var r, r' := s.rooms[id], t.rooms[id];
                  var own := if bidder in r.bids && !r.bids[bidder].refunded then r.bids[bidder].amount else 0;
                  && OthersKept(s, t, id) && HeldGrows(s, t, r.lot.token, amount - own)
                  && r'.settlement == r.settlement
                  && r'.bids == r.bids[bidder := Bid(amount, now, if origin.Local? then 0 else origin.chainId, false)]
                  && r'.lot == r.lot.(highestBid := amount, highestBidder := Some(bidder),
                                      bidCount := r.lot.bidCount + 1))
  {
    var s := Run(EMPTY, ops);
    hide Run;
    if id in s.rooms {
      var end := ReachableRoom(ops, id);
      if amount > 0 {
        BeatsAllExactlyWhen(s.rooms[id], amount, end);
      }
      hide GoodRoom;
    }
  }

  /** An amount is more than the highest bid if and only if it is more than every recorded one. */
  lemma BeatsAllExactlyWhen(r: Room, amount: int, clock: u64)
    requires GoodRoom(r, clock) && amount > 0
    ensures amount <= r.lot.highestBid <==> exists b :: b in r.bids && amount <= r.bids[b].amount
    ensures forall b :: b in r.bids ==> 0 < r.bids[b].amount <= r.lot.highestBid
  {
    if amount <= r.lot.highestBid {
      assert r.lot.highestBidder.value in r.bids;
    }
  }

  /** An auction has a leader, and counts a bid, if and only if it has a recorded bid. */
  lemma LedExactlyWhen(r: Room, clock: u64)
    requires GoodRoom(r, clock)
    ensures r.bids != map[] <==> r.lot.highestBidder.Some?
    ensures r.bids != map[] <==> r.lot.bidCount > 0
  {
    if r.lot.highestBidder == None {
      assert forall b :: b !in r.bids;
    }
  }

  /** An auction that is created at a fresh second runs from now for its duration, has no bids, and is
      refused exactly without collateral, without duration, with a negative reserve or past the last second. */
  lemma CreateOutcome(s: State, lot: Lot, duration: u64, now: u64)
    ensures var (t, result) := Create(s, lot, duration, now);
            && result == (
                 if lot.collateral <= 0 || duration == 0 || lot.reserve < 0 then Err(InvalidAmount)
                 else if now + duration > 0xFFFF_FFFF_FFFF_FFFF then Err(Overflow)
                 else Ok(now))
            && (result.Err? ==> t == s)
            && (result.Ok? ==> OthersKept(s, t, now) && t.held == s.held)
            && (result.Ok? && now !in s.rooms ==>
                  var r := t.rooms[now];
                  && r.bids == map[] && r.settlement == None
                  && r.lot == Lot(lot.borrower, lot.collateral, lot.token, now, now + duration, lot.reserve,
                                  0, None, 0, false, lot.chains))
  {
  }

  /** In every reachable state a bidder reclaims exactly an unrefunded bid that does not lead, or that led
      an auction cancelled before the bid; it is paid in full and marked refunded, and nothing else changes. */
  lemma ClaimOutcome(ops: seq<Op>, id: u64, bidder: Address)
    requires Proper(EMPTY, ops, 0)
    ensures var s := Run(EMPTY, ops);
            var (t, result) := ClaimRefund(s, id, bidder);
            && (result.Ok? <==>
                  && id in s.rooms
                  && var r := s.rooms[id];
                     && bidder in r.bids && !r.bids[bidder].refunded
                     && (r.lot.highestBidder == Some(bidder) ==> r.lot.settled && r.settlement == None))
            && (result.Err? ==> t == s)
            && (result.Ok? ==>
                  var r := s.rooms[id];
                  && OthersKept(s, t, id) && HeldGrows(s, t, r.lot.token, -(r.bids[bidder].amount as int))
                  && t.rooms[id].lot == r.lot && t.rooms[id].settlement == r.settlement
                  && t.rooms[id].bids == r.bids[bidder := r.bids[bidder].(refunded := true)])
  {
    RefundAlwaysCovered(ops, id, bidder);
    hide Run;
  }

  /** An auction moves its end exactly to a later one, and only while it has no bids or has not ended;
      nothing else about it changes. */
  lemma ExtendOutcome(ops: seq<Op>, id: u64, newEnd: u64, now: u64)
    requires Proper(EMPTY, ops, 0)
    ensures var s := Run(EMPTY, ops);
            var (t, result) := Extend(s, id, newEnd, now);
            && result == (
                 if id !in s.rooms then Err(NoActiveLoan)
                 else if newEnd <= s.rooms[id].lot.end || (s.rooms[id].bids != map[] && s.rooms[id].lot.end <= now)
                 then Err(InvalidStateTransition)
                 else Ok(()))
            && (result.Err? ==> t == s)
            && (result.Ok? ==>
                  var r := s.rooms[id];
                  OthersKept(s, t, id) && t.held == s.held && t.rooms[id] == r.(lot := r.lot.(end := newEnd)))
  {
    var s := Run(EMPTY, ops);
    if id in s.rooms {
      var end := ReachableRoom(ops, id);
      LedExactlyWhen(s.rooms[id], end);
    }
    hide Run;
  }

  /** In every reachable state exactly an unsettled auction can be cancelled; that settles it without a
      winner and marks the leader's bid, and no other, refunded. */
  lemma CancelOutcome(ops: seq<Op>, id: u64)
    requires Proper(EMPTY, ops, 0)
    ensures var s := Run(EMPTY, ops);
            var (t, result) := Cancel(s, id);
            && result == (
                 if id !in s.rooms then Err(NoActiveLoan)
                 else if s.rooms[id].lot.settled then Err(InvalidStateTransition)
                 else Ok(()))
            && (result.Err? ==> t == s)
            && (result.Ok? ==>
                  var r, r' := s.rooms[id], t.rooms[id];
                  && OthersKept(s, t, id) && t.held == s.held
                  && r'.lot == r.lot.(settled := true) && r'.settlement == None && r'.bids.Keys == r.bids.Keys
                  && forall b :: b in r.bids ==>
                       r'.bids[b] == if r.lot.highestBidder == Some(b) then r.bids[b].(refunded := true) else r.bids[b])
  {
    if id in Run(EMPTY, ops).rooms {
      var end := ReachableRoom(ops, id);
    }
    hide Run;
  }

  /** In every reachable state settling succeeds exactly on an auction that has ended, is unsettled and
      has a bid whose eighty-fold stays in the type; the reserve is then met by itself.  It records the
      leader as the winner, four fifths of the bid for the vouchers and the rest for the treasury. */
  lemma SettleOutcome(ops: seq<Op>, id: u64, now: u64)
    requires Proper(EMPTY, ops, 0)
    ensures var s := Run(EMPTY, ops);
            var (t, result) := Settle(s, id, now);
            && result == (
                 if id !in s.rooms then Err(NoActiveLoan)
                 else if now < s.rooms[id].lot.end || s.rooms[id].lot.settled then Err(InvalidStateTransition)
                 else if s.rooms[id].bids == map[] then Err(InsufficientFunds)
                 else if s.rooms[id].lot.highestBid * 80 > I128_MAX then Err(Overflow)
                 else Ok(()))
            && (result.Err? ==> t == s)
            && (result.Ok? ==>
                  var r := s.rooms[id];
                  && r.lot.highestBidder.Some?
                  && var bid, payout := r.lot.highestBid, r.lot.highestBid * 4 / 5;
                     && OthersKept(s, t, id) && t.held == s.held
                     && t.rooms[id].bids == r.bids && t.rooms[id].lot == r.lot.(settled := true)
                     && t.rooms[id].settlement ==
                        Some(Settlement(bid, r.lot.highestBidder.value, bid, now, payout, bid - payout)))
  {
    var s := Run(EMPTY, ops);
    if id in s.rooms {
      var end := ReachableRoom(ops, id);
      LedExactlyWhen(s.rooms[id], end);
    }
    hide Run;
  }

  /** Once an auction is settled with a winner, no bid, extension, cancellation or second settlement
      succeeds, and the winner cannot claim a refund. */
  lemma SettledRejectsAll(r: Room, clock: u64, now: u64)
    requires GoodRoom(r, clock) && r.settlement.Some? && clock <= now
    ensures forall bidder, amount, chainId, pays ::
              RoomBid(r, bidder, amount, chainId, pays, now) == (r, Err(InvalidStateTransition))
    ensures forall newEnd :: RoomExtend(r, newEnd, now) == (r, Err(InvalidStateTransition))
    ensures RoomCancel(r) == (r, Err(InvalidStateTransition))
    ensures RoomSettle(r, now) == (r, Err(InvalidStateTransition))
    ensures RoomClaim(r, r.settlement.value.winner) == (r, Err(NoRefundAvailable))
  {
  }

  /** Two states of an auction agree on all that its settlement fixed. */
  predicate SameOutcome(r: Room, t: Room) {
    && r.settlement.Some? && t.settlement == r.settlement && t.lot == r.lot
    && var winner := r.settlement.value.winner;
       winner in r.bids && winner in t.bids && t.bids[winner] == r.bids[winner]
  }

  lemma StepKeepsOutcome(s: State, op: Op, clock: u64, id: u64)
    requires Orderly(s, clock) && MayCome(s, op, clock) && id in s.rooms && s.rooms[id].settlement.Some?
    ensures id in Step(s, op).rooms && SameOutcome(s.rooms[id], Step(s, op).rooms[id])
  {
    assert GoodRoom(s.rooms[id], clock);
    SettledRejectsAll(s.rooms[id], clock, op.now);
    hide RoomBid, RoomExtend, RoomCancel, RoomSettle, OriginError;
  }

  /** A settlement is final: over every later run the auction, its settlement and the winner's bid stay
      as they are, with the winning bid in escrow equal to the sum of the payouts. */
  lemma {:induction false} SettledIsFinal(s: State, ops: seq<Op>, clock: u64, id: u64)
    requires Orderly(s, clock) && Proper(s, ops, clock) && id in s.rooms && s.rooms[id].settlement.Some?
    ensures id in Run(s, ops).rooms && SameOutcome(s.rooms[id], Run(s, ops).rooms[id])
    ensures var t := Run(s, ops).rooms[id];
            Escrowed(t, t.settlement.value.winner)
            == t.settlement.value.voucherPayout + t.settlement.value.treasuryPayout == t.settlement.value.winningBid
    decreases |ops|
  {
    assert GoodRoom(s.rooms[id], clock);
    if ops == [] {
    } else {
      StepKeeps(s, ops[0], clock, Account(0));
      StepKeepsOutcome(s, ops[0], clock, id);
      hide Step, Orderly, GoodRoom;
      SettledIsFinal(Step(s, ops[0]), ops[1..], ops[0].now, id);
    }
  }

  // ---------- the contract ----------

  class AuctionHouse {
    var lots: map<u64, Lot>
    var bids: map<u64, map<Address, Bid>>
    var settlements: map<u64, Settlement>
    var held: map<Address, int>

    ghost function RoomOf(id: u64): Room
      requires id in lots
      reads this
    {
      Room(lots[id], BidsOn(id), if id in settlements then Some(settlements[id]) else None)
    }

    function BidsOn(id: u64): map<Address, Bid>
      reads this
    {
      if id in bids then bids[id] else map[]
    }

    /** Bids and settlements are only stored for auctions that exist. */
    ghost predicate Valid()
      reads this
    {
      bids.Keys <= lots.Keys && settlements.Keys <= lots.Keys
    }

    ghost function Contents(): State
      reads this
    {
      State(map id | id in lots :: RoomOf(id), held)
    }

    constructor ()
      ensures Valid() && Contents() == EMPTY
    {
      lots, bids, settlements, held := map[], map[], map[], map[];
    }

    method CreateCrossChainAuction(borrower: Address, collateral: i128, token: Address, duration: u64,
                                   reserve: i128, chains: seq<u32>, now: u64) returns (r: Result<u64>)
      requires Valid()
      modifies this
      ensures Valid()
      ensures (Contents(), r) ==
              Create(old(Contents()), Lot(borrower, collateral, token, 0, 0, reserve, 0, None, 0, false, chains),
                     duration, now)
    {
      if collateral <= 0 {
        return Err(InvalidAmount);
      }
      if duration == 0 {
        return Err(InvalidAmount);
      }
      if reserve < 0 {
        return Err(InvalidAmount);
      }
      if now + duration > U64_MAX {
        return Err(Overflow);
      }
      lots := lots[now := Lot(borrower, collateral, token, now, now + duration, reserve, 0, None, 0, false, chains)];
      assert Contents().rooms == old(Contents()).rooms[now := RoomOf(now)];
      return Ok(now);
    }

    /** A bid from another chain needs an active bridge and an attestation that verifies. */
    method CheckOrigin(origin: Origin) returns (r: Result<()>)
      ensures r.Ok? <==> (origin.Remote? ==> origin.bridgeActive && origin.attestation == Some(true))
      ensures r == match OriginError(origin) case None => Ok(()) case Some(e) => Err(e)
    {
      if origin.Remote? {
        if !origin.bridgeActive {
          return Err(InvalidChain);
        }
        if origin.attestation.None? {
          return Err(BridgeAttestationRequired);
        }
        if !origin.attestation.value {
          return Err(AttestationRejected);
        }
      }
      return Ok(());
    }

    method PlaceBidOn(id: u64, bidder: Address, amount: i128, origin: Origin, pays: bool, now: u64)
      returns (r: Result<()>)
      requires Valid()
      modifies this
      ensures Valid()
      ensures (Contents(), r) == PlaceBid(old(Contents()), id, bidder, amount, origin, pays, now)
    {
      if amount <= 0 {
        return Err(InvalidAmount);
      }
      var checked := CheckOrigin(origin);
      if checked.Err? {
        return checked;
      }
      if id !in lots {
        return Err(NoActiveLoan);
      }
      hide RoomBid;
      assert Contents().rooms[id] == RoomOf(id);
      var token := lots[id].token;
      var paid := RecordBid(id, bidder, amount, ChainOf(origin), pays, now);
      if paid.Err? {
        return Err(paid.error);
      }
      ghost var rooms := Contents().rooms;
      held := held[token := Value(held, token) + paid.value];
      assert Contents().rooms == rooms;
      return Ok(());
    }

    /** Records a bid and says what the bidder has to transfer in: on a raised bid only the difference. */
    method RecordBid(id: u64, bidder: Address, amount: i128, chainId: u32, pays: bool, now: u64)
      returns (r: Result<int>)
      requires Valid() && id in lots && amount > 0
      modifies `lots, `bids
      ensures Valid() && id in lots
      ensures (RoomOf(id), r) == RoomBid(old(RoomOf(id)), bidder, amount, chainId, pays, now)
      ensures Contents().rooms == if r.Ok? then old(Contents()).rooms[id := RoomOf(id)] else old(Contents()).rooms
    {
      var lot := lots[id];
      if now < lot.start || now >= lot.end {
        return Err(InvalidStateTransition);
      }
      if amount < lot.reserve {
        return Err(InsufficientFunds);
      }
      if amount <= lot.highestBid {
        return Err(InsufficientFunds);
      }
      var placed := BidsOn(id);
      var escrowed: int := if bidder in placed && !placed[bidder].refunded then placed[bidder].amount else 0;
      var due := amount - escrowed;
      if due > 0 && !pays {
        return Err(TransferFailed);
      }
      if lot.bidCount == U32_MAX {
        return Err(Overflow);
      }
      lot := lot.(highestBid := amount);
      lot := lot.(highestBidder := Some(bidder));
      lot := lot.(bidCount := lot.bidCount + 1);
      bids := bids[id := placed[bidder := Bid(amount, now, chainId, false)]];
      lots := lots[id := lot];
      assert forall j :: j != id && j in lots ==> BidsOn(j) == old(BidsOn(j));
      return Ok(if due > 0 then due else 0);
    }

    method ClaimRefundOf(id: u64, bidder: Address) returns (r: Result<()>)
      requires Valid()
      modifies this
      ensures Valid()
      ensures (Contents(), r) == ClaimRefund(old(Contents()), id, bidder)
    {
      if id !in lots {
        return Err(NoActiveLoan);
      }
      var lot, placed := lots[id], BidsOn(id);
      if bidder !in placed {
        return Err(NoRefundAvailable);
      }
      var bid := placed[bidder];
      if bid.refunded {
        return Err(NoRefundAvailable);
      }
      var leads := lot.highestBidder == Some(bidder);
      if id in settlements && leads {
        return Err(NoRefundAvailable);
      }
      if !lot.settled && leads {
        return Err(NoRefundAvailable);
      }
      if Value(held, lot.token) < bid.amount {
        return Err(TransferFailed);
      }
      bids := bids[id := placed[bidder := bid.(refunded := true)]];
      held := held[lot.token := Value(held, lot.token) - bid.amount];
      assert Contents().rooms == old(Contents()).rooms[id := RoomOf(id)];
      return Ok(());
    }

    method SettleAuction(id: u64, now: u64) returns (r: Result<()>)
      requires Valid()
      modifies this
      ensures Valid()
      ensures (Contents(), r) == Settle(old(Contents()), id, now)
    {
      if id !in lots {
        return Err(NoActiveLoan);
      }
      var lot := lots[id];
      if now < lot.end {
        return Err(InvalidStateTransition);
      }
      if lot.settled {
        return Err(InvalidStateTransition);
      }
      if lot.highestBidder.None? || lot.highestBid < lot.reserve {
        return Err(InsufficientFunds);
      }
      var winner, winningBid := lot.highestBidder.value, lot.highestBid;
      if !FitsI128(winningBid * 80) {
        return Err(Overflow);
      }
      PayoutsFit(winningBid);
      var voucherPayout: i128 := TruncDiv(winningBid * 80, 100);
      var treasuryPayout: i128 := winningBid - voucherPayout;
      lots := lots[id := lot.(settled := true)];
      settlements := settlements[id := Settlement(winningBid, winner, winningBid, now, voucherPayout, treasuryPayout)];
      assert Contents().rooms == old(Contents()).rooms[id := RoomOf(id)];
      return Ok(());
    }

    method ExtendAuction(id: u64, newEnd: u64, now: u64) returns (r: Result<()>)
      requires Valid()
      modifies this
      ensures Valid()
      ensures (Contents(), r) == Extend(old(Contents()), id, newEnd, now)
    {
      if id !in lots {
        return Err(NoActiveLoan);
      }
      var lot := lots[id];
      if lot.bidCount > 0 && now >= lot.end {
        return Err(InvalidStateTransition);
      }
      if newEnd <= lot.end {
        return Err(InvalidStateTransition);
      }
      lots := lots[id := lot.(end := newEnd)];
      assert Contents().rooms == old(Contents()).rooms[id := RoomOf(id)];
      return Ok(());
    }

    method CancelAuction(id: u64) returns (r: Result<()>)
      requires Valid()
      modifies this
      ensures Valid()
      ensures (Contents(), r) == Cancel(old(Contents()), id)
    {
      if id !in lots {
        return Err(NoActiveLoan);
      }
      var lot := lots[id];
      if lot.settled {
        return Err(InvalidStateTransition);
      }
      if lot.highestBidder.Some? {
        var leader, placed := lot.highestBidder.value, BidsOn(id);
        if leader in placed {
          bids := bids[id := placed[leader := placed[leader].(refunded := true)]];
        }
      }
      lots := lots[id := lot.(settled := true)];
      assert Contents().rooms == old(Contents()).rooms[id := RoomOf(id)];
      return Ok(());
    }
  }
}
