/** Batches of credential operations that are validated as a whole before any of them is applied. */
module CredentialBatch {
  import opened Host
  import AuditCodec
  import AuditTrail
  import RateLimit

  const MAX_BATCH_OPERATIONS: nat := 20

  datatype BatchOperation =
    | AppendAuditEntry(holder: Address, event: seq<byte>)
    | SetVerificationRateLimit(holder: Address, limit: u32)

  datatype Status = Pending | Executed

  datatype Batch = Batch(id: u64, operations: seq<BatchOperation>, status: Status, createdAt: u64, executedAt: u64)

  datatype State = State(
    audit: AuditTrail.State, rates: RateLimit.State, batches: map<u64, Batch>, counter: u64)

  function HotCount(audit: AuditTrail.State, holder: Address): nat {
    |AuditTrail.TrailOf(audit, holder).hot|
  }

  /** The number of entries that `ops` append for `holder`. */
  function Appends(ops: seq<BatchOperation>, holder: Address): nat {
    if ops == [] then 0
    else Appends(ops[..|ops| - 1], holder)
         + if ops[|ops| - 1].AppendAuditEntry? && ops[|ops| - 1].holder == holder then 1 else 0
  }

  /** The entries that one operation, executed at `now`, appends for `holder`. */
  function EntryFor(op: BatchOperation, holder: Address, now: u64): seq<AuditCodec.AuditEntry> {
    if op.AppendAuditEntry? && op.holder == holder then [AuditCodec.AuditEntry(now, op.event)] else []
  }

  /** The entries that `ops`, executed at `now`, append for `holder`, in batch order. */
  function EntriesFor(ops: seq<BatchOperation>, holder: Address, now: u64): seq<AuditCodec.AuditEntry> {
    if ops == [] then [] else EntryFor(ops[0], holder, now) + EntriesFor(ops[1..], holder, now)
  }

  // ---------- validating ----------

  function InputError(op: BatchOperation): Option<ContractError> {
    match op
    case AppendAuditEntry(_, event) => if AuditCodec.ValidEvent(event) then None else Some(InvalidAuditEvent)
    case SetVerificationRateLimit(_, limit) => if RateLimit.ValidLimit(limit) then None else Some(InvalidRateLimit)
  }

  predicate InputsValid(ops: seq<BatchOperation>) {
    forall i :: 0 <= i < |ops| ==> InputError(ops[i]) == None
  }

  predicate AllAuthorized(authorized: set<Address>, ops: seq<BatchOperation>) {
    forall i :: 0 <= i < |ops| ==> ops[i].holder in authorized
  }

  /** Every hot trail has room for all the entries that `ops` append to it. */
  predicate Fits(audit: AuditTrail.State, ops: seq<BatchOperation>) {
    forall i :: 0 <= i < |ops| && ops[i].AppendAuditEntry? ==>
      HotCount(audit, ops[i].holder) + Appends(ops, ops[i].holder) <= AuditTrail.MAX_HOT_ENTRIES
  }

  /** The first complaint about an operation, in batch order: authorization before input. */
  function Complaint(authorized: set<Address>, ops: seq<BatchOperation>): Option<ContractError> {
    if ops == [] then None
    else if ops[0].holder !in authorized then Some(Unauthorized)
    else if InputError(ops[0]).Some? then InputError(ops[0])
    else Complaint(authorized, ops[1..])
  }

  function Check(authorized: set<Address>, audit: AuditTrail.State, ops: seq<BatchOperation>): Result<()> {
    match Complaint(authorized, ops)
    case Some(e) => Err(e)
    case None => if Fits(audit, ops) then Ok(()) else Err(AuditTrailFull)
  }

  // ---------- applying ----------

  function Apply(audit: AuditTrail.State, rates: RateLimit.State, op: BatchOperation, now: u64)
    : Result<(AuditTrail.State, RateLimit.State)>
  {
    match op
    case AppendAuditEntry(holder, event) =>
      (match AuditTrail.Append(AuditTrail.TrailOf(audit, holder), event, now)
       case (t, Ok(_)) => Ok((audit[holder := t], rates))
       case (_, Err(e)) => Err(e))
    case SetVerificationRateLimit(holder, limit) =>
      (match RateLimit.SetLimit(rates, holder, limit, now)
       case (r, Ok(_)) => Ok((audit, r))
       case (_, Err(e)) => Err(e))
  }

  /** The operations one by one, each on what the one before left; it stops at the first failure. */
  function ApplyAll(audit: AuditTrail.State, rates: RateLimit.State, ops: seq<BatchOperation>, now: u64)
    : Result<(AuditTrail.State, RateLimit.State)>
    decreases |ops|
  {
    if ops == [] then Ok((audit, rates))
    else
      match Apply(audit, rates, ops[0], now)
      case Err(e) => Err(e)
      case Ok((a, r)) => ApplyAll(a, r, ops[1..], now)
  }

  // ---------- the transitions ----------

  function Create(s: State, ops: seq<BatchOperation>, now: u64): (State, Result<u64>) {
    if ops == [] then (s, Err(EmptyBatch))
    else if |ops| > MAX_BATCH_OPERATIONS then (s, Err(BatchTooLarge))
    else
      match FirstInputError(ops)
      case Some(e) => (s, Err(e))
      case None =>
        if s.counter == U64_MAX then (s, Err(Overflow))
        else
          var id: u64 := s.counter + 1;
          (s.(counter := id, batches := s.batches[id := Batch(id, ops, Pending, now, 0)]), Ok(id))
  }

  function FirstInputError(ops: seq<BatchOperation>): Option<ContractError> {
    if ops == [] then None
    else if InputError(ops[0]).Some? then InputError(ops[0])
    else FirstInputError(ops[1..])
  }

  function Execute(s: State, authorized: set<Address>, id: u64, now: u64): (State, Result<()>) {
    if id !in s.batches then (s, Err(BatchNotFound))
    else if s.batches[id].status.Executed? then (s, Err(BatchAlreadyExecuted))
    else
      var ops := s.batches[id].operations;
      match Check(authorized, s.audit, ops)
      case Err(e) => (s, Err(e))
      case Ok(_) =>
        match ApplyAll(s.audit, s.rates, ops, now)
        case Err(e) => (s, Err(e))
        case Ok((a, r)) =>
          (s.(audit := a, rates := r,
              batches := s.batches[id := s.batches[id].(status := Executed, executedAt := now)]), Ok(()))
  }

  // ---------- validation rules out every failure of applying ----------

  lemma {:induction false} AppendsFirst(ops: seq<BatchOperation>, holder: Address)
    requires ops != []
    ensures Appends(ops, holder) == Appends(ops[1..], holder)
            + if ops[0].AppendAuditEntry? && ops[0].holder == holder then 1 else 0
  {
    if |ops| == 1 {
    } else {
      AppendsFirst(ops[..|ops| - 1], holder);
      assert ops[..|ops| - 1][1..] == ops[1..][..|ops| - 2];
    }
  }

  lemma {:induction false} AppendsPositive(ops: seq<BatchOperation>, holder: Address)
    ensures Appends(ops, holder) > 0 <==>
            exists i :: 0 <= i < |ops| && ops[i].AppendAuditEntry? && ops[i].holder == holder
  {
    if ops == [] {
    } else {
      var front := ops[..|ops| - 1];
      AppendsPositive(front, holder);
      if i :| 0 <= i < |ops| && ops[i].AppendAuditEntry? && ops[i].holder == holder && i < |front| {
        assert front[i] == ops[i];
      }
    }
  }

  /** Room for every holder, said without reference to positions in the list. */
  lemma FitsByHolder(audit: AuditTrail.State, ops: seq<BatchOperation>)
    ensures Fits(audit, ops) <==>
            forall h :: Appends(ops, h) > 0 ==> HotCount(audit, h) + Appends(ops, h) <= AuditTrail.MAX_HOT_ENTRIES
  {
    forall h ensures Appends(ops, h) > 0 <==>
                     exists i :: 0 <= i < |ops| && ops[i].AppendAuditEntry? && ops[i].holder == h {
      AppendsPositive(ops, h);
    }
  }

  lemma FitsStep(audit: AuditTrail.State, rates: RateLimit.State, ops: seq<BatchOperation>, now: u64)
    requires ops != [] && InputError(ops[0]) == None
    ensures Fits(audit, ops) <==>
            var r := Apply(audit, rates, ops[0], now); r.Ok? && Fits(r.value.0, ops[1..])
  {
    var op, rest := ops[0], ops[1..];
    FitsByHolder(audit, ops);
    forall h ensures Appends(ops, h) ==
                     Appends(rest, h) + if op.AppendAuditEntry? && op.holder == h then 1 else 0 {
      AppendsFirst(ops, h);
    }
    var r := Apply(audit, rates, op, now);
    if r.Ok? {
      FitsByHolder(r.value.0, rest);
      forall h ensures HotCount(r.value.0, h) ==
                       HotCount(audit, h) + if op.AppendAuditEntry? && op.holder == h then 1 else 0 {
      }
    } else {
      assert HotCount(audit, op.holder) >= AuditTrail.MAX_HOT_ENTRIES && Appends(ops, op.holder) > 0;
    }
  }

  lemma {:induction false} AppliesExactlyWhen(
    audit: AuditTrail.State, rates: RateLimit.State, ops: seq<BatchOperation>, now: u64)
    ensures ApplyAll(audit, rates, ops, now).Ok? <==> InputsValid(ops) && Fits(audit, ops)
    decreases |ops|
  {
    if ops == [] {
    } else {
      var r := Apply(audit, rates, ops[0], now);
      assert r.Ok? ==> InputError(ops[0]) == None;
      assert InputsValid(ops) <==> InputError(ops[0]) == None && InputsValid(ops[1..]);
      if InputError(ops[0]) == None {
        FitsStep(audit, rates, ops, now);
        if r.Ok? {
          AppliesExactlyWhen(r.value.0, r.value.1, ops[1..], now);
        }
      }
    }
  }

  lemma {:induction false} NoComplaintExactlyWhen(authorized: set<Address>, ops: seq<BatchOperation>)
    ensures Complaint(authorized, ops) == None <==> AllAuthorized(authorized, ops) && InputsValid(ops)
  {
    if ops == [] {
    } else {
      NoComplaintExactlyWhen(authorized, ops[1..]);
      assert AllAuthorized(authorized, ops) <==> ops[0].holder in authorized && AllAuthorized(authorized, ops[1..]);
      assert InputsValid(ops) <==> InputError(ops[0]) == None && InputsValid(ops[1..]);
    }
  }

  /** The validation accepts a list of operations if and only if its holders have authorized it and
      applying the operations one by one succeeds at every step. */
  lemma CheckIffApplies(
    authorized: set<Address>, audit: AuditTrail.State, rates: RateLimit.State, ops: seq<BatchOperation>, now: u64)
    ensures Check(authorized, audit, ops).Ok? <==>
            AllAuthorized(authorized, ops) && ApplyAll(audit, rates, ops, now).Ok?
  {
    NoComplaintExactlyWhen(authorized, ops);
    AppliesExactlyWhen(audit, rates, ops, now);
  }

  /** What a batch does to a holder: its hot trail grows by exactly the batch's entries for it, in batch
      order, and nothing else of its audit record changes. */
  lemma BatchExtendsTrails(
    audit: AuditTrail.State, rates: RateLimit.State, ops: seq<BatchOperation>, now: u64, holder: Address)
    requires ApplyAll(audit, rates, ops, now).Ok?
    ensures var before, after := AuditTrail.TrailOf(audit, holder),
                                 AuditTrail.TrailOf(ApplyAll(audit, rates, ops, now).value.0, holder);
            && after == before.(hot := before.hot + EntriesFor(ops, holder, now))
            && |after.hot| == |before.hot| + Appends(ops, holder)
  {
    BatchAppends(audit, rates, ops, now, holder);
    EntriesForCount(ops, holder, now);
    hide *;
  }

  /** The trail with `entries` appended. */
  function Extended(t: AuditTrail.Trail, entries: seq<AuditCodec.AuditEntry>): AuditTrail.Trail {
    t.(hot := t.hot + entries)
  }

  lemma {:induction false} BatchAppends(
    audit: AuditTrail.State, rates: RateLimit.State, ops: seq<BatchOperation>, now: u64, holder: Address)
    requires ApplyAll(audit, rates, ops, now).Ok?
    ensures AuditTrail.TrailOf(ApplyAll(audit, rates, ops, now).value.0, holder)
         == Extended(AuditTrail.TrailOf(audit, holder), EntriesFor(ops, holder, now))
    decreases |ops|
  {
    hide Apply, AuditTrail.TrailOf;
    var before := AuditTrail.TrailOf(audit, holder);
    if ops == [] {
      assert before.hot + [] == before.hot;
    } else {
      var (a, r) := Apply(audit, rates, ops[0], now).value;
      ApplyExtendsTrail(audit, rates, ops[0], now, holder);
      BatchAppends(a, r, ops[1..], now, holder);
      ExtendedTwice(before, EntryFor(ops[0], holder, now), EntriesFor(ops[1..], holder, now));
      hide Extended, EntryFor;
    }
  }

  lemma ExtendedTwice(t: AuditTrail.Trail, xs: seq<AuditCodec.AuditEntry>, ys: seq<AuditCodec.AuditEntry>)
    ensures Extended(Extended(t, xs), ys) == Extended(t, xs + ys)
  {
    assert t.hot + xs + ys == t.hot + (xs + ys);
  }

  lemma {:induction false} EntriesForCount(ops: seq<BatchOperation>, holder: Address, now: u64)
    ensures |EntriesFor(ops, holder, now)| == Appends(ops, holder)
  {
    if ops == [] {
    } else {
      EntriesForCount(ops[1..], holder, now);
      AppendsFirst(ops, holder);
    }
  }

  lemma ApplyExtendsTrail(
    audit: AuditTrail.State, rates: RateLimit.State, op: BatchOperation, now: u64, holder: Address)
    requires Apply(audit, rates, op, now).Ok?
    ensures AuditTrail.TrailOf(Apply(audit, rates, op, now).value.0, holder)
         == Extended(AuditTrail.TrailOf(audit, holder), EntryFor(op, holder, now))
  {
    var before := AuditTrail.TrailOf(audit, holder);
    assert before.hot + [] == before.hot;
  }

  /** The limit that `ops` leave a holder: the last one they set, if any. */
  function LastLimit(ops: seq<BatchOperation>, holder: Address): Option<u32> {
    if ops == [] then None
    else
      match LastLimit(ops[1..], holder)
      case Some(limit) => Some(limit)
      case None =>
        if ops[0].SetVerificationRateLimit? && ops[0].holder == holder then Some(ops[0].limit) else None
  }

  /** The holder has the new limit with a full bucket, or without a new one its old limit and bucket. */
  predicate LimitAfter(
    before: RateLimit.State, after: RateLimit.State, limit: Option<u32>, holder: Address, now: u64)
  {
    match limit
    case Some(n) =>
      && holder in after.buckets && after.buckets[holder] == RateLimit.Bucket(n, now)
      && RateLimit.ConfigOf(after, holder) == RateLimit.ConfigOf(before, holder).(limit := n, updatedAt := now)
    case None =>
      && RateLimit.ConfigOf(after, holder) == RateLimit.ConfigOf(before, holder)
      && (holder in after.buckets <==> holder in before.buckets)
      && (holder in before.buckets ==> after.buckets[holder] == before.buckets[holder])
  }

  /** The holder's limit after a batch is the last one the batch sets, with a full bucket; a holder whose
      limit the batch does not set keeps its configuration and bucket. */
  lemma {:induction false} BatchSetsLimits(
    audit: AuditTrail.State, rates: RateLimit.State, ops: seq<BatchOperation>, now: u64, holder: Address)
    requires ApplyAll(audit, rates, ops, now).Ok?
    ensures LimitAfter(rates, ApplyAll(audit, rates, ops, now).value.1, LastLimit(ops, holder), holder, now)
    decreases |ops|
  {
    if ops == [] {
    } else {
      var r := Apply(audit, rates, ops[0], now).value;
      BatchSetsLimits(r.0, r.1, ops[1..], now, holder);
    }
  }

  // ---------- runs ----------

  /** `Outside` stands for anything the rest of the contract does to trails and limits. */
  datatype Op =
    | DoCreate(operations: seq<BatchOperation>, now: u64)
    | DoExecute(authorized: set<Address>, id: u64, now: u64)
    | Outside(audit: AuditTrail.State, rates: RateLimit.State)

  function Step(s: State, op: Op): State {
    match op
    case DoCreate(operations, now) => Create(s, operations, now).0
    case DoExecute(authorized, id, now) => Execute(s, authorized, id, now).0
    case Outside(audit, rates) => s.(audit := audit, rates := rates)
  }

  function Run(s: State, ops: seq<Op>): State
    decreases |ops|
  {
    if ops == [] then s else Run(Step(s, ops[0]), ops[1..])
  }

  /** How often a run applies batch `id`. */
  function Executions(s: State, ops: seq<Op>, id: u64): nat
    decreases |ops|
  {
    if ops == [] then 0
    else (if ops[0].DoExecute? && ops[0].id == id && Execute(s, ops[0].authorized, id, ops[0].now).1.Ok? then 1 else 0)
         + Executions(Step(s, ops[0]), ops[1..], id)
  }

  /** Batches carry their own id, at most the counter's, and were validated when they were created. */
  predicate Sound(s: State) {
    forall id :: id in s.batches ==>
      && id <= s.counter && s.batches[id].id == id
      && 0 < |s.batches[id].operations| <= MAX_BATCH_OPERATIONS
      && InputsValid(s.batches[id].operations)
  }

  lemma {:induction false} FirstInputErrorNone(ops: seq<BatchOperation>)
    ensures FirstInputError(ops) == None <==> InputsValid(ops)
  {
    if ops == [] {
    } else {
      FirstInputErrorNone(ops[1..]);
      assert InputsValid(ops) <==> InputError(ops[0]) == None && InputsValid(ops[1..]);
    }
  }

  lemma StepKeepsSound(s: State, op: Op)
    requires Sound(s)
    ensures Sound(Step(s, op))
  {
    if op.DoCreate? {
      FirstInputErrorNone(op.operations);
    }
  }

  lemma {:induction false} RunKeepsSound(s: State, ops: seq<Op>)
    requires Sound(s)
    ensures Sound(Run(s, ops))
    decreases |ops|
  {
    if ops == [] {
    } else {
      StepKeepsSound(s, ops[0]);
      RunKeepsSound(Step(s, ops[0]), ops[1..]);
    }
  }

  /** A batch is applied at most once, whatever happens between the attempts. */
  lemma {:induction false} AppliedAtMostOnce(s: State, ops: seq<Op>, id: u64)
    requires Sound(s)
    ensures Executions(s, ops, id) <= if id in s.batches && s.batches[id].status.Executed? then 0 else 1
    decreases |ops|
  {
    if ops == [] {
    } else {
      StepKeepsSound(s, ops[0]);
      AppliedAtMostOnce(Step(s, ops[0]), ops[1..], id);
    }
  }

  /** The operations of a recorded batch are never changed. */
  lemma {:induction false} OperationsImmutable(s: State, ops: seq<Op>, id: u64)
    requires Sound(s) && id in s.batches
    ensures id in Run(s, ops).batches && Run(s, ops).batches[id].operations == s.batches[id].operations
    decreases |ops|
  {
    if ops == [] {
    } else {
      StepKeepsSound(s, ops[0]);
      OperationsImmutable(Step(s, ops[0]), ops[1..], id);
    }
  }

  lemma {:induction false} ComplaintKinds(authorized: set<Address>, ops: seq<BatchOperation>)
    requires InputsValid(ops)
    ensures Complaint(authorized, ops) == if AllAuthorized(authorized, ops) then None else Some(Unauthorized)
  {
    if ops == [] {
    } else {
      assert InputsValid(ops[1..]);
      ComplaintKinds(authorized, ops[1..]);
      assert AllAuthorized(authorized, ops) <==> ops[0].holder in authorized && AllAuthorized(authorized, ops[1..]);
    }
  }

  /** A batch is recorded exactly when it has 1 to 20 operations that are all valid; it gets an id that no
      batch had, is pending, and nothing is applied yet. */
  lemma CreateOutcome(s: State, ops: seq<BatchOperation>, now: u64)
    requires Sound(s)
    ensures var (t, r) := Create(s, ops, now);
            && (r.Ok? <==>
                  && 1 <= |ops| <= 20 && s.counter < U64_MAX
                  && forall i :: 0 <= i < |ops| ==>
                       match ops[i]
                       case AppendAuditEntry(_, event) => 1 <= |event| <= 256
                       case SetVerificationRateLimit(_, limit) => 1 <= limit <= 1000)
            && (r.Ok? ==> r.value !in s.batches && t.audit == s.audit && t.rates == s.rates
                          && t.batches == s.batches[r.value := Batch(r.value, ops, Pending, now, 0)])
            && (r.Err? ==> t == s)
            && (ops == [] ==> r == Err(EmptyBatch)) && (|ops| > 20 ==> r == Err(BatchTooLarge))
  {
    FirstInputErrorNone(ops);
  }

  /** What a successful execution applies: every holder's trail grows by the batch's entries for it in batch
      order, the limits and buckets of holders are those the batch sets last and stay as they are without
      one, and of the batches only this one changes, which is marked executed.  A failure changes nothing. */
  lemma ExecutionApplies(s: State, authorized: set<Address>, id: u64, now: u64, holder: Address)
    ensures var (t, r) := Execute(s, authorized, id, now);
            && (r.Err? ==> t == s)
            && (r.Ok? ==>
                  && id in s.batches && t.counter == s.counter
                  && t.batches == s.batches[id := s.batches[id].(status := Executed, executedAt := now)]
                  && var ops, before := s.batches[id].operations, AuditTrail.TrailOf(s.audit, holder);
                     && AuditTrail.TrailOf(t.audit, holder)
                        == before.(hot := before.hot + EntriesFor(ops, holder, now))
                     && LimitAfter(s.rates, t.rates, LastLimit(ops, holder), holder, now))
  {
    var (t, r) := Execute(s, authorized, id, now);
    if r.Ok? {
      BatchExtendsTrails(s.audit, s.rates, s.batches[id].operations, now, holder);
      BatchSetsLimits(s.audit, s.rates, s.batches[id].operations, now, holder);
    }
    hide ApplyAll, Check, AuditTrail.TrailOf, LimitAfter, EntriesFor, LastLimit;
  }

  /** In every reachable state, executing a batch ends in exactly one of five ways: it is missing, was
      executed before, lacks an authorization, does not fit, or is applied in full. */
  lemma ReachableExecuteOutcome(ops: seq<Op>, authorized: set<Address>, id: u64, now: u64)
    ensures var s := Run(State(map[], RateLimit.State(map[], map[]), map[], 0), ops);
            Execute(s, authorized, id, now).1 ==
            if id !in s.batches then Err(BatchNotFound)
            else if s.batches[id].status.Executed? then Err(BatchAlreadyExecuted)
            else if !AllAuthorized(authorized, s.batches[id].operations) then Err(Unauthorized)
            else if !Fits(s.audit, s.batches[id].operations) then Err(AuditTrailFull)
            else Ok(())
  {
    var init := State(map[], RateLimit.State(map[], map[]), map[], 0);
    RunKeepsSound(init, ops);
    var s := Run(init, ops);
    if id in s.batches {
      ComplaintKinds(authorized, s.batches[id].operations);
      CheckIffApplies(authorized, s.audit, s.rates, s.batches[id].operations, now);
    }
  }

  // ---------- the store ----------

  class BatchStore {
    const audit: AuditTrail.AuditStore
    const rates: RateLimit.RateLimitStore
    var batches: map<u64, Batch>
    var counter: u64

    ghost function Contents(): State
      reads this, audit, rates
    {
      State(audit.Contents(), rates.Contents(), batches, counter)
    }

    constructor (audit: AuditTrail.AuditStore, rates: RateLimit.RateLimitStore)
      ensures this.audit == audit && this.rates == rates
      ensures Contents() == State(audit.Contents(), rates.Contents(), map[], 0)
    {
      this.audit, this.rates := audit, rates;
      batches, counter := map[], 0;
    }

    method CreateBatchOperation(operations: seq<BatchOperation>, now: u64) returns (r: Result<u64>)
      modifies this
      ensures (Contents(), r) == Create(old(Contents()), operations, now)
    {
      if |operations| == 0 {
        return Err(EmptyBatch);
      }
      if |operations| > MAX_BATCH_OPERATIONS {
        return Err(BatchTooLarge);
      }
      assert operations[0..] == operations;
      for i := 0 to |operations|
        invariant FirstInputError(operations) == FirstInputError(operations[i..])
      {
        assert operations[i..][1..] == operations[i + 1..];
        match InputError(operations[i]) {
          case Some(e) => return Err(e);
          case None =>
        }
      }
      if counter == U64_MAX {
        return Err(Overflow);
      }
      counter := counter + 1;
      batches := batches[counter := Batch(counter, operations, Pending, now, 0)];
      return Ok(counter);
    }

    /** The validation pass: it counts the pending entries of each holder and writes nothing. */
    method CheckBatch(authorized: set<Address>, operations: seq<BatchOperation>) returns (r: Result<()>)
      ensures r == Check(authorized, audit.Contents(), operations)
    {
      var pending: map<Address, nat> := map[];
      assert operations[0..] == operations;
      for i := 0 to |operations|
        invariant Complaint(authorized, operations) == Complaint(authorized, operations[i..])
        invariant forall h :: h in pending <==> Appends(operations[..i], h) > 0
        invariant forall h :: h in pending ==> pending[h] == Appends(operations[..i], h)
      {
        var op := operations[i];
        assert operations[i..][1..] == operations[i + 1..];
        assert operations[..i + 1][..i] == operations[..i];
        if op.holder !in authorized {
          return Err(Unauthorized);
        }
        match InputError(op) {
          case Some(e) => return Err(e);
          case None =>
        }
        if op.AppendAuditEntry? {
          var soFar := if op.holder in pending then pending[op.holder] else 0;
          pending := pending[op.holder := soFar + 1];
        }
      }
      assert operations[..|operations|] == operations;
      FitsByHolder(audit.Contents(), operations);
      var holders := pending.Keys;
      while holders != {}
        invariant holders <= pending.Keys
        invariant forall h :: h in pending.Keys - holders ==>
                    HotCount(audit.Contents(), h) + pending[h] <= AuditTrail.MAX_HOT_ENTRIES
      {
        var holder :| holder in holders;
        var hot := |if holder in audit.trails then audit.trails[holder] else []|;
        assert hot == HotCount(audit.Contents(), holder);
        if hot + pending[holder] > AuditTrail.MAX_HOT_ENTRIES {
          return Err(AuditTrailFull);
        }
        holders := holders - {holder};
      }
      return Ok(());
    }

    /** Executes a batch in two phases.  No write is taken back anywhere in this body: when the call
        fails, nothing has been written. */
    method ExecuteBatchOperation(authorized: set<Address>, id: u64, now: u64) returns (r: Result<()>)
      modifies this, audit, rates
      ensures (Contents(), r) == Execute(old(Contents()), authorized, id, now)
      ensures r.Err? ==> Contents() == old(Contents())
    {
      if id !in batches {
        return Err(BatchNotFound);
      }
      var batch := batches[id];
      if batch.status.Executed? {
        return Err(BatchAlreadyExecuted);
      }
      var checked := CheckBatch(authorized, batch.operations);
      if checked.Err? {
        return checked;
      }
      ghost var whole := ApplyAll(audit.Contents(), rates.Contents(), batch.operations, now);
      CheckIffApplies(authorized, audit.Contents(), rates.Contents(), batch.operations, now);
      assert batch.operations[0..] == batch.operations;
      for i := 0 to |batch.operations|
        invariant batches == old(batches) && counter == old(counter)
        invariant whole.Ok? && whole == ApplyAll(audit.Contents(), rates.Contents(), batch.operations[i..], now)
      {
        assert batch.operations[i..][1..] == batch.operations[i + 1..];
        var op := batch.operations[i];
        match op {
          case AppendAuditEntry(holder, event) =>
            var appended := audit.AppendEntry(holder, event, now);
            if appended.Err? {
              assert false;
            }
          case SetVerificationRateLimit(holder, limit) =>
            var configured := rates.SetVerificationRateLimit(holder, limit, now);
            if configured.Err? {
              assert false;
            }
        }
      }
      batches := batches[id := batch.(status := Executed, executedAt := now)];
      return Ok(());
    }
  }
}
