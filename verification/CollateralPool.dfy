/** Pools of collateral to which members contribute on this chain or from another one. */
module CollateralPool {
  import opened Host
  import opened Sequences
  import opened Sums

  const NATIVE: u32 := 0

  /** The members with their stakes and chains, in three parallel lists. */
  datatype Pool = Pool(
    members: seq<Address>, stakes: seq<i128>, chains: seq<u32>, token: Address,
    borrower: Option<Address>, active: bool, createdAt: u64)

  /** `listed` is the reverse index from members to pools; `held` is, per token, what was transferred in
      for pools less what was transferred out. */
  datatype State = State(pools: map<u64, Pool>, counter: u64, listed: set<(Address, u64)>, held: map<Address, int>)

  const EMPTY := State(map[], 0, {}, map[])

  /** Who is bridge-validated for which chain, and which tokens are allowed. */
  datatype Setting = Setting(validated: set<(Address, u32)>, allowed: set<Address>)

  function Held(s: State, token: Address): int {
    Value(s.held, token)
  }

  // ---------- the transitions ----------

  /** The outcome of a transfer in: refused, or a change of the contract's balance that has to be exact. */
  function TransferError(received: Option<int>, stake: i128): Option<ContractError> {
    match received
    case None => Some(TransferFailed)
    case Some(n) => if n == stake then None else Some(InsufficientFunds)
  }

  function Create(
    s: State, env: Setting, creator: Address, token: Address, stake: i128, received: Option<int>, now: u64)
    : (State, Result<u64>)
  {
    if stake <= 0 then (s, Err(InsufficientFunds))
    else if token !in env.allowed then (s, Err(TokenNotAllowed))
    else if s.counter == U64_MAX then (s, Err(Overflow))
    else if TransferError(received, stake).Some? then (s, Err(TransferError(received, stake).value))
    else
      var id: u64 := s.counter + 1;
      (State(s.pools[id := Pool([creator], [stake], [NATIVE], token, None, false, now)], id,
             s.listed + {(creator, id)}, s.held[token := Held(s, token) + stake]),
       Ok(id))
  }

  function WithMember(p: Pool, v: Address, stake: i128, chain: u32): Pool {
    p.(members := p.members + [v], stakes := p.stakes + [stake], chains := p.chains + [chain])
  }

  function EntryError(s: State, id: u64, v: Address): Option<ContractError> {
    if id !in s.pools then Some(CollateralPoolNotFound)
    else if s.pools[id].active then Some(CollateralPoolActive)
    else if v in s.pools[id].members then Some(DuplicateVouch)
    else None
  }

  function Join(s: State, v: Address, id: u64, stake: i128, received: Option<int>): (State, Result<()>) {
    if stake <= 0 then (s, Err(InsufficientFunds))
    else if EntryError(s, id, v).Some? then (s, Err(EntryError(s, id, v).value))
    else if TransferError(received, stake).Some? then (s, Err(TransferError(received, stake).value))
    else
      var token := s.pools[id].token;
      (s.(pools := s.pools[id := WithMember(s.pools[id], v, stake, NATIVE)], listed := s.listed + {(v, id)},
          held := s.held[token := Held(s, token) + stake]),
       Ok(()))
  }

  /** Joining from another chain transfers nothing here. */
  function JoinCrossChain(s: State, env: Setting, v: Address, id: u64, stake: i128, chain: u32): (State, Result<()>) {
    if stake <= 0 then (s, Err(InsufficientFunds))
    else if (v, chain) !in env.validated then (s, Err(InvalidChain))
    else if EntryError(s, id, v).Some? then (s, Err(EntryError(s, id, v).value))
    else
      (s.(pools := s.pools[id := WithMember(s.pools[id], v, stake, chain)], listed := s.listed + {(v, id)}), Ok(()))
  }

  function IndexOf(members: seq<Address>, v: Address): (r: Option<nat>)
    ensures r.Some? ==> r.value < |members| && members[r.value] == v && v !in members[..r.value]
    ensures r.None? <==> v !in members
  {
    First(members, (m: Address) => m == v)
  }

  function Without<T>(s: seq<T>, i: nat): seq<T>
    requires i < |s|
  {
    s[..i] + s[i + 1..]
  }

  predicate Aligned(p: Pool) {
    |p.members| == |p.stakes| == |p.chains|
  }

  function WithoutMember(p: Pool, i: nat): Pool
    requires Aligned(p) && i < |p.members|
  {
    p.(members := Without(p.members, i), stakes := Without(p.stakes, i), chains := Without(p.chains, i))
  }

  /** A withdrawal fails in the transfer when less is held than it pays. */
  function Leave(s: State, v: Address, id: u64): (State, Result<()>)
    requires forall j :: j in s.pools ==> Aligned(s.pools[j])
  {
    if id !in s.pools then (s, Err(CollateralPoolNotFound))
    else if s.pools[id].active then (s, Err(CollateralPoolActive))
    else
      match IndexOf(s.pools[id].members, v)
      case None => (s, Err(NotPoolMember))
      case Some(i) =>
        var p := s.pools[id];
        assert Aligned(p);
        var left := WithoutMember(p, i);
        var paid: int := if p.chains[i] == NATIVE && p.stakes[i] > 0 then p.stakes[i] else 0;
        if paid > 0 && Held(s, p.token) < paid then (s, Err(TransferFailed))
        else
          (s.(pools := s.pools[id := left], listed := s.listed - {(v, id)},
              held := if paid > 0 then s.held[p.token := Held(s, p.token) - paid] else s.held),
           Ok(()))
  }

  function Assign(s: State, id: u64, borrower: Address, hasLoan: bool): (State, Result<()>) {
    if id !in s.pools then (s, Err(CollateralPoolNotFound))
    else if s.pools[id].active then (s, Err(CollateralPoolActive))
    else if hasLoan then (s, Err(PoolBorrowerActiveLoan))
    else (s.(pools := s.pools[id := s.pools[id].(borrower := Some(borrower), active := true)]), Ok(()))
  }

  // ---------- stakes ----------

  /** The stakes that come from `chain`. */
  function ChainStake(stakes: seq<i128>, chains: seq<u32>, chain: u32): int
    requires |stakes| == |chains|
  {
    if stakes == [] then 0
    else ChainStake(stakes[..|stakes| - 1], chains[..|chains| - 1], chain)
         + if chains[|chains| - 1] == chain then stakes[|stakes| - 1] else 0
  }

  function NativeStake(p: Pool): int
    requires Aligned(p)
  {
    ChainStake(p.stakes, p.chains, NATIVE)
  }

  lemma ChainStakeAppend(stakes: seq<i128>, chains: seq<u32>, stake: i128, origin: u32, chain: u32)
    requires |stakes| == |chains|
    ensures ChainStake(stakes + [stake], chains + [origin], chain)
         == ChainStake(stakes, chains, chain) + if origin == chain then stake else 0
  {
    assert (stakes + [stake])[..|stakes|] == stakes && (chains + [origin])[..|chains|] == chains;
  }

  lemma {:induction false} ChainStakeWithout(stakes: seq<i128>, chains: seq<u32>, i: nat, chain: u32)
    requires |stakes| == |chains| && i < |stakes|
    ensures ChainStake(Without(stakes, i), Without(chains, i), chain)
         == ChainStake(stakes, chains, chain) - if chains[i] == chain then stakes[i] else 0
  {
    var last := |stakes| - 1;
    if i == last {
      assert Without(stakes, i) == stakes[..last] && Without(chains, i) == chains[..last];
    } else {
      ChainStakeWithout(stakes[..last], chains[..last], i, chain);
      assert Without(stakes, i) == Without(stakes[..last], i) + [stakes[last]];
      assert Without(chains, i) == Without(chains[..last], i) + [chains[last]];
      ChainStakeAppend(Without(stakes[..last], i), Without(chains[..last], i), stakes[last], chains[last], chain);
    }
  }

  lemma {:induction false} ChainStakeAtLeast(stakes: seq<i128>, chains: seq<u32>, i: nat, chain: u32)
    requires |stakes| == |chains| && forall j :: 0 <= j < |stakes| ==> stakes[j] > 0
    ensures ChainStake(stakes, chains, chain) >= 0
    ensures i < |stakes| && chains[i] == chain ==> ChainStake(stakes, chains, chain) >= stakes[i]
  {
    if stakes == [] {
    } else {
      ChainStakeAtLeast(stakes[..|stakes| - 1], chains[..|chains| - 1], i, chain);
    }
  }

  // ---------- runs ----------

  datatype Op =
    | DoCreate(creator: Address, token: Address, stake: i128, received: Option<int>, now: u64)
    | DoJoin(v: Address, id: u64, stake: i128, received: Option<int>)
    | DoJoinCrossChain(v: Address, id: u64, stake: i128, chain: u32)
    | DoLeave(v: Address, id: u64)
    | DoAssign(id: u64, borrower: Address, hasLoan: bool)

  /** A call, with the bridge validations and allowed tokens at the time: admins change both between calls. */
  datatype Call = Call(env: Setting, op: Op)

  function Step(s: State, env: Setting, op: Op): State
    requires forall j :: j in s.pools ==> Aligned(s.pools[j])
  {
    match op
    case DoCreate(creator, token, stake, received, now) => Create(s, env, creator, token, stake, received, now).0
    case DoJoin(v, id, stake, received) => Join(s, v, id, stake, received).0
    case DoJoinCrossChain(v, id, stake, chain) => JoinCrossChain(s, env, v, id, stake, chain).0
    case DoLeave(v, id) => Leave(s, v, id).0
    case DoAssign(id, borrower, hasLoan) => Assign(s, id, borrower, hasLoan).0
  }

  /** A pool has members that are distinct, each with a positive stake and a chain. */
  predicate GoodPool(p: Pool) {
    && Aligned(p)
    && (forall i, j :: 0 <= i < j < |p.members| ==> p.members[i] != p.members[j])
    && (forall i :: 0 <= i < |p.stakes| ==> p.stakes[i] > 0)
  }

  /** Pools are good, numbered up to the counter, and listed exactly with their members. */
  ghost predicate Sound(s: State) {
    && (forall id :: id in s.pools ==> GoodPool(s.pools[id]) && id <= s.counter)
    && (forall v, id :: (v, id) in s.listed <==> id in s.pools && v in s.pools[id].members)
  }

  lemma PoolReplaced(s: State, t: State, id: u64, p: Pool)
    requires Sound(s) && id in s.pools && t.pools == s.pools[id := p] && t.counter == s.counter && GoodPool(p)
    requires forall v :: (v, id) in t.listed <==> v in p.members
    requires forall v, j :: j != id ==> ((v, j) in t.listed <==> (v, j) in s.listed)
    ensures Sound(t)
  {
  }

  lemma CreateKeepsSound(s: State, env: Setting, op: Op)
    requires Sound(s) && op.DoCreate?
    ensures Sound(Step(s, env, op))
  {
    hide ChainStake, IndexOf;
    assert s.counter + 1 !in s.pools;
  }

  lemma StepKeepsSound(s: State, env: Setting, op: Op)
    requires Sound(s)
    ensures Sound(Step(s, env, op))
  {
    hide ChainStake;
    var t := Step(s, env, op);
    if t != s {
      match op {
        case DoCreate(creator, token, stake, received, now) => CreateKeepsSound(s, env, op);
        case DoJoin(v, id, stake, received) => PoolReplaced(s, t, id, t.pools[id]);
        case DoJoinCrossChain(v, id, stake, chain) => PoolReplaced(s, t, id, t.pools[id]);
        case DoLeave(v, id) =>
          LeaverGone(s.pools[id], IndexOf(s.pools[id].members, v).value);
          PoolReplaced(s, t, id, t.pools[id]);
        case DoAssign(id, borrower, hasLoan) => PoolReplaced(s, t, id, t.pools[id]);
      }
    }
  }

  lemma LeaverGone(p: Pool, i: nat)
    requires GoodPool(p) && i < |p.members|
    ensures var q := WithoutMember(p, i);
            GoodPool(q) && forall v :: v in q.members <==> v in p.members && v != p.members[i]
  {
    var members := Without(p.members, i);
    forall v | v in p.members && v != p.members[i] ensures v in members {
      var j :| 0 <= j < |p.members| && p.members[j] == v;
      assert members[if j < i then j else j - 1] == v;
    }
  }

  ghost function Run(s: State, calls: seq<Call>): State
    requires Sound(s)
    decreases |calls|
  {
    if calls == [] then s
    else
      StepKeepsSound(s, calls[0].env, calls[0].op);
      Run(Step(s, calls[0].env, calls[0].op), calls[1..])
  }

  // ---------- custody ----------

  /** The native stakes of the pools in `token`. */
  ghost function NativeStakes(s: State, token: Address): map<u64, int>
    requires Sound(s)
  {
    map id | id in s.pools && s.pools[id].token == token :: NativeStake(s.pools[id])
  }

  /** What is held in `token` beyond the native stakes of its pools. */
  ghost function Surplus(s: State, token: Address): int
    requires Sound(s)
  {
    Held(s, token) - Total(NativeStakes(s, token))
  }

  /** Changing one pool, and what is held in its token, changes the surplus of that token alone. */
  lemma PoolChanged(s: State, t: State, id: u64, paid: int, token: Address)
    requires Sound(s) && Sound(t) && id in t.pools && t.pools == s.pools[id := t.pools[id]]
    requires id in s.pools ==> s.pools[id].token == t.pools[id].token
    requires forall x :: Held(t, x) == Held(s, x) + if x == t.pools[id].token then paid else 0
    ensures Surplus(t, token) == Surplus(s, token)
            + if t.pools[id].token == token
              then paid - NativeStake(t.pools[id]) + (if id in s.pools then NativeStake(s.pools[id]) else 0) else 0
  {
    hide ChainStake, Total;
    var before, after := NativeStakes(s, token), NativeStakes(t, token);
    if t.pools[id].token == token {
      assert after == before[id := NativeStake(t.pools[id])];
      Updated(before, id, NativeStake(t.pools[id]));
    } else {
      assert after == before;
    }
  }

  lemma CreateKeepsCustody(
    s: State, env: Setting, creator: Address, token: Address, stake: i128, received: Option<int>, now: u64, x: Address)
    requires Sound(s)
    ensures var t := Create(s, env, creator, token, stake, received, now).0; Sound(t) && Surplus(t, x) == Surplus(s, x)
  {
    StepKeepsSound(s, env, DoCreate(creator, token, stake, received, now));
    var (t, r) := Create(s, env, creator, token, stake, received, now);
    if r.Ok? {
      ChainStakeAppend([], [], stake, NATIVE, NATIVE);
      assert [] + [stake] == [stake] && [] + [NATIVE] == [NATIVE];
      assert r.value !in s.pools;
      PoolChanged(s, t, r.value, stake, x);
    }
  }

  lemma JoinKeepsCustody(s: State, env: Setting, v: Address, id: u64, stake: i128, received: Option<int>, x: Address)
    requires Sound(s)
    ensures var t := Join(s, v, id, stake, received).0; Sound(t) && Surplus(t, x) == Surplus(s, x)
  {
    StepKeepsSound(s, env, DoJoin(v, id, stake, received));
    var (t, r) := Join(s, v, id, stake, received);
    if r.Ok? {
      ChainStakeAppend(s.pools[id].stakes, s.pools[id].chains, stake, NATIVE, NATIVE);
      PoolChanged(s, t, id, stake, x);
    }
  }

  /** A join from another chain keeps custody exactly when that chain is not the native one. */
  lemma JoinCrossChainAndCustody(s: State, env: Setting, v: Address, id: u64, stake: i128, chain: u32, x: Address)
    requires Sound(s)
    ensures var (t, r) := JoinCrossChain(s, env, v, id, stake, chain);
            && Sound(t)
            && Surplus(t, x) == Surplus(s, x)
                 - if r.Ok? && chain == NATIVE && s.pools[id].token == x then stake else 0
  {
    StepKeepsSound(s, env, DoJoinCrossChain(v, id, stake, chain));
    var (t, r) := JoinCrossChain(s, env, v, id, stake, chain);
    if r.Ok? {
      ChainStakeAppend(s.pools[id].stakes, s.pools[id].chains, stake, chain, NATIVE);
      PoolChanged(s, t, id, 0, x);
    }
  }

  lemma LeaveKeepsCustody(s: State, env: Setting, v: Address, id: u64, x: Address)
    requires Sound(s)
    ensures var t := Leave(s, v, id).0; Sound(t) && Surplus(t, x) == Surplus(s, x)
  {
    StepKeepsSound(s, env, DoLeave(v, id));
    var (t, r) := Leave(s, v, id);
    if r.Ok? {
      var p := s.pools[id];
      var i := IndexOf(p.members, v).value;
      ChainStakeWithout(p.stakes, p.chains, i, NATIVE);
      PoolChanged(s, t, id, if p.chains[i] == NATIVE then -p.stakes[i] else 0, x);
    }
  }

  lemma AssignKeepsCustody(s: State, env: Setting, id: u64, borrower: Address, hasLoan: bool, x: Address)
    requires Sound(s)
    ensures var t := Assign(s, id, borrower, hasLoan).0; Sound(t) && Surplus(t, x) == Surplus(s, x)
  {
    StepKeepsSound(s, env, DoAssign(id, borrower, hasLoan));
    var (t, r) := Assign(s, id, borrower, hasLoan);
    if r.Ok? {
      PoolChanged(s, t, id, 0, x);
    }
  }

  /** The stake in `token` that a call enters as native although it comes over a bridge and is not paid in. */
  ghost function BridgedBy(s: State, call: Call, token: Address): int
    requires Sound(s)
  {
    match call.op
    case DoJoinCrossChain(v, id, stake, chain) =>
      if JoinCrossChain(s, call.env, v, id, stake, chain).1.Ok? && chain == NATIVE && s.pools[id].token == token
      then stake else 0
    case _ => 0
  }

  ghost function Bridged(s: State, calls: seq<Call>, token: Address): int
    requires Sound(s)
    decreases |calls|
  {
    if calls == [] then 0
    else
      StepKeepsSound(s, calls[0].env, calls[0].op);
      BridgedBy(s, calls[0], token) + Bridged(Step(s, calls[0].env, calls[0].op), calls[1..], token)
  }

  /** No one is bridge-validated for the native chain. */
  ghost predicate BridgesAreForeign(env: Setting) {
    forall v :: (v, NATIVE) !in env.validated
  }

  lemma StepAndCustody(s: State, call: Call, x: Address)
    requires Sound(s)
    ensures Sound(Step(s, call.env, call.op))
    ensures Surplus(Step(s, call.env, call.op), x) == Surplus(s, x) - BridgedBy(s, call, x)
    ensures BridgedBy(s, call, x) >= 0 && (BridgesAreForeign(call.env) ==> BridgedBy(s, call, x) == 0)
  {
    hide Surplus, Sound;
    match call.op
    case DoCreate(creator, token, stake, received, now) =>
      CreateKeepsCustody(s, call.env, creator, token, stake, received, now, x);
    case DoJoin(v, id, stake, received) => JoinKeepsCustody(s, call.env, v, id, stake, received, x);
    case DoJoinCrossChain(v, id, stake, chain) => JoinCrossChainAndCustody(s, call.env, v, id, stake, chain, x);
    case DoLeave(v, id) => LeaveKeepsCustody(s, call.env, v, id, x);
    case DoAssign(id, borrower, hasLoan) => AssignKeepsCustody(s, call.env, id, borrower, hasLoan, x);
  }

  lemma {:induction false} RunAndCustody(s: State, calls: seq<Call>, x: Address)
    requires Sound(s)
    ensures Sound(Run(s, calls)) && Surplus(Run(s, calls), x) == Surplus(s, x) - Bridged(s, calls, x)
    ensures Bridged(s, calls, x) >= 0
    ensures (forall i :: 0 <= i < |calls| ==> BridgesAreForeign(calls[i].env)) ==> Bridged(s, calls, x) == 0
    decreases |calls|
  {
    hide Surplus, BridgedBy, BridgesAreForeign;
    if calls == [] {
    } else {
      StepAndCustody(s, calls[0], x);
      hide Step, GoodPool;
      RunAndCustody(Step(s, calls[0].env, calls[0].op), calls[1..], x);
    }
  }

  lemma EmptyInCustody(token: Address)
    ensures Sound(EMPTY) && Surplus(EMPTY, token) == 0
  {
    assert NativeStakes(EMPTY, token) == map[];
  }

  /** After every run, whatever the settings were at each call, pools are good, the reverse index agrees
      with membership, and what is held in a token is the sum of the native stakes of its pools less what
      was bridged in as native.  So custody holds exactly when nothing was, and nothing was while no one
      was validated for the native chain. */
  lemma InCustody(calls: seq<Call>, token: Address)
    ensures Sound(EMPTY) && Sound(Run(EMPTY, calls))
    ensures var s, bridged := Run(EMPTY, calls), Bridged(EMPTY, calls, token);
            && Held(s, token) == Total(NativeStakes(s, token)) - bridged
            && (Held(s, token) == Total(NativeStakes(s, token)) <==> bridged == 0) && bridged >= 0
            && ((forall i :: 0 <= i < |calls| ==> BridgesAreForeign(calls[i].env)) ==> bridged == 0)
  {
    EmptyInCustody(token);
    RunAndCustody(EMPTY, calls, token);
  }

  /** Custody holds in every run whose calls are all made under the setting `env`. */
  ghost predicate AlwaysInCustody(env: Setting) {
    Sound(EMPTY) && forall calls, token :: Under(env, calls) ==> RunInCustody(calls, token)
  }

  predicate Under(env: Setting, calls: seq<Call>) {
    forall i :: 0 <= i < |calls| ==> calls[i].env == env
  }

  ghost predicate RunInCustody(calls: seq<Call>, token: Address) {
    Sound(EMPTY) && Sound(Run(EMPTY, calls)) && Surplus(Run(EMPTY, calls), token) == 0
  }

  lemma RunOfTwo(s: State, first: Call, second: Call)
    requires Sound(s)
    ensures Sound(Step(s, first.env, first.op))
    ensures Run(s, [first, second]) == Step(Step(s, first.env, first.op), second.env, second.op)
  {
    hide Step;
    StepKeepsSound(s, first.env, first.op);
    var t := Step(s, first.env, first.op);
    StepKeepsSound(t, second.env, second.op);
    assert [first, second][1..] == [second] && [second][1..] == [];
    assert Run(Step(t, second.env, second.op), []) == Step(t, second.env, second.op);
    assert Run(t, [second]) == Step(t, second.env, second.op);
  }

  /** A pool of one unit, joined over a bridge that claims to come from the native chain, is short of one unit. */
  lemma NativeBridgeBreaksCustody(env: Setting, token: Address, v: Address)
    requires token in env.allowed && (v, NATIVE) in env.validated
    ensures exists calls :: Under(env, calls) && !RunInCustody(calls, token)
  {
    hide Surplus, Sound;
    var creator := Account(v.id + 1);
    var create := Call(env, DoCreate(creator, token, 1, Some(1), 0));
    var join := Call(env, DoJoinCrossChain(v, 1, 1, NATIVE));
    EmptyInCustody(token);
    CreateKeepsCustody(EMPTY, env, creator, token, 1, Some(1), 0, token);
    var s := Step(EMPTY, env, create.op);
    assert s.pools == map[1 := Pool([creator], [1], [NATIVE], token, None, false, 0)];
    assert v !in s.pools[1].members;
    JoinCrossChainAndCustody(s, env, v, 1, 1, NATIVE, token);
    RunOfTwo(EMPTY, create, join);
    assert Under(env, [create, join]) && !RunInCustody([create, join], token);
  }

  /** Under a setting, custody is kept over all runs if and only if no one is bridge-validated for the
      native chain. */
  lemma CustodyExactlyWhen(env: Setting, token: Address)
    requires token in env.allowed
    ensures AlwaysInCustody(env) <==> BridgesAreForeign(env)
  {
    EmptyInCustody(token);
    if BridgesAreForeign(env) {
      forall calls, x | Under(env, calls) ensures RunInCustody(calls, x) {
        InCustody(calls, x);
      }
    } else {
      var v :| (v, NATIVE) in env.validated;
      NativeBridgeBreaksCustody(env, token, v);
    }
  }

  // ---------- further results ----------

  /** A withdrawal is covered by what is held, after every run that bridged nothing in as native in the
      pool's token. */
  lemma WithdrawalAlwaysCovered(calls: seq<Call>, v: Address, id: u64)
    requires Sound(EMPTY) && Sound(Run(EMPTY, calls))
    requires var s := Run(EMPTY, calls); id in s.pools ==> Bridged(EMPTY, calls, s.pools[id].token) == 0
    ensures Leave(Run(EMPTY, calls), v, id).1 != Err(TransferFailed)
  {
    var s := Run(EMPTY, calls);
    if id in s.pools && v in s.pools[id].members {
      var p := s.pools[id];
      InCustody(calls, p.token);
      var i := IndexOf(p.members, v).value;
      ChainStakeAtLeast(p.stakes, p.chains, i, NATIVE);
      var stakes := NativeStakes(s, p.token);
      forall j | j in stakes ensures stakes[j] >= 0 {
        ChainStakeAtLeast(s.pools[j].stakes, s.pools[j].chains, 0, NATIVE);
      }
      AtLeastOne(stakes, id);
    }
  }

  /** Joining a pool and leaving it again restores pools, reverse index and what is held. */
  lemma JoinThenLeave(s: State, v: Address, id: u64, stake: i128)
    requires Sound(s) && Join(s, v, id, stake, Some(stake)).1.Ok? && Held(s, s.pools[id].token) >= 0
    ensures var joined := Join(s, v, id, stake, Some(stake)).0;
            && Sound(joined)
            && var (t, r) := Leave(joined, v, id);
               && r.Ok? && t.pools == s.pools && t.listed == s.listed && t.counter == s.counter
               && forall x :: Held(t, x) == Held(s, x)
  {
    StepKeepsSound(s, Setting({}, {}), DoJoin(v, id, stake, Some(stake)));
    MemberAddedAndRemoved(s.pools[id], v, stake, NATIVE);
    assert (v, id) !in s.listed;
    assert s.listed + {(v, id)} - {(v, id)} == s.listed;
    hide Sound, WithMember, WithoutMember, IndexOf;
    var joined := Join(s, v, id, stake, Some(stake)).0;
    assert joined.pools[id := s.pools[id]] == s.pools;
  }

  lemma MemberAddedAndRemoved(p: Pool, v: Address, stake: i128, chain: u32)
    requires Aligned(p) && v !in p.members
    ensures var q, n := WithMember(p, v, stake, chain), |p.members|;
            && Aligned(q) && n < |q.members| && IndexOf(q.members, v) == Some(n) && WithoutMember(q, n) == p
            && q.stakes[n] == stake && q.chains[n] == chain
            && q.active == p.active && q.token == p.token
  {
    var q, n := WithMember(p, v, stake, chain), |p.members|;
    assert q.members[n] == v && q.members[..n] == p.members;
    assert Without(q.members, n) == p.members && Without(q.stakes, n) == p.stakes && Without(q.chains, n) == p.chains;
  }

  /** Once a pool is active, nothing changes it any more. */
  lemma {:induction false} ActivePoolFrozen(s: State, calls: seq<Call>, id: u64)
    requires Sound(s) && id in s.pools && s.pools[id].active
    ensures id in Run(s, calls).pools && Run(s, calls).pools[id] == s.pools[id]
    decreases |calls|
  {
    if calls == [] {
    } else {
      var t := Step(s, calls[0].env, calls[0].op);
      StepKeepsSound(s, calls[0].env, calls[0].op);
      assert id in t.pools && t.pools[id] == s.pools[id];
      ActivePoolFrozen(t, calls[1..], id);
    }
  }

  // ---------- what each call does ----------

  /** Two states differ at most in one pool and its listings, and by `paid` in what is held of one token. */
  ghost predicate OnlyPool(s: State, t: State, id: u64, token: Address, paid: int) {
    && t.pools.Keys == s.pools.Keys + {id}
    && (forall j :: j in s.pools && j != id ==> t.pools[j] == s.pools[j])
    && (forall v, j :: j != id ==> ((v, j) in t.listed <==> (v, j) in s.listed))
    && (forall x :: Held(t, x) == Held(s, x) + if x == token then paid else 0)
  }

  /** The answer to a transfer that should bring in exactly `stake`. */
  predicate Arrives(received: Option<int>, stake: int) {
    received == Some(stake)
  }

  /** A pool is created exactly with a positive stake that arrives in full, an allowed token and a number
      left; it takes the next number and has its creator as the only member. */
  lemma CreateOutcome(
    s: State, env: Setting, creator: Address, token: Address, stake: i128, received: Option<int>, now: u64)
    requires Sound(s)
    ensures var (t, result) := Create(s, env, creator, token, stake, received, now);
            && (result.Ok? <==> stake > 0 && token in env.allowed && s.counter < U64_MAX && Arrives(received, stake))
            && (result.Err? ==> t == s)
            && (result.Ok? ==>
                  && result.value == t.counter == s.counter + 1 && result.value !in s.pools
                  && OnlyPool(s, t, result.value, token, stake)
                  && t.pools[result.value] == Pool([creator], [stake], [0], token, None, false, now)
                  && forall v :: (v, result.value) in t.listed <==> v == creator)
  {
    hide ChainStake, GoodPool;
  }

  /** A pool and its listings with one more member at the end. */
  ghost predicate Joined(s: State, t: State, id: u64, v: Address, stake: i128, chain: u32)
    requires id in s.pools && id in t.pools
  {
    var p, q := s.pools[id], t.pools[id];
    && q.members == p.members + [v] && q.stakes == p.stakes + [stake] && q.chains == p.chains + [chain]
    && (q.token, q.borrower, q.active, q.createdAt) == (p.token, p.borrower, p.active, p.createdAt)
    && t.counter == s.counter
    && forall w :: (w, id) in t.listed <==> (w, id) in s.listed || w == v
  }

  /** A pool can be joined exactly with a positive stake while it is inactive, by an account that is not a
      member yet and whose stake arrives in full. */
  lemma JoinOutcome(s: State, v: Address, id: u64, stake: i128, received: Option<int>)
    ensures var (t, result) := Join(s, v, id, stake, received);
            && result == (
                 if stake <= 0 then Err(InsufficientFunds)
                 else if id !in s.pools then Err(CollateralPoolNotFound)
                 else if s.pools[id].active then Err(CollateralPoolActive)
                 else if v in s.pools[id].members then Err(DuplicateVouch)
                 else if received == None then Err(TransferFailed)
                 else if !Arrives(received, stake) then Err(InsufficientFunds)
                 else Ok(()))
            && (result.Err? ==> t == s)
            && (result.Ok? ==> OnlyPool(s, t, id, s.pools[id].token, stake) && Joined(s, t, id, v, stake, 0))
  {
  }

  /** From another chain a pool can be joined exactly by an account validated for that chain, under the same
      conditions, and nothing is transferred. */
  lemma JoinCrossChainOutcome(s: State, env: Setting, v: Address, id: u64, stake: i128, chain: u32)
    ensures var (t, result) := JoinCrossChain(s, env, v, id, stake, chain);
            && result == (
                 if stake <= 0 then Err(InsufficientFunds)
                 else if (v, chain) !in env.validated then Err(InvalidChain)
                 else if id !in s.pools then Err(CollateralPoolNotFound)
                 else if s.pools[id].active then Err(CollateralPoolActive)
                 else if v in s.pools[id].members then Err(DuplicateVouch)
                 else Ok(()))
            && (result.Err? ==> t == s)
            && (result.Ok? ==> OnlyPool(s, t, id, s.pools[id].token, 0) && Joined(s, t, id, v, stake, chain))
  {
  }

  /** An inactive pool can be left exactly by a member whose native stake is held; the member and its stake
      and chain go, the others keep theirs in order, and a native stake is paid out in full. */
  lemma LeaveOutcome(s: State, v: Address, id: u64)
    requires Sound(s)
    ensures var (t, result) := Leave(s, v, id);
            && (id !in s.pools ==> result == Err(CollateralPoolNotFound))
            && (id in s.pools && s.pools[id].active ==> result == Err(CollateralPoolActive))
            && (id in s.pools && !s.pools[id].active && v !in s.pools[id].members ==> result == Err(NotPoolMember))
            && (result.Err? ==> t == s)
            && (id in s.pools && !s.pools[id].active ==>
                  var p := s.pools[id];
                  forall i :: 0 <= i < |p.members| && p.members[i] == v ==>
                    var paid := if p.chains[i] == 0 then p.stakes[i] else 0;
                    && result == (if paid > 0 && Held(s, p.token) < paid then Err(TransferFailed) else Ok(()))
                    && (result.Ok? ==>
                          && t.counter == s.counter && OnlyPool(s, t, id, p.token, -(paid as int))
                          && t.pools[id] == p.(members := p.members[..i] + p.members[i + 1..],
                                               stakes := p.stakes[..i] + p.stakes[i + 1..],
                                               chains := p.chains[..i] + p.chains[i + 1..])
                          && forall w :: (w, id) in t.listed <==> (w, id) in s.listed && w != v))
  {
    hide ChainStake, First;
    if id in s.pools && v in s.pools[id].members {
      assert GoodPool(s.pools[id]);
    }
  }

  /** A pool is assigned exactly while it is inactive, to a borrower without a loan; it is then active for
      this borrower, with the members, stakes, chains and token it had. */
  lemma AssignOutcome(s: State, id: u64, borrower: Address, hasLoan: bool)
    ensures var (t, result) := Assign(s, id, borrower, hasLoan);
            && result == (
                 if id !in s.pools then Err(CollateralPoolNotFound)
                 else if s.pools[id].active then Err(CollateralPoolActive)
                 else if hasLoan then Err(PoolBorrowerActiveLoan)
                 else Ok(()))
            && (result.Err? ==> t == s)
            && (result.Ok? ==>
                  var p := s.pools[id];
                  && t.pools == s.pools[id := Pool(p.members, p.stakes, p.chains, p.token, Some(borrower), true,
                                                   p.createdAt)]
                  && t.counter == s.counter && t.listed == s.listed && t.held == s.held)
  {
  }

  /** An assignment locks the collateral for good: after every later run the pool is what it became, and it
      refuses to be joined, left or assigned. */
  lemma AssignmentLocks(s: State, id: u64, borrower: Address, hasLoan: bool, calls: seq<Call>)
    requires Sound(s) && Assign(s, id, borrower, hasLoan).1.Ok?
    ensures var locked := Assign(s, id, borrower, hasLoan).0;
            && Sound(locked) && Sound(Run(locked, calls))
            && var t := Run(locked, calls);
               && id in t.pools && t.pools[id] == s.pools[id].(borrower := Some(borrower), active := true)
               && (forall v :: Leave(t, v, id) == (t, Err(CollateralPoolActive)))
               && (forall b, loan :: Assign(t, id, b, loan) == (t, Err(CollateralPoolActive)))
               && (forall v, stake: i128, received ::
                     Join(t, v, id, stake, received)
                     == (t, Err(if stake <= 0 then InsufficientFunds else CollateralPoolActive)))
               && (forall env: Setting, v: Address, stake: i128, chain: u32 ::
                     JoinCrossChain(t, env, v, id, stake, chain)
                     == (t, Err(if stake <= 0 then InsufficientFunds
                                else if (v, chain) !in env.validated then InvalidChain
                                else CollateralPoolActive)))
  {
    StepKeepsSound(s, Setting({}, {}), DoAssign(id, borrower, hasLoan));
    var locked := Assign(s, id, borrower, hasLoan).0;
    RunAndCustody(locked, calls, Account(0));
    ActivePoolFrozen(locked, calls, id);
    hide Run, GoodPool;
  }

  // ---------- the contract ----------

  class PoolStore {
    var env: Setting
    var pools: map<u64, Pool>
    var counter: u64
    var listed: set<(Address, u64)>
    var held: map<Address, int>

    ghost function Contents(): State
      reads this
    {
      State(pools, counter, listed, held)
    }

    constructor (env: Setting)
      ensures this.env == env && Contents() == EMPTY
    {
      this.env := env;
      pools, counter, listed, held := map[], 0, {}, map[];
    }

    method CreatePool(creator: Address, token: Address, stake: i128, received: Option<int>, now: u64)
      returns (r: Result<u64>)
      modifies `pools, `counter, `listed, `held
      ensures (Contents(), r) == Create(old(Contents()), env, creator, token, stake, received, now)
    {
      if stake <= 0 {
        return Err(InsufficientFunds);
      }
      if token !in env.allowed {
        return Err(TokenNotAllowed);
      }
      if counter == U64_MAX {
        return Err(Overflow);
      }
      if received.None? {
        return Err(TransferFailed);
      }
      if received.value != stake {
        return Err(InsufficientFunds);
      }
      counter := counter + 1;
      held := held[token := Value(held, token) + stake];
      pools := pools[counter := Pool([creator], [stake], [NATIVE], token, None, false, now)];
      listed := listed + {(creator, counter)};
      return Ok(counter);
    }

    method MemberIndex(members: seq<Address>, v: Address) returns (index: Option<nat>)
      ensures index == IndexOf(members, v)
    {
      for i := 0 to |members|
        invariant v !in members[..i]
      {
        if members[i] == v {
          return Some(i);
        }
      }
      assert members[..|members|] == members;
      return None;
    }

    method JoinPool(v: Address, id: u64, stake: i128, received: Option<int>) returns (r: Result<()>)
      modifies `pools, `listed, `held
      ensures (Contents(), r) == Join(old(Contents()), v, id, stake, received)
    {
      if stake <= 0 {
        return Err(InsufficientFunds);
      }
      if id !in pools {
        return Err(CollateralPoolNotFound);
      }
      var pool := pools[id];
      if pool.active {
        return Err(CollateralPoolActive);
      }
      var index := MemberIndex(pool.members, v);
      if index.Some? {
        return Err(DuplicateVouch);
      }
      if received.None? {
        return Err(TransferFailed);
      }
      if received.value != stake {
        return Err(InsufficientFunds);
      }
      held := held[pool.token := Value(held, pool.token) + stake];
      pools := pools[id := WithMember(pool, v, stake, NATIVE)];
      listed := listed + {(v, id)};
      return Ok(());
    }

    method JoinPoolCrossChain(v: Address, id: u64, stake: i128, chain: u32) returns (r: Result<()>)
      modifies `pools, `listed
      ensures (Contents(), r) == JoinCrossChain(old(Contents()), env, v, id, stake, chain)
    {
      if stake <= 0 {
        return Err(InsufficientFunds);
      }
      if (v, chain) !in env.validated {
        return Err(InvalidChain);
      }
      if id !in pools {
        return Err(CollateralPoolNotFound);
      }
      var pool := pools[id];
      if pool.active {
        return Err(CollateralPoolActive);
      }
      var index := MemberIndex(pool.members, v);
      if index.Some? {
        return Err(DuplicateVouch);
      }
      pools := pools[id := WithMember(pool, v, stake, chain)];
      listed := listed + {(v, id)};
      return Ok(());
    }

    /** Rebuilds the three lists of a pool without the member at `index`. */
    method Rebuild(pool: Pool, index: nat) returns (members: seq<Address>, stakes: seq<i128>, chains: seq<u32>)
      requires Aligned(pool) && index < |pool.members|
      ensures members == Without(pool.members, index)
      ensures stakes == Without(pool.stakes, index) && chains == Without(pool.chains, index)
    {
      members, stakes, chains := [], [], [];
      for i := 0 to |pool.members|
        invariant i <= index ==> members == pool.members[..i]
        invariant i <= index ==> stakes == pool.stakes[..i] && chains == pool.chains[..i]
        invariant i > index ==> members == pool.members[..index] + pool.members[index + 1..i]
        invariant i > index ==> stakes == pool.stakes[..index] + pool.stakes[index + 1..i]
        invariant i > index ==> chains == pool.chains[..index] + pool.chains[index + 1..i]
      {
        if i != index {
          members := members + [pool.members[i]];
          stakes := stakes + [pool.stakes[i]];
          chains := chains + [pool.chains[i]];
        }
      }
    }

    method LeavePool(v: Address, id: u64) returns (r: Result<()>)
      requires forall j :: j in pools ==> Aligned(pools[j])
      modifies `pools, `listed, `held
      ensures (Contents(), r) == Leave(old(Contents()), v, id)
    {
      if id !in pools {
        return Err(CollateralPoolNotFound);
      }
      var pool := pools[id];
      if pool.active {
        return Err(CollateralPoolActive);
      }
      var index := MemberIndex(pool.members, v);
      if index.None? {
        return Err(NotPoolMember);
      }
      var stake, chain := pool.stakes[index.value], pool.chains[index.value];
      var members, stakes, chains := Rebuild(pool, index.value);
      if chain == NATIVE && stake > 0 {
        if Value(held, pool.token) < stake {
          return Err(TransferFailed);
        }
        held := held[pool.token := Value(held, pool.token) - stake];
      }
      pools := pools[id := pool.(members := members, stakes := stakes, chains := chains)];
      listed := listed - {(v, id)};
      return Ok(());
    }

    method AssignPoolToBorrower(id: u64, borrower: Address, hasLoan: bool) returns (r: Result<()>)
      modifies `pools
      ensures (Contents(), r) == Assign(old(Contents()), id, borrower, hasLoan)
    {
      if id !in pools {
        return Err(CollateralPoolNotFound);
      }
      var pool := pools[id];
      if pool.active {
        return Err(CollateralPoolActive);
      }
      if hasLoan {
        return Err(PoolBorrowerActiveLoan);
      }
      pools := pools[id := pool.(borrower := Some(borrower), active := true)];
      return Ok(());
    }

    /** The stake that came to a pool from one chain. */
    method GetPoolChainStake(id: u64, chain: u32) returns (r: Result<int>)
      requires id in pools ==> GoodPool(pools[id])
      ensures id !in pools ==> r == Err(CollateralPoolNotFound)
      ensures id in pools ==>
                var total := ChainStake(pools[id].stakes, pools[id].chains, chain);
                r == if total > I128_MAX then Err(StakeOverflow) else Ok(total)
    {
      if id !in pools {
        return Err(CollateralPoolNotFound);
      }
      var pool := pools[id];
      var total := 0;
      for i := 0 to |pool.chains|
        invariant total == ChainStake(pool.stakes[..i], pool.chains[..i], chain) <= I128_MAX
      {
        assert pool.stakes[..i + 1][..i] == pool.stakes[..i] && pool.chains[..i + 1][..i] == pool.chains[..i];
        if pool.chains[i] == chain {
          if total + pool.stakes[i] > I128_MAX {
            StakeGrows(pool, i + 1, chain);
            return Err(StakeOverflow);
          }
          total := total + pool.stakes[i];
        }
      }
      assert pool.stakes[..|pool.stakes|] == pool.stakes && pool.chains[..|pool.chains|] == pool.chains;
      return Ok(total);
    }

    /** The total stake of a pool: that of its native members. */
    method GetPoolTotalStake(id: u64) returns (r: Result<int>)
      requires id in pools ==> GoodPool(pools[id])
      ensures id !in pools ==> r == Err(CollateralPoolNotFound)
      ensures id in pools ==>
                r == if NativeStake(pools[id]) > I128_MAX then Err(StakeOverflow) else Ok(NativeStake(pools[id]))
    {
      r := GetPoolChainStake(id, NATIVE);
    }
  }

  lemma {:induction false} StakeGrows(p: Pool, n: nat, chain: u32)
    requires GoodPool(p) && n <= |p.stakes|
    ensures ChainStake(p.stakes[..n], p.chains[..n], chain) <= ChainStake(p.stakes, p.chains, chain)
    decreases |p.stakes| - n
  {
    if n < |p.stakes| {
      StakeGrows(p, n + 1, chain);
      assert p.stakes[..n + 1][..n] == p.stakes[..n] && p.chains[..n + 1][..n] == p.chains[..n];
    } else {
      assert p.stakes[..n] == p.stakes && p.chains[..n] == p.chains;
    }
  }
}
