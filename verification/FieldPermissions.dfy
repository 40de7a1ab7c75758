/** Field permissions of credentials, with inheritance along a chain of parent credentials. */
module FieldPermissions {
  import opened Chains
  import opened Host
  import opened InheritanceGraph

  type Field = seq<byte>

  const MAX_HISTORY: nat := 100

  datatype Matrix = Matrix(createdAt: u64, defaultPermission: u32, customFields: u32, parent: Option<Address>)

  datatype Change = Change(at: u64, old_: u32, new_: u32)

  datatype State = State(
    matrices: map<Address, Matrix>, explicit: map<(Address, Field), u32>,
    history: map<(Address, Field), seq<Change>>)

  const EMPTY := State(map[], map[], map[])

  function ParentOf(s: State, c: Address): Option<Address> {
    if c in s.matrices then s.matrices[c].parent else None
  }

  /** The inheritance graph. */
  function Graph(s: State): Parents {
    map c | c in s.matrices && s.matrices[c].parent.Some? :: s.matrices[c].parent.value
  }

  function MatrixOf(s: State, c: Address, now: u64): Matrix {
    if c in s.matrices then s.matrices[c] else Matrix(now, 0, 0, None)
  }

  // ---------- reading a permission ----------

  /** The lookup from `c` comes to an end within `k` steps to a parent. */
  predicate Ends(s: State, c: Address, f: Field, k: nat)
    decreases k
  {
    || (c, f) in s.explicit
    || ParentOf(s, c) == None
    || (k > 0 && Ends(s, ParentOf(s, c).value, f, k - 1))
  }

  /** What the lookup returns.  It is only defined where the recursion of the contract ends. */
  function Permission(s: State, c: Address, f: Field, ghost k: nat): u32
    requires Ends(s, c, f, k)
    decreases k
  {
    if (c, f) in s.explicit then s.explicit[(c, f)]
    else if ParentOf(s, c).Some? then Permission(s, ParentOf(s, c).value, f, k - 1)
    else if c in s.matrices then s.matrices[c].defaultPermission
    else 0
  }

  // ---------- the transitions ----------

  function Logged(log: seq<Change>, change: Change): seq<Change> {
    (if |log| >= MAX_HISTORY then log[1..] else log) + [change]
  }

  function SetPermission(s: State, c: Address, f: Field, permission: u32, now: u64): (State, Result<()>) {
    if permission > 3 then (s, Err(InvalidPermission))
    else
      var matrix := MatrixOf(s, c, now);
      var counted := matrix.(customFields := Min(matrix.customFields + 1, U32_MAX));
      var stored := s.(explicit := s.explicit[(c, f) := permission], matrices := s.matrices[c := counted]);
      var log := if (c, f) in s.history then s.history[(c, f)] else [];
      // The previous permission is looked up after the new one is stored
      var change := Change(now, Permission(stored, c, f, 0), permission);
      (stored.(history := s.history[(c, f) := Logged(log, change)]), Ok(()))
  }

  ghost function SetParent(s: State, c: Address, parent: Address, now: u64): (State, Result<()>) {
    if Circular(Graph(s), parent, c) then (s, Err(InvalidPermission))
    else (s.(matrices := s.matrices[c := MatrixOf(s, c, now).(parent := Some(parent))]), Ok(()))
  }

  function SetDefault(s: State, c: Address, permission: u32, now: u64): (State, Result<()>) {
    if permission > 3 then (s, Err(InvalidPermission))
    else (s.(matrices := s.matrices[c := MatrixOf(s, c, now).(defaultPermission := permission)]), Ok(()))
  }

  // ---------- runs ----------

  datatype Op =
    | DoSetPermission(c: Address, now: u64, f: Field, permission: u32)
    | DoSetParent(c: Address, now: u64, parent: Address)
    | DoSetDefault(c: Address, now: u64, permission: u32)

  ghost function Step(s: State, op: Op): State {
    match op
    case DoSetPermission(c, now, f, permission) => SetPermission(s, c, f, permission, now).0
    case DoSetParent(c, now, parent) => SetParent(s, c, parent, now).0
    case DoSetDefault(c, now, permission) => SetDefault(s, c, permission, now).0
  }

  ghost function Run(s: State, ops: seq<Op>): State
    decreases |ops|
  {
    if ops == [] then s else Run(Step(s, ops[0]), ops[1..])
  }

  lemma StepKeepsCyclesLong(s: State, op: Op)
    requires CyclesAreLong(Graph(s))
    ensures CyclesAreLong(Graph(Step(s, op)))
  {
    var s' := Step(s, op);
    if op.DoSetParent? && s' != s {
      SetParentKeepsCyclesLong(Graph(s), op.c, op.parent);
      assert Graph(s') == Graph(s)[op.c := op.parent];
    } else {
      assert Graph(s') == Graph(s);
    }
  }

  lemma {:induction false} RunKeepsCyclesLong(s: State, ops: seq<Op>)
    requires CyclesAreLong(Graph(s))
    ensures CyclesAreLong(Graph(Run(s, ops)))
    decreases |ops|
  {
    if ops == [] {
    } else {
      StepKeepsCyclesLong(s, ops[0]);
      RunKeepsCyclesLong(Step(s, ops[0]), ops[1..]);
    }
  }

  lemma EmptyHasNoCycle()
    ensures CyclesAreLong(Graph(EMPTY))
  {
    forall x, k: nat | k >= 1 ensures Up(Graph(EMPTY), x, k) == None {
      NoParentNoAncestor(x, k);
    }
  }

  lemma {:induction false} NoParentNoAncestor(x: Address, k: nat)
    requires k >= 1
    ensures Up(Graph(EMPTY), x, k) == None
  {
    if k > 1 {
      NoParentNoAncestor(x, k - 1);
    } else {
      assert Up(Graph(EMPTY), x, 0) == Some(x);
    }
  }

  // ---------- the main results ----------

  /** In every reachable inheritance graph, every cycle has at least twelve members. */
  lemma ReachableCyclesAreLong(ops: seq<Op>, x: Address, k: nat)
    requires 1 <= k < 12
    ensures Up(Graph(Run(EMPTY, ops)), x, k) != Some(x)
  {
    EmptyHasNoCycle();
    RunKeepsCyclesLong(EMPTY, ops);
  }

  lemma {:induction false} EndsWhenChainEnds(s: State, c: Address, f: Field, k: nat)
    requires Up(Graph(s), c, k + 1) == None
    ensures Ends(s, c, f, k)
    decreases k
  {
    if ParentOf(s, c) == None {
    } else {
      var p := ParentOf(s, c).value;
      assert Up(Graph(s), c, 1) == Some(p) by { assert Up(Graph(s), c, 0) == Some(c); }
      UpUp(Graph(s), c, 1, k);
      if k > 0 {
        EndsWhenChainEnds(s, p, f, k - 1);
      }
    }
  }

  /** Whenever fewer than twelve credentials have a parent, the reachable graph has no cycle and every
      lookup ends. */
  lemma FewParentsLookupEnds(ops: seq<Op>, c: Address, f: Field)
    requires |Graph(Run(EMPTY, ops))| < 12
    ensures Acyclic(Graph(Run(EMPTY, ops)))
    ensures Ends(Run(EMPTY, ops), c, f, |Graph(Run(EMPTY, ops))|)
  {
    var s := Run(EMPTY, ops);
    EmptyHasNoCycle();
    RunKeepsCyclesLong(EMPTY, ops);
    forall x, k: nat | k >= 1 ensures Up(Graph(s), x, k) != Some(x) {
      FewParentsAcyclic(Graph(s), x, k);
    }
    FewParentsChainsEnd(Graph(s), c);
    EndsWhenChainEnds(s, c, f, |Graph(s)|);
  }

  /** A lookup that ends returns the nearest explicit permission on the chain of ancestors, and without
      one the default of the chain's root, which is 0 when the root has no matrix. */
  lemma {:induction false} PermissionIsNearest(s: State, c: Address, f: Field, k: nat) returns (j: nat, y: Address)
    requires Ends(s, c, f, k)
    ensures j <= k && Up(Graph(s), c, j) == Some(y)
    ensures forall i :: 0 <= i < j ==> Up(Graph(s), c, i).Some? && (Up(Graph(s), c, i).value, f) !in s.explicit
    ensures (y, f) in s.explicit || y !in Graph(s)
    ensures Permission(s, c, f, k) ==
            if (y, f) in s.explicit then s.explicit[(y, f)]
            else if y in s.matrices then s.matrices[y].defaultPermission
            else 0
    decreases k
  {
    if (c, f) in s.explicit || ParentOf(s, c) == None {
      j, y := 0, c;
    } else {
      var p, j' := ParentOf(s, c).value, 0;
      j', y := PermissionIsNearest(s, p, f, k - 1);
      j := j' + 1;
      assert Up(Graph(s), c, 1) == Some(p) by { assert Up(Graph(s), c, 0) == Some(c); }
      UpUp(Graph(s), c, 1, j');
      forall i | 0 <= i < j ensures Up(Graph(s), c, i).Some? && (Up(Graph(s), c, i).value, f) !in s.explicit {
        if i > 0 {
          UpUp(Graph(s), c, 1, i - 1);
        }
      }
    }
  }

  /** The result does not depend on how many steps were allowed for. */
  lemma {:induction false} PermissionUnique(s: State, c: Address, f: Field, k: nat, l: nat)
    requires Ends(s, c, f, k) && Ends(s, c, f, l)
    ensures Permission(s, c, f, k) == Permission(s, c, f, l)
    decreases k
  {
    if (c, f) in s.explicit || ParentOf(s, c) == None {
    } else {
      PermissionUnique(s, ParentOf(s, c).value, f, k - 1, l - 1);
    }
  }

  // ---------- exactly when an accepted call closes a cycle, and when a lookup ends ----------

  /** Setting this parent would make `c` its own ancestor, beyond the reach of the check. */
  ghost predicate ClosesCycle(s: State, c: Address, parent: Address) {
    exists j :: MAX_DEPTH < j <= |Graph(s)| && Up(Graph(s), parent, j) == Some(c)
  }

  /** An accepted call keeps an acyclic graph acyclic if and only if the credential is no ancestor of the
      new parent beyond the tenth further one. */
  lemma SetParentKeepsAcyclicExactlyWhen(s: State, c: Address, parent: Address, now: u64)
    requires Acyclic(Graph(s)) && SetParent(s, c, parent, now).1.Ok?
    ensures Acyclic(Graph(SetParent(s, c, parent, now).0)) <==> !ClosesCycle(s, c, parent)
  {
    assert Graph(SetParent(s, c, parent, now).0) == Graph(s)[c := parent];
    StaysAcyclicExactlyWhen(Graph(s), c, parent);
  }

  /** No state of the run has a cycle. */
  ghost predicate AlwaysAcyclic(s: State, ops: seq<Op>)
    decreases |ops|
  {
    Acyclic(Graph(s)) && (ops == [] || AlwaysAcyclic(Step(s, ops[0]), ops[1..]))
  }

  /** No call of the run that the check accepts closes a cycle. */
  ghost predicate NeverCloses(s: State, ops: seq<Op>)
    decreases |ops|
  {
    ops != [] ==>
      && (ops[0].DoSetParent? && !Circular(Graph(s), ops[0].parent, ops[0].c) ==>
            !ClosesCycle(s, ops[0].c, ops[0].parent))
      && NeverCloses(Step(s, ops[0]), ops[1..])
  }

  /** A run from an acyclic graph has no cycle at any point if and only if none of its accepted calls
      makes a credential its own ancestor beyond the reach of the check. */
  lemma {:induction false} RunAcyclicExactlyWhen(s: State, ops: seq<Op>)
    requires Acyclic(Graph(s))
    ensures AlwaysAcyclic(s, ops) <==> NeverCloses(s, ops)
    decreases |ops|
  {
    if ops == [] {
    } else {
      var op, t := ops[0], Step(s, ops[0]);
      if op.DoSetParent? && !Circular(Graph(s), op.parent, op.c) {
        SetParentKeepsAcyclicExactlyWhen(s, op.c, op.parent, op.now);
      } else {
        assert Graph(t) == Graph(s);
      }
      hide Circular, Acyclic, Step, ClosesCycle;
      if Acyclic(Graph(t)) {
        RunAcyclicExactlyWhen(t, ops[1..]);
      } else {
        assert !AlwaysAcyclic(t, ops[1..]);
      }
    }
  }

  lemma {:induction false} EndsWhereChainStops(s: State, c: Address, f: Field, j: nat, y: Address)
    requires Up(Graph(s), c, j) == Some(y) && ((y, f) in s.explicit || y !in Graph(s))
    ensures Ends(s, c, f, j)
    decreases j
  {
    if j == 0 {
    } else if ParentOf(s, c).Some? {
      var p := ParentOf(s, c).value;
      assert Up(Graph(s), c, 0) == Some(c) && Up(Graph(s), c, 1) == Some(p);
      UpUp(Graph(s), c, 1, j - 1);
      EndsWhereChainStops(s, p, f, j - 1, y);
    }
  }

  lemma {:induction false} EndsLater(s: State, c: Address, f: Field, j: nat, k: nat)
    requires Ends(s, c, f, j) && j <= k
    ensures Ends(s, c, f, k)
    decreases j
  {
    if (c, f) in s.explicit || ParentOf(s, c) == None {
    } else {
      EndsLater(s, ParentOf(s, c).value, f, j - 1, k - 1);
    }
  }

  /** Up to where a lookup ends, its chain does not meet itself. */
  lemma LookupMeetsNobodyTwice(s: State, c: Address, f: Field, j: nat, y: Address, a: nat, b: nat)
    requires a < b < j && Up(Graph(s), c, j) == Some(y) && ((y, f) in s.explicit || y !in Graph(s))
    requires forall i :: 0 <= i < j ==> Up(Graph(s), c, i).Some? && (Up(Graph(s), c, i).value, f) !in s.explicit
    ensures Up(Graph(s), c, a) != Up(Graph(s), c, b)
  {
    if Up(Graph(s), c, a) == Up(Graph(s), c, b) {
      UpUp(Graph(s), c, a, j - b);
      UpUp(Graph(s), c, b, j - b);
      var i := a + (j - b);
      assert Up(Graph(s), c, i) == Some(y);
      UpShorter(Graph(s), c, i, j);
      assert false;
    }
  }

  /** Exactly when a lookup ends: within as many steps as there are parents, or never. */
  lemma LookupEndsExactlyWhen(s: State, c: Address, f: Field)
    ensures (exists k: nat :: Ends(s, c, f, k)) <==> Ends(s, c, f, |Graph(s)|)
  {
    if k: nat :| Ends(s, c, f, k) {
      var j, y := PermissionIsNearest(s, c, f, k);
      forall a, b | 0 <= a < b < j ensures Up(Graph(s), c, a) != Up(Graph(s), c, b) {
        LookupMeetsNobodyTwice(s, c, f, j, y, a, b);
      }
      ChainWithinParents(Graph(s), c, j);
      EndsWhereChainStops(s, c, f, j, y);
      EndsLater(s, c, f, j, |Graph(s)|);
    }
  }

  /** In an acyclic graph every lookup ends. */
  lemma AcyclicLookupEnds(s: State, c: Address, f: Field)
    requires Acyclic(Graph(s))
    ensures Ends(s, c, f, |Graph(s)|)
  {
    if Up(Graph(s), c, |Graph(s)| + 1).Some? {
      AcyclicChain(Graph(s), c, |Graph(s)| + 1);
    }
    EndsWhenChainEnds(s, c, f, |Graph(s)|);
  }

  /** The change log records the new permission as the old one, whatever the old one was. */
  lemma HistoryRecordsNewAsOld(s: State, c: Address, f: Field, permission: u32, now: u64)
    requires permission <= 3
    ensures var log := SetPermission(s, c, f, permission, now).0.history[(c, f)];
            0 < |log| <= 1 + (if (c, f) in s.history then |s.history[(c, f)]| else 0)
            && log[|log| - 1] == Change(now, permission, permission)
  {
  }

  /** The newest change in the log names the permission that was in force before the call exactly when the
      call changes nothing: when it sets the permission that a lookup gave already. */
  lemma HistoryOldRightExactlyWhen(s: State, c: Address, f: Field, permission: u32, now: u64, k: nat)
    requires permission <= 3 && Ends(s, c, f, k)
    ensures var (t, before) := (SetPermission(s, c, f, permission, now).0, Permission(s, c, f, k));
            var log := t.history[(c, f)];
            && |log| > 0 && log[|log| - 1].at == now && log[|log| - 1].new_ == permission
            && (log[|log| - 1].old_ == before <==> permission == before)
            && Ends(t, c, f, 0) && Permission(t, c, f, 0) == permission
  {
    HistoryRecordsNewAsOld(s, c, f, permission, now);
  }

  // ---------- what each call does ----------

  /** Two states agree on every matrix but that of `c`. */
  predicate OtherMatricesKept(s: State, t: State, c: Address) {
    && t.matrices.Keys == s.matrices.Keys + {c}
    && forall d :: d in s.matrices && d != c ==> t.matrices[d] == s.matrices[d]
  }

  /** A matrix that is not there yet is created now, with nothing in it. */
  predicate OldOrNew(s: State, c: Address, now: u64, m: Matrix) {
    m == if c in s.matrices then s.matrices[c] else Matrix(now, 0, 0, None)
  }

  /** A permission from 0 to 3 is stored for one field of one credential.  Every other explicit permission,
      matrix and log stays; the credential keeps its parent and default and counts one field more; its log
      for the field keeps the latest ninety-nine changes before the new one. */
  lemma SetPermissionOutcome(s: State, c: Address, f: Field, permission: u32, now: u64, old_: Matrix)
    requires OldOrNew(s, c, now, old_)
    ensures var (t, r) := SetPermission(s, c, f, permission, now);
            && (r.Ok? <==> permission <= 3) && (r.Err? ==> t == s)
            && (r.Ok? ==>
                  && t.explicit.Keys == s.explicit.Keys + {(c, f)} && t.explicit[(c, f)] == permission
                  && (forall k :: k in s.explicit && k != (c, f) ==> t.explicit[k] == s.explicit[k])
                  && OtherMatricesKept(s, t, c)
                  && t.matrices[c].customFields ==
                     (if old_.customFields == 0xFFFF_FFFF then old_.customFields else old_.customFields + 1)
                  && t.matrices[c] == old_.(customFields := t.matrices[c].customFields)
                  && t.history.Keys == s.history.Keys + {(c, f)}
                  && (forall k :: k in s.history && k != (c, f) ==> t.history[k] == s.history[k])
                  && var before := if (c, f) in s.history then s.history[(c, f)] else [];
                     t.history[(c, f)] ==
                     (if |before| < 100 then before else before[1..]) + [Change(now, permission, permission)])
  {
  }

  /** A parent is accepted exactly when the credential is neither the parent nor among its next ten
      ancestors; only the parent is stored. */
  lemma SetParentOutcome(s: State, c: Address, parent: Address, now: u64, old_: Matrix)
    requires OldOrNew(s, c, now, old_)
    ensures var (t, r) := SetParent(s, c, parent, now);
            && (r.Ok? <==> forall k: nat :: k <= 10 ==> Up(Graph(s), parent, k) != Some(c))
            && (r.Err? ==> t == s)
            && (r.Ok? ==>
                  && t.explicit == s.explicit && t.history == s.history && OtherMatricesKept(s, t, c)
                  && t.matrices[c] == Matrix(old_.createdAt, old_.defaultPermission, old_.customFields, Some(parent)))
  {
    if Circular(Graph(s), parent, c) {
      var k: nat :| k <= 10 && Up(Graph(s), parent, k) == Some(c);
      assert Up(Graph(s), parent, k) == Some(c);
    }
  }

  /** A default from 0 to 3 is accepted; only the default is stored. */
  lemma SetDefaultOutcome(s: State, c: Address, permission: u32, now: u64, old_: Matrix)
    requires OldOrNew(s, c, now, old_)
    ensures var (t, r) := SetDefault(s, c, permission, now);
            && (r.Ok? <==> permission <= 3) && (r.Err? ==> t == s)
            && (r.Ok? ==>
                  && t.explicit == s.explicit && t.history == s.history && OtherMatricesKept(s, t, c)
                  && t.matrices[c] == Matrix(old_.createdAt, permission, old_.customFields, old_.parent))
  {
  }

  // ---------- the bound is tight ----------

  /** Credential `i` inherits from credential `i + 1`, for `i` below `n`, in a ring of twelve. */
  function Ring(n: nat): Parents
    requires n <= 12
  {
    map c: Address | c in (set i | 0 <= i < n :: Account(i)) :: Account((c.id + 1) % 12)
  }

  lemma {:induction false} RingUp(n: nat, i: nat, k: nat)
    requires n <= 12 && i <= n && k <= n - i && n < 12
    ensures Up(Ring(n), Account(i), k) == Some(Account(i + k))
  {
    if k == 0 {
    } else {
      RingUp(n, i, k - 1);
    }
  }

  lemma RingStepPasses(n: nat)
    requires n < 12
    ensures !Circular(Ring(n), Account((n + 1) % 12), Account(n))
  {
    if n < 11 {
      assert Account(n + 1) !in Ring(n);
      var next := Account(n + 1);
      forall j | 0 <= j <= MAX_DEPTH ensures Up(Ring(n), next, j) != Some(Account(n)) {
        EndOfRing(n, j);
      }
    } else {
      forall j | 0 <= j <= MAX_DEPTH ensures Up(Ring(n), Account(0), j) != Some(Account(n)) {
        RingUp(n, 0, j);
      }
    }
  }

  lemma {:induction false} EndOfRing(n: nat, j: nat)
    requires n < 11
    ensures Up(Ring(n), Account(n + 1), j) == if j == 0 then Some(Account(n + 1)) else None
  {
    if j == 0 {
    } else {
      EndOfRing(n, j - 1);
    }
  }

  lemma {:induction false} RunAppend(s: State, ops: seq<Op>, op: Op)
    ensures Run(s, ops + [op]) == Step(Run(s, ops), op)
    decreases |ops|
  {
    if ops == [] {
      assert [op][1..] == [] && ops + [op] == [op];
    } else {
      RunAppend(Step(s, ops[0]), ops[1..], op);
      assert (ops + [op])[1..] == ops[1..] + [op];
    }
  }

  lemma ParentSet(s: State, c: Address, parent: Address, now: u64)
    requires !Circular(Graph(s), parent, c)
    ensures var t := SetParent(s, c, parent, now).0; Graph(t) == Graph(s)[c := parent] && t.explicit == s.explicit
  {
  }

  lemma RingStep(s: State, n: nat)
    requires n < 12 && Graph(s) == Ring(n)
    ensures var s' := Step(s, DoSetParent(Account(n), 0, Account((n + 1) % 12)));
            Graph(s') == Ring(n + 1) && s'.explicit == s.explicit
  {
    RingStepPasses(n);
    hide Circular, Graph;
    ParentSet(s, Account(n), Account((n + 1) % 12), 0);
    hide SetParent;
    assert Ring(n + 1) == Ring(n)[Account(n) := Account((n + 1) % 12)];
  }

  lemma {:induction false} RingReachable(n: nat) returns (ops: seq<Op>)
    requires n <= 12
    ensures Graph(Run(EMPTY, ops)) == Ring(n) && Run(EMPTY, ops).explicit == map[]
  {
    if n == 0 {
      ops := [];
    } else {
      var before := RingReachable(n - 1);
      hide Step, Ring, Graph;
      var op := DoSetParent(Account(n - 1), 0, Account(n % 12));
      ops := before + [op];
      RunAppend(EMPTY, before, op);
      RingStep(Run(EMPTY, before), n - 1);
    }
  }

  lemma {:induction false} RingNeverEnds(s: State, i: nat, f: Field, k: nat)
    requires Graph(s) == Ring(12) && s.explicit == map[] && i < 12
    ensures !Ends(s, Account(i), f, k)
    decreases k
  {
    assert Account(i) in Graph(s);
    if k == 0 {
    } else {
      RingNeverEnds(s, (i + 1) % 12, f, k - 1);
    }
  }

  /** Twelve is the exact bound: a ring of twelve credentials passes every check, and a lookup in it
      never ends. */
  lemma RingOfTwelveReachable() returns (ops: seq<Op>)
    ensures |Graph(Run(EMPTY, ops))| == 12
    ensures forall f, k: nat :: !Ends(Run(EMPTY, ops), Account(0), f, k)
  {
    ops := RingReachable(12);
    var s := Run(EMPTY, ops);
    assert s.explicit == map[];
    RingSize(12);
    forall f, k: nat ensures !Ends(s, Account(0), f, k) {
      RingNeverEnds(s, 0, f, k);
    }
  }

  lemma {:induction false} RingSize(n: nat)
    requires n <= 12
    ensures |Ring(n)| == n
  {
    if n == 0 {
    } else {
      RingSize(n - 1);
      assert Ring(n).Keys == Ring(n - 1).Keys + {Account(n - 1)};
      assert |Ring(n)| == |Ring(n).Keys| && |Ring(n - 1)| == |Ring(n - 1).Keys|;
    }
  }

  // ---------- the store ----------

  class PermissionStore {
    var matrices: map<Address, Matrix>
    var explicit: map<(Address, Field), u32>
    var history: map<(Address, Field), seq<Change>>

    ghost function Contents(): State
      reads this
    {
      State(matrices, explicit, history)
    }

    constructor ()
      ensures Contents() == EMPTY
    {
      matrices, explicit, history := map[], map[], map[];
    }

    /** The check for circularity: the proposed parent and ten further ancestors. */
    method CheckCircularInheritance(parent: Address, child: Address) returns (circular: bool)
      ensures circular <==> Circular(Graph(Contents()), parent, child)
    {
      ghost var p := Graph(Contents());
      var current, depth := parent, 0;
      while true
        invariant depth <= MAX_DEPTH && Up(p, parent, depth) == Some(current)
        invariant forall j :: 0 <= j < depth ==> Up(p, parent, j) != Some(child)
        decreases MAX_DEPTH - depth
      {
        if current == child {
          return true;
        }
        if depth >= MAX_DEPTH {
          return false;
        }
        if current !in matrices || matrices[current].parent.None? {
          forall j | depth < j <= MAX_DEPTH ensures Up(p, parent, j) == None {
            if Up(p, parent, j).Some? {
              UpShorter(p, parent, depth, j);
            }
          }
          return false;
        }
        current := matrices[current].parent.value;
        depth := depth + 1;
      }
    }

    method SetFieldPermissionInheritance(c: Address, parent: Address, now: u64) returns (r: Result<()>)
      modifies this
      ensures (Contents(), r) == SetParent(old(Contents()), c, parent, now)
    {
      var matrix := if c in matrices then matrices[c] else Matrix(now, 0, 0, None);
      var circular := CheckCircularInheritance(parent, c);
      if circular {
        return Err(InvalidPermission);
      }
      matrix := matrix.(parent := Some(parent));
      matrices := matrices[c := matrix];
      return Ok(());
    }

    method GetFieldPermission(c: Address, f: Field, ghost k: nat) returns (permission: u32)
      requires Ends(Contents(), c, f, k)
      ensures permission == Permission(Contents(), c, f, k)
      decreases k
    {
      if (c, f) in explicit {
        return explicit[(c, f)];
      }
      if c in matrices {
        var matrix := matrices[c];
        if matrix.parent.Some? {
          permission := GetFieldPermission(matrix.parent.value, f, k - 1);
          return;
        }
        return matrix.defaultPermission;
      }
      return 0;
    }

    method SetFieldPermissions(c: Address, f: Field, permission: u32, now: u64) returns (r: Result<()>)
      modifies this
      ensures (Contents(), r) == SetPermission(old(Contents()), c, f, permission, now)
    {
      if permission > 3 {
        return Err(InvalidPermission);
      }
      explicit := explicit[(c, f) := permission];
      var matrix := if c in matrices then matrices[c] else Matrix(now, 0, 0, None);
      matrix := matrix.(customFields := if matrix.customFields < U32_MAX then matrix.customFields + 1 else U32_MAX);
      matrices := matrices[c := matrix];
      var log := if (c, f) in history then history[(c, f)] else [];
      if |log| >= MAX_HISTORY {
        log := log[1..];
      }
      var before := GetFieldPermission(c, f, 0);
      history := history[(c, f) := log + [Change(now, before, permission)]];
      return Ok(());
    }

    method SetDefaultFieldPermission(c: Address, permission: u32, now: u64) returns (r: Result<()>)
      modifies this
      ensures (Contents(), r) == SetDefault(old(Contents()), c, permission, now)
    {
      if permission > 3 {
        return Err(InvalidPermission);
      }
      var matrix := if c in matrices then matrices[c] else Matrix(now, permission, 0, None);
      matrices := matrices[c := matrix.(defaultPermission := permission)];
      return Ok(());
    }
  }
}
