/** Chains of parents in a finite map, and how long their cycles must be when every new edge was
    checked for closing a short one. */
module InheritanceGraph {
  import opened Chains
  import opened Host

  /** The number of further ancestors that the check for circularity inspects. */
  const MAX_DEPTH: nat := 10

  type Parents = Links

  /** `child` is `parent` or one of its ten nearest ancestors: what the check looks for. */
  ghost predicate Circular(p: Parents, parent: Address, child: Address) {
    exists j :: 0 <= j <= MAX_DEPTH && Up(p, parent, j) == Some(child)
  }

  /** Every cycle has at least twelve members. */
  ghost predicate CyclesAreLong(p: Parents) {
    forall x, k :: 1 <= k <= MAX_DEPTH + 1 ==> Up(p, x, k) != Some(x)
  }

  /** A chain that does not pass `c` does not notice a new parent of `c`. */
  lemma {:induction false} UpWithout(p: Parents, p': Parents, c: Address, q: Address, x: Address, k: nat)
    requires p' == p[c := q] && forall i :: 0 <= i < k ==> Up(p', x, i) != Some(c)
    ensures Up(p, x, k) == Up(p', x, k)
  {
    if k == 0 {
    } else {
      UpWithout(p, p', c, q, x, k - 1);
    }
  }

  lemma {:induction false} FirstHit(p: Parents, x: Address, c: Address, k: nat) returns (j: nat)
    requires Up(p, x, k) == Some(c)
    ensures j <= k && Up(p, x, j) == Some(c) && forall i :: 0 <= i < j ==> Up(p, x, i) != Some(c)
  {
    if i :| 0 <= i < k && Up(p, x, i) == Some(c) {
      j := FirstHit(p, x, c, i);
    } else {
      j := k;
    }
  }

  /** A cycle after `c` got the parent `q` was there before, or shows `c` among the ancestors of `q`. */
  lemma CycleThrough(p: Parents, c: Address, q: Address, x: Address, k: nat) returns (j: nat)
    requires k >= 1 && Up(p[c := q], x, k) == Some(x) && Up(p, x, k) != Some(x)
    ensures j < k && Up(p, q, j) == Some(c)
  {
    var p' := p[c := q];
    if i :| 0 <= i < k && Up(p', x, i) == Some(c) {
      UpUp(p', x, i, k);
      UpUp(p', x, k, i);
      assert i + k == k + i && Up(p', c, k) == Some(c);
      assert Up(p', c, 0) == Some(c) && Up(p', c, 1) == Some(q);
      UpUp(p', c, 1, k - 1);
      j := FirstHit(p', q, c, k - 1);
      UpWithout(p, p', c, q, q, j);
    } else {
      UpWithout(p, p', c, q, x, k);
      assert false;
    }
  }

  /** Giving `c` a parent that the check lets pass closes no cycle of fewer than twelve members. */
  lemma SetParentKeepsCyclesLong(p: Parents, c: Address, q: Address)
    requires CyclesAreLong(p) && !Circular(p, q, c)
    ensures CyclesAreLong(p[c := q])
  {
    var p' := p[c := q];
    forall x, k | 1 <= k <= MAX_DEPTH + 1 ensures Up(p', x, k) != Some(x) {
      if Up(p', x, k) == Some(x) {
        var j := CycleThrough(p, c, q, x, k);
      }
    }
  }

  // ---------- few parents, no cycles ----------

  lemma {:induction false} DistinctAtMost<T>(s: seq<T>, all: set<T>)
    requires forall i :: 0 <= i < |s| ==> s[i] in all
    requires forall i, j :: 0 <= i < j < |s| ==> s[i] != s[j]
    ensures |s| <= |all|
  {
    if s == [] {
    } else {
      var last := s[|s| - 1];
      DistinctAtMost(s[..|s| - 1], all - {last});
    }
  }

  function Chain(p: Parents, x: Address, n: nat): (s: seq<Address>)
    requires Up(p, x, n).Some?
    ensures |s| == n + 1 && forall i :: 0 <= i <= n ==> Up(p, x, i) == Some(s[i])
  {
    if n == 0 then [x]
    else
      UpShorter(p, x, n - 1, n);
      Chain(p, x, n - 1) + [Up(p, x, n).value]
  }

  /** A chain of as many steps as there are parents, whose end has a parent too, meets itself within
      that many steps. */
  lemma LongChainRepeats(p: Parents, x: Address) returns (y: Address, k: nat)
    requires Up(p, x, |p| + 1).Some?
    ensures 1 <= k <= |p| && Up(p, y, k) == Some(y)
  {
    UpShorter(p, x, |p|, |p| + 1);
    var s := Chain(p, x, |p|);
    forall i | 0 <= i < |s| ensures s[i] in p.Keys {
      UpShorter(p, x, i, |p| + 1);
    }
    assert |p.Keys| == |p|;
    if forall i, j :: 0 <= i < j < |s| ==> s[i] != s[j] {
      DistinctAtMost(s, p.Keys);
      assert false;
    }
    var i, j :| 0 <= i < j < |s| && s[i] == s[j];
    UpUp(p, x, i, j - i);
    y, k := s[i], j - i;
  }

  /** With fewer than twelve parents, every chain ends within as many steps as there are parents. */
  lemma FewParentsChainsEnd(p: Parents, x: Address)
    requires CyclesAreLong(p) && |p| <= MAX_DEPTH + 1
    ensures Up(p, x, |p| + 1) == None
  {
    if Up(p, x, |p| + 1).Some? {
      var y, k := LongChainRepeats(p, x);
    }
  }

  lemma {:induction false} CycleRunsOn(p: Parents, x: Address, k: nat, n: nat)
    requires k >= 1 && Up(p, x, k) == Some(x)
    ensures Up(p, x, n).Some?
    decreases n
  {
    if n > k {
      UpUp(p, x, k, n - k);
      CycleRunsOn(p, x, k, n - k);
    } else {
      UpShorter(p, x, n, k);
    }
  }

  /** With fewer than twelve parents there is no cycle of any length. */
  lemma FewParentsAcyclic(p: Parents, x: Address, k: nat)
    requires CyclesAreLong(p) && |p| <= MAX_DEPTH + 1 && k >= 1
    ensures Up(p, x, k) != Some(x)
  {
    if Up(p, x, k) == Some(x) {
      CycleRunsOn(p, x, k, |p| + 1);
      FewParentsChainsEnd(p, x);
    }
  }

  // ---------- when an edge closes a cycle ----------

  ghost predicate Acyclic(p: Parents) {
    forall x, k: nat :: k >= 1 ==> Up(p, x, k) != Some(x)
  }

  /** `child` is `parent` or one of its `n` nearest ancestors. */
  ghost predicate AncestorWithin(p: Parents, parent: Address, child: Address, n: nat) {
    exists j :: 0 <= j <= n && Up(p, parent, j) == Some(child)
  }

  /** A chain that does not meet itself passes every parent at most once. */
  lemma ChainWithinParents(p: Parents, x: Address, n: nat)
    requires Up(p, x, n).Some?
    requires forall i, j :: 0 <= i < j < n ==> Up(p, x, i) != Up(p, x, j)
    ensures n <= |p|
  {
    if n > 0 {
      UpShorter(p, x, n - 1, n);
      var s := Chain(p, x, n - 1);
      forall i | 0 <= i < |s| ensures s[i] in p.Keys {
        UpShorter(p, x, i, n);
      }
      forall i, j | 0 <= i < j < |s| ensures s[i] != s[j] {
        assert Up(p, x, i) != Up(p, x, j);
      }
      DistinctAtMost(s, p.Keys);
      assert |p.Keys| == |p|;
    }
  }

  lemma AcyclicChain(p: Parents, x: Address, n: nat)
    requires Acyclic(p) && Up(p, x, n).Some?
    ensures n <= |p|
  {
    forall i, j | 0 <= i < j < n ensures Up(p, x, i) != Up(p, x, j) {
      UpShorter(p, x, i, n);
      UpUp(p, x, i, j - i);
    }
    ChainWithinParents(p, x, n);
  }

  /** Giving `c` the parent `q` keeps an acyclic graph acyclic exactly when `c` is neither `q` nor an
      ancestor of `q`; there are no more ancestors than parents. */
  lemma StaysAcyclicExactlyWhen(p: Parents, c: Address, q: Address)
    requires Acyclic(p)
    ensures Acyclic(p[c := q]) <==> !AncestorWithin(p, q, c, |p|)
  {
    var p' := p[c := q];
    if AncestorWithin(p, q, c, |p|) {
      var j :| 0 <= j <= |p| && Up(p, q, j) == Some(c);
      j := FirstHit(p, q, c, j);
      UpWith(p, c, q, j);
      assert Up(p', c, 0) == Some(c) && Up(p', c, 1) == Some(q);
      UpUp(p', c, 1, j);
      assert Up(p', c, j + 1) == Some(c);
    } else {
      forall x, k: nat | k >= 1 ensures Up(p', x, k) != Some(x) {
        if Up(p', x, k) == Some(x) {
          var j := CycleThrough(p, c, q, x, k);
          AcyclicChain(p, q, j);
        }
      }
    }
  }

  /** Up to its first visit of `c`, a chain is the same after `c` got a parent. */
  lemma {:induction false} UpWith(p: Parents, c: Address, q: Address, k: nat)
    requires forall i :: 0 <= i < k ==> Up(p, q, i) != Some(c)
    ensures Up(p[c := q], q, k) == Up(p, q, k)
  {
    if k == 0 {
    } else {
      UpWith(p, c, q, k - 1);
    }
  }
}
