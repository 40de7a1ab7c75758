/** Sorted rearrangements of a list of numbers, sums over them and counts in them. */
module OrderStatistics {
  import opened Host
  import opened Arith
  import opened Sequences

  function Insert(x: int, s: seq<int>): seq<int> {
    if s == [] || x <= s[0] then [x] + s else [s[0]] + Insert(x, s[1..])
  }

  /** The numbers of `s` in ascending order. */
  function Ranked(s: seq<int>): seq<int> {
    if s == [] then [] else Insert(s[0], Ranked(s[1..]))
  }

  predicate Rearranged(s: seq<int>, t: seq<int>) {
    multiset(s) == multiset(t)
  }

  lemma {:induction false} InsertAdds(x: int, s: seq<int>)
    ensures multiset(Insert(x, s)) == multiset(s) + multiset{x}
    ensures |Insert(x, s)| == |s| + 1
  {
    if s == [] || x <= s[0] {
    } else {
      InsertAdds(x, s[1..]);
      assert s == [s[0]] + s[1..];
    }
  }

  lemma {:induction false} InsertKeepsSorted(x: int, s: seq<int>, lo: int)
    requires Sorted(s) && lo <= x && forall i :: 0 <= i < |s| ==> lo <= s[i]
    ensures Sorted(Insert(x, s)) && forall i :: 0 <= i < |Insert(x, s)| ==> lo <= Insert(x, s)[i]
  {
    if s == [] || x <= s[0] {
    } else {
      InsertKeepsSorted(x, s[1..], s[0]);
    }
  }

  lemma InsertRearranged(s: seq<int>, rest: seq<int>)
    requires s != [] && Rearranged(rest, s[1..])
    ensures Rearranged(Insert(s[0], rest), s)
  {
    InsertAdds(s[0], rest);
    assert s == [s[0]] + s[1..];
  }

  lemma {:induction false} RankedIsSorted(s: seq<int>)
    ensures Sorted(Ranked(s)) && Rearranged(Ranked(s), s) && |Ranked(s)| == |s|
  {
    if s == [] {
    } else {
      hide Rearranged, Insert;
      var rest := Ranked(s[1..]);
      RankedIsSorted(s[1..]);
      InsertRearranged(s, rest);
      InsertAdds(s[0], rest);
      InsertKeepsSorted(s[0], rest, if rest == [] then s[0] else Min(s[0], rest[0]));
    }
  }

  lemma SortedFirstLeast(s: seq<int>, x: int)
    requires Sorted(s) && x in multiset(s)
    ensures s[0] <= x
  {
    var i :| 0 <= i < |s| && s[i] == x;
  }

  lemma RestRearranged(s: seq<int>, t: seq<int>)
    requires s != [] && t != [] && s[0] == t[0] && Rearranged(s, t)
    ensures Rearranged(s[1..], t[1..])
  {
    assert s == [s[0]] + s[1..] && t == [t[0]] + t[1..];
    assert multiset(s[1..]) == multiset(s) - multiset{s[0]};
    assert multiset(t[1..]) == multiset(t) - multiset{t[0]};
  }

  lemma SameLength(s: seq<int>, t: seq<int>)
    requires Rearranged(s, t)
    ensures |s| == |t|
  {
    assert |multiset(s)| == |multiset(t)|;
  }

  /** A list has only one sorted rearrangement. */
  lemma {:induction false} SortedUnique(s: seq<int>, t: seq<int>)
    requires Sorted(s) && Sorted(t) && Rearranged(s, t)
    ensures s == t
  {
    SameLength(s, t);
    if s == [] {
    } else {
      assert s[0] in multiset(t) && t[0] in multiset(s);
      SortedFirstLeast(s, t[0]);
      SortedFirstLeast(t, s[0]);
      RestRearranged(s, t);
      hide Rearranged;
      SortedUnique(s[1..], t[1..]);
      assert s == [s[0]] + s[1..] && t == [t[0]] + t[1..];
    }
  }

  lemma RankedUnique(s: seq<int>, t: seq<int>)
    requires Sorted(t) && Rearranged(t, s)
    ensures t == Ranked(s)
  {
    RankedIsSorted(s);
    SortedUnique(t, Ranked(s));
  }

  // ---------- the in-place sort ----------

  method Exchange(a: array<int>, i: nat, j: nat)
    requires i < j < a.Length
    modifies a
    ensures a[..] == old(a[..])[i := old(a[j])][j := old(a[i])]
    ensures Rearranged(a[..], old(a[..]))
  {
    a[i], a[j] := a[j], a[i];
  }

  /** Position `i` holds a number no greater than any to its right, for each `i` below `k`. */
  predicate LeastUpTo(s: seq<int>, k: nat) {
    forall i, j :: 0 <= i < k && i < j < |s| ==> s[i] <= s[j]
  }

  predicate LeastAgainst(s: seq<int>, i: nat, k: nat) {
    i < |s| && forall j :: i < j < k && j < |s| ==> s[i] <= s[j]
  }

  lemma ExchangeKeepsLeast(s: seq<int>, i: nat, j: nat)
    requires i < j < |s| && s[i] > s[j] && LeastUpTo(s, i) && LeastAgainst(s, i, j)
    ensures var t := s[i := s[j]][j := s[i]]; LeastUpTo(t, i) && LeastAgainst(t, i, j + 1)
  {
  }

  /** Exchanges elements in place until position `i` holds the `i`-th smallest, for each `i` in turn. */
  method ExchangeSort(a: array<int>)
    modifies a
    ensures a[..] == Ranked(old(a[..]))
  {
    hide Rearranged, Ranked;
    ghost var was := a[..];
    assert Rearranged(a[..], was) by { RearrangedSelf(was); }
    for i := 0 to a.Length
      invariant Rearranged(a[..], was) && LeastUpTo(a[..], i)
    {
      for j := i + 1 to a.Length
        invariant Rearranged(a[..], was) && LeastUpTo(a[..], i) && LeastAgainst(a[..], i, j)
      {
        if a[i] > a[j] {
          ghost var before := a[..];
          ExchangeKeepsLeast(before, i, j);
          Exchange(a, i, j);
          RearrangedTrans(a[..], before, was);
        }
      }
    }
    RankedUnique(was, a[..]);
  }

  lemma RearrangedSelf(s: seq<int>)
    ensures Rearranged(s, s)
  {
  }

  lemma RearrangedTrans(s: seq<int>, t: seq<int>, u: seq<int>)
    requires Rearranged(s, t) && Rearranged(t, u)
    ensures Rearranged(s, u)
  {
  }

  // ---------- counting ----------

  /** How many numbers of `s` are below `v`. */
  function CountBelow(s: seq<int>, v: int): nat {
    if s == [] then 0 else (if s[0] < v then 1 else 0) + CountBelow(s[1..], v)
  }

  lemma {:induction false} InsertCount(x: int, s: seq<int>, v: int)
    ensures CountBelow(Insert(x, s), v) == CountBelow(s, v) + if x < v then 1 else 0
  {
    if s == [] || x <= s[0] {
      assert ([x] + s)[1..] == s;
    } else {
      InsertCount(x, s[1..], v);
      assert ([s[0]] + Insert(x, s[1..]))[1..] == Insert(x, s[1..]);
    }
  }

  lemma {:induction false} RankedCount(s: seq<int>, v: int)
    ensures CountBelow(Ranked(s), v) == CountBelow(s, v)
  {
    if s == [] {
    } else {
      RankedCount(s[1..], v);
      InsertCount(s[0], Ranked(s[1..]), v);
    }
  }

  lemma {:induction false} CountBelowAtMost(s: seq<int>, v: int)
    ensures CountBelow(s, v) <= |s|
  {
    if s == [] {
    } else {
      CountBelowAtMost(s[1..], v);
    }
  }

  lemma {:induction false} NoneBelow(s: seq<int>, v: int)
    requires forall i :: 0 <= i < |s| ==> s[i] >= v
    ensures CountBelow(s, v) == 0
  {
    if s == [] {
    } else {
      NoneBelow(s[1..], v);
    }
  }

  /** In a sorted list, the number at `index` is below `v` exactly when more than `index` numbers are. */
  lemma {:induction false} BelowAtIndex(s: seq<int>, v: int, index: nat)
    requires Sorted(s) && index < |s|
    ensures s[index] < v <==> CountBelow(s, v) > index
  {
    if s[0] >= v {
      NoneBelow(s, v);
    } else if index > 0 {
      BelowAtIndex(s[1..], v, index - 1);
    }
  }

  lemma {:induction false} CountAppend(s: seq<int>, x: int, v: int)
    ensures CountBelow(s + [x], v) == CountBelow(s, v) + if x < v then 1 else 0
  {
    if s == [] {
      assert [x][1..] == [] && s + [x] == [x];
    } else {
      CountAppend(s[1..], x, v);
      assert (s + [x])[1..] == s[1..] + [x];
    }
  }

  // ---------- sums ----------

  function Sum(s: seq<int>): int {
    if s == [] then 0 else Sum(s[..|s| - 1]) + s[|s| - 1]
  }

  /** The sum as the contract forms it: from the left, saturating at every addition. */
  function SatSum(s: seq<int>): i128 {
    if s == [] then 0 else ClampI128(SatSum(s[..|s| - 1]) + s[|s| - 1])
  }

  /** No addition of the sum saturates. */
  predicate Unsaturated(s: seq<int>) {
    forall i :: 0 <= i <= |s| ==> FitsI128(Sum(s[..i]))
  }

  lemma {:induction false} SatSumExact(s: seq<int>)
    requires Unsaturated(s)
    ensures SatSum(s) == Sum(s)
  {
    if s == [] {
    } else {
      var front := s[..|s| - 1];
      forall i | 0 <= i <= |front| ensures FitsI128(Sum(front[..i])) {
        assert front[..i] == s[..i];
      }
      SatSumExact(front);
      assert s[..|s|] == s;
    }
  }

  lemma {:induction false} SatSumNonNegative(s: seq<int>)
    requires forall i :: 0 <= i < |s| ==> s[i] >= 0
    ensures Sum(s) >= 0 && SatSum(s) == Min(Sum(s), I128_MAX)
  {
    if s == [] {
    } else {
      SatSumNonNegative(s[..|s| - 1]);
    }
  }

  lemma {:induction false} SumBounds(s: seq<int>, lo: int, hi: int)
    requires forall i :: 0 <= i < |s| ==> lo <= s[i] <= hi
    ensures |s| * lo <= Sum(s) <= |s| * hi
  {
    if s == [] {
    } else {
      SumBounds(s[..|s| - 1], lo, hi);
      MulAdd(|s| - 1, 1, lo);
      MulAdd(|s| - 1, 1, hi);
    }
  }

  /** When the bounds of a list fit the type as often as the list is long, no addition saturates. */
  lemma BoundedUnsaturated(s: seq<int>, lo: int, hi: int)
    requires forall i :: 0 <= i < |s| ==> lo <= s[i] <= hi
    requires I128_MIN <= |s| * lo && |s| * hi <= I128_MAX
    ensures Unsaturated(s)
  {
    forall i | 0 <= i <= |s| ensures FitsI128(Sum(s[..i])) {
      SumBounds(s[..i], lo, hi);
      if lo < 0 {
        MulMono(i, |s|, -lo);
      } else {
        MulNonNeg(i, lo);
      }
      if hi > 0 {
        MulMono(i, |s|, hi);
      } else {
        MulNonNeg(i, -hi);
      }
    }
  }

  lemma {:induction false} SatSumRepeated(x: i128, n: nat)
    ensures SatSum(Repeated<int>(x, n)) == ClampI128(n * x)
  {
    if n == 0 {
    } else {
      SatSumRepeated(x, n - 1);
      assert Repeated<int>(x, n)[..n - 1] == Repeated<int>(x, n - 1);
      ClampStep(0, x, n - 1);
    }
  }

  /** Adding the same number over and over, saturating each time, saturates the exact result. */
  lemma ClampStep(start: i128, x: int, n: nat)
    ensures ClampI128(ClampI128(start + n * x) + x) == ClampI128(start + (n + 1) * x)
  {
    MulAdd(n, 1, x);
    if x >= 0 {
      MulNonNeg(n, x);
    } else {
      MulNonNeg(n, -x);
    }
  }

  /** A truncated mean lies between two integers when the exact mean does. */
  lemma TruncDivBetween(a: int, n: int, lo: int, hi: int)
    requires n > 0
    ensures n * lo <= a ==> lo <= TruncDiv(a, n)
    ensures a <= n * hi ==> TruncDiv(a, n) <= hi
  {
    if a >= 0 {
      DivIsLargest(a, n, lo);
      if a <= n * hi && a / n > hi {
        DivIsLargest(a, n, hi + 1);
        MulAdd(hi, 1, n);
      }
    } else {
      DivIsLargest(-a, n, -hi);
      MulSub(0, hi, n);
      if n * lo <= a && (-a) / n > -lo {
        DivIsLargest(-a, n, -lo + 1);
        MulAdd(-lo, 1, n);
        MulSub(0, lo, n);
      }
    }
  }
}
