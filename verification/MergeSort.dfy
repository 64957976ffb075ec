/**
 The merge sort workload: runs of doubling length are merged pairwise. The second run of
 a pair is laid out backwards behind the first, so that the merge takes the smaller of
 the two ends of what is left, wherever in the two runs those ends have got to.
 */
module MergeSort {
  import opened Common

  predicate Sorted(s: seq<int>) {
    forall i, j :: 0 <= i < j < |s| ==> s[i] <= s[j]
  }

  function Reversed(s: seq<int>): (r: seq<int>)
    ensures |r| == |s| && forall k :: 0 <= k < |s| ==> r[k] == s[|s| - 1 - k]
    ensures multiset(r) == multiset(s)
  {
    if s == [] then []
    else
      assert s == s[..|s| - 1] + [s[|s| - 1]];
      [s[|s| - 1]] + Reversed(s[..|s| - 1])
  }

  /** Two runs as the merge sees them. */
  function Bitonic(first: seq<int>, second: seq<int>): seq<int> {
    first + Reversed(second)
  }

  /** Takes the smaller end until nothing is left; the front on a tie. */
  function TakeEnds(s: seq<int>): seq<int> {
    if s == [] then []
    else
      var n := |s| - 1;
      if s[n] < s[0] then [s[n]] + TakeEnds(s[..n]) else [s[0]] + TakeEnds(s[1..])
  }

  /** No element lies below both a front and a back neighbour. */
  predicate Humped(s: seq<int>) {
    forall x, y, z :: 0 <= x <= y <= z < |s| ==> s[y] >= s[x] || s[y] >= s[z]
  }

  lemma {:induction false} TakeEndsKeeps(s: seq<int>)
    ensures |TakeEnds(s)| == |s| && multiset(TakeEnds(s)) == multiset(s)
  {
    if s != [] {
      var n := |s| - 1;
      if s[n] < s[0] {
        TakeEndsKeeps(s[..n]);
        assert s == s[..n] + [s[n]];
      } else {
        TakeEndsKeeps(s[1..]);
        assert s == [s[0]] + s[1..];
      }
    }
  }

  lemma TakeEndsMembers(s: seq<int>, k: nat)
    requires k < |TakeEnds(s)|
    ensures TakeEnds(s)[k] in s
  {
    TakeEndsKeeps(s);
    assert TakeEnds(s)[k] in multiset(TakeEnds(s));
  }

  lemma {:induction false} TakeEndsSorts(s: seq<int>)
    requires Humped(s)
    ensures Sorted(TakeEnds(s))
  {
    if s != [] {
      var n := |s| - 1;
      HumpedRest(s);
      hide Humped, Sorted;
      if s[n] < s[0] {
        TakeEndsSorts(s[..n]);
        LeastFirst(s[n], s[..n]);
      } else {
        TakeEndsSorts(s[1..]);
        LeastFirst(s[0], s[1..]);
      }
    }
  }

  lemma LeastFirst(least: int, rest: seq<int>)
    requires Sorted(TakeEnds(rest)) && forall x :: x in rest ==> least <= x
    ensures Sorted([least] + TakeEnds(rest))
  {
    hide TakeEnds;
    forall k | 0 <= k < |TakeEnds(rest)| ensures least <= TakeEnds(rest)[k] {
      TakeEndsMembers(rest, k);
    }
    SortedPrepend(least, TakeEnds(rest));
  }

  lemma HumpedRest(s: seq<int>)
    requires Humped(s) && s != []
    ensures Humped(s[1..]) && Humped(s[..|s| - 1])
    ensures forall x :: x in s[1..] || x in s[..|s| - 1] ==> s[0] <= x || s[|s| - 1] <= x
  {
    forall x, y, z | 0 <= x <= y <= z < |s| - 1 ensures s[1..][y] >= s[1..][x] || s[1..][y] >= s[1..][z] {
      assert s[y + 1] >= s[x + 1] || s[y + 1] >= s[z + 1];
    }
  }

  lemma SortedPrepend(least: int, r: seq<int>)
    requires Sorted(r) && forall k :: 0 <= k < |r| ==> least <= r[k]
    ensures Sorted([least] + r)
  {
  }

  lemma SortedRunsMakeHump(first: seq<int>, second: seq<int>)
    requires Sorted(first) && Sorted(second)
    ensures Humped(Bitonic(first, second))
  {
    var s := Bitonic(first, second);
    forall x, y, z | 0 <= x <= y <= z < |s| ensures s[y] >= s[x] || s[y] >= s[z] {
      if y < |first| {
        RisesInFirst(first, second, x, y);
      } else {
        FallsInSecond(first, second, y, z);
      }
    }
  }

  lemma RisesInFirst(first: seq<int>, second: seq<int>, x: nat, y: nat)
    requires Sorted(first) && x <= y < |first|
    ensures Bitonic(first, second)[x] <= Bitonic(first, second)[y]
  {
    hide Reversed;
    assert Bitonic(first, second)[x] == first[x] && Bitonic(first, second)[y] == first[y];
  }

  lemma FallsInSecond(first: seq<int>, second: seq<int>, y: nat, z: nat)
    requires Sorted(second) && |first| <= y <= z < |first| + |second|
    ensures Bitonic(first, second)[y] >= Bitonic(first, second)[z]
  {
    hide Reversed;
    var m := |first|;
    assert Bitonic(first, second)[y] == Reversed(second)[y - m];
    assert Bitonic(first, second)[z] == Reversed(second)[z - m];
  }

  /** Merging two sorted runs gives a sorted permutation of them. */
  lemma MergeSorts(first: seq<int>, second: seq<int>)
    requires Sorted(first) && Sorted(second)
    ensures var r := TakeEnds(Bitonic(first, second));
      Sorted(r) && multiset(r) == multiset(first + second) && |r| == |first| + |second|
  {
    SortedRunsMakeHump(first, second);
    TakeEndsSorts(Bitonic(first, second));
    TakeEndsKeeps(Bitonic(first, second));
  }

  // ---------- Runs ----------

  /** `s` is made of `count` sorted runs of length `m`. */
  predicate Runs(s: seq<int>, m: nat, count: nat) {
    if count == 0 then s == []
    else |s| >= m && Sorted(s[..m]) && Runs(s[m..], m, count - 1)
  }

  lemma NoRuns(s: seq<int>, m: nat)
    ensures Runs(s[..0], m, 0)
  {
  }

  lemma {:induction false} SingletonRuns(s: seq<int>)
    ensures Runs(s, 1, |s|)
  {
    if s != [] {
      SingletonRuns(s[1..]);
    }
  }

  lemma {:induction false} OneMoreRun(s: seq<int>, m: nat, count: nat, run: seq<int>)
    requires Runs(s, m, count) && |run| == m && Sorted(run)
    ensures Runs(s + run, m, count + 1)
  {
    if count == 0 {
      assert (s + run)[..m] == run && (s + run)[m..] == [];
    } else {
      OneMoreRun(s[m..], m, count - 1, run);
      assert (s + run)[..m] == s[..m] && (s + run)[m..] == s[m..] + run;
    }
  }

  lemma RunsLength(s: seq<int>, m: nat, count: nat)
    requires Runs(s, m, count) && m > 0
    ensures count == 0 <==> |s| == 0
    ensures count == 1 <==> |s| == m
    ensures count > 1 ==> |s| >= m + m && Sorted(s[..m]) && Sorted(s[m..m + m]) && Runs(s[m + m..], m, count - 2)
  {
    if count > 1 {
      assert s[m..][..m] == s[m..m + m] && s[m..][m..] == s[m + m..];
    }
  }

  predicate IsPowerOfTwo(n: nat) {
    n > 0 && (n == 1 || (n % 2 == 0 && IsPowerOfTwo(n / 2)))
  }

  // ---------- The sort ----------

  /** Lays the runs `from..mid` and `mid + 1..to`, both ends included, out in `temp`, the second one backwards. */
  method LayOut(a: array<int>, temp: array<int>, from: nat, mid: int, to: int)
    requires from - 1 <= mid <= to < a.Length == temp.Length && a != temp
    modifies temp
    ensures temp[..][from..to + 1] == Bitonic(a[..][from..mid + 1], a[..][mid + 1..to + 1])
  {
    hide Bitonic;
    ghost var all := a[..];
    ghost var runs := Bitonic(all[from..mid + 1], all[mid + 1..to + 1]);
    BothRuns(all, from, mid, to);
    for i := from to mid + 1
      invariant forall x {:trigger temp[x]} :: from <= x < i ==> temp[x] == runs[x - from]
    {
      InFirstRun(all, from, mid, to, i);
      temp[i] := a[i];
    }
    ghost var first := temp[..];
    for j := mid + 1 to to + 1
      invariant forall x {:trigger temp[x]} :: from <= x <= mid ==> temp[x] == first[x]
      invariant forall x {:trigger temp[x]} :: mid + 1 + to - j < x <= to ==> temp[x] == runs[x - from]
    {
      InSecondRun(all, from, mid, to, j);
      temp[mid + 1 + to - j] := a[j];
    }
    SameStretch(temp[..], from, to + 1, runs);
  }

  lemma SameStretch(s: seq<int>, from: nat, to: nat, r: seq<int>)
    requires from <= to <= |s| && |r| == to - from && forall x {:trigger s[x]} :: from <= x < to ==> s[x] == r[x - from]
    ensures s[from..to] == r
  {
  }

  lemma BothRuns(all: seq<int>, from: nat, mid: int, to: int)
    requires from - 1 <= mid <= to < |all|
    ensures |Bitonic(all[from..mid + 1], all[mid + 1..to + 1])| == to + 1 - from
  {
  }

  lemma InFirstRun(all: seq<int>, from: nat, mid: int, to: int, i: nat)
    requires from <= i <= mid <= to < |all|
    ensures Bitonic(all[from..mid + 1], all[mid + 1..to + 1])[i - from] == all[i]
  {
    hide Reversed;
  }

  lemma InSecondRun(all: seq<int>, from: nat, mid: int, to: int, j: nat)
    requires from - 1 <= mid < j <= to < |all|
    ensures Bitonic(all[from..mid + 1], all[mid + 1..to + 1])[mid + 1 + to - j - from] == all[j]
  {
    hide Reversed;
    var second := all[mid + 1..to + 1];
    assert Bitonic(all[from..mid + 1], second)[mid + 1 + to - j - from] == Reversed(second)[to - j];
  }

  /** Takes the smaller end of `temp[from..to]`, both ends included, until all of it is back in `a`. */
  method MergeBack(a: array<int>, temp: array<int>, from: nat, to: int)
    requires from - 1 <= to < a.Length == temp.Length && a != temp
    modifies a
    ensures a[..] == old(a[..])[..from] + TakeEnds(temp[..][from..to + 1]) + old(a[..])[to + 1..]
  {
    hide TakeEnds;
    ghost var before := a[..];
    ghost var all := temp[..];
    ghost var taken: seq<int> := [];
    var i, j: int := from, to;
    for k := from to to + 1
      invariant from <= i <= j + 1 <= to + 1 && |taken| == k - from == i - from + (to - j)
      invariant a[..] == before[..from] + taken + before[k..] && temp[..] == all
      invariant taken + TakeEnds(all[i..j + 1]) == TakeEnds(all[from..to + 1])
    {
      NextTaken(before, from, taken, k);
      EndTaken(all, i, j, taken);
      var tmpJ := temp[j];
      var tmpI := temp[i];
      if tmpJ < tmpI {
        a[k] := tmpJ;
        taken := taken + [tmpJ];
        j := j - 1;
      } else {
        a[k] := tmpI;
        taken := taken + [tmpI];
        i := i + 1;
      }
    }
    NothingLeft(all[i..j + 1], taken);
  }

  lemma EndTaken(t: seq<int>, i: nat, j: nat, taken: seq<int>)
    requires i <= j < |t|
    ensures taken + TakeEnds(t[i..j + 1]) ==
      if t[j] < t[i] then (taken + [t[j]]) + TakeEnds(t[i..j]) else (taken + [t[i]]) + TakeEnds(t[i + 1..j + 1])
  {
    var left := t[i..j + 1];
    assert left[..|left| - 1] == t[i..j] && left[1..] == t[i + 1..j + 1];
    assert left[0] == t[i] && left[|left| - 1] == t[j];
    assert (taken + [t[j]]) + TakeEnds(t[i..j]) == taken + ([t[j]] + TakeEnds(t[i..j]));
    assert (taken + [t[i]]) + TakeEnds(t[i + 1..j + 1]) == taken + ([t[i]] + TakeEnds(t[i + 1..j + 1]));
  }

  lemma NothingLeft(left: seq<int>, taken: seq<int>)
    requires left == []
    ensures taken + TakeEnds(left) == taken
  {
  }

  lemma NextTaken(s: seq<int>, from: nat, taken: seq<int>, k: nat)
    requires k < |s| && k == from + |taken|
    ensures forall v :: (s[..from] + taken + s[k..])[k := v] == s[..from] + (taken + [v]) + s[k + 1..]
  {
  }

  /** What is left of `s` when the pair of runs at `i` has been merged. */
  function WithPairMerged(s: seq<int>, i: nat, m: nat): seq<int>
    requires i + m + m <= |s|
  {
    s[..i] + TakeEnds(Bitonic(s[i..i + m], s[i + m..i + m + m])) + s[i + m + m..]
  }

  lemma PairMergedKeeps(s: seq<int>, i: nat, m: nat, merged: nat, left: nat)
    requires m > 0 && i <= |s| && Runs(s[..i], m + m, merged) && Runs(s[i..], m, left) && left > 1
    ensures i + m + m <= |s|
    ensures var r := WithPairMerged(s, i, m);
      && |r| == |s| && multiset(r) == multiset(s)
      && Runs(r[..i + m + m], m + m, merged + 1) && Runs(r[i + m + m..], m, left - 2)
  {
    hide Runs, Bitonic, TakeEnds, Sorted, WithPairMerged;
    RunsLength(s[i..], m, left);
    RunsOfPair(s, i, m);
    var run := MergedRun(s, i, m);
    OneMoreRun(s[..i], m + m, merged, run);
  }

  lemma MergedRun(s: seq<int>, i: nat, m: nat) returns (run: seq<int>)
    requires i + m + m <= |s| && Sorted(s[i..i + m]) && Sorted(s[i + m..i + m + m])
    ensures |run| == m + m && Sorted(run)
    ensures var r := WithPairMerged(s, i, m);
      && |r| == |s| && multiset(r) == multiset(s)
      && r[..i + m + m] == s[..i] + run && r[i + m + m..] == s[i..][m + m..]
  {
    hide Bitonic, TakeEnds, Sorted;
    MergeSorts(s[i..i + m], s[i + m..i + m + m]);
    run := TakeEnds(Bitonic(s[i..i + m], s[i + m..i + m + m]));
    assert WithPairMerged(s, i, m) == s[..i] + run + s[i + m + m..];
    hide WithPairMerged;
    PairMerged(s, i, m, run);
  }

  /** Merges the pair of runs at `i`. */
  method MergePair(a: array<int>, temp: array<int>, i: nat, m: nat)
    requires temp.Length == a.Length && a != temp && m > 0 && i + m + m <= a.Length
    modifies a, temp
    ensures a[..] == WithPairMerged(old(a[..]), i, m)
  {
    hide Bitonic, TakeEnds;
    ghost var before := a[..];
    var mid := i + m - 1;
    var to := i + m + m - 1;
    LayOut(a, temp, i, mid, to);
    MergeBack(a, temp, i, to);
  }

  /** One pass: merges the `count` runs of length `m` pairwise. */
  method MergePass(a: array<int>, temp: array<int>, m: nat, ghost count: nat)
    requires temp.Length == a.Length && a != temp && m > 0
    requires Runs(a[..], m, count) && count % 2 == 0
    modifies a, temp
    ensures Runs(a[..], m + m, count / 2) && multiset(a[..]) == multiset(old(a[..]))
  {
    hide Runs, WithPairMerged;
    var i: nat := 0;
    ghost var merged: nat := 0;
    ghost var left: nat := count;
    NoRuns(a[..], m + m);
    assert a[..][0..] == a[..];
    while i < a.Length
      invariant i <= a.Length && left + 2 * merged == count
      invariant Runs(a[..][..i], m + m, merged) && Runs(a[..][i..], m, left)
      invariant multiset(a[..]) == multiset(old(a[..]))
    {
      RunsLength(a[..][i..], m, left);
      if i + m + m - 1 < a.Length {
        PairMergedKeeps(a[..], i, m, merged, left);
        MergePair(a, temp, i, m);
      } else {
        assert false;
      }
      i, merged, left := i + m + m, merged + 1, left - 2;
    }
    assert a[..][..i] == a[..];
    RunsLength(a[..][i..], m, left);
  }

  /**
   Sorts in place. The branch for an incomplete last pair would read `a[stop]`; for a
   power-of-two length control never gets there.
   */
  method Sort(a: array<int>)
    requires a.Length == 0 || IsPowerOfTwo(a.Length)
    modifies a
    ensures Sorted(a[..]) && multiset(a[..]) == multiset(old(a[..]))
  {
    hide Runs, Sorted;
    var temp := new int[a.Length];
    var m: nat := 1;
    ghost var count: nat := a.Length;
    SingletonRuns(a[..]);
    while m < a.Length
      invariant m > 0 && (count == 0 || IsPowerOfTwo(count)) && Runs(a[..], m, count)
      invariant multiset(a[..]) == multiset(old(a[..]))
      decreases count
    {
      RunsLength(a[..], m, count);
      MergePass(a, temp, m, count);
      m := m + m;
      count := count / 2;
    }
    RunsLength(a[..], m, count);
    OneRun(a[..], m, count);
  }

  lemma OneRun(s: seq<int>, m: nat, count: nat)
    requires Runs(s, m, count) && count <= 1
    ensures Sorted(s)
  {
    if count == 1 {
      assert s[m..] == [];
      assert s[..m] == s;
    }
  }

  /** The two runs at `i` as they stand in the array. */
  lemma RunsOfPair(s: seq<int>, i: nat, m: nat)
    requires i + m + m <= |s| && Sorted(s[i..][..m]) && Sorted(s[i..][m..m + m])
    ensures Sorted(s[i..i + m]) && Sorted(s[i + m..i + m + m])
  {
    assert s[i..][..m] == s[i..i + m] && s[i..][m..m + m] == s[i + m..i + m + m];
  }

  /** The array after the pair at `i` has been replaced by `run`. */
  lemma PairMerged(s: seq<int>, i: nat, m: nat, run: seq<int>)
    requires i + m + m <= |s| && |run| == m + m
    requires multiset(run) == multiset(s[i..i + m] + s[i + m..i + m + m])
    ensures var r := s[..i] + run + s[i + m + m..];
      && |r| == |s| && r[..i + m + m] == s[..i] + run && r[i + m + m..] == s[i..][m + m..]
      && multiset(r) == multiset(s)
  {
    assert s == s[..i] + (s[i..i + m] + s[i + m..i + m + m]) + s[i + m + m..];
  }

  // ---------- Which lengths work ----------

  /** Some pass over an array of length `n` meets a pair whose second run is not whole. */
  ghost predicate ElseTaken(n: nat) {
    exists k: nat, pair: nat :: IncompletePair(n, Pow2(k), pair)
  }

  /** In the pass with runs of length `m`, at pair number `pair`. */
  predicate IncompletePair(n: nat, m: nat, pair: nat) {
    m < n && pair * (m + m) < n && pair * (m + m) + m + m - 1 >= n
  }

  lemma {:induction false} PowerIsPow2(n: nat) returns (k: nat)
    requires IsPowerOfTwo(n)
    ensures n == Pow2(k)
  {
    if n == 1 {
      k := 0;
    } else {
      k := PowerIsPow2(n / 2);
      k := k + 1;
    }
  }

  lemma {:induction false} Pow2IsPower(k: nat)
    ensures IsPowerOfTwo(Pow2(k))
  {
    if k > 0 {
      Pow2IsPower(k - 1);
    }
  }

  /** Smaller powers divide larger ones. */
  lemma {:induction false} PowersDivide(k: nat, j: nat) returns (c: nat)
    requires Pow2(k) < Pow2(j)
    ensures Pow2(j) == c * (Pow2(k) + Pow2(k))
    decreases j
  {
    if j == 0 {
      PowPositive(k);
      assert false;
    } else if Pow2(k) == Pow2(j - 1) {
      c := 1;
    } else if Pow2(k) < Pow2(j - 1) {
      c := PowersDivide(k, j - 1);
      c := 2 * c;
    } else {
      PowersBetween(k, j - 1);
      assert false;
    }
  }

  lemma {:induction false} PowPositive(k: nat)
    ensures Pow2(k) > 0
  {
    if k > 0 {
      PowPositive(k - 1);
    }
  }

  /** There is no power of two strictly between one and its double. */
  lemma {:induction false} PowersBetween(k: nat, j: nat)
    ensures !(Pow2(j) < Pow2(k) < 2 * Pow2(j))
  {
    if k > 0 && j > 0 {
      PowersBetween(k - 1, j - 1);
    } else if k == 0 {
      PowPositive(j);
    } else {
      PowPositive(k - 1);
    }
  }

  lemma MultipleAbove(pair: nat, c: nat, w: nat)
    requires pair * w < c * w
    ensures pair * w + w <= c * w
  {
    if pair > c {
      ProductGap(c, pair, w);
    } else if pair < c {
      ProductGap(pair, c, w);
    }
  }

  /** The largest power of two below `n`. */
  lemma {:induction false} LargestBelow(n: nat, k: nat) returns (j: nat)
    requires Pow2(k) < n
    ensures Pow2(j) < n <= 2 * Pow2(j)
    decreases n - Pow2(k)
  {
    if n <= 2 * Pow2(k) {
      j := k;
    } else {
      PowPositive(k);
      assert Pow2(k + 1) == 2 * Pow2(k);
      j := LargestBelow(n, k + 1);
    }
  }

  /** The branch for an incomplete pair is avoided exactly for an empty array and the power-of-two lengths. */
  lemma ElseBranchAvoided(n: nat)
    ensures !ElseTaken(n) <==> n == 0 || IsPowerOfTwo(n)
  {
    if IsPowerOfTwo(n) {
      var j := PowerIsPow2(n);
      forall k: nat, pair: nat ensures !IncompletePair(n, Pow2(k), pair) {
        if IncompletePair(n, Pow2(k), pair) {
          var c := PowersDivide(k, j);
          MultipleAbove(pair, c, Pow2(k) + Pow2(k));
          assert false;
        }
      }
    } else if n > 0 {
      assert Pow2(0) < n;
      var k := LargestBelow(n, 0);
      Pow2IsPower(k + 1);
      assert Pow2(k + 1) == 2 * Pow2(k);
      assert IncompletePair(n, Pow2(k), 0);
    }
  }
}
