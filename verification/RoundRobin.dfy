/** Smooth weighted round robin on values: the arithmetic behind `group.pick`.

    A balancer state is the vector of the targets' counters. One pick offers each
    candidate its weight, takes the first candidate with the largest counter and
    charges it the total offered. The theorems below are about whole runs of picks. */
module RoundRobin {

  // ---------- vectors ----------

  function Sum(s: seq<int>): int {
    if s == [] then 0 else Sum(s[..|s| - 1]) + s[|s| - 1]
  }

  /** The vector `s` with every entry outside the candidate set zeroed. */
  function Masked(s: seq<int>, mask: seq<bool>): (r: seq<int>)
    requires |s| == |mask|
    ensures |r| == |s|
    ensures forall i :: 0 <= i < |s| ==> r[i] == if mask[i] then s[i] else 0
  {
    seq(|s|, i requires 0 <= i < |s| => if mask[i] then s[i] else 0)
  }

  function Add(a: seq<int>, b: seq<int>): (r: seq<int>)
    requires |a| == |b|
    ensures |r| == |a|
    ensures forall i :: 0 <= i < |a| ==> r[i] == a[i] + b[i]
  {
    seq(|a|, i requires 0 <= i < |a| => a[i] + b[i])
  }

  function Zeros(n: nat): (r: seq<int>)
    ensures |r| == n
  {
    seq(n, _ => 0)
  }

  predicate SomeCandidate(mask: seq<bool>) {
    exists i :: 0 <= i < |mask| && mask[i]
  }

  function CountTrue(mask: seq<bool>): nat {
    if mask == [] then 0 else CountTrue(mask[..|mask| - 1]) + (if mask[|mask| - 1] then 1 else 0)
  }

  predicate Weights(w: seq<int>) {
    forall i :: 0 <= i < |w| ==> w[i] >= 1
  }

  // ---------- one pick ----------

  /** `i` is the first candidate carrying the largest value. */
  predicate IsWinner(v: seq<int>, mask: seq<bool>, i: int)
    requires |v| == |mask|
  {
    && 0 <= i < |v| && mask[i]
    && (forall j :: 0 <= j < |v| && mask[j] ==> v[j] <= v[i])
    && (forall j :: 0 <= j < i && mask[j] ==> v[j] < v[i])
  }

  /** Scanning left to right, the first candidate among the first `n` whose value no
      other exceeds; -1 when there is no candidate. */
  function Winner(v: seq<int>, mask: seq<bool>, n: nat): (r: int)
    requires n <= |v| == |mask|
    ensures -1 <= r < n
    ensures r == -1 ==> forall j :: 0 <= j < n ==> !mask[j]
    ensures r != -1 ==> mask[r] && forall j :: 0 <= j < n && mask[j] ==> v[j] <= v[r]
    ensures r != -1 ==> forall j :: 0 <= j < r && mask[j] ==> v[j] < v[r]
  {
    if n == 0 then -1 else
      var b := Winner(v, mask, n - 1);
      if mask[n - 1] && (b == -1 || v[n - 1] > v[b]) then n - 1 else b
  }

  function Total(w: seq<int>, mask: seq<bool>): int
    requires |w| == |mask|
  {
    Sum(Masked(w, mask))
  }

  function Offered(w: seq<int>, mask: seq<bool>, cur: seq<int>): (r: seq<int>)
    requires |w| == |mask| == |cur|
    ensures |r| == |cur|
    ensures forall i :: 0 <= i < |cur| ==> r[i] == cur[i] + if mask[i] then w[i] else 0
  {
    Add(cur, Masked(w, mask))
  }

  function Chosen(w: seq<int>, mask: seq<bool>, cur: seq<int>): (r: int)
    requires |w| == |mask| == |cur|
    requires SomeCandidate(mask)
    ensures 0 <= r < |w| && mask[r]
    ensures IsWinner(Offered(w, mask, cur), mask, r)
  {
    Winner(Offered(w, mask, cur), mask, |w|)
  }

  /** The counters after one pick among `mask`; unchanged when nothing is left. */
  function Next(w: seq<int>, mask: seq<bool>, cur: seq<int>): (r: seq<int>)
    requires |w| == |mask| == |cur|
    ensures |r| == |cur|
  {
    if SomeCandidate(mask) then
      var v := Offered(w, mask, cur);
      var b := Chosen(w, mask, cur);
      v[b := v[b] - Total(w, mask)]
    else cur
  }

  /** A pick, entry by entry: every candidate gains its weight and the chosen one pays the
      total; everyone else is untouched. */
  lemma {:induction false} NextAt(w: seq<int>, mask: seq<bool>, cur: seq<int>, i: nat)
    requires |w| == |mask| == |cur| && SomeCandidate(mask) && i < |w|
    ensures Next(w, mask, cur)[i] == cur[i] + (if mask[i] then w[i] else 0)
                                     - (if i == Chosen(w, mask, cur) then Total(w, mask) else 0)
    ensures i == Chosen(w, mask, cur) ==> mask[i]
  {
  }

  // ---------- sums ----------

  lemma {:induction false} SumAdd(a: seq<int>, b: seq<int>)
    requires |a| == |b|
    ensures Sum(Add(a, b)) == Sum(a) + Sum(b)
  {
    if a != [] {
      var n := |a| - 1;
      assert Add(a, b)[..n] == Add(a[..n], b[..n]);
      SumAdd(a[..n], b[..n]);
    }
  }

  lemma {:induction false} SumUpdate(s: seq<int>, i: nat, x: int)
    requires i < |s|
    ensures Sum(s[i := x]) == Sum(s) - s[i] + x
  {
    var n := |s| - 1;
    if i < n {
      assert s[i := x][..n] == s[..n][i := x];
      SumUpdate(s[..n], i, x);
    } else {
      assert s[i := x][..n] == s[..n];
    }
  }

  lemma {:induction false} SumSnoc(s: seq<int>, i: nat)
    requires i < |s|
    ensures Sum(s[..i + 1]) == Sum(s[..i]) + s[i]
  {
    assert s[..i + 1][..i] == s[..i];
  }

  lemma {:induction false} WinnerSnoc(v: seq<int>, mask: seq<bool>, i: nat)
    requires i < |v| == |mask|
    ensures var b := Winner(v, mask, i);
            Winner(v, mask, i + 1) == if mask[i] && (b == -1 || v[i] > v[b]) then i else b
  {
  }

  lemma {:induction false} SumOfZeros(n: nat)
    ensures Sum(Zeros(n)) == 0
  {
    if n > 0 {
      assert Zeros(n)[..n - 1] == Zeros(n - 1);
      SumOfZeros(n - 1);
    }
  }

  /** A vector with no positive entry has no positive sum. */
  lemma {:induction false} SumNonPositive(s: seq<int>)
    requires forall i :: 0 <= i < |s| ==> s[i] <= 0
    ensures Sum(s) <= 0
  {
    if s != [] {
      SumNonPositive(s[..|s| - 1]);
    }
  }

  /** A vector with no negative entry dominates each of its entries by its sum. */
  lemma {:induction false} SumBoundsEntry(s: seq<int>, i: nat)
    requires i < |s|
    requires forall j :: 0 <= j < |s| ==> s[j] >= 0
    ensures 0 <= s[i] <= Sum(s)
  {
    var n := |s| - 1;
    if i < n {
      SumBoundsEntry(s[..n], i);
    } else if n > 0 {
      SumBoundsEntry(s[..n], 0);
    }
  }

  /** If every candidate entry is at least `lo`, the rest of the sum cannot drag it lower
      than `lo` for each other candidate. */
  lemma {:induction false} EntryBelow(s: seq<int>, mask: seq<bool>, lo: int, i: nat)
    requires |s| == |mask| && i < |s| && mask[i]
    requires forall j :: 0 <= j < |s| && mask[j] ==> s[j] >= lo
    ensures s[i] <= Sum(Masked(s, mask)) - (CountTrue(mask) - 1) * lo
  {
    var n := |s| - 1;
    assert Masked(s, mask)[..n] == Masked(s[..n], mask[..n]);
    if i < n {
      EntryBelow(s[..n], mask[..n], lo, i);
    } else {
      SumAtLeast(s[..n], mask[..n], lo);
    }
    assert (CountTrue(mask[..n]) + 1) * lo == CountTrue(mask[..n]) * lo + lo;
  }

  lemma {:induction false} SumAtLeast(s: seq<int>, mask: seq<bool>, lo: int)
    requires |s| == |mask|
    requires forall j :: 0 <= j < |s| && mask[j] ==> s[j] >= lo
    ensures Sum(Masked(s, mask)) >= CountTrue(mask) * lo
  {
    if s != [] {
      var n := |s| - 1;
      assert Masked(s, mask)[..n] == Masked(s[..n], mask[..n]);
      SumAtLeast(s[..n], mask[..n], lo);
      assert (CountTrue(mask[..n]) + 1) * lo == CountTrue(mask[..n]) * lo + lo;
    }
  }

  lemma {:induction false} TotalPositive(w: seq<int>, mask: seq<bool>)
    requires |w| == |mask| && Weights(w) && SomeCandidate(mask)
    ensures Total(w, mask) >= 1
    ensures forall i :: 0 <= i < |w| && mask[i] ==> w[i] <= Total(w, mask)
  {
    forall i | 0 <= i < |w| && mask[i] ensures 1 <= w[i] <= Total(w, mask) {
      SumBoundsEntry(Masked(w, mask), i);
    }
  }

  // ---------- what one pick keeps ----------

  /** A pick moves weight around but creates none: the counters keep their sum. */
  lemma {:induction false} PickKeepsSum(w: seq<int>, mask: seq<bool>, cur: seq<int>)
    requires |w| == |mask| == |cur|
    ensures Sum(Next(w, mask, cur)) == Sum(cur)
  {
    hide Sum, Chosen, Masked, Add;
    if SomeCandidate(mask) {
      var v := Offered(w, mask, cur);
      var b := Chosen(w, mask, cur);
      SumAdd(cur, Masked(w, mask));
      SumUpdate(v, b, v[b] - Total(w, mask));
    }
  }

  /** The same holds of the candidates' own counters. */
  lemma {:induction false} PickKeepsCandidateSum(w: seq<int>, mask: seq<bool>, cur: seq<int>)
    requires |w| == |mask| == |cur|
    ensures Sum(Masked(Next(w, mask, cur), mask)) == Sum(Masked(cur, mask))
  {
    hide Sum, Chosen, Masked, Add, Total, Offered;
    if SomeCandidate(mask) {
      PickKeepsSum(w, mask, Masked(cur, mask));
      ChosenIgnoresOthers(w, mask, cur);
      assert Masked(Next(w, mask, cur), mask) == Next(w, mask, Masked(cur, mask));
    }
  }

  lemma {:induction false} ChosenIgnoresOthers(w: seq<int>, mask: seq<bool>, cur: seq<int>)
    requires |w| == |mask| == |cur| && SomeCandidate(mask)
    ensures Chosen(w, mask, Masked(cur, mask)) == Chosen(w, mask, cur)
  {
    WinnerUnique(Offered(w, mask, Masked(cur, mask)), Offered(w, mask, cur), mask,
                 Chosen(w, mask, Masked(cur, mask)), Chosen(w, mask, cur));
  }

  lemma {:induction false} WinnerUnique(u: seq<int>, v: seq<int>, mask: seq<bool>, i: int, j: int)
    requires |u| == |v| == |mask|
    requires forall k :: 0 <= k < |u| && mask[k] ==> u[k] == v[k]
    requires IsWinner(u, mask, i) && IsWinner(v, mask, j)
    ensures i == j
  {
    assert u[i] == v[i] && u[j] == v[j];
  }

  /** With the candidates' counters summing to zero, the winner's offered counter is
      positive, so charging it the whole total never takes it to -total. */
  lemma {:induction false} WinnerIsPositive(w: seq<int>, mask: seq<bool>, cur: seq<int>)
    requires |w| == |mask| == |cur| && Weights(w) && SomeCandidate(mask)
    requires Sum(Masked(cur, mask)) == 0
    ensures Offered(w, mask, cur)[Chosen(w, mask, cur)] >= 1
  {
    var v := Offered(w, mask, cur);
    SumAdd(Masked(cur, mask), Masked(w, mask));
    assert Add(Masked(cur, mask), Masked(w, mask)) == Masked(v, mask);
    TotalPositive(w, mask);
    if v[Chosen(w, mask, cur)] <= 0 {
      SumNonPositive(Masked(v, mask));
    }
  }

  // ---------- runs over a fixed candidate set ----------

  /** The counters after `k` picks among the same candidates. */
  function After(w: seq<int>, mask: seq<bool>, cur: seq<int>, k: nat): (r: seq<int>)
    requires |w| == |mask| == |cur|
    ensures |r| == |cur|
  {
    if k == 0 then cur else Next(w, mask, After(w, mask, cur, k - 1))
  }

  /** How often target `i` is chosen in picks number `from` up to (not including) `to`. */
  function Picked(w: seq<int>, mask: seq<bool>, cur: seq<int>, i: nat, from: nat, to: nat): nat
    requires |w| == |mask| == |cur| && SomeCandidate(mask)
    requires from <= to
  {
    if from == to then 0 else
      Picked(w, mask, cur, i, from, to - 1) +
      if Chosen(w, mask, After(w, mask, cur, to - 1)) == i then 1 else 0
  }

  predicate Rested(mask: seq<bool>, cur: seq<int>)
    requires |mask| == |cur|
  {
    forall i :: 0 <= i < |cur| && mask[i] ==> cur[i] == 0
  }

  lemma {:induction false} RestedSum(mask: seq<bool>, cur: seq<int>)
    requires |mask| == |cur| && Rested(mask, cur)
    ensures Sum(Masked(cur, mask)) == 0
  {
    assert Masked(cur, mask) == Zeros(|cur|);
    SumOfZeros(|cur|);
  }

  /** Every pick gives a candidate its weight and takes the whole total from the one
      chosen, so a counter measures exactly how far its target is ahead of its share. */
  lemma {:induction false} CounterMeasuresShare(w: seq<int>, mask: seq<bool>, cur: seq<int>, i: nat, from: nat, to: nat)
    requires |w| == |mask| == |cur| && SomeCandidate(mask)
    requires i < |w| && from <= to
    ensures After(w, mask, cur, to)[i] ==
            if mask[i]
            then After(w, mask, cur, from)[i] + (to - from) * w[i] - Total(w, mask) * Picked(w, mask, cur, i, from, to)
            else After(w, mask, cur, from)[i]
    ensures !mask[i] ==> Picked(w, mask, cur, i, from, to) == 0
  {
    hide Next, Chosen, Total;
    if from < to {
      CounterMeasuresShare(w, mask, cur, i, from, to - 1);
      NextAt(w, mask, After(w, mask, cur, to - 1), i);
      OneMore(Total(w, mask), Picked(w, mask, cur, i, from, to - 1));
      OneMore(w[i], to - 1 - from);
    }
  }

  lemma {:induction false} RunKeepsCandidateSum(w: seq<int>, mask: seq<bool>, cur: seq<int>, k: nat)
    requires |w| == |mask| == |cur|
    ensures Sum(Masked(After(w, mask, cur, k), mask)) == Sum(Masked(cur, mask))
  {
    if k > 0 {
      RunKeepsCandidateSum(w, mask, cur, k - 1);
      PickKeepsCandidateSum(w, mask, After(w, mask, cur, k - 1));
    }
  }

  /** From rest, no candidate is ever a whole round ahead of its share. */
  lemma {:induction false} CounterLowerBound(w: seq<int>, mask: seq<bool>, cur: seq<int>, k: nat)
    requires |w| == |mask| == |cur| && Weights(w) && SomeCandidate(mask) && Rested(mask, cur)
    ensures forall i :: 0 <= i < |w| && mask[i] ==> After(w, mask, cur, k)[i] >= 1 - Total(w, mask)
  {
    hide Next, Chosen, Total, Sum;
    TotalPositive(w, mask);
    if k > 0 {
      var prev := After(w, mask, cur, k - 1);
      CounterLowerBound(w, mask, cur, k - 1);
      RestedSum(mask, cur);
      RunKeepsCandidateSum(w, mask, cur, k - 1);
      WinnerIsPositive(w, mask, prev);
      forall i | 0 <= i < |w| && mask[i] ensures After(w, mask, cur, k)[i] >= 1 - Total(w, mask) {
        NextAt(w, mask, prev, i);
      }
    }
  }

  /** From rest, every candidate's counter stays within one round of its share on the low
      side, and within (candidates - 1) rounds on the high side. */
  lemma {:induction false} CounterBounds(w: seq<int>, mask: seq<bool>, cur: seq<int>, k: nat, i: nat)
    requires |w| == |mask| == |cur| && Weights(w) && Rested(mask, cur)
    requires i < |w| && mask[i]
    ensures 1 - Total(w, mask) <= After(w, mask, cur, k)[i]
    ensures After(w, mask, cur, k)[i] <= (CountTrue(mask) - 1) * (Total(w, mask) - 1)
  {
    assert SomeCandidate(mask);
    hide *;
    var s := After(w, mask, cur, k);
    var lo := 1 - Total(w, mask);
    CounterLowerBound(w, mask, cur, k);
    RestedSum(mask, cur);
    RunKeepsCandidateSum(w, mask, cur, k);
    EntryBelow(s, mask, lo, i);
    assert -((CountTrue(mask) - 1) * lo) == (CountTrue(mask) - 1) * (-lo);
  }

  /** Prefix fairness: after any `k` picks from rest, no candidate has been chosen more than
      its share `k * w[i] / W` rounded up, nor fallen arbitrarily far below it. */
  lemma {:induction false} PrefixFairness(w: seq<int>, mask: seq<bool>, cur: seq<int>, k: nat, i: nat)
    requires |w| == |mask| == |cur| && Weights(w) && Rested(mask, cur)
    requires i < |w| && mask[i]
    ensures Picked(w, mask, cur, i, 0, k) * Total(w, mask) <= k * w[i] + Total(w, mask) - 1
    ensures Picked(w, mask, cur, i, 0, k) * Total(w, mask) >=
            k * w[i] - (CountTrue(mask) - 1) * (Total(w, mask) - 1)
  {
    hide Next, Total, Sum;
    CounterMeasuresShare(w, mask, cur, i, 0, k);
    CounterBounds(w, mask, cur, k, i);
  }

  /** A full round from rest chooses every candidate exactly its weight times and brings
      every counter back to where it was. */
  lemma {:induction false} FullRound(w: seq<int>, mask: seq<bool>, cur: seq<int>)
    requires |w| == |mask| == |cur| && Weights(w) && SomeCandidate(mask) && Rested(mask, cur)
    ensures Total(w, mask) >= 1
    ensures After(w, mask, cur, Total(w, mask)) == cur
    ensures forall i :: 0 <= i < |w| ==> Picked(w, mask, cur, i, 0, Total(w, mask)) == if mask[i] then w[i] else 0
  {
    hide Next, Chosen, Total, Sum, Picked, Masked;
    TotalPositive(w, mask);
    var round := Total(w, mask);
    var end := After(w, mask, cur, round);
    CounterLowerBound(w, mask, cur, round);
    forall i | 0 <= i < |w| ensures mask[i] ==> end[i] == round * (w[i] - Picked(w, mask, cur, i, 0, round))
                            ensures mask[i] ==> end[i] >= 0
    {
      CounterMeasuresShare(w, mask, cur, i, 0, round);
      if mask[i] {
        MultipleAboveMinus(round, w[i] - Picked(w, mask, cur, i, 0, round));
      }
    }
    RestedSum(mask, cur);
    RunKeepsCandidateSum(w, mask, cur, round);
    forall i | 0 <= i < |w|
      ensures end[i] == cur[i]
      ensures Picked(w, mask, cur, i, 0, round) == if mask[i] then w[i] else 0
    {
      CounterMeasuresShare(w, mask, cur, i, 0, round);
      if mask[i] {
        SumBoundsEntry(Masked(end, mask), i);
        ZeroMultiple(round, w[i] - Picked(w, mask, cur, i, 0, round));
      }
    }
  }

  lemma {:induction false} OneMore(a: int, n: int)
    ensures a * (n + 1) == a * n + a
    ensures (n + 1) * a == n * a + a
  {
  }

  lemma {:induction false} MultipleAboveMinus(m: int, d: int)
    requires m >= 1 && m * d >= 1 - m
    ensures d >= 0 && m * d >= 0
  {
    assert d <= -1 ==> m * d <= m * -1;
    assert d >= 0 ==> m * d >= m * 0;
  }

  lemma {:induction false} ZeroMultiple(m: int, d: int)
    requires m >= 1 && m * d == 0
    ensures d == 0
  {
  }

  lemma {:induction false} AfterCompose(w: seq<int>, mask: seq<bool>, cur: seq<int>, a: nat, b: nat)
    requires |w| == |mask| == |cur|
    ensures After(w, mask, After(w, mask, cur, a), b) == After(w, mask, cur, a + b)
  {
    hide Next;
    if b > 0 {
      AfterCompose(w, mask, cur, a, b - 1);
    }
  }

  /** A run from rest repeats itself every `W` picks. */
  lemma {:induction false} RunIsPeriodic(w: seq<int>, mask: seq<bool>, cur: seq<int>, start: nat)
    requires |w| == |mask| == |cur| && Weights(w) && SomeCandidate(mask) && Rested(mask, cur)
    ensures Total(w, mask) >= 1
    ensures After(w, mask, cur, start + Total(w, mask)) == After(w, mask, cur, start)
  {
    hide *;
    FullRound(w, mask, cur);
    AfterCompose(w, mask, cur, Total(w, mask), start);
  }

  /** Wherever the window starts, any `W` consecutive picks of a run from rest choose every
      candidate exactly its weight times. */
  lemma {:induction false} AnyWindow(w: seq<int>, mask: seq<bool>, cur: seq<int>, start: nat, i: nat)
    requires |w| == |mask| == |cur| && Weights(w) && SomeCandidate(mask) && Rested(mask, cur)
    requires i < |w|
    ensures Total(w, mask) >= 1
    ensures Picked(w, mask, cur, i, start, start + Total(w, mask)) == if mask[i] then w[i] else 0
  {
    hide *;
    RunIsPeriodic(w, mask, cur, start);
    var end := start + Total(w, mask);
    CounterMeasuresShare(w, mask, cur, i, start, end);
    if mask[i] {
      BalancedRound(end - start, w[i], Picked(w, mask, cur, i, start, end));
    }
  }

  lemma {:induction false} BalancedRound(m: int, x: int, y: int)
    requires m >= 1 && m * x - m * y == 0
    ensures x == y
  {
    assert m * x - m * y == m * (x - y);
    ZeroMultiple(m, x - y);
  }

  // ---------- runs under changing health and exclusions ----------

  /** The counters after one pick for each candidate set in turn. */
  function AfterAll(w: seq<int>, masks: seq<seq<bool>>, cur: seq<int>): (r: seq<int>)
    requires |w| == |cur|
    requires forall k :: 0 <= k < |masks| ==> |masks[k]| == |w|
    ensures |r| == |cur|
  {
    if masks == [] then cur
    else Next(w, masks[|masks| - 1], AfterAll(w, masks[..|masks| - 1], cur))
  }

  /** Whatever the candidates of each pick, a group that started at rest has counters that
      sum to zero for ever. */
  lemma {:induction false} CountersSumToZero(w: seq<int>, masks: seq<seq<bool>>)
    requires forall k :: 0 <= k < |masks| ==> |masks[k]| == |w|
    ensures Sum(AfterAll(w, masks, Zeros(|w|))) == 0
  {
    SumOfZeros(|w|);
    if masks != [] {
      CountersSumToZero(w, masks[..|masks| - 1]);
      PickKeepsSum(w, masks[|masks| - 1], AfterAll(w, masks[..|masks| - 1], Zeros(|w|)));
    }
  }
}
