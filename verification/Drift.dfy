/** Round robin while health and exclusions change: how far a target can drift from its due.

    The candidates of each pick are arbitrary. What stays bounded is the sum of the counters of every
    set of targets at once; the bound of a single counter follows from it. */
module Drift {
  import opened RoundRobin

  // ---------- sets of targets ----------

  /** Targets in both sets. */
  function Both(a: seq<bool>, b: seq<bool>): (r: seq<bool>)
    requires |a| == |b|
    ensures |r| == |a| && forall i :: 0 <= i < |a| ==> r[i] == (a[i] && b[i])
  {
    seq(|a|, i requires 0 <= i < |a| => a[i] && b[i])
  }

  /** Targets in the first set but not in the second. */
  function Less(a: seq<bool>, b: seq<bool>): (r: seq<bool>)
    requires |a| == |b|
    ensures |r| == |a| && forall i :: 0 <= i < |a| ==> r[i] == (a[i] && !b[i])
  {
    seq(|a|, i requires 0 <= i < |a| => a[i] && !b[i])
  }

  function One(n: nat, i: nat): (r: seq<bool>)
    requires i < n
    ensures |r| == n && forall j :: 0 <= j < n ==> r[j] == (j == i)
  {
    seq(n, j => j == i)
  }

  function Everyone(n: nat): (r: seq<bool>)
    ensures |r| == n && forall j :: 0 <= j < n ==> r[j]
  {
    seq(n, _ => true)
  }

  /** The counters of a set of targets, added up. */
  function SumOver(v: seq<int>, group: seq<bool>): int
    requires |v| == |group|
  {
    Sum(Masked(v, group))
  }

  lemma {:induction false} SplitSum(v: seq<int>, group: seq<bool>, mask: seq<bool>)
    requires |v| == |group| == |mask|
    ensures SumOver(v, group) == SumOver(v, Both(group, mask)) + SumOver(v, Less(group, mask))
  {
    assert Masked(v, group) == Add(Masked(v, Both(group, mask)), Masked(v, Less(group, mask)));
    SumAdd(Masked(v, Both(group, mask)), Masked(v, Less(group, mask)));
  }

  lemma {:induction false} SplitCount(group: seq<bool>, mask: seq<bool>)
    requires |group| == |mask|
    ensures CountTrue(group) == CountTrue(Both(group, mask)) + CountTrue(Less(group, mask))
    ensures CountTrue(group) <= |group|
  {
    if group != [] {
      var n := |group| - 1;
      SplitCount(group[..n], mask[..n]);
      assert Both(group, mask)[..n] == Both(group[..n], mask[..n]);
      assert Less(group, mask)[..n] == Less(group[..n], mask[..n]);
    }
  }

  /** Taking one more target into a set. */
  lemma {:induction false} TakeIn(v: seq<int>, group: seq<bool>, b: nat)
    requires |v| == |group| && b < |v| && !group[b]
    ensures SumOver(v, group[b := true]) == SumOver(v, group) + v[b]
  {
    assert Masked(v, group[b := true]) == Masked(v, group)[b := v[b]];
    SumUpdate(Masked(v, group), b, v[b]);
  }

  lemma {:induction false} CountTakeIn(group: seq<bool>, b: nat)
    requires b < |group| && !group[b]
    ensures CountTrue(group[b := true]) == CountTrue(group) + 1 <= |group|
  {
    var n := |group| - 1;
    SplitCount(group[..n], group[..n]);
    if b < n {
      CountTakeIn(group[..n], b);
      assert group[b := true][..n] == group[..n][b := true];
    } else {
      assert group[b := true][..n] == group[..n];
    }
  }

  lemma {:induction false} SumAtMost(s: seq<int>, group: seq<bool>, hi: int)
    requires |s| == |group|
    requires forall j :: 0 <= j < |s| && group[j] ==> s[j] <= hi
    ensures SumOver(s, group) <= CountTrue(group) * hi
  {
    if s != [] {
      var n := |s| - 1;
      assert Masked(s, group)[..n] == Masked(s[..n], group[..n]);
      SumAtMost(s[..n], group[..n], hi);
      OneMore(hi, CountTrue(group[..n]));
    }
  }

  /** A set of targets is offered no more than all candidates together, who weigh no more than all targets. */
  lemma {:induction false} ShareOfTotal(w: seq<int>, group: seq<bool>, mask: seq<bool>)
    requires |w| == |group| == |mask| && Weights(w)
    ensures SumOver(w, Both(group, mask)) <= Total(w, mask) <= Sum(w)
  {
    SumNonNegative(w, Less(mask, group));
    SplitSum(w, mask, group);
    assert Both(mask, group) == Both(group, mask);
    SumNonNegative(w, Less(Everyone(|w|), mask));
    SplitSum(w, Everyone(|w|), mask);
    assert Both(Everyone(|w|), mask) == mask && Masked(w, Everyone(|w|)) == w;
  }

  lemma {:induction false} SumNonNegative(w: seq<int>, group: seq<bool>)
    requires |w| == |group| && Weights(w)
    ensures SumOver(w, group) >= 0
  {
    SumAtLeast(w, group, 0);
  }

  // ---------- one pick ----------

  /** Twice the counters of a set of `t` of `n` targets add up to at most W * t * (n - t). */
  predicate Within(w: seq<int>, cur: seq<int>, group: seq<bool>)
    requires |w| == |cur| == |group|
  {
    2 * SumOver(cur, group) <= Sum(w) * (CountTrue(group) * (|w| - CountTrue(group)))
  }

  ghost predicate AllWithin(w: seq<int>, cur: seq<int>)
    requires |w| == |cur|
  {
    forall group: seq<bool> :: |group| == |w| ==> Within(w, cur, group)
  }

  /** What a pick offers a set of targets. */
  lemma {:induction false} OfferedOver(w: seq<int>, mask: seq<bool>, cur: seq<int>, group: seq<bool>)
    requires |w| == |mask| == |cur| == |group|
    ensures SumOver(Offered(w, mask, cur), group) == SumOver(cur, group) + SumOver(w, Both(group, mask))
  {
    assert Masked(Offered(w, mask, cur), group) == Add(Masked(cur, group), Masked(w, Both(group, mask)));
    SumAdd(Masked(cur, group), Masked(w, Both(group, mask)));
  }

  /** And what is left of it once the winner has paid. */
  lemma {:induction false} PaidOver(w: seq<int>, mask: seq<bool>, cur: seq<int>, group: seq<bool>)
    requires |w| == |mask| == |cur| == |group| && SomeCandidate(mask)
    ensures var b := Chosen(w, mask, cur);
            SumOver(Next(w, mask, cur), group) ==
              SumOver(Offered(w, mask, cur), group) - if group[b] then Total(w, mask) else 0
  {
    var b, v, next := Chosen(w, mask, cur), Offered(w, mask, cur), Next(w, mask, cur);
    forall i | 0 <= i < |w| ensures next[i] == v[i] - if i == b then Total(w, mask) else 0 {
      NextAt(w, mask, cur, i);
    }
    hide Next, Chosen, Offered, Total;
    if group[b] {
      assert Masked(next, group) == Masked(v, group)[b := v[b] - Total(w, mask)];
      SumUpdate(Masked(v, group), b, v[b] - Total(w, mask));
    } else {
      assert Masked(next, group) == Masked(v, group);
    }
  }

  lemma {:induction false} OthersAreNotOffered(w: seq<int>, mask: seq<bool>, cur: seq<int>, group: seq<bool>)
    requires |w| == |mask| == |cur| == |group|
    ensures SumOver(Offered(w, mask, cur), Less(group, mask)) == SumOver(cur, Less(group, mask))
  {
    assert Masked(Offered(w, mask, cur), Less(group, mask)) == Masked(cur, Less(group, mask));
  }

  /** The candidates of a set that does not win hold no more than the winner each. */
  lemma {:induction false} LosersHoldLess(w: seq<int>, mask: seq<bool>, cur: seq<int>, group: seq<bool>)
    requires |w| == |mask| == |cur| == |group| && SomeCandidate(mask) && !group[Chosen(w, mask, cur)]
    ensures var b, v := Chosen(w, mask, cur), Offered(w, mask, cur);
            && CountTrue(Less(group, mask)) + CountTrue(Both(group, mask)) == CountTrue(group)
            && SumOver(Next(w, mask, cur), group) <=
                 SumOver(cur, Less(group, mask)) + CountTrue(Both(group, mask)) * v[b]
  {
    var b, v := Chosen(w, mask, cur), Offered(w, mask, cur);
    PaidOver(w, mask, cur, group);
    SplitSum(v, group, mask);
    SplitCount(group, mask);
    SumAtMost(v, Both(group, mask), v[b]);
    OthersAreNotOffered(w, mask, cur, group);
  }

  /** And the set together with the winner holds what it held before and what it was offered. */
  lemma {:induction false} WithTheWinner(w: seq<int>, mask: seq<bool>, cur: seq<int>, group: seq<bool>)
    requires |w| == |mask| == |cur| == |group| && Weights(w) && SomeCandidate(mask) && !group[Chosen(w, mask, cur)]
    ensures var b, v := Chosen(w, mask, cur), Offered(w, mask, cur);
            && CountTrue(group[b := true]) == CountTrue(group) + 1 <= |w|
            && SumOver(Next(w, mask, cur), group) + v[b] <= SumOver(cur, group[b := true]) + Sum(w)
  {
    hide SumOver, CountTrue, Next, Chosen, Total;
    var b, v := Chosen(w, mask, cur), Offered(w, mask, cur);
    PaidOver(w, mask, cur, group);
    TakeIn(v, group, b);
    CountTakeIn(group, b);
    OfferedOver(w, mask, cur, group[b := true]);
    ShareOfTotal(w, group[b := true], mask);
  }

  lemma {:induction false} LosingSet(w: seq<int>, mask: seq<bool>, cur: seq<int>, group: seq<bool>)
    requires |w| == |mask| == |cur| == |group| && Weights(w) && SomeCandidate(mask) && AllWithin(w, cur)
    requires !group[Chosen(w, mask, cur)]
    ensures Within(w, Next(w, mask, cur), group)
  {
    hide SumOver, CountTrue, Next, Chosen, Offered, Sum, Both, Less;
    var b, v := Chosen(w, mask, cur), Offered(w, mask, cur);
    var outside, more := Less(group, mask), group[b := true];
    LosersHoldLess(w, mask, cur, group);
    WithTheWinner(w, mask, cur, group);
    assert Within(w, cur, outside) && Within(w, cur, more);
    TotalNonNegative(w);
    var n := |w|;
    var o, m := CountTrue(outside), CountTrue(more);
    Combine(SumOver(Next(w, mask, cur), group), v[b], CountTrue(Both(group, mask)), o, CountTrue(group), m,
            Sum(w), o * (n - o), m * (n - m), n);
  }

  lemma {:induction false} TotalNonNegative(w: seq<int>)
    requires Weights(w)
    ensures Sum(w) >= 0
  {
    SumNonNegative(w, Everyone(|w|));
    assert Masked(w, Everyone(|w|)) == w;
  }

  /** The two bounds, the second taken once for every losing candidate of the set, give the bound. */
  lemma {:induction false} Combine(x: int, vb: int, s: nat, o: nat, t: nat, m: nat, total: int, a: int, c: int, n: nat)
    requires o + s == t && m == t + 1 <= n && total >= 0
    requires a == o * (n - o) && c == m * (n - m)
    requires 2 * x <= total * a + 2 * (s * vb)
    requires 2 * (x + vb) <= total * c + 2 * total
    ensures 2 * x <= total * (t * (n - t))
  {
    Expand(s, t, n);
    assert a == (t - s) * (n - (t - s)) && c == (t + 1) * (n - (t + 1));
    assert s * (s - 1) >= 0;
    CombineLinear(x, vb, s, total, a, c, t * (n - t));
  }

  lemma {:induction false} CombineLinear(x: int, vb: int, s: nat, total: int, a: int, c: int, d: int)
    requires total >= 0 && a + s * (c + 2) <= (s + 1) * d
    requires 2 * x <= total * a + 2 * (s * vb)
    requires 2 * (x + vb) <= total * c + 2 * total
    ensures 2 * x <= total * d
  {
    Scale(s, 2 * (x + vb), total * c + 2 * total);
    Spread(s, x, vb);
    Regroup(total, s, a, c);
    Scale(total, a + s * (c + 2), (s + 1) * d);
    Swap(total, s + 1, d);
    Divide(s + 1, 2 * x, total * d);
  }

  lemma {:induction false} Spread(s: int, x: int, vb: int)
    ensures s * (2 * (x + vb)) == (s + 1) * (2 * x) - 2 * x + 2 * (s * vb)
  {
  }

  lemma {:induction false} Regroup(total: int, s: int, a: int, c: int)
    ensures total * (a + s * (c + 2)) == total * a + s * (total * c + 2 * total)
  {
  }

  lemma {:induction false} Swap(total: int, k: int, d: int)
    ensures total * (k * d) == k * (total * d)
  {
  }

  lemma {:induction false} Expand(s: int, t: int, n: int)
    ensures (t - s) * (n - (t - s)) + s * ((t + 1) * (n - (t + 1)) + 2) == (s + 1) * (t * (n - t)) - s * (s - 1)
  {
  }

  lemma {:induction false} Scale(k: int, a: int, b: int)
    requires k >= 0 && a <= b
    ensures k * a <= k * b
  {
  }

  lemma {:induction false} Divide(k: int, a: int, b: int)
    requires k >= 1 && k * a <= k * b
    ensures a <= b
  {
    if a > b {
      Scale(k, b + 1, a);
      OneMore(k, b);
    }
  }

  /** A pick keeps every set of targets within its bound, whoever the candidates are. */
  lemma {:induction false} PickKeepsWithin(w: seq<int>, mask: seq<bool>, cur: seq<int>)
    requires |w| == |mask| == |cur| && Weights(w) && AllWithin(w, cur)
    ensures AllWithin(w, Next(w, mask, cur))
  {
    if SomeCandidate(mask) {
      forall group: seq<bool> | |group| == |w| ensures Within(w, Next(w, mask, cur), group) {
        if group[Chosen(w, mask, cur)] {
          PaidOver(w, mask, cur, group);
          OfferedOver(w, mask, cur, group);
          ShareOfTotal(w, group, mask);
          assert Within(w, cur, group);
        } else {
          LosingSet(w, mask, cur, group);
        }
      }
    }
  }

  // ---------- whole runs ----------

  ghost predicate Fits(w: seq<int>, masks: seq<seq<bool>>) {
    forall k :: 0 <= k < |masks| ==> |masks[k]| == |w|
  }

  /** In every run from rest, whatever the candidates of each pick, the counters of any `t` of the `n`
      targets add up to at most W * t * (n - t) / 2. */
  lemma {:induction false} SetsStayWithin(w: seq<int>, masks: seq<seq<bool>>)
    requires Weights(w) && Fits(w, masks)
    ensures AllWithin(w, AfterAll(w, masks, Zeros(|w|)))
  {
    if masks == [] {
      forall group: seq<bool> | |group| == |w| ensures Within(w, Zeros(|w|), group) {
        RestWithin(w, group);
      }
    } else {
      var n := |masks| - 1;
      SetsStayWithin(w, masks[..n]);
      PickKeepsWithin(w, masks[n], AfterAll(w, masks[..n], Zeros(|w|)));
    }
  }

  lemma {:induction false} RestWithin(w: seq<int>, group: seq<bool>)
    requires |group| == |w| && Weights(w)
    ensures Within(w, Zeros(|w|), group)
  {
    assert Masked(Zeros(|w|), group) == Zeros(|w|);
    SumOfZeros(|w|);
    SplitCount(group, group);
    ShareOfTotal(w, Everyone(|w|), Everyone(|w|));
    SumNonNegative(w, Everyone(|w|));
    assert Masked(w, Everyone(|w|)) == w;
    Scale(CountTrue(group), 0, |w| - CountTrue(group));
    Scale(Sum(w), 0, CountTrue(group) * (|w| - CountTrue(group)));
  }

  lemma {:induction false} CountOne(n: nat, i: nat)
    requires i < n
    ensures CountTrue(One(n, i)) == 1
  {
    CountNone(n);
    var none := seq(n, _ => false);
    CountTakeIn(none, i);
    assert none[i := true] == One(n, i);
  }

  lemma {:induction false} CountNone(n: nat)
    ensures CountTrue(seq(n, _ => false)) == 0
  {
    if n > 0 {
      CountNone(n - 1);
      assert seq(n, _ => false)[..n - 1] == seq(n - 1, _ => false);
    }
  }

  lemma {:induction false} CountEveryone(n: nat)
    ensures CountTrue(Everyone(n)) == n
  {
    if n > 0 {
      CountEveryone(n - 1);
      assert Everyone(n)[..n - 1] == Everyone(n - 1);
    }
  }

  /** So each counter stays within (n - 1) * W / 2 of zero, however health and exclusions change. */
  lemma {:induction false} CounterStaysWithin(w: seq<int>, masks: seq<seq<bool>>, i: nat)
    requires Weights(w) && Fits(w, masks) && i < |w|
    ensures -(Sum(w) * (|w| - 1)) <= 2 * AfterAll(w, masks, Zeros(|w|))[i] <= Sum(w) * (|w| - 1)
  {
    var n, cur := |w|, AfterAll(w, masks, Zeros(|w|));
    SetsStayWithin(w, masks);
    CountersSumToZero(w, masks);
    hide AfterAll, SumOver, CountTrue, Sum, One, Less, Everyone;
    OneAndOthers(cur, i);
    var one, others := One(n, i), Less(Everyone(n), One(n, i));
    assert Within(w, cur, one) && Within(w, cur, others);
    hide AllWithin;
    BothSides(Sum(w), n, cur[i], CountTrue(one), CountTrue(others));
  }

  lemma {:induction false} BothSides(total: int, n: nat, x: int, one: int, others: int)
    requires one == 1 && others == n - 1
    requires 2 * x <= total * (one * (n - one)) && 2 * -x <= total * (others * (n - others))
    ensures -(total * (n - 1)) <= 2 * x <= total * (n - 1)
  {
  }

  /** A target by itself, and all the others. */
  lemma {:induction false} OneAndOthers(cur: seq<int>, i: nat)
    requires i < |cur|
    ensures var one, others := One(|cur|, i), Less(Everyone(|cur|), One(|cur|, i));
            && SumOver(cur, one) == cur[i] && SumOver(cur, others) == Sum(cur) - cur[i]
            && CountTrue(one) == 1 && CountTrue(others) == |cur| - 1
  {
    var n := |cur|;
    var one, all := One(n, i), Everyone(n);
    CountOne(n, i);
    CountEveryone(n);
    SplitSum(cur, all, one);
    SplitCount(all, one);
    assert Both(all, one) == one && Masked(cur, all) == cur;
    SumOfZeros(n);
    assert Masked(cur, one) == Zeros(n)[i := cur[i]];
    SumUpdate(Zeros(n), i, cur[i]);
  }

  /** What target `i` was due: its weight for every pick it was a candidate of. */
  function Due(w: seq<int>, masks: seq<seq<bool>>, i: nat): int
    requires Fits(w, masks) && i < |w|
  {
    if masks == [] then 0
    else Due(w, masks[..|masks| - 1], i) +
         if SomeCandidate(masks[|masks| - 1]) && masks[|masks| - 1][i] then w[i] else 0
  }

  /** What it was given: the whole weight on offer for every pick it won. */
  function Won(w: seq<int>, masks: seq<seq<bool>>, i: nat): int
    requires Fits(w, masks) && i < |w|
  {
    if masks == [] then 0
    else
      var n := |masks| - 1;
      Won(w, masks[..n], i) +
      if SomeCandidate(masks[n]) && Chosen(w, masks[n], AfterAll(w, masks[..n], Zeros(|w|))) == i
      then Total(w, masks[n]) else 0
  }

  lemma {:induction false} CounterIsDueLessWon(w: seq<int>, masks: seq<seq<bool>>, i: nat)
    requires Fits(w, masks) && i < |w|
    ensures AfterAll(w, masks, Zeros(|w|))[i] == Due(w, masks, i) - Won(w, masks, i)
  {
    if masks != [] {
      var n := |masks| - 1;
      CounterIsDueLessWon(w, masks[..n], i);
      if SomeCandidate(masks[n]) {
        NextAt(w, masks[n], AfterAll(w, masks[..n], Zeros(|w|)), i);
      }
    }
  }

  /** Fairness under changing health: in every run, whatever targets come and go, what a target was given
      differs from what it was due by at most (n - 1) * W / 2. */
  lemma {:induction false} FairUnderHealthChanges(w: seq<int>, masks: seq<seq<bool>>, i: nat)
    requires Weights(w) && Fits(w, masks) && i < |w|
    ensures -(Sum(w) * (|w| - 1)) <= 2 * (Due(w, masks, i) - Won(w, masks, i)) <= Sum(w) * (|w| - 1)
  {
    hide *;
    CounterStaysWithin(w, masks, i);
    CounterIsDueLessWon(w, masks, i);
  }
}
