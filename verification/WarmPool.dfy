/** Trimming a function's warm pool: the cap, the floor and the idle time-to-live of `evictIdle`.

    Instances are sorted by the text of their last use, which is also parsed as a time. The text may be
    empty (an instance that was never released) or anything else. */
module WarmPool {
  import opened Options

  datatype Inst = Inst(uid: string, lastUsed: string)

  datatype Policy = Policy(minWarm: nat, maxWarm: nat, ttl: nat)

  /** How a timestamp is parsed; None where that fails. */
  type Reader = string -> Option<int>

  /** Idle for the time-to-live or longer; an unreadable timestamp counts as idle for ever. */
  predicate Stale(i: Inst, read: Reader, now: int, ttl: nat) {
    read(i.lastUsed) == None || now - read(i.lastUsed).value >= ttl
  }

  // ---------- sorting ----------

  /** Text order, character by character. */
  predicate TextLeq(a: string, b: string) {
    a == "" || (b != "" && (a[0] < b[0] || (a[0] == b[0] && TextLeq(a[1..], b[1..]))))
  }

  lemma {:induction false} TextTotal(a: string, b: string)
    ensures TextLeq(a, b) || TextLeq(b, a)
  {
    if a != "" && b != "" && a[0] == b[0] {
      TextTotal(a[1..], b[1..]);
    }
  }

  lemma {:induction false} TextTransitive(a: string, b: string, c: string)
    requires TextLeq(a, b) && TextLeq(b, c)
    ensures TextLeq(a, c)
  {
    if a != "" && b != "" && c != "" && a[0] == b[0] == c[0] {
      TextTransitive(a[1..], b[1..], c[1..]);
    }
  }

  ghost predicate OldestFirst(s: seq<Inst>) {
    forall i, j :: 0 <= i < j < |s| ==> TextLeq(s[i].lastUsed, s[j].lastUsed)
  }

  /** Sorts oldest first; equals end up in any order. */
  method SortByLastUsed(live: seq<Inst>) returns (s: seq<Inst>)
    ensures OldestFirst(s) && multiset(s) == multiset(live)
  {
    s := [];
    for i := 0 to |live|
      invariant OldestFirst(s) && multiset(s) == multiset(live[..i])
    {
      s := Insert(s, live[i]);
      assert live[..i + 1] == live[..i] + [live[i]];
    }
    assert live[..|live|] == live;
  }

  method Insert(s: seq<Inst>, x: Inst) returns (r: seq<Inst>)
    requires OldestFirst(s)
    ensures OldestFirst(r) && multiset(r) == multiset(s) + multiset{x}
  {
    hide TextLeq;
    var k := |s|;
    while k > 0 && !TextLeq(s[k - 1].lastUsed, x.lastUsed)
      invariant 0 <= k <= |s|
      invariant forall j :: k <= j < |s| ==> TextLeq(x.lastUsed, s[j].lastUsed)
    {
      TextTotal(s[k - 1].lastUsed, x.lastUsed);
      k := k - 1;
    }
    r := s[..k] + [x] + s[k..];
    InsertSorted(s, k, x);
    assert s == s[..k] + s[k..];
    hide OldestFirst;
  }

  lemma {:induction false} InsertSorted(s: seq<Inst>, k: nat, x: Inst)
    requires OldestFirst(s) && k <= |s|
    requires k > 0 ==> TextLeq(s[k - 1].lastUsed, x.lastUsed)
    requires forall j :: k <= j < |s| ==> TextLeq(x.lastUsed, s[j].lastUsed)
    ensures OldestFirst(s[..k] + [x] + s[k..])
  {
    hide TextLeq;
    var r := s[..k] + [x] + s[k..];
    forall i, j | 0 <= i < j < |r| ensures TextLeq(r[i].lastUsed, r[j].lastUsed) {
      if j == k {
        assert r[i] == s[i] && r[j] == x;
        if i < k - 1 {
          TextTransitive(s[i].lastUsed, s[k - 1].lastUsed, x.lastUsed);
        }
      } else if i != k {
        var a, b := if i < k then i else i - 1, if j < k then j else j - 1;
        assert r[i] == s[a] && r[j] == s[b];
      } else {
        assert r[i] == x && r[j] == s[j - 1];
      }
    }
  }

  // ---------- what is kept ----------

  /** How many of the oldest the hard cap removes. */
  function OverCap(n: nat, p: Policy): nat {
    if p.maxWarm > 0 && n > p.maxWarm then n - p.maxWarm else 0
  }

  /** Where the floor starts: the newest `minWarm` of what the cap leaves are never evicted for age. */
  function FloorStart(n: nat, p: Policy): nat {
    if p.minWarm >= n - OverCap(n, p) then OverCap(n, p) else n - p.minWarm
  }

  /** The instance in place `j` of the order goes: it is over the cap, or stale and below the floor. */
  predicate Goes(order: seq<Inst>, p: Policy, read: Reader, now: int, j: nat)
    requires j < |order|
  {
    j < OverCap(|order|, p) || (j < FloorStart(|order|, p) && Stale(order[j], read, now, p.ttl))
  }

  /** Those of the first `n` that go, and those that stay, in order. */
  function Gone(order: seq<Inst>, p: Policy, read: Reader, now: int, n: nat): seq<Inst>
    requires n <= |order|
  {
    if n == 0 then []
    else Gone(order, p, read, now, n - 1) + if Goes(order, p, read, now, n - 1) then [order[n - 1]] else []
  }

  function Kept(order: seq<Inst>, p: Policy, read: Reader, now: int, n: nat): seq<Inst>
    requires n <= |order|
  {
    if n == 0 then []
    else Kept(order, p, read, now, n - 1) + if Goes(order, p, read, now, n - 1) then [] else [order[n - 1]]
  }

  /** The two parts hold what the whole holds. */
  ghost predicate Splits(a: seq<Inst>, b: seq<Inst>, whole: seq<Inst>) {
    multiset(a) + multiset(b) == multiset(whole)
  }

  lemma {:induction false} NextGoesOrStays(order: seq<Inst>, p: Policy, read: Reader, now: int, n: nat)
    requires n < |order|
    ensures Goes(order, p, read, now, n) ==>
              && Gone(order, p, read, now, n + 1) == Gone(order, p, read, now, n) + [order[n]]
              && Kept(order, p, read, now, n + 1) == Kept(order, p, read, now, n)
    ensures !Goes(order, p, read, now, n) ==>
              && Gone(order, p, read, now, n + 1) == Gone(order, p, read, now, n)
              && Kept(order, p, read, now, n + 1) == Kept(order, p, read, now, n) + [order[n]]
  {
  }

  lemma {:induction false} GoneAndKept(order: seq<Inst>, p: Policy, read: Reader, now: int, n: nat)
    requires n <= |order|
    ensures Splits(Gone(order, p, read, now, n), Kept(order, p, read, now, n), order[..n])
    decreases n
  {
    if n == 0 {
      assert order[..0] == [];
      assert Splits([], [], []);
    } else {
      GoneAndKept(order, p, read, now, n - 1);
      NextGoesOrStays(order, p, read, now, n - 1);
      hide *;
      assert order[..n] == order[..n - 1] + [order[n - 1]];
      AddOne(Gone(order, p, read, now, n - 1), Kept(order, p, read, now, n - 1), order[..n - 1], order[n - 1]);
    }
  }

  lemma {:induction false} AddOne(a: seq<Inst>, b: seq<Inst>, whole: seq<Inst>, x: Inst)
    requires Splits(a, b, whole)
    ensures Splits(a + [x], b, whole + [x]) && Splits(a, b + [x], whole + [x])
  {
  }

  /** From the floor on nothing goes. */
  lemma {:induction false} FloorStays(order: seq<Inst>, p: Policy, read: Reader, now: int, n: nat)
    requires FloorStart(|order|, p) <= n <= |order|
    ensures var floor := FloorStart(|order|, p);
            && Gone(order, p, read, now, n) == Gone(order, p, read, now, floor)
            && Kept(order, p, read, now, n) == Kept(order, p, read, now, floor) + order[floor..n]
  {
    var floor := FloorStart(|order|, p);
    if n > floor {
      FloorStays(order, p, read, now, n - 1);
      assert order[floor..n] == order[floor..n - 1] + [order[n - 1]];
    }
  }

  /** Over the cap everything goes. */
  lemma {:induction false} CapGoes(order: seq<Inst>, p: Policy, read: Reader, now: int, n: nat)
    requires n <= OverCap(|order|, p)
    ensures Gone(order, p, read, now, n) == order[..n] && Kept(order, p, read, now, n) == []
  {
    if n > 0 {
      CapGoes(order, p, read, now, n - 1);
      assert order[..n] == order[..n - 1] + [order[n - 1]];
    }
  }

  /** Deletes are attempted oldest first, and the first one to fail ends the pass with an error. */
  method EvictIdle(live: seq<Inst>, p: Policy, read: Reader, now: int, failing: set<string>)
    returns (kept: Option<seq<Inst>>, deleted: seq<Inst>, ghost order: seq<Inst>, ghost stop: nat)
    ensures OldestFirst(order) && multiset(order) == multiset(live) && stop <= |order|
    ensures forall j :: 0 <= j < stop && Goes(order, p, read, now, j) ==> order[j].uid !in failing
    ensures deleted == Gone(order, p, read, now, stop)
    ensures kept.Some? ==> stop == |order| && kept.value == Kept(order, p, read, now, stop)
    ensures kept.None? ==> stop < |order| && Goes(order, p, read, now, stop) && order[stop].uid in failing
    ensures kept.Some? ==> multiset(deleted) + multiset(kept.value) == multiset(live)
  {
    var sorted := SortByLastUsed(live);
    order := sorted;
    kept, deleted, stop := Trim(sorted, p, read, now, failing);
    GoneAndKept(order, p, read, now, stop);
    assert order[..|order|] == order;
  }

  /** The first loop of `evictIdle`: everything over the cap. */
  method TrimCap(order: seq<Inst>, p: Policy, ghost read: Reader, ghost now: int, failing: set<string>)
    returns (ok: bool, deleted: seq<Inst>, ghost stop: nat)
    ensures stop <= OverCap(|order|, p) <= |order| && deleted == Gone(order, p, read, now, stop)
    ensures forall j :: 0 <= j < stop ==> order[j].uid !in failing
    ensures ok ==> stop == OverCap(|order|, p)
    ensures !ok ==> stop < OverCap(|order|, p) && order[stop].uid in failing
  {
    var cap := OverCap(|order|, p);
    CapGoes(order, p, read, now, 0);
    hide Gone, Kept, Stale;
    deleted, stop := [], 0;
    for i := 0 to cap
      invariant deleted == Gone(order, p, read, now, i)
      invariant forall j :: 0 <= j < i ==> order[j].uid !in failing
    {
      if order[i].uid in failing {
        return false, deleted, i;
      }
      NextGoesOrStays(order, p, read, now, i);
      deleted := deleted + [order[i]];
    }
    return true, deleted, cap;
  }

  /** The second: the stale among the rest, up to the floor. */
  method TrimIdle(order: seq<Inst>, p: Policy, read: Reader, now: int, failing: set<string>, first: seq<Inst>)
    returns (kept: Option<seq<Inst>>, deleted: seq<Inst>, ghost stop: nat)
    requires p.minWarm < |order| - OverCap(|order|, p)
    requires first == Gone(order, p, read, now, OverCap(|order|, p))
    ensures OverCap(|order|, p) <= stop <= |order| && deleted == Gone(order, p, read, now, stop)
    ensures forall j :: OverCap(|order|, p) <= j < stop && Goes(order, p, read, now, j) ==> order[j].uid !in failing
    ensures kept.Some? ==> stop == |order| && kept.value == Kept(order, p, read, now, stop)
    ensures kept.None? ==> stop < |order| && Goes(order, p, read, now, stop) && order[stop].uid in failing
  {
    var cap, floor := OverCap(|order|, p), |order| - p.minWarm;
    CapGoes(order, p, read, now, cap);
    hide Gone, Kept, Stale;
    deleted := first;
    var rest: seq<Inst> := [];
    for i := cap to |order|
      invariant deleted == Gone(order, p, read, now, i) && rest == Kept(order, p, read, now, i)
      invariant forall j :: cap <= j < i && Goes(order, p, read, now, j) ==> order[j].uid !in failing
    {
      NextGoesOrStays(order, p, read, now, i);
      if i >= floor {
        rest := rest + [order[i]];
      } else if Stale(order[i], read, now, p.ttl) {
        if order[i].uid in failing {
          return None, deleted, i;
        }
        deleted := deleted + [order[i]];
      } else {
        rest := rest + [order[i]];
      }
    }
    return Some(rest), deleted, |order|;
  }

  /** The loops of `evictIdle`, over the sorted instances. */
  method Trim(order: seq<Inst>, p: Policy, read: Reader, now: int, failing: set<string>)
    returns (kept: Option<seq<Inst>>, deleted: seq<Inst>, ghost stop: nat)
    ensures stop <= |order| && deleted == Gone(order, p, read, now, stop)
    ensures forall j :: 0 <= j < stop && Goes(order, p, read, now, j) ==> order[j].uid !in failing
    ensures kept.Some? ==> stop == |order| && kept.value == Kept(order, p, read, now, stop)
    ensures kept.None? ==> stop < |order| && Goes(order, p, read, now, stop) && order[stop].uid in failing
  {
    hide Gone, Kept, Stale;
    var ok;
    ok, deleted, stop := TrimCap(order, p, read, now, failing);
    if !ok {
      return None, deleted, stop;
    }
    var cap := OverCap(|order|, p);
    if p.minWarm >= |order| - cap {
      CapGoes(order, p, read, now, cap);
      FloorStays(order, p, read, now, |order|);
      return Some(order[cap..]), deleted, |order|;
    }
    kept, deleted, stop := TrimIdle(order, p, read, now, failing, deleted);
  }

  /** What the policy leaves room for: `maxWarm` when it is set, and all otherwise. */
  function Cap(n: nat, p: Policy): nat {
    if p.maxWarm > 0 && p.maxWarm < n then p.maxWarm else n
  }

  /** What it always keeps: `minWarm`, up to that. */
  function Floor(n: nat, p: Policy): nat {
    if p.minWarm < Cap(n, p) then p.minWarm else Cap(n, p)
  }

  lemma {:induction false} CapAndFloor(n: nat, p: Policy)
    ensures n - Cap(n, p) == OverCap(n, p) && n - Floor(n, p) == FloorStart(n, p) && Floor(n, p) <= Cap(n, p) <= n
  {
  }

  /** What the policy promises of any trimmed pool: never more than `maxWarm` when it is set, and the
      newest `minWarm` up to that cap always kept, as the end of what is kept. */
  lemma {:induction false} PolicyIsKept(order: seq<Inst>, p: Policy, read: Reader, now: int)
    ensures var n := |order|;
            var kept, floor := Kept(order, p, read, now, n), Floor(n, p);
            floor <= |kept| <= Cap(n, p) && kept[|kept| - floor..] == order[n - floor..]
  {
    var n := |order|;
    CapAndFloor(n, p);
    hide Cap, Floor, OverCap, FloorStart, Goes, Kept, Gone;
    var cap, start := OverCap(n, p), FloorStart(n, p);
    FloorStays(order, p, read, now, n);
    CapGoes(order, p, read, now, cap);
    KeptGrows(order, p, read, now, cap, start);
    assert order[start..n] == order[start..];
    TailOf(Kept(order, p, read, now, start), order[start..]);
  }

  lemma {:induction false} TailOf(head: seq<Inst>, tail: seq<Inst>)
    ensures (head + tail)[|head + tail| - |tail|..] == tail
  {
  }

  /** Between those bounds exactly those go that were not used within the time-to-live, or whose timestamp
      cannot be read. */
  lemma {:induction false} OnlyTheStaleGo(order: seq<Inst>, p: Policy, read: Reader, now: int, j: nat)
    requires |order| - Cap(|order|, p) <= j < |order| - Floor(|order|, p)
    ensures Goes(order, p, read, now, j) <==>
            match read(order[j].lastUsed)
            case None => true
            case Some(used) => used + p.ttl <= now
  {
    CapAndFloor(|order|, p);
  }

  lemma {:induction false} KeptGrows(order: seq<Inst>, p: Policy, read: Reader, now: int, a: nat, b: nat)
    requires a <= b <= |order|
    ensures |Kept(order, p, read, now, a)| <= |Kept(order, p, read, now, b)| <= |Kept(order, p, read, now, a)| + b - a
    decreases b
  {
    if a < b {
      KeptGrows(order, p, read, now, a, b - 1);
    }
  }

  // ---------- a suffix of the order ----------

  /** The order of the texts is that of the times, with what cannot be read first. */
  ghost predicate Clocked(order: seq<Inst>, read: Reader) {
    forall i, j :: 0 <= i < j < |order| ==> NoLater(read(order[i].lastUsed), read(order[j].lastUsed))
  }

  predicate NoLater(a: Option<int>, b: Option<int>) {
    a == None || (b.Some? && a.value <= b.value)
  }

  /** So it is when every text is empty or was written by a formatter that keeps the order of times. */
  lemma {:induction false} WrittenStampsAreClocked(order: seq<Inst>, read: Reader, format: int -> string)
    requires OldestFirst(order) && read("") == None
    requires forall t :: read(format(t)) == Some(t) && format(t) != ""
    requires forall t, u :: TextLeq(format(t), format(u)) ==> t <= u
    requires forall i :: 0 <= i < |order| ==> order[i].lastUsed == "" || Written(order[i], format)
    ensures Clocked(order, read)
  {
    forall i, j | 0 <= i < j < |order| ensures NoLater(read(order[i].lastUsed), read(order[j].lastUsed)) {
      assert TextLeq(order[i].lastUsed, order[j].lastUsed);
      if order[i].lastUsed != "" {
        assert order[j].lastUsed != "";
        var t :| order[i].lastUsed == format(t);
        var u :| order[j].lastUsed == format(u);
      }
    }
  }

  ghost predicate Written(i: Inst, format: int -> string) {
    exists t :: i.lastUsed == format(t)
  }

  /** The cut in the order below which everything goes and above which everything stays. */
  ghost predicate IsCut(order: seq<Inst>, p: Policy, read: Reader, now: int, k: nat) {
    k <= |order| && forall j :: 0 <= j < |order| ==> (Goes(order, p, read, now, j) <==> j < k)
  }

  /** Between cap and floor no stale instance follows one that is not. */
  ghost predicate StaleFirst(order: seq<Inst>, p: Policy, read: Reader, now: int) {
    forall i, j :: OverCap(|order|, p) <= i < j < FloorStart(|order|, p) && Stale(order[j], read, now, p.ttl) ==>
                     Stale(order[i], read, now, p.ttl)
  }

  /** What goes is the beginning of the order, so that the pool keeps its end, if and only if no stale
      instance follows one that is not. */
  lemma {:induction false} KeepsTheEndIff(order: seq<Inst>, p: Policy, read: Reader, now: int)
    ensures (exists k :: IsCut(order, p, read, now, k)) <==> StaleFirst(order, p, read, now)
  {
    if StaleFirst(order, p, read, now) {
      var k := FindCut(order, p, read, now);
    }
    if k :| IsCut(order, p, read, now, k) {
      var cap, floor := OverCap(|order|, p), FloorStart(|order|, p);
      forall i, j | cap <= i < j < floor && Stale(order[j], read, now, p.ttl)
        ensures Stale(order[i], read, now, p.ttl)
      {
        assert Goes(order, p, read, now, j) && Goes(order, p, read, now, i);
      }
    }
  }

  lemma {:induction false} FindCut(order: seq<Inst>, p: Policy, read: Reader, now: int) returns (k: nat)
    requires StaleFirst(order, p, read, now)
    ensures IsCut(order, p, read, now, k)
  {
    var cap, floor := OverCap(|order|, p), FloorStart(|order|, p);
    k := cap;
    while k < floor && Stale(order[k], read, now, p.ttl)
      invariant cap <= k <= floor
      invariant forall j :: cap <= j < k ==> Stale(order[j], read, now, p.ttl)
    {
      k := k + 1;
    }
  }

  /** It fails with a timestamp that cannot be read and sorts after one that can. */
  lemma {:induction false} UnreadableLeavesAGap() returns (order: seq<Inst>, p: Policy, read: Reader)
    ensures OldestFirst(order) && !exists k :: IsCut(order, p, read, 0, k)
  {
    order := [Inst("a", "1"), Inst("b", "x")];
    p, read := Policy(0, 0, 1), text => if text == "1" then Some(0) else None;
    assert "1" != "x";
    assert !Stale(order[0], read, 0, 1) && Stale(order[1], read, 0, 1);
    assert OverCap(2, p) == 0 && FloorStart(2, p) == 2;
    KeepsTheEndIff(order, p, read, 0);
  }

  /** Where text order is time order, age falls along the order: the pool keeps the most recently used. */
  lemma {:induction false} KeepsTheNewest(order: seq<Inst>, p: Policy, read: Reader, now: int) returns (k: nat)
    requires Clocked(order, read)
    ensures IsCut(order, p, read, now, k)
    ensures Gone(order, p, read, now, |order|) == order[..k] && Kept(order, p, read, now, |order|) == order[k..]
  {
    forall i, j | && OverCap(|order|, p) <= i < j < FloorStart(|order|, p)
                  && Stale(order[j], read, now, p.ttl)
      ensures Stale(order[i], read, now, p.ttl)
    {
      assert NoLater(read(order[i].lastUsed), read(order[j].lastUsed));
    }
    k := FindCut(order, p, read, now);
    CutSplits(order, p, read, now, k, |order|);
    assert order[..|order|] == order;
  }

  lemma {:induction false} CutSplits(order: seq<Inst>, p: Policy, read: Reader, now: int, k: nat, n: nat)
    requires IsCut(order, p, read, now, k) && n <= |order|
    ensures n <= k ==> Gone(order, p, read, now, n) == order[..n] && Kept(order, p, read, now, n) == []
    ensures n > k ==> Gone(order, p, read, now, n) == order[..k] && Kept(order, p, read, now, n) == order[k..n]
  {
    if n > 0 {
      CutSplits(order, p, read, now, k, n - 1);
      assert order[..n] == order[..n - 1] + [order[n - 1]];
      assert n > k ==> order[k..n] == order[k..n - 1] + [order[n - 1]];
    }
  }
}
