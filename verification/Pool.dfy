/** A target group of the load balancer: the health of its targets and `pick`. */
module Pool {
  import opened RoundRobin

  // ---------- health of one target ----------

  datatype Health = Unknown | Healthy | Unhealthy

  /** The empty error text is success. */
  datatype Event = Check(err: string) | Traffic(err: string)

  datatype Record = Record(health: Health, successes: nat, failures: nat, passive: nat, lastError: string)

  const FreshRecord := Record(Unknown, 0, 0, 0, "")

  /** Every target gets traffic but one found unhealthy. */
  predicate MayServe(h: Health) {
    h != Unhealthy
  }

  /** What one observation does to a record, for thresholds `up` and `down`. */
  function Observe(r: Record, e: Event, up: int, down: int): Record {
    match e
    case Check("") =>
      var s := r.(successes := r.successes + 1, failures := 0, lastError := "");
      if s.successes >= up then s.(health := Healthy, passive := 0) else s
    case Check(err) =>
      var s := r.(failures := r.failures + 1, successes := 0, lastError := err);
      if s.failures >= down then s.(health := Unhealthy) else s
    case Traffic("") => r.(passive := 0)
    case Traffic(err) =>
      var s := r.(passive := r.passive + 1, lastError := err);
      if s.passive >= down then s.(health := Unhealthy, successes := 0) else s
  }

  function ObserveAll(r: Record, h: seq<Event>, up: int, down: int): Record {
    if h == [] then r else Observe(ObserveAll(r, h[..|h| - 1], up, down), h[|h| - 1], up, down)
  }

  /** The state shared by every group entry for one target. */
  class TargetState {
    var health: Health
    var successes: nat
    var failures: nat
    var passive: nat
    var lastError: string

    constructor ()
      ensures Value() == FreshRecord
    {
      health, successes, failures, passive, lastError := Unknown, 0, 0, 0, "";
    }

    function Value(): Record
      reads this
    {
      Record(health, successes, failures, passive, lastError)
    }

    predicate Eligible()
      reads this
    {
      MayServe(health)
    }

    method ObserveCheck(err: string, up: int, down: int)
      modifies this
      ensures Value() == Observe(old(Value()), Check(err), up, down)
    {
      if err == "" {
        successes := successes + 1;
        failures := 0;
        lastError := "";
        if successes >= up {
          health := Healthy;
          passive := 0;
        }
        return;
      }
      failures := failures + 1;
      successes := 0;
      lastError := err;
      if failures >= down {
        health := Unhealthy;
      }
    }

    method ObserveTraffic(err: string, down: int)
      modifies this
      ensures forall up :: Value() == Observe(old(Value()), Traffic(err), up, down)
    {
      if err == "" {
        passive := 0;
        return;
      }
      passive := passive + 1;
      lastError := err;
      if passive >= down {
        health := Unhealthy;
        successes := 0;
      }
    }
  }

  // ---------- what the health of a target says about its history ----------

  function Passed(h: seq<Event>): nat {
    if h == [] then 0 else Passed(h[1..]) + if h[0] == Check("") then 1 else 0
  }

  function FailedChecks(h: seq<Event>): nat {
    if h == [] then 0 else FailedChecks(h[1..]) + if h[0].Check? && h[0].err != "" then 1 else 0
  }

  function FailedTraffic(h: seq<Event>): nat {
    if h == [] then 0 else FailedTraffic(h[1..]) + if h[0].Traffic? && h[0].err != "" then 1 else 0
  }

  lemma {:induction false} CountsAppend(h: seq<Event>, e: Event)
    ensures Passed(h + [e]) == Passed(h) + Passed([e])
    ensures FailedChecks(h + [e]) == FailedChecks(h) + FailedChecks([e])
    ensures FailedTraffic(h + [e]) == FailedTraffic(h) + FailedTraffic([e])
  {
    if h == [] {
      assert h + [e] == [e];
    } else {
      assert (h + [e])[1..] == h[1..] + [e];
      CountsAppend(h[1..], e);
    }
  }

  /** A stretch of history with `n` passed checks and no failed one. */
  predicate PassingStretch(h: seq<Event>, n: nat) {
    FailedChecks(h) == 0 && Passed(h) == n
  }

  /** A stretch with `n` failed checks and no passed one. */
  predicate FailingStretch(h: seq<Event>, n: nat) {
    Passed(h) == 0 && FailedChecks(h) == n
  }

  /** A stretch with `n` failed exchanges and no successful one. */
  predicate FailingTraffic(h: seq<Event>, n: nat) {
    Traffic("") !in h && FailedTraffic(h) == n
  }

  // What starts a counter anew.

  /** A failed check, or traffic that ejects the target, ends a streak of passed checks. */
  predicate EndsSuccesses(h: seq<Event>, k: nat, up: int, down: int)
    requires k < |h|
  {
    h[k].err != "" && (h[k].Check? || ObserveAll(FreshRecord, h[..k + 1], up, down).passive >= down)
  }

  /** A passed check that meets the threshold ends a streak of failed traffic, as a successful exchange does. */
  predicate EndsPassive(h: seq<Event>, k: nat, up: int, down: int)
    requires k < |h|
  {
    h[k].err == "" && (h[k].Traffic? || ObserveAll(FreshRecord, h[..k + 1], up, down).successes >= up)
  }

  /** The record after a history, from the one before its last event. */
  lemma {:induction false} LastObserved(h: seq<Event>, up: int, down: int)
    requires h != []
    ensures h[..|h| - 1 + 1] == h
    ensures ObserveAll(FreshRecord, h, up, down) ==
            Observe(ObserveAll(FreshRecord, h[..|h| - 1], up, down), h[|h| - 1], up, down)
  {
  }

  /** A stretch up to the end of a history, from the one without the last event. */
  lemma {:induction false} StretchGrows(h: seq<Event>, a: nat)
    requires a < |h|
    ensures var n := |h| - 1;
            var e, t := h[n], h[..n][a..];
            && Passed(h[a..]) == Passed(t) + (if e == Check("") then 1 else 0)
            && FailedChecks(h[a..]) == FailedChecks(t) + (if e.Check? && e.err != "" then 1 else 0)
            && FailedTraffic(h[a..]) == FailedTraffic(t) + (if e.Traffic? && e.err != "" then 1 else 0)
            && (Traffic("") in h[a..] <==> Traffic("") in t || e == Traffic(""))
  {
    var n := |h| - 1;
    CountsAppend(h[..n][a..], h[n]);
    assert h[a..] == h[..n][a..] + [h[n]];
  }

  lemma {:induction false} EmptyStretch(h: seq<Event>)
    ensures Passed(h[|h|..]) == FailedChecks(h[|h|..]) == FailedTraffic(h[|h|..]) == 0 && Traffic("") !in h[|h|..]
  {
    assert h[|h|..] == [];
  }

  lemma {:induction false} EndsAlike(h: seq<Event>, n: nat, k: nat, up: int, down: int)
    requires k < n <= |h|
    ensures EndsSuccesses(h[..n], k, up, down) == EndsSuccesses(h, k, up, down)
    ensures EndsPassive(h[..n], k, up, down) == EndsPassive(h, k, up, down)
  {
    assert h[..n][..k + 1] == h[..k + 1];
  }

  // What one event does to each counter.

  lemma {:induction false} SuccessStep(r: Record, e: Event, up: int, down: int)
    ensures var r', passed := Observe(r, e, up, down), e == Check("");
            if e.err != "" && (e.Check? || r'.passive >= down) then r'.successes == 0
            else && r'.successes == r.successes + (if passed then 1 else 0)
                 && (r.health == Healthy || (passed && r'.successes >= up) ==> r'.health == Healthy)
  {
  }

  lemma {:induction false} FailureStep(r: Record, e: Event, up: int, down: int)
    ensures var r', failed := Observe(r, e, up, down), e.Check? && e.err != "";
            if e == Check("") then r'.failures == 0
            else && r'.failures == r.failures + (if failed then 1 else 0)
                 && (r.health == Unhealthy || (failed && r'.failures >= down) ==> r'.health == Unhealthy)
  {
  }

  lemma {:induction false} PassiveStep(r: Record, e: Event, up: int, down: int)
    ensures var r', failed := Observe(r, e, up, down), e.Traffic? && e.err != "";
            if e.err == "" && (e.Traffic? || r'.successes >= up) then r'.passive == 0
            else && r'.passive == r.passive + (if failed then 1 else 0)
                 && (r.health == Unhealthy || (failed && r'.passive >= down) ==> r'.health == Unhealthy)
  {
  }

  /** The three counters of a record are the lengths of the current streaks, each as long as it can be: it
      goes back to the last event that starts the counter anew, or to the beginning. */
  lemma {:induction false} SuccessesAreAStreak(h: seq<Event>, up: int, down: int) returns (a: nat)
    ensures a <= |h| && PassingStretch(h[a..], ObserveAll(FreshRecord, h, up, down).successes)
    ensures a > 0 ==> EndsSuccesses(h, a - 1, up, down)
  {
    a := |h|;
    EmptyStretch(h);
    if h != [] {
      var n := |h| - 1;
      LastObserved(h, up, down);
      SuccessStep(ObserveAll(FreshRecord, h[..n], up, down), h[n], up, down);
      hide Observe, ObserveAll, Passed, FailedChecks, FailedTraffic;
      if !EndsSuccesses(h, n, up, down) {
        a := SuccessesAreAStreak(h[..n], up, down);
        StretchGrows(h, a);
        if a > 0 {
          EndsAlike(h, n, a - 1, up, down);
        }
      }
    }
  }

  lemma {:induction false} FailuresAreAStreak(h: seq<Event>, up: int, down: int) returns (a: nat)
    ensures a <= |h| && FailingStretch(h[a..], ObserveAll(FreshRecord, h, up, down).failures)
    ensures a > 0 ==> h[a - 1] == Check("")
  {
    a := |h|;
    EmptyStretch(h);
    if h != [] {
      var n := |h| - 1;
      LastObserved(h, up, down);
      FailureStep(ObserveAll(FreshRecord, h[..n], up, down), h[n], up, down);
      hide Observe, ObserveAll, Passed, FailedChecks, FailedTraffic;
      if h[n] != Check("") {
        a := FailuresAreAStreak(h[..n], up, down);
        StretchGrows(h, a);
      }
    }
  }

  lemma {:induction false} PassiveIsAStreak(h: seq<Event>, up: int, down: int) returns (a: nat)
    ensures a <= |h| && FailingTraffic(h[a..], ObserveAll(FreshRecord, h, up, down).passive)
    ensures a > 0 ==> EndsPassive(h, a - 1, up, down)
  {
    a := |h|;
    EmptyStretch(h);
    if h != [] {
      var n := |h| - 1;
      LastObserved(h, up, down);
      PassiveStep(ObserveAll(FreshRecord, h[..n], up, down), h[n], up, down);
      hide Observe, ObserveAll, Passed, FailedChecks, FailedTraffic;
      if !EndsPassive(h, n, up, down) {
        a := PassiveIsAStreak(h[..n], up, down);
        StretchGrows(h, a);
        if a > 0 {
          EndsAlike(h, n, a - 1, up, down);
        }
      }
    }
  }

  /** An unhealthy target with credit was unhealthy before, and the event was no failed check. */
  lemma {:induction false} CreditStep(r: Record, e: Event, up: int, down: int)
    requires Observe(r, e, up, down).health == Unhealthy && Observe(r, e, up, down).successes != 0
    ensures r.health == Unhealthy && FailedChecks([e]) == 0
    ensures Observe(r, e, up, down).successes == r.successes + Passed([e])
  {
  }

  /** While a target is unhealthy, the passed checks it is credited with all came after its ejection. */
  lemma {:induction false} CreditSinceEjection(h: seq<Event>, up: int, down: int) returns (a: nat)
    requires ObserveAll(FreshRecord, h, up, down).health == Unhealthy
    ensures a <= |h| && PassingStretch(h[a..], ObserveAll(FreshRecord, h, up, down).successes)
    ensures forall k :: a <= k <= |h| ==> ObserveAll(FreshRecord, h[..k], up, down).health == Unhealthy
  {
    a := |h|;
    assert h[..|h|] == h && PassingStretch([], 0);
    if h != [] && ObserveAll(FreshRecord, h, up, down).successes != 0 {
      var n := |h| - 1;
      CreditStep(ObserveAll(FreshRecord, h[..n], up, down), h[n], up, down);
      a := CreditSinceEjection(h[..n], up, down);
      var earlier := h[..n][a..];
      CountsAppend(earlier, h[n]);
      hide Observe, ObserveAll, Passed, FailedChecks, FailedTraffic;
      assert h[a..] == earlier + [h[n]];
      forall k | a <= k <= n ensures ObserveAll(FreshRecord, h[..k], up, down).health == Unhealthy {
        assert h[..n][..k] == h[..k];
      }
    }
  }

  /** A target is only ever put back by `up` passed checks in a row, all of them made since it was
      ejected: if the last event makes an unhealthy target eligible, it ends a stretch of at least `up`
      passed checks and no failed one, throughout which the target was unhealthy. */
  lemma {:induction false} ReadmissionIsEarned(h: seq<Event>, up: int, down: int) returns (a: nat, n: nat)
    requires h != []
    requires ObserveAll(FreshRecord, h[..|h| - 1], up, down).health == Unhealthy
    requires ObserveAll(FreshRecord, h, up, down).health != Unhealthy
    ensures a < |h| && n >= up && PassingStretch(h[a..], n) && h[|h| - 1] == Check("")
    ensures forall k :: a <= k < |h| ==> ObserveAll(FreshRecord, h[..k], up, down).health == Unhealthy
  {
    var l := |h| - 1;
    a := CreditSinceEjection(h[..l], up, down);
    n := ObserveAll(FreshRecord, h, up, down).successes;
    assert h[l] == Check("") && n == ObserveAll(FreshRecord, h[..l], up, down).successes + 1;
    CountsAppend(h[..l][a..], h[l]);
    assert Passed([h[l]]) == 1 && FailedChecks([h[l]]) == 0;
    hide Observe, ObserveAll, Passed, FailedChecks, FailedTraffic;
    assert h[a..] == h[..l][a..] + [h[l]];
    forall k | a <= k <= l ensures ObserveAll(FreshRecord, h[..k], up, down).health == Unhealthy {
      assert h[..l][..k] == h[..k];
    }
  }

  /** A target is only ever ejected by `down` failures in a row, of checks or of traffic. */
  lemma {:induction false} EjectionIsEarned(h: seq<Event>, up: int, down: int) returns (a: nat, n: nat)
    requires h != []
    requires ObserveAll(FreshRecord, h[..|h| - 1], up, down).health != Unhealthy
    requires ObserveAll(FreshRecord, h, up, down).health == Unhealthy
    ensures a <= |h| && n >= down && (FailingStretch(h[a..], n) || FailingTraffic(h[a..], n))
  {
    if h[|h| - 1].Check? {
      a := FailuresAreAStreak(h, up, down);
      n := ObserveAll(FreshRecord, h, up, down).failures;
    } else {
      a := PassiveIsAStreak(h, up, down);
      n := ObserveAll(FreshRecord, h, up, down).passive;
    }
  }

  // ---------- and what the history obliges ----------

  /** A target starts eligible: an unhealthy one was ejected at some event, and has been unhealthy since. */
  lemma {:induction false} UnhealthyWasEjected(h: seq<Event>, up: int, down: int) returns (k: nat)
    requires ObserveAll(FreshRecord, h, up, down).health == Unhealthy
    ensures k < |h| && ObserveAll(FreshRecord, h[..k], up, down).health != Unhealthy
    ensures forall j :: k < j <= |h| ==> ObserveAll(FreshRecord, h[..j], up, down).health == Unhealthy
  {
    var n := |h| - 1;
    assert h != [] && h[..|h|] == h;
    hide Observe, ObserveAll;
    k := n;
    if ObserveAll(FreshRecord, h[..n], up, down).health == Unhealthy {
      k := UnhealthyWasEjected(h[..n], up, down);
      assert h[..n][..k] == h[..k];
      forall j | k < j <= n ensures ObserveAll(FreshRecord, h[..j], up, down).health == Unhealthy {
        assert h[..n][..j] == h[..j];
      }
    }
  }

  /** The error on record is that of the latest event that is a check or failed, and none before any. */
  lemma {:induction false} LastErrorIsLatest(h: seq<Event>, up: int, down: int, k: nat)
    requires forall i :: k <= i < |h| ==> h[i] == Traffic("")
    requires k > 0 ==> k <= |h| && h[k - 1] != Traffic("")
    ensures ObserveAll(FreshRecord, h, up, down).lastError == if k == 0 then "" else h[k - 1].err
  {
    if h != [] {
      LastObserved(h, up, down);
      if k < |h| {
        LastErrorIsLatest(h[..|h| - 1], up, down, k);
      }
      hide ObserveAll;
    }
  }

  /** Over a stretch without a passed check, the failed checks are counted, and enough of them eject. */
  lemma {:induction false} FailedChecksEject(h: seq<Event>, a: nat, up: int, down: int)
    requires a <= |h| && Passed(h[a..]) == 0
    ensures ObserveAll(FreshRecord, h, up, down).failures >= FailedChecks(h[a..])
    ensures FailedChecks(h[a..]) >= 1 && FailedChecks(h[a..]) >= down ==>
              ObserveAll(FreshRecord, h, up, down).health == Unhealthy
  {
    if a == |h| {
      EmptyStretch(h);
    } else {
      var n := |h| - 1;
      LastObserved(h, up, down);
      FailureStep(ObserveAll(FreshRecord, h[..n], up, down), h[n], up, down);
      hide Observe, ObserveAll, Passed, FailedChecks, FailedTraffic;
      StretchGrows(h, a);
      FailedChecksEject(h[..n], a, up, down);
    }
  }

  /** Over a stretch without a successful exchange, and without a check that puts the target back, the failed
      exchanges are counted, and enough of them eject. */
  lemma {:induction false} FailedTrafficEjects(h: seq<Event>, a: nat, up: int, down: int)
    requires a <= |h| && forall k :: a <= k < |h| ==> !EndsPassive(h, k, up, down)
    ensures ObserveAll(FreshRecord, h, up, down).passive >= FailedTraffic(h[a..])
    ensures FailedTraffic(h[a..]) >= 1 && FailedTraffic(h[a..]) >= down ==>
              ObserveAll(FreshRecord, h, up, down).health == Unhealthy
  {
    if a == |h| {
      EmptyStretch(h);
    } else {
      var n := |h| - 1;
      LastObserved(h, up, down);
      PassiveStep(ObserveAll(FreshRecord, h[..n], up, down), h[n], up, down);
      assert !EndsPassive(h, n, up, down);
      hide Observe, ObserveAll, Passed, FailedChecks, FailedTraffic;
      StretchGrows(h, a);
      forall k | a <= k < n ensures !EndsPassive(h[..n], k, up, down) {
        EndsAlike(h, n, k, up, down);
      }
      FailedTrafficEjects(h[..n], a, up, down);
    }
  }

  /** Over a stretch without a failed check, and without traffic that ejects the target, the passed checks are
      counted, and enough of them put it back. */
  lemma {:induction false} PassedChecksReadmit(h: seq<Event>, a: nat, up: int, down: int)
    requires a <= |h| && forall k :: a <= k < |h| ==> !EndsSuccesses(h, k, up, down)
    ensures ObserveAll(FreshRecord, h, up, down).successes >= Passed(h[a..])
    ensures Passed(h[a..]) >= 1 && Passed(h[a..]) >= up ==> ObserveAll(FreshRecord, h, up, down).health == Healthy
  {
    if a == |h| {
      EmptyStretch(h);
    } else {
      var n := |h| - 1;
      LastObserved(h, up, down);
      SuccessStep(ObserveAll(FreshRecord, h[..n], up, down), h[n], up, down);
      assert !EndsSuccesses(h, n, up, down);
      hide Observe, ObserveAll, Passed, FailedChecks, FailedTraffic;
      StretchGrows(h, a);
      forall k | a <= k < n ensures !EndsSuccesses(h[..n], k, up, down) {
        EndsAlike(h, n, k, up, down);
      }
      PassedChecksReadmit(h[..n], a, up, down);
    }
  }

  // ---------- the group ----------

  datatype Backend = Backend(address: string, port: int, weight: int)
  datatype StateKey = StateKey(group: string, address: string, port: int)

  class Target {
    const backend: Backend
    const state: TargetState
    var current: int

    constructor (backend: Backend, state: TargetState)
      ensures this.backend == backend && this.state == state && current == 0
    {
      this.backend := backend;
      this.state := state;
      current := 0;
    }
  }

  class Group {
    const targets: seq<Target>
    var failingOpen: bool

    constructor (targets: seq<Target>)
      requires forall i, j :: 0 <= i < j < |targets| ==> targets[i] != targets[j]
      requires forall i :: 0 <= i < |targets| ==> targets[i].backend.weight >= 1 && targets[i].current == 0
      ensures Valid() && this.targets == targets && !failingOpen
      ensures Currents() == Zeros(|targets|)
    {
      this.targets := targets;
      failingOpen := false;
      SumOfZeros(|targets|);
      new;
      assert Currents() == Zeros(|targets|);
    }

    ghost predicate Valid()
      reads targets
    {
      && (forall i, j :: 0 <= i < j < |targets| ==> targets[i] != targets[j])
      && (forall i :: 0 <= i < |targets| ==> targets[i].backend.weight >= 1)
      && Sum(Currents()) == 0
    }

    function Currents(): (r: seq<int>)
      reads targets
      ensures |r| == |targets|
      ensures forall i :: 0 <= i < |targets| ==> r[i] == targets[i].current
    {
      seq(|targets|, i requires 0 <= i < |targets| reads targets => targets[i].current)
    }

    function WeightVector(): (r: seq<int>)
      ensures |r| == |targets|
      ensures forall i :: 0 <= i < |targets| ==> r[i] == targets[i].backend.weight
    {
      seq(|targets|, i requires 0 <= i < |targets| => targets[i].backend.weight)
    }

    /** Targets that are not excluded. */
    function Remaining(exclude: set<Target>): (r: seq<bool>)
      ensures |r| == |targets|
    {
      seq(|targets|, i requires 0 <= i < |targets| => targets[i] !in exclude)
    }

    /** Targets that are not excluded and whose health lets traffic through. */
    function Fit(exclude: set<Target>): (r: seq<bool>)
      reads set t | t in targets :: t.state
      ensures |r| == |targets|
    {
      seq(|targets|, i requires 0 <= i < |targets| reads set t | t in targets :: t.state =>
        targets[i] !in exclude && targets[i].state.Eligible())
    }

    /** Fail open: with no fit target, every remaining one is a candidate. */
    function Candidates(exclude: set<Target>): (r: seq<bool>)
      reads set t | t in targets :: t.state
      ensures |r| == |targets|
    {
      if SomeCandidate(Fit(exclude)) then Fit(exclude) else Remaining(exclude)
    }

    /** A target may be picked exactly when it is not excluded and is not unhealthy, or is not excluded and
        all that are not excluded are unhealthy; so there is one to pick unless all are excluded. */
    lemma CandidatesAre(exclude: set<Target>, i: nat)
      requires i < |targets|
      ensures Candidates(exclude)[i] <==>
              && targets[i] !in exclude
              && (|| targets[i].state.health != Unhealthy
                  || forall j :: 0 <= j < |targets| && targets[j] !in exclude ==> targets[j].state.health == Unhealthy)
      ensures targets[i] !in exclude ==> SomeCandidate(Candidates(exclude))
    {
      assert forall j :: 0 <= j < |targets| && targets[j] !in exclude ==>
          (Fit(exclude)[j] <==> targets[j].state.health != Unhealthy);
      assert Remaining(exclude)[i] == (targets[i] !in exclude);
    }

    /** The first half of `pick`: the candidates, whether any is fit, and whether there is any. */
    method Gather(exclude: set<Target>) returns (candidates: seq<bool>, anyFit: bool, found: bool)
      ensures candidates == Candidates(exclude)
      ensures anyFit == SomeCandidate(Fit(exclude))
      ensures found == SomeCandidate(Remaining(exclude)) == SomeCandidate(candidates)
    {
      ghost var fit := Fit(exclude);
      ghost var rest := Remaining(exclude);
      candidates, anyFit := [], false;
      for i := 0 to |targets|
        invariant candidates == fit[..i]
        invariant anyFit == SomeCandidate(fit[..i])
      {
        Extend(fit[..i], fit[i]);
        assert fit[..i + 1] == fit[..i] + [fit[i]];
        var t := targets[i];
        candidates := candidates + [t !in exclude && t.state.Eligible()];
        anyFit := anyFit || candidates[i];
      }
      assert fit[..|fit|] == fit;
      found := anyFit;
      if anyFit {
        FitRemains(fit, rest);
      } else {
        candidates := [];
        for i := 0 to |targets|
          invariant candidates == rest[..i]
          invariant found == SomeCandidate(rest[..i])
        {
          Extend(rest[..i], rest[i]);
          assert rest[..i + 1] == rest[..i] + [rest[i]];
          candidates := candidates + [targets[i] !in exclude];
          found := found || candidates[i];
        }
        assert rest[..|rest|] == rest;
      }
    }

    /** Offers every candidate its weight, keeping the total and the best so far. */
    method Offer(candidates: seq<bool>) returns (best: int, total: int)
      requires Valid() && |candidates| == |targets|
      modifies targets`current
      ensures Currents() == Offered(WeightVector(), candidates, old(Currents()))
      ensures total == Total(WeightVector(), candidates)
      ensures best == Winner(Currents(), candidates, |targets|)
    {
      hide Sum, Winner, Masked, Add, Offered, Group.Currents, Group.WeightVector;
      ghost var before := Currents();
      ghost var share := Masked(WeightVector(), candidates);
      ghost var offered := Offered(WeightVector(), candidates, before);
      NoneYet(share, offered, candidates);
      best, total := -1, 0;
      for i := 0 to |targets|
        invariant forall j :: 0 <= j < i ==> targets[j].current == offered[j]
        invariant forall j :: i <= j < |targets| ==> targets[j].current == before[j]
        invariant total == Sum(share[..i])
        invariant best == Winner(offered, candidates, i)
      {
        SumSnoc(share, i);
        WinnerSnoc(offered, candidates, i);
        if candidates[i] {
          var t := targets[i];
          t.current := t.current + t.backend.weight;
          total := total + t.backend.weight;
          assert t.current == offered[i];
          if best == -1 || t.current > targets[best].current {
            best := i;
          }
        }
      }
      assert share[..|targets|] == share;
      assert Currents() == offered;
    }

    /** The second half of `pick`: the winner of the offer pays the total. */
    method Charge(candidates: seq<bool>) returns (best: nat)
      requires Valid() && |candidates| == |targets| && SomeCandidate(candidates)
      modifies targets`current
      ensures Valid()
      ensures Currents() == Next(WeightVector(), candidates, old(Currents()))
      ensures best < |targets| && best == Chosen(WeightVector(), candidates, old(Currents()))
    {
      hide Sum, Masked, Add, Winner, Group.Currents, Group.WeightVector;
      PickKeepsSum(WeightVector(), candidates, Currents());
      var b, total := Offer(candidates);
      ghost var offered := Currents();
      targets[b].current := targets[b].current - total;
      assert Currents() == offered[b := offered[b] - total];
      best := b;
    }

    /** Smooth weighted round robin among the candidates; null when every target is excluded. */
    method Pick(exclude: set<Target>) returns (best: Target?)
      requires Valid()
      modifies this`failingOpen, targets`current
      ensures Valid()
      ensures best != null <==> SomeCandidate(old(Candidates(exclude)))
      ensures best != null ==> best == targets[Chosen(WeightVector(), old(Candidates(exclude)), old(Currents()))]
      ensures Currents() == Next(WeightVector(), old(Candidates(exclude)), old(Currents()))
      ensures failingOpen == if SomeCandidate(old(Fit(exclude))) then false
                             else if best != null then true
                             else old(failingOpen)
    {
      hide Sum, Masked, Add, Chosen, Offered, Winner, Group.Currents, Group.WeightVector;
      ghost var before := Currents();
      var candidates, anyFit, found := Gather(exclude);
      if !anyFit {
        if found && !failingOpen {
          failingOpen := true;
        }
      } else if failingOpen {
        failingOpen := false;
      }
      assert Currents() == before;
      if !found {
        return null;
      }
      var b := Charge(candidates);
      return targets[b];
    }
  }

  lemma NoneYet(share: seq<int>, v: seq<int>, mask: seq<bool>)
    requires |v| == |mask|
    ensures Sum(share[..0]) == 0 && Winner(v, mask, 0) == -1
  {
  }

  lemma Extend(mask: seq<bool>, b: bool)
    ensures SomeCandidate(mask + [b]) == (SomeCandidate(mask) || b)
  {
    if b {
      assert (mask + [b])[|mask|];
    } else if SomeCandidate(mask) {
      var i :| 0 <= i < |mask| && mask[i];
      assert (mask + [b])[i];
    }
  }

  lemma FitRemains(fit: seq<bool>, rest: seq<bool>)
    requires |fit| == |rest| && SomeCandidate(fit)
    requires forall i :: 0 <= i < |fit| && fit[i] ==> rest[i]
    ensures SomeCandidate(rest)
  {
    var i :| 0 <= i < |fit| && fit[i];
    assert rest[i];
  }

  function KeyOf(name: string, b: Backend): StateKey {
    StateKey(name, b.address, b.port)
  }

  ghost function KeysOf(name: string, backends: seq<Backend>): set<StateKey> {
    if backends == [] then {} else KeysOf(name, backends[..|backends| - 1]) + {KeyOf(name, backends[|backends| - 1])}
  }

  /** Targets share a key only if they share group, address and port. */
  lemma {:induction false} KeysApart(name: string, b: Backend, other: string, c: Backend)
    ensures KeyOf(name, b) == KeyOf(other, c) <==> name == other && b.address == c.address && b.port == c.port
  {
  }

  /** No two keys share a state. */
  ghost predicate Apart(states: map<StateKey, TargetState>) {
    forall k, l :: k in states && l in states && states[k] == states[l] ==> k == l
  }

  /** One group entry: its state is the one known under its key, else a fresh one. */
  method Adopt(name: string, backend: Backend, states: map<StateKey, TargetState>)
    returns (t: Target, states': map<StateKey, TargetState>)
    ensures fresh(t) && t.current == 0 && t.backend == backend
    ensures states'.Keys == states.Keys + {KeyOf(name, backend)}
    ensures t.state == states'[KeyOf(name, backend)]
    ensures forall k :: k in states ==> states'[k] == states[k]
    ensures forall k :: k in states' && k !in states ==> fresh(states'[k]) && states'[k].Value() == FreshRecord
    ensures Apart(states) ==> Apart(states')
  {
    states' := states;
    var key := KeyOf(name, backend);
    if key !in states' {
      var st := new TargetState();
      states' := states'[key := st];
    }
    t := new Target(backend, states'[key]);
  }

  /** Builds a group, reusing from `states` the state of every target already known and adding a
      fresh state for every other. */
  method NewGroup(name: string, backends: seq<Backend>, states: map<StateKey, TargetState>)
    returns (g: Group, states': map<StateKey, TargetState>)
    requires forall i :: 0 <= i < |backends| ==> backends[i].weight >= 1
    ensures fresh(g) && g.Valid() && !g.failingOpen
    ensures |g.targets| == |backends| && g.Currents() == Zeros(|backends|)
    ensures forall i :: 0 <= i < |backends| ==> g.targets[i].backend == backends[i]
    ensures forall i :: 0 <= i < |backends| ==>
      KeyOf(name, backends[i]) in states' && g.targets[i].state == states'[KeyOf(name, backends[i])]
    ensures states'.Keys == states.Keys + KeysOf(name, backends)
    ensures forall k :: k in states ==> states'[k] == states[k]
    ensures forall k :: k in states' && k !in states ==> fresh(states'[k]) && states'[k].Value() == FreshRecord
    ensures Apart(states) ==> Apart(states')
  {
    hide Apart;
    states' := states;
    var ts: seq<Target> := [];
    for i := 0 to |backends|
      invariant |ts| == i
      invariant forall j :: 0 <= j < i ==> fresh(ts[j]) && ts[j].current == 0 && ts[j].backend == backends[j]
      invariant forall j, k :: 0 <= j < k < i ==> ts[j] != ts[k]
      invariant forall j :: 0 <= j < i ==>
        KeyOf(name, backends[j]) in states' && ts[j].state == states'[KeyOf(name, backends[j])]
      invariant states'.Keys == states.Keys + KeysOf(name, backends[..i])
      invariant forall k :: k in states ==> states'[k] == states[k]
      invariant forall k :: k in states' && k !in states ==> fresh(states'[k]) && states'[k].Value() == FreshRecord
      invariant Apart(states) ==> Apart(states')
    {
      assert backends[..i + 1][..i] == backends[..i];
      var t;
      t, states' := Adopt(name, backends[i], states');
      ts := ts + [t];
    }
    assert backends[..|backends|] == backends;
    hide *;
    g := new Group(ts);
  }
}
