/** The leader lease: any number of contenders acquire, renew and release one record in the shared
    store. Every store operation and every reading of the clock is its own step, and the clock may
    advance between any two of them. Time is an integer; the expiry of a released record is 0, which
    the clock has always passed. */
module Lease {
  import opened Options
  import Runs

  type Client = nat

  /** What each contender was constructed with. */
  datatype Config = Config(name: Client -> string, ttl: Client -> int)

  datatype Rec = Rec(holder: string, expiry: int)

  const Released := Rec("", 0)

  datatype Kind = Acquire | Renew | Release

  datatype Pc =
    | Start(kind: Kind)                               // about to read the record
    | Check(kind: Kind, cur: Rec)                     // read; about to compare with the clock
    | Stamp(seen: Option<Rec>)                        // may take it; about to read the clock for the expiry
    | Swap(seen: Option<Rec>, expiry: int)             // about to compare-and-swap
    | Blank(cur: Rec)                                 // Release: about to compare-and-swap
    | Done(ok: bool)

  /** `granted` holds, for each contender told it has the lease and not having released it since,
      the expiry it was told. */
  datatype State = State(now: int, rec: Option<Rec>, pcs: map<Client, Pc>, granted: map<Client, int>)

  datatype Action = Tick(elapsed: nat) | Call(c: Client, kind: Kind) | Advance(c: Client)

  function Begin(now: int, rec: Option<Rec>): State {
    State(now, rec, map[], map[])
  }

  function At(s: State, c: Client, pc: Pc): State {
    s.(pcs := s.pcs[c := pc])
  }

  function Step(cfg: Config, s: State, c: Client, pc: Pc): State {
    match pc
    case Start(Acquire) =>
      if cfg.ttl(c) <= 0 then At(s, c, Done(false))
      else if s.rec == None then At(s, c, Stamp(None))
      else At(s, c, Check(Acquire, s.rec.value))
    case Start(kind) =>
      if s.rec == None then At(s, c, Done(false)) else At(s, c, Check(kind, s.rec.value))
    case Check(Acquire, cur) =>
      if cur.holder == cfg.name(c) || cur.expiry <= s.now then At(s, c, Stamp(Some(cur))) else At(s, c, Done(false))
    case Check(Renew, cur) =>
      if cur.holder != cfg.name(c) || cur.expiry <= s.now then At(s, c, Done(false)) else At(s, c, Stamp(Some(cur)))
    case Check(Release, cur) =>
      if cur.holder != cfg.name(c) then At(s, c, Done(false)) else At(s, c, Blank(cur))
    case Stamp(cur) => At(s, c, Swap(cur, s.now + cfg.ttl(c)))
    case Swap(cur, expiry) =>
      if s.rec == cur
      then At(s, c, Done(true)).(rec := Some(Rec(cfg.name(c), expiry)), granted := s.granted[c := expiry])
      else At(s, c, Done(false))
    case Blank(cur) =>
      if s.rec == Some(cur)
      then At(s, c, Done(true)).(rec := Some(Released), granted := s.granted - {c})
      else At(s, c, Done(false))
    case Done(_) => s
  }

  function Do(cfg: Config, s: State, a: Action): State {
    match a
    case Tick(elapsed) => s.(now := s.now + elapsed)
    case Call(c, kind) => if c in s.pcs && !s.pcs[c].Done? then s else At(s, c, Start(kind))
    case Advance(c) => if c in s.pcs then Step(cfg, s, c, s.pcs[c]) else s
  }

  function Stepper(cfg: Config): (State, Action) -> State {
    (s, a) => Do(cfg, s, a)
  }

  function Exec(cfg: Config, s: State, schedule: seq<Action>): State {
    Runs.Exec(Stepper(cfg), s, schedule)
  }

  /** Contender `c` may act as the leader: it was told so, has not released, and is in time. */
  predicate Leads(s: State, c: Client) {
    c in s.granted && s.now < s.granted[c]
  }

  ghost predicate Distinct(cfg: Config) {
    forall c, d :: cfg.name(c) == cfg.name(d) ==> c == d
  }

  // ---------- safety ----------

  /** A contender about to swap may displace what it read: the record is absent, its own, or expired. */
  predicate MayDisplace(cfg: Config, now: int, c: Client, cur: Option<Rec>) {
    cur == None || cur.value.holder == cfg.name(c) || cur.value.expiry <= now
  }

  predicate Prepared(cfg: Config, now: int, c: Client, pc: Pc) {
    match pc
    case Stamp(cur) => MayDisplace(cfg, now, c, cur)
    case Swap(cur, expiry) => MayDisplace(cfg, now, c, cur) && expiry <= now + cfg.ttl(c)
    case Blank(cur) => cur.holder == cfg.name(c)
    case _ => true
  }

  ghost predicate LeaderIsStored(cfg: Config, s: State) {
    forall c :: Leads(s, c) ==> s.rec == Some(Rec(cfg.name(c), s.granted[c]))
  }

  ghost predicate Inv(cfg: Config, s: State) {
    && LeaderIsStored(cfg, s)
    && (forall c :: c in s.granted ==> s.granted[c] <= s.now + cfg.ttl(c))
    && (forall c :: c in s.pcs ==> Prepared(cfg, s.now, c, s.pcs[c]))
  }

  /** A swap that goes through leaves no one else leading. */
  lemma {:induction false} SwapKeeps(cfg: Config, s: State, c: Client, cur: Option<Rec>, expiry: int)
    requires Distinct(cfg) && Inv(cfg, s)
    requires c in s.pcs && s.pcs[c] == Swap(cur, expiry)
    ensures LeaderIsStored(cfg, Step(cfg, s, c, s.pcs[c]))
  {
    var s' := Step(cfg, s, c, s.pcs[c]);
    assert Prepared(cfg, s.now, c, s.pcs[c]);
    forall d | Leads(s', d) ensures s'.rec == Some(Rec(cfg.name(d), s'.granted[d])) {
      assert d != c ==> Leads(s, d);
    }
  }

  lemma {:induction false} BlankKeeps(cfg: Config, s: State, c: Client, cur: Rec)
    requires Distinct(cfg) && Inv(cfg, s)
    requires c in s.pcs && s.pcs[c] == Blank(cur)
    ensures LeaderIsStored(cfg, Step(cfg, s, c, s.pcs[c]))
  {
    var s' := Step(cfg, s, c, s.pcs[c]);
    assert Prepared(cfg, s.now, c, s.pcs[c]);
    forall d | Leads(s', d) ensures s'.rec == Some(Rec(cfg.name(d), s'.granted[d])) {
      assert Leads(s, d);
    }
  }

  lemma {:induction false} AdvanceKeeps(cfg: Config, s: State, c: Client)
    requires Distinct(cfg) && Inv(cfg, s) && c in s.pcs
    ensures Inv(cfg, Step(cfg, s, c, s.pcs[c]))
  {
    var s' := Step(cfg, s, c, s.pcs[c]);
    match s.pcs[c]
    case Swap(cur, expiry) => SwapKeeps(cfg, s, c, cur, expiry);
    case Blank(cur) => BlankKeeps(cfg, s, c, cur);
    case _ => QuietStepKeeps(cfg, s, c);
  }

  lemma {:induction false} QuietStepKeeps(cfg: Config, s: State, c: Client)
    requires Inv(cfg, s) && c in s.pcs && !s.pcs[c].Swap? && !s.pcs[c].Blank?
    ensures Inv(cfg, Step(cfg, s, c, s.pcs[c]))
  {
    var s' := Step(cfg, s, c, s.pcs[c]);
    assert forall d :: Leads(s', d) == Leads(s, d);
    assert Prepared(cfg, s.now, c, s.pcs[c]);
    assert Prepared(cfg, s.now, c, s'.pcs[c]);
  }

  lemma {:induction false} StepKeeps(cfg: Config, s: State, a: Action)
    requires Distinct(cfg) && Inv(cfg, s)
    ensures Inv(cfg, Do(cfg, s, a))
  {
    var s' := Do(cfg, s, a);
    match a
    case Tick(_) =>
      assert forall d :: Leads(s', d) ==> Leads(s, d);
      forall d | d in s'.pcs ensures Prepared(cfg, s'.now, d, s'.pcs[d]) {
        assert Prepared(cfg, s.now, d, s.pcs[d]);
      }
    case Call(c, kind) =>
      assert forall d :: Leads(s', d) ==> Leads(s, d);
    case Advance(c) =>
      if c in s.pcs {
        AdvanceKeeps(cfg, s, c);
      }
  }

  lemma {:induction false} Safe(cfg: Config, now: int, rec: Option<Rec>, schedule: seq<Action>)
    requires Distinct(cfg)
    ensures Inv(cfg, Exec(cfg, Begin(now, rec), schedule))
  {
    if schedule != [] {
      var n := |schedule| - 1;
      Safe(cfg, now, rec, schedule[..n]);
      StepKeeps(cfg, Exec(cfg, Begin(now, rec), schedule[..n]), schedule[n]);
    }
  }

  /** In every schedule the leader, if any, is unique, is the holder in the store, and has at most its
      own ttl left. */
  lemma {:induction false} AtMostOneLeader(cfg: Config, now: int, rec: Option<Rec>, schedule: seq<Action>, c: Client,
                                           d: Client)
    requires Distinct(cfg)
    ensures var s := Exec(cfg, Begin(now, rec), schedule);
            Leads(s, c) ==>
              && s.rec == Some(Rec(cfg.name(c), s.granted[c]))
              && s.granted[c] <= s.now + cfg.ttl(c)
              && (Leads(s, d) ==> c == d)
  {
    Safe(cfg, now, rec, schedule);
  }

  /** Whenever a step replaces the record of another contender, the clock has reached the expiry the
      store gave that contender. */
  lemma {:induction false} TakeoverWaitsForExpiry(cfg: Config, now: int, rec: Option<Rec>, schedule: seq<Action>,
                                                  a: Action)
    requires Distinct(cfg)
    ensures var s := Exec(cfg, Begin(now, rec), schedule);
            var s' := Do(cfg, s, a);
            s'.rec != s.rec && s.rec.Some? ==>
              && a.Advance? && s'.rec.Some?
              && s'.rec.value.holder in {cfg.name(a.c), ""}
              && (s.rec.value.holder != cfg.name(a.c) ==> s.rec.value.expiry <= s.now)
  {
    Safe(cfg, now, rec, schedule);
  }

  // ---------- the distinct names are needed ----------

  // ---------- what a contender is told ----------

  /** The step ends a call of `c` and tells it true. */
  predicate SaysYes(cfg: Config, s: State, a: Action, c: Client) {
    a == Advance(c) && c in s.pcs && !s.pcs[c].Done? && Lookup(Do(cfg, s, a).pcs, c) == Some(Done(true))
  }

  /** A yes to Acquire or Renew comes with the contender's own record in the store, and a yes to Release
      with a blank one; a step that says no, or nothing, leaves the record alone. */
  lemma {:induction false} YesMeansStored(cfg: Config, s: State, a: Action, c: Client)
    requires a == Advance(c) && c in s.pcs && !s.pcs[c].Done?
    ensures var s' := Do(cfg, s, a);
            if SaysYes(cfg, s, a, c)
            then s'.rec.Some? && s'.rec.value.holder == (if s.pcs[c].Blank? then "" else cfg.name(c))
            else s'.rec == s.rec && s'.granted == s.granted
  {
  }

  /** The expiry of the last term `c` was told it has and has not given back since: what the store held when
      an Acquire or Renew last said yes. It is made from the answers and the store alone. */
  function Term(cfg: Config, s: State, schedule: seq<Action>, c: Client): Option<int> {
    if schedule == [] then None else
      var earlier, a := schedule[..|schedule| - 1], schedule[|schedule| - 1];
      var before, after := Exec(cfg, s, earlier), Exec(cfg, s, schedule);
      if !SaysYes(cfg, before, a, c) then Term(cfg, s, earlier, c)
      else if before.pcs[c].Blank? || after.rec == None then None
      else Some(after.rec.value.expiry)
  }

  lemma {:induction false} TermIsGranted(cfg: Config, now: int, rec: Option<Rec>, schedule: seq<Action>, c: Client)
    ensures Lookup(Exec(cfg, Begin(now, rec), schedule).granted, c) == Term(cfg, Begin(now, rec), schedule, c)
  {
    if schedule != [] {
      var n := |schedule| - 1;
      TermIsGranted(cfg, now, rec, schedule[..n], c);
      TermStep(cfg, Exec(cfg, Begin(now, rec), schedule[..n]), schedule[n], c);
    }
  }

  lemma {:induction false} TermStep(cfg: Config, s: State, a: Action, c: Client)
    ensures var s' := Do(cfg, s, a);
            Lookup(s'.granted, c) ==
              if !SaysYes(cfg, s, a, c) then Lookup(s.granted, c)
              else if s.pcs[c].Blank? || s'.rec == None then None else Some(s'.rec.value.expiry)
  {
  }

  /** In every schedule, at every moment, at most one contender is within a term it was told it has, and
      the store holds exactly that term under its name. */
  lemma {:induction false} TermsDoNotOverlap(cfg: Config, now: int, rec: Option<Rec>, schedule: seq<Action>,
                                             c: Client, d: Client)
    requires Distinct(cfg)
    ensures var s := Exec(cfg, Begin(now, rec), schedule);
            var mine, theirs := Term(cfg, Begin(now, rec), schedule, c), Term(cfg, Begin(now, rec), schedule, d);
            mine.Some? && s.now < mine.value ==>
              && s.rec == Some(Rec(cfg.name(c), mine.value)) && mine.value <= s.now + cfg.ttl(c)
              && (theirs.Some? && s.now < theirs.value ==> c == d)
  {
    TermIsGranted(cfg, now, rec, schedule, c);
    TermIsGranted(cfg, now, rec, schedule, d);
    AtMostOneLeader(cfg, now, rec, schedule, c, d);
  }

  /** Two contenders that share a name both lead after acquiring one after the other. */
  lemma {:induction false} SharedNameBothLead(cfg: Config, c: Client, d: Client) returns (schedule: seq<Action>)
    requires c != d && cfg.name(c) == cfg.name(d) && cfg.ttl(c) > 0 && cfg.ttl(d) > 0
    ensures Leads(Exec(cfg, Begin(0, None), schedule), c) && Leads(Exec(cfg, Begin(0, None), schedule), d)
  {
    var s := Begin(0, None);
    AcquireAlone(cfg, s, c);
    schedule := AloneRuns(cfg, s, [], c, Acquire, 4);
    var s1 := Exec(cfg, s, schedule);
    AcquireAlone(cfg, s1, d);
    schedule := AloneRuns(cfg, s, schedule, d, Acquire, 4);
  }

  ghost predicate Exclusive(cfg: Config) {
    forall now, rec, schedule, c, d ::
      Leads(Exec(cfg, Begin(now, rec), schedule), c) && Leads(Exec(cfg, Begin(now, rec), schedule), d) ==> c == d
  }

  /** The lease is exclusive exactly when no two contenders share a name. */
  lemma {:induction false} ExclusiveIffDistinct(cfg: Config)
    requires forall c :: cfg.ttl(c) > 0
    ensures Exclusive(cfg) <==> Distinct(cfg)
  {
    if Distinct(cfg) {
      forall now, rec, schedule, c, d |
        Leads(Exec(cfg, Begin(now, rec), schedule), c) && Leads(Exec(cfg, Begin(now, rec), schedule), d)
        ensures c == d
      {
        AtMostOneLeader(cfg, now, rec, schedule, c, d);
      }
    } else {
      var c, d :| cfg.name(c) == cfg.name(d) && c != d;
      var schedule := SharedNameBothLead(cfg, c, d);
    }
  }

  // ---------- undisturbed calls ----------

  /** `n` steps of one contender with nothing in between. */
  function Alone(cfg: Config, s: State, c: Client, n: nat): State {
    if n == 0 then s else Do(cfg, Alone(cfg, s, c, n - 1), Advance(c))
  }

  lemma {:induction false} AloneRuns(cfg: Config, s: State, schedule: seq<Action>, c: Client, kind: Kind, n: nat)
    returns (longer: seq<Action>)
    ensures Exec(cfg, s, longer) == Alone(cfg, Do(cfg, Exec(cfg, s, schedule), Call(c, kind)), c, n)
  {
    if n == 0 {
      longer := schedule + [Call(c, kind)];
      Runs.Snoc(Stepper(cfg), s, schedule, Call(c, kind));
    } else {
      var shorter := AloneRuns(cfg, s, schedule, c, kind, n - 1);
      longer := shorter + [Advance(c)];
      Runs.Snoc(Stepper(cfg), s, shorter, Advance(c));
    }
  }

  predicate Free(cfg: Config, s: State, c: Client) {
    s.rec == None || s.rec.value.holder == cfg.name(c) || s.rec.value.expiry <= s.now
  }

  /** Without a positive ttl an Acquire is refused at once. */
  lemma {:induction false} NoTermNoLease(cfg: Config, s: State, c: Client)
    requires cfg.ttl(c) <= 0 && (c !in s.pcs || s.pcs[c].Done?)
    ensures Do(cfg, Do(cfg, s, Call(c, Acquire)), Advance(c)) == s.(pcs := s.pcs[c := Done(false)])
  {
  }

  lemma {:induction false} TakenAlone(cfg: Config, s: State, c: Client)
    requires cfg.ttl(c) > 0 && (c !in s.pcs || s.pcs[c].Done?) && !Free(cfg, s, c)
    ensures Alone(cfg, Do(cfg, s, Call(c, Acquire)), c, 4) == s.(pcs := s.pcs[c := Done(false)])
  {
    var s0 := Do(cfg, s, Call(c, Acquire));
    AloneUnrolls(cfg, s0, c);
    hide Alone;
    assert Alone(cfg, s0, c, 1) == s.(pcs := s.pcs[c := Check(Acquire, s.rec.value)]);
    assert Alone(cfg, s0, c, 2) == s.(pcs := s.pcs[c := Done(false)]);
  }

  /** Reading a free record, or finding none, leads to the swap; one step sooner if there is none. */
  lemma {:induction false} FreeAlone(cfg: Config, s: State, c: Client)
    requires cfg.ttl(c) > 0 && (c !in s.pcs || s.pcs[c].Done?) && Free(cfg, s, c)
    ensures Alone(cfg, Do(cfg, s, Call(c, Acquire)), c, if s.rec == None then 1 else 2) ==
            s.(pcs := s.pcs[c := Stamp(s.rec)])
  {
    var s0 := Do(cfg, s, Call(c, Acquire));
    AloneUnrolls(cfg, s0, c);
    hide Alone;
    if s.rec.Some? {
      assert Alone(cfg, s0, c, 1) == s.(pcs := s.pcs[c := Check(Acquire, s.rec.value)]);
    }
  }

  /** An undisturbed Acquire succeeds exactly when the record is absent, expired or its own, and then
      holds the lease for its whole ttl; otherwise it changes nothing. */
  lemma {:induction false} AcquireAlone(cfg: Config, s: State, c: Client)
    requires cfg.ttl(c) > 0 && (c !in s.pcs || s.pcs[c].Done?)
    ensures var s' := Alone(cfg, Do(cfg, s, Call(c, Acquire)), c, 4);
            && s'.rec == (if Free(cfg, s, c) then Some(Rec(cfg.name(c), s.now + cfg.ttl(c))) else s.rec)
            && s'.pcs == s.pcs[c := Done(Free(cfg, s, c))]
            && s'.granted == (if Free(cfg, s, c) then s.granted[c := s.now + cfg.ttl(c)] else s.granted)
            && s'.now == s.now
  {
    var s0 := Do(cfg, s, Call(c, Acquire));
    AloneUnrolls(cfg, s0, c);
    hide Alone, Free;
    if Free(cfg, s, c) {
      FreeAlone(cfg, s, c);
      var n := if s.rec == None then 1 else 2;
      assert Alone(cfg, s0, c, n + 1) == s.(pcs := s.pcs[c := Swap(s.rec, s.now + cfg.ttl(c))]);
    } else {
      TakenAlone(cfg, s, c);
    }
  }

  lemma {:induction false} AloneUnrolls(cfg: Config, s: State, c: Client)
    ensures Alone(cfg, s, c, 1) == Do(cfg, s, Advance(c))
    ensures Alone(cfg, s, c, 2) == Do(cfg, Alone(cfg, s, c, 1), Advance(c))
    ensures Alone(cfg, s, c, 3) == Do(cfg, Alone(cfg, s, c, 2), Advance(c))
    ensures Alone(cfg, s, c, 4) == Do(cfg, Alone(cfg, s, c, 3), Advance(c))
  {
  }

  /** An undisturbed Renew extends the lease exactly when it is still held and in time. */
  lemma {:induction false} RenewAlone(cfg: Config, s: State, c: Client)
    requires c !in s.pcs || s.pcs[c].Done?
    ensures var s' := Alone(cfg, Do(cfg, s, Call(c, Renew)), c, 4);
            var held := s.rec.Some? && s.rec.value.holder == cfg.name(c) && s.now < s.rec.value.expiry;
            && s'.pcs == s.pcs[c := Done(held)]
            && s'.rec == (if held then Some(Rec(cfg.name(c), s.now + cfg.ttl(c))) else s.rec)
            && s'.granted == (if held then s.granted[c := s.now + cfg.ttl(c)] else s.granted)
            && s'.now == s.now
  {
    var s0 := Do(cfg, s, Call(c, Renew));
    AloneUnrolls(cfg, s0, c);
    if s.rec.Some? {
      assert Alone(cfg, s0, c, 1) == s.(pcs := s.pcs[c := Check(Renew, s.rec.value)]);
      if s.rec.value.holder == cfg.name(c) && s.now < s.rec.value.expiry {
        assert Alone(cfg, s0, c, 2) == s.(pcs := s.pcs[c := Stamp(s.rec)]);
        assert Alone(cfg, s0, c, 3) == s.(pcs := s.pcs[c := Swap(s.rec, s.now + cfg.ttl(c))]);
      } else {
        assert Alone(cfg, s0, c, 2) == s.(pcs := s.pcs[c := Done(false)]);
      }
    } else {
      assert Alone(cfg, s0, c, 1) == s.(pcs := s.pcs[c := Done(false)]);
    }
  }

  /** An undisturbed Release frees the lease exactly when this contender holds it, so that the next
      undisturbed Acquire of anyone succeeds. */
  lemma {:induction false} ReleaseAlone(cfg: Config, s: State, c: Client, d: Client)
    requires s.now >= 0 && (c !in s.pcs || s.pcs[c].Done?)
    ensures var s' := Alone(cfg, Do(cfg, s, Call(c, Release)), c, 3);
            var held := s.rec.Some? && s.rec.value.holder == cfg.name(c);
            && s'.pcs == s.pcs[c := Done(held)]
            && s'.rec == (if held then Some(Released) else s.rec)
            && s'.granted == (if held then s.granted - {c} else s.granted)
            && (held ==> Free(cfg, s', d) && !Leads(s', c))
  {
    var s0 := Do(cfg, s, Call(c, Release));
    AloneUnrolls(cfg, s0, c);
    if s.rec.Some? {
      assert Alone(cfg, s0, c, 1) == s.(pcs := s.pcs[c := Check(Release, s.rec.value)]);
      assert Alone(cfg, s0, c, 2) ==
             s.(pcs := s.pcs[c := if s.rec.value.holder == cfg.name(c) then Blank(s.rec.value) else Done(false)]);
    } else {
      assert Alone(cfg, s0, c, 1) == s.(pcs := s.pcs[c := Done(false)]);
    }
  }
}
