/** The OAuth device-authorization store of the identity provider (RFC 8628), shared by any number of
    servers through one key of the state store.

    Every operation is a transaction: read the whole table, rebuild the two indexes, drop what has
    expired, apply the change, compare-and-swap the table back, and retry up to 16 times. The result
    of a call is captured by the change as it runs, on every attempt. Transactions of all servers
    interleave at their two store operations. Device codes are random and never repeat. */
module Device {
  import opened Options
  import opened Sets
  import Runs

  type Code = string

  const MaxAuthorizations := 1024
  const Attempts := 16
  const PollSeconds := 5

  datatype Status = Pending | Approved(subject: string, roles: seq<string>) | Denied

  datatype Auth = Auth(deviceCode: Code, userCode: Code, status: Status, expires: int, lastPoll: Option<int>,
                       interval: int)

  /** The stored table, by device code. */
  type Table = map<Code, Auth>

  /** The two in-memory indexes; `byUser` points at entries of `byDevice`. */
  datatype Mem = Mem(byDevice: Table, byUser: map<Code, Code>)

  datatype Op =
    | Create(auth: Auth)
    | Find(device: Code)
    | Approve(user: Code, subject: string, roles: seq<string>)
    | Deny(user: Code)
    | Remove(device: Code)
    | Poll(device: Code)

  /** The variables a change captures its result in. */
  datatype Captured = Captured(done: bool, auth: Option<Auth>, failure: string)

  const Blank := Captured(false, None, "")

  // ---------- one transaction ----------

  function RemoveLocked(m: Mem, a: Auth): Mem {
    Mem(m.byDevice - {a.deviceCode}, m.byUser - {a.userCode})
  }

  ghost function Users(t: Table): set<Code> {
    set d | d in t :: t[d].userCode
  }

  /** Where two entries carry one user code, the index keeps either. */
  ghost function Owner(t: Table, u: Code): (d: Code)
    requires u in Users(t)
    ensures d in t && t[d].userCode == u
  {
    var d :| d in t && t[d].userCode == u;
    d
  }

  ghost function Rebuild(t: Table): Mem {
    Mem(t, map u | u in Users(t) :: Owner(t, u))
  }

  function Purge(m: Mem, now: int): Mem {
    var gone := set d | d in m.byDevice && m.byDevice[d].expires <= now;
    Mem(m.byDevice - (set d | d in gone :: m.byDevice[d].deviceCode),
        m.byUser - (set d | d in gone :: m.byDevice[d].userCode))
  }

  function Update(m: Mem, d: Code, a: Auth): Mem {
    m.(byDevice := m.byDevice[d := a])
  }

  /** The body of each operation on the purged indexes: the new indexes, the captured result, and
      whether the transaction goes on to write. */
  function Change(op: Op, m: Mem, cap: Captured, now: int): (Mem, Captured, bool) {
    match op
    case Create(a) =>
      if |m.byDevice| >= MaxAuthorizations || a.userCode in m.byUser then (m, cap, false)
      else (Mem(m.byDevice[a.deviceCode := a], m.byUser[a.userCode := a.deviceCode]), cap, true)
    case Find(d) =>
      (m, if d in m.byDevice then cap.(done := true, auth := Some(m.byDevice[d])) else cap, true)
    case Approve(u, subject, roles) =>
      if u in m.byUser && m.byUser[u] in m.byDevice && m.byDevice[m.byUser[u]].status == Pending
      then (Update(m, m.byUser[u], m.byDevice[m.byUser[u]].(status := Approved(subject, roles))),
            cap.(done := true), true)
      else (m, cap.(done := false), true)
    case Deny(u) =>
      if u in m.byUser && m.byUser[u] in m.byDevice && m.byDevice[m.byUser[u]].status == Pending
      then (Update(m, m.byUser[u], m.byDevice[m.byUser[u]].(status := Denied)), cap.(done := true), true)
      else (m, cap.(done := false), true)
    case Remove(d) =>
      (if d in m.byDevice then RemoveLocked(m, m.byDevice[d]) else m, cap, true)
    case Poll(d) =>
      if d !in m.byDevice then (m, cap.(auth := None, failure := "expired_token"), true)
      else
        var a := m.byDevice[d];
        if a.status == Pending then
          var wait := if a.interval == 0 then PollSeconds else a.interval;
          if a.lastPoll.Some? && now - a.lastPoll.value < wait
          then (Update(m, d, a.(interval := wait + 5, lastPoll := Some(now))),
                cap.(auth := None, failure := "slow_down"), true)
          else
            var b := a.(interval := wait, lastPoll := Some(now));
            (Update(m, d, b), cap.(auth := Some(b), failure := ""), true)
        else (RemoveLocked(m, a), cap.(auth := Some(a), failure := ""), true)
  }

  /** The same call as one indivisible step on the table. */
  ghost function Atomic(op: Op, t: Table, now: int): (Table, Captured) {
    var (m, cap, _) := Change(op, Purge(Rebuild(t), now), Blank, now);
    (m.byDevice, cap)
  }

  // ---------- the indexes stay a bijection ----------

  /** Each entry is filed under its own device code, and the user-code index is its exact inverse. */
  ghost predicate Bijective(m: Mem) {
    && (forall d :: d in m.byDevice ==> m.byDevice[d].deviceCode == d)
    && (forall d :: d in m.byDevice ==> m.byDevice[d].userCode in m.byUser && m.byUser[m.byDevice[d].userCode] == d)
    && (forall u :: u in m.byUser ==> m.byUser[u] in m.byDevice && m.byDevice[m.byUser[u]].userCode == u)
  }

  /** The tables a transaction may write. */
  ghost predicate Good(t: Table) {
    && |t| <= MaxAuthorizations
    && (forall d :: d in t ==> t[d].deviceCode == d)
    && (forall d, e :: d in t && e in t && t[d].userCode == t[e].userCode ==> d == e)
  }

  lemma {:induction false} RebuildBijective(t: Table)
    requires Good(t)
    ensures Bijective(Rebuild(t)) && Rebuild(t).byDevice == t
  {
    var m := Rebuild(t);
    forall d | d in t ensures t[d].userCode in m.byUser && m.byUser[t[d].userCode] == d {
      assert t[d].userCode in Users(t);
    }
  }

  lemma {:induction false} BijectiveGood(m: Mem)
    requires Bijective(m) && |m.byDevice| <= MaxAuthorizations
    ensures Good(m.byDevice)
  {
    forall d, e | d in m.byDevice && e in m.byDevice && m.byDevice[d].userCode == m.byDevice[e].userCode
      ensures d == e
    {
      assert m.byUser[m.byDevice[d].userCode] == d;
    }
  }

  /** Purging takes exactly the expired entries out of both indexes. */
  lemma {:induction false} PurgeLeaves(m: Mem, now: int)
    requires Bijective(m)
    ensures forall d :: d in Purge(m, now).byDevice <==> d in m.byDevice && m.byDevice[d].expires > now
    ensures forall d :: d in Purge(m, now).byDevice ==> Purge(m, now).byDevice[d] == m.byDevice[d]
    ensures forall u :: u in Purge(m, now).byUser <==>
                          u in m.byUser && m.byUser[u] in m.byDevice && m.byDevice[m.byUser[u]].expires > now
    ensures forall u :: u in Purge(m, now).byUser ==> Purge(m, now).byUser[u] == m.byUser[u]
  {
    var gone := set d | d in m.byDevice && m.byDevice[d].expires <= now;
    assert (set d | d in gone :: m.byDevice[d].deviceCode) == gone;
    var users := set d | d in gone :: m.byDevice[d].userCode;
    forall u | u in m.byUser ensures u in users <==> m.byUser[u] in gone {
      var d := m.byUser[u];
      assert m.byDevice[d].userCode == u;
      if e :| e in gone && m.byDevice[e].userCode == u {
        assert m.byUser[u] == e;
      }
    }
  }

  lemma {:induction false} PartBijective(m: Mem, p: Mem, now: int)
    requires Bijective(m)
    requires forall d :: d in p.byDevice <==> d in m.byDevice && m.byDevice[d].expires > now
    requires forall d :: d in p.byDevice ==> p.byDevice[d] == m.byDevice[d]
    requires forall u :: u in p.byUser <==>
                           u in m.byUser && m.byUser[u] in m.byDevice && m.byDevice[m.byUser[u]].expires > now
    requires forall u :: u in p.byUser ==> p.byUser[u] == m.byUser[u]
    ensures Bijective(p)
  {
    forall d | d in p.byDevice ensures p.byDevice[d].userCode in p.byUser && p.byUser[p.byDevice[d].userCode] == d {
      assert m.byUser[m.byDevice[d].userCode] == d;
    }
  }

  /** What purging leaves: exactly the entries not yet expired, still a bijection. */
  lemma {:induction false} PurgeKeeps(m: Mem, now: int)
    requires Bijective(m)
    ensures Bijective(Purge(m, now))
    ensures |Purge(m, now).byDevice| <= |m.byDevice|
    ensures forall d :: d in Purge(m, now).byDevice <==> d in m.byDevice && m.byDevice[d].expires > now
    ensures forall d :: d in Purge(m, now).byDevice ==> Purge(m, now).byDevice[d] == m.byDevice[d]
  {
    hide Purge, Bijective;
    PurgeLeaves(m, now);
    PartBijective(m, Purge(m, now), now);
    FewerKeys(m.byDevice, Purge(m, now).byDevice);
  }

  /** A fresh device code for a create; nothing for any other operation. */
  predicate Fresh(op: Op, m: Mem) {
    op.Create? ==> op.auth.deviceCode !in m.byDevice
  }

  lemma {:induction false} UpdateKeeps(m: Mem, d: Code, a: Auth)
    requires Bijective(m) && d in m.byDevice
    requires a.deviceCode == d && a.userCode == m.byDevice[d].userCode
    ensures Bijective(Update(m, d, a)) && |Update(m, d, a).byDevice| <= |m.byDevice|
  {
    FewerKeys(m.byDevice, Update(m, d, a).byDevice);
  }

  lemma {:induction false} RemoveKeeps(m: Mem, d: Code)
    requires Bijective(m) && d in m.byDevice
    ensures Bijective(RemoveLocked(m, m.byDevice[d])) && |RemoveLocked(m, m.byDevice[d]).byDevice| <= |m.byDevice|
  {
    FewerKeys(m.byDevice, RemoveLocked(m, m.byDevice[d]).byDevice);
  }

  lemma {:induction false} FiledUnderItself(m: Mem, d: Code)
    requires Bijective(m) && d in m.byDevice
    ensures m.byDevice[d].deviceCode == d
  {
  }

  lemma {:induction false} InsertKeeps(m: Mem, a: Auth)
    requires Bijective(m) && a.deviceCode !in m.byDevice && a.userCode !in m.byUser
    ensures Bijective(Mem(m.byDevice[a.deviceCode := a], m.byUser[a.userCode := a.deviceCode]))
    ensures |m.byDevice[a.deviceCode := a]| == |m.byDevice| + 1
  {
  }

  /** Every operation keeps the two indexes in bijection and the table within capacity. */
  lemma {:induction false} ChangeKeeps(op: Op, m: Mem, cap: Captured, now: int)
    requires Bijective(m) && |m.byDevice| <= MaxAuthorizations && Fresh(op, m)
    ensures Bijective(Change(op, m, cap, now).0)
    ensures |Change(op, m, cap, now).0.byDevice| <= MaxAuthorizations
  {
    hide Bijective;
    var m' := Change(op, m, cap, now).0;
    match op
    case Create(a) => if m' != m { InsertKeeps(m, a); }
    case Find(d) =>
    case Remove(d) => if d in m.byDevice { RemoveKeeps(m, d); }
    case Poll(d) =>
      if d in m.byDevice {
        FiledUnderItself(m, d);
        if m.byDevice[d].status == Pending { UpdateKeeps(m, d, m'.byDevice[d]); } else { RemoveKeeps(m, d); }
      }
    case _ =>
      if m' != m {
        var d := m.byUser[op.user];
        FiledUnderItself(m, d);
        UpdateKeeps(m, d, m'.byDevice[d]);
      }
  }

  lemma {:induction false} AtomicKeepsGood(op: Op, t: Table, now: int)
    requires Good(t) && (op.Create? ==> op.auth.deviceCode !in t)
    ensures Good(Atomic(op, t, now).0)
  {
    RebuildBijective(t);
    PurgeKeeps(Rebuild(t), now);
    ChangeKeeps(op, Purge(Rebuild(t), now), Blank, now);
    BijectiveGood(Change(op, Purge(Rebuild(t), now), Blank, now).0);
  }

  // ---------- the interleaved servers ----------

  datatype Result = Committed(cap: Captured) | Refused | Exhausted

  /** One attempt's read: after how many commits, and when. */
  datatype Look = Look(at: nat, now: int)

  /** `looks` are the attempts made so far. */
  datatype Pc =
    | Begun(op: Op, cap: Captured, looks: seq<Look>)
    | HasRead(op: Op, prior: Option<Table>, next: Table, cap: Captured, now: int, looks: seq<Look>)
    | Returned(op: Op, result: Result)

  /** A committed transaction, at the time its change ran, with the attempts it took. */
  datatype Entry = Entry(op: Op, now: int, cap: Captured, looks: seq<Look>)

  datatype State = State(table: Option<Table>, issued: set<Code>, log: seq<Entry>, calls: map<nat, Pc>)

  datatype Action = Call(c: nat, op: Op) | Advance(c: nat, now: int)

  const Empty := State(None, {}, [], map[])

  function TableOf(o: Option<Table>): Table {
    if o.Some? then o.value else map[]
  }

  /** A new authorization is pending and carries a device code never issued before. */
  predicate MayCall(s: State, c: nat, op: Op) {
    && (c !in s.calls || s.calls[c].Returned?)
    && (op.Create? ==> op.auth.deviceCode !in s.issued && IsNew(op.auth))
  }

  /** As `create` builds it. */
  predicate IsNew(a: Auth) {
    a.status == Pending && a.lastPoll == None && a.interval == 0
  }

  function At(s: State, c: nat, pc: Pc): State {
    s.(calls := s.calls[c := pc])
  }

  ghost function Read(s: State, c: nat, op: Op, cap: Captured, looks: seq<Look>, now: int): State {
    var (m, cap', write) := Change(op, Purge(Rebuild(TableOf(s.table)), now), cap, now);
    At(s, c, if write then HasRead(op, s.table, m.byDevice, cap', now, looks + [Look(|s.log|, now)])
             else Returned(op, Refused))
  }

  function EntryOf(pc: Pc): Entry
    requires pc.HasRead?
  {
    Entry(pc.op, pc.now, pc.cap, pc.looks)
  }

  function Swap(s: State, c: nat, pc: Pc): State
    requires pc.HasRead?
  {
    if s.table == pc.prior
    then At(s, c, Returned(pc.op, Committed(pc.cap))).(table := Some(pc.next), log := s.log + [EntryOf(pc)])
    else At(s, c, if |pc.looks| < Attempts then Begun(pc.op, pc.cap, pc.looks) else Returned(pc.op, Exhausted))
  }

  ghost function Do(s: State, a: Action): State {
    match a
    case Call(c, op) =>
      if MayCall(s, c, op)
      then At(s, c, Begun(op, Blank, [])).(issued := if op.Create? then s.issued + {op.auth.deviceCode} else s.issued)
      else s
    case Advance(c, now) =>
      if c !in s.calls then s
      else match s.calls[c]
        case Begun(op, cap, looks) => Read(s, c, op, cap, looks, now)
        case HasRead(_, _, _, _, _, _) => Swap(s, c, s.calls[c])
        case Returned(_, _) => s
  }

  ghost function Exec(s: State, schedule: seq<Action>): State {
    Runs.Exec(Do, s, schedule)
  }

  // ---------- serializability ----------

  ghost function Replay(log: seq<Entry>): Table {
    if log == [] then map[] else Atomic(log[|log| - 1].op, Replay(log[..|log| - 1]), log[|log| - 1].now).0
  }

  /** The operations that reset what they captured before each attempt. */
  predicate Resets(op: Op) {
    op.Approve? || op.Deny? || op.Poll?
  }

  /** The relevant part of a captured result. */
  predicate SameReport(op: Op, a: Captured, b: Captured) {
    if op.Poll? then a.auth == b.auth && a.failure == b.failure else a.done == b.done
  }

  /** What a call has captured by the end of an attempt does not depend on earlier attempts, for the
      operations that reset it. */
  lemma {:induction false} CaptureIsReset(op: Op, m: Mem, cap: Captured, now: int)
    ensures Change(op, m, cap, now).0 == Change(op, m, Blank, now).0
    ensures Change(op, m, cap, now).2 == Change(op, m, Blank, now).2
    ensures Resets(op) ==> SameReport(op, Change(op, m, cap, now).1, Change(op, m, Blank, now).1)
  {
  }

  ghost predicate EntryHolds(log: seq<Entry>, i: nat)
    requires i < |log|
  {
    var e := log[i];
    && (Resets(e.op) ==> SameReport(e.op, e.cap, Atomic(e.op, Replay(log[..i]), e.now).1))
    && (e.op.Create? ==> IsNew(e.op.auth) && !Created(log[..i], e.op.auth.deviceCode))
  }

  ghost predicate Recorded(log: seq<Entry>) {
    forall i :: 0 <= i < |log| ==> EntryHolds(log, i)
  }

  /** The device code a transaction is about to create. */
  function Creating(s: State, c: nat): Option<Code> {
    if c in s.calls && !s.calls[c].Returned? && s.calls[c].op.Create? then Some(s.calls[c].op.auth.deviceCode) else None
  }

  ghost predicate Created(log: seq<Entry>, d: Code) {
    exists i :: 0 <= i < |log| && log[i].op.Create? && log[i].op.auth.deviceCode == d
  }

  /** A pending transaction: its new device code is issued but not yet created, and what it is about to
      write is the indivisible step on what it read. */
  ghost predicate Sound(s: State, c: nat) {
    && (Creating(s, c).Some? ==>
          && Creating(s, c).value in s.issued && !Created(s.log, Creating(s, c).value)
          && IsNew(s.calls[c].op.auth))
    && (c in s.calls && s.calls[c].HasRead? ==> Faithful(s.calls[c]))
  }

  ghost predicate Faithful(pc: Pc)
    requires pc.HasRead?
  {
    var (next, cap) := Atomic(pc.op, TableOf(pc.prior), pc.now);
    pc.next == next && (Resets(pc.op) ==> SameReport(pc.op, pc.cap, cap))
  }

  predicate Apart(s: State, c: nat, d: nat) {
    Creating(s, c).Some? && Creating(s, c) == Creating(s, d) ==> c == d
  }

  ghost predicate Inv(s: State) {
    && TableOf(s.table) == Replay(s.log)
    && Recorded(s.log)
    && (forall d :: Created(s.log, d) ==> d in s.issued)
    && (forall c :: Sound(s, c))
    && (forall c, d :: Apart(s, c, d))
  }

  lemma {:induction false} ReadIsFaithful(s: State, c: nat, op: Op, cap: Captured, looks: seq<Look>, now: int)
    ensures var s' := Read(s, c, op, cap, looks, now);
            && c in s'.calls && s' == At(s, c, s'.calls[c]) && s'.calls[c].op == op && !s'.calls[c].Begun?
            && (s'.calls[c].HasRead? ==> Faithful(s'.calls[c]))
  {
    CaptureIsReset(op, Purge(Rebuild(TableOf(s.table)), now), cap, now);
  }

  lemma {:induction false} ReadKeeps(s: State, c: nat, now: int)
    requires Inv(s) && c in s.calls && s.calls[c].Begun?
    ensures Inv(Do(s, Advance(c, now)))
  {
    hide Read, Change, Purge, Atomic, Recorded, Replay, Faithful;
    var pc := s.calls[c];
    var s' := Do(s, Advance(c, now));
    ReadIsFaithful(s, c, pc.op, pc.cap, pc.looks, now);
    forall d ensures Sound(s', d) && (Creating(s', d) == Creating(s, d) || Creating(s', d) == None) {
      assert Sound(s, d);
    }
    forall d, e ensures Apart(s', d, e) {
      assert Apart(s, d, e);
    }
  }

  lemma {:induction false} RecordedExtends(log: seq<Entry>, e: Entry)
    requires Recorded(log) && EntryHolds(log + [e], |log|)
    ensures Recorded(log + [e])
    ensures Replay(log + [e]) == Atomic(e.op, Replay(log), e.now).0
  {
    var log' := log + [e];
    assert log'[..|log|] == log;
    forall i | 0 <= i < |log'| ensures EntryHolds(log', i) {
      if i < |log| {
        assert EntryHolds(log, i) && log'[..i] == log[..i];
      }
    }
  }

  lemma {:induction false} SwapKeeps(s: State, c: nat)
    requires Inv(s) && c in s.calls && s.calls[c].HasRead?
    ensures Inv(Swap(s, c, s.calls[c]))
  {
    var pc := s.calls[c];
    var s' := Swap(s, c, pc);
    assert Sound(s, c);
    if s.table == pc.prior {
      CommitRecorded(s, c);
    }
    forall d ensures Sound(s', d) && (Creating(s', d) == Creating(s, d) || Creating(s', d) == None) {
      assert Sound(s, d) && Apart(s, c, d);
    }
    forall d, e ensures Apart(s', d, e) {
      assert Apart(s, d, e);
    }
  }

  lemma {:induction false} CreatedExtends(log: seq<Entry>, e: Entry, d: Code)
    ensures Created(log + [e], d) <==> Created(log, d) || CreatesCode(e.op, d)
  {
    var log' := log + [e];
    if Created(log, d) {
      var i :| 0 <= i < |log| && log[i].op.Create? && log[i].op.auth.deviceCode == d;
      assert log'[i] == log[i];
    }
    if CreatesCode(e.op, d) {
      assert log'[|log|] == e;
    }
  }

  lemma {:induction false} CommitRecorded(s: State, c: nat)
    requires Inv(s) && c in s.calls && s.calls[c].HasRead? && s.table == s.calls[c].prior
    ensures var s' := Swap(s, c, s.calls[c]);
            && TableOf(s'.table) == Replay(s'.log) && Recorded(s'.log)
            && forall d :: Created(s'.log, d) <==> Created(s.log, d) || Creating(s, c) == Some(d)
  {
    var e := EntryOf(s.calls[c]);
    assert Sound(s, c);
    assert (s.log + [e])[..|s.log|] == s.log;
    assert EntryHolds(s.log + [e], |s.log|);
    RecordedExtends(s.log, e);
    hide Created, Recorded, Replay, EntryHolds, Atomic, Inv;
    forall d ensures Created(s.log + [e], d) <==> Created(s.log, d) || Creating(s, c) == Some(d) {
      CreatedExtends(s.log, e, d);
    }
  }

  lemma {:induction false} CallKeeps(s: State, c: nat, op: Op)
    requires Inv(s)
    ensures Inv(Do(s, Call(c, op)))
  {
    var s' := Do(s, Call(c, op));
    forall d ensures Sound(s', d) {
      assert Sound(s, d);
    }
    forall d, e ensures Apart(s', d, e) {
      assert Apart(s, d, e) && Sound(s, d) && Sound(s, e);
    }
  }

  /** In every schedule, the table is what the committed transactions give one at a time in commit
      order, and approve, deny and poll report what the attempt that committed found. */
  lemma {:induction false} Serializable(schedule: seq<Action>)
    ensures Inv(Exec(Empty, schedule))
  {
    if schedule != [] {
      var n := |schedule| - 1;
      Serializable(schedule[..n]);
      var s := Exec(Empty, schedule[..n]);
      match schedule[n]
      case Call(c, op) => CallKeeps(s, c, op);
      case Advance(c, now) =>
        if c in s.calls && s.calls[c].Begun? {
          ReadKeeps(s, c, now);
        } else if c in s.calls && s.calls[c].HasRead? {
          SwapKeeps(s, c);
        }
    }
  }

  /** The table changes only when a call commits, and a call reports a result exactly when it commits. */
  lemma {:induction false} OnlyCommitsWrite(s: State, c: nat, now: int)
    requires c in s.calls && !s.calls[c].Returned?
    ensures var s' := Do(s, Advance(c, now));
            && c in s'.calls && s'.calls[c].op == s.calls[c].op
            && (if s'.calls[c].Returned? && s'.calls[c].result.Committed?
                then && s.calls[c].HasRead? && s'.log == s.log + [EntryOf(s.calls[c])]
                     && s'.calls[c].result.cap == s.calls[c].cap
                else s'.log == s.log && s'.table == s.table)
  {
  }

  /** Undisturbed, a call is the indivisible step; only a create is ever refused, and exactly when the
      table is full or the user code taken among what has not expired. */
  lemma {:induction false} AloneIsAtomic(s: State, c: nat, op: Op, now: int, later: int)
    requires MayCall(s, c, op)
    ensures var s' := Do(Do(Do(s, Call(c, op)), Advance(c, now)), Advance(c, later));
            var m := Purge(Rebuild(TableOf(s.table)), now);
            var refused := op.Create? && (|m.byDevice| >= MaxAuthorizations || op.auth.userCode in m.byUser);
            && s'.table == (if refused then s.table else Some(Atomic(op, TableOf(s.table), now).0))
            && Lookup(s'.calls, c) ==
                 Some(Returned(op, if refused then Refused else Committed(Atomic(op, TableOf(s.table), now).1)))
  {
    hide Purge, Rebuild;
    var s1 := Do(s, Call(c, op));
    assert s1.calls[c] == Begun(op, Blank, []);
  }

  // ---------- the life of one authorization ----------

  predicate CreatesCode(op: Op, d: Code) {
    op.Create? && op.auth.deviceCode == d
  }

  /** Authorization `d` is still there after the transaction: it has not expired, and the transaction
      neither removes it nor answers a poll with its verdict. */
  predicate Survives(op: Op, t: Table, now: int, d: Code) {
    d in t && t[d].expires > now && op != Remove(d) && !(op == Poll(d) && t[d].status != Pending)
  }

  /** Exactly what one transaction does to one authorization, and what it reports of it. */
  predicate Effect(op: Op, t: Table, now: int, d: Code, t': Table, cap: Captured) {
    && (CreatesCode(op, d) && d !in t && d in t' ==> t'[d] == op.auth)
    && (!CreatesCode(op, d) ==> (d in t' <==> Survives(op, t, now, d)))
    && (!CreatesCode(op, d) && d in t' ==>
          t'[d] == if DecidesNow(op, t, now, d) then t[d].(status := Verdict(op))
                   else if op == Poll(d) then t[d].(lastPoll := Some(now), interval := t'[d].interval)
                   else t[d])
    && (DecidesNow(op, t, now, d) ==> cap.done)
    && (op == Poll(d) ==> Answers(t, now, d, t', cap))
  }

  /** A poll of a code that is absent or expired says so, a poll of a decided one hands over exactly its
      entry, and a poll of a pending one hands over the entry as it is stored afterwards, or a failure. */
  predicate Answers(t: Table, now: int, d: Code, t': Table, cap: Captured) {
    && (cap.failure == "expired_token" <==> d !in t || t[d].expires <= now)
    && (cap.failure != "" ==> cap.auth == None)
    && (d in t && t[d].expires > now && t[d].status != Pending ==> cap.auth == Some(t[d]) && cap.failure == "")
    && (d in t && t[d].expires > now && t[d].status == Pending && cap.failure == "" ==>
          d in t' && cap.auth == Some(t'[d]) && t'[d].status == Pending)
  }

  lemma {:induction false} ChangeEffect(op: Op, m: Mem, now: int, d: Code)
    requires Bijective(m) && forall e :: e in m.byDevice ==> m.byDevice[e].expires > now
    ensures var (m', cap, _) := Change(op, m, Blank, now);
            Effect(op, m.byDevice, now, d, m'.byDevice, cap)
  {
    if (op.Approve? || op.Deny?) && d in m.byDevice {
      assert m.byUser[m.byDevice[d].userCode] == d;
    }
  }

  lemma {:induction false} EntryEffect(op: Op, t: Table, now: int, d: Code)
    requires Good(t)
    ensures Effect(op, t, now, d, Atomic(op, t, now).0, Atomic(op, t, now).1)
  {
    hide Change, Purge, Rebuild, Good, Bijective;
    RebuildBijective(t);
    var m := Purge(Rebuild(t), now);
    PurgeKeeps(Rebuild(t), now);
    ChangeEffect(op, m, now, d);
    assert d in m.byDevice ==> m.byDevice[d] == t[d];
  }

  /** The operation finds authorization `d` pending, unexpired and under its user code. */
  predicate DecidesNow(op: Op, t: Table, now: int, d: Code) {
    (op.Approve? || op.Deny?) && d in t && t[d].userCode == op.user && t[d].status == Pending && t[d].expires > now
  }

  function Verdict(op: Op): Status {
    if op.Approve? then Approved(op.subject, op.roles) else Denied
  }

  /** An approve or deny that reports success decided some authorization. */
  lemma {:induction false} SuccessDecides(op: Op, t: Table, now: int) returns (d: Code)
    requires Good(t) && (op.Approve? || op.Deny?) && Atomic(op, t, now).1.done
    ensures DecidesNow(op, t, now, d)
  {
    hide Rebuild, Purge, Good;
    RebuildBijective(t);
    PurgeKeeps(Rebuild(t), now);
    d := Purge(Rebuild(t), now).byUser[op.user];
  }

  lemma {:induction false} ReplayGood(log: seq<Entry>)
    requires Recorded(log)
    ensures Good(Replay(log))
    ensures forall d :: d in Replay(log) ==> Created(log, d)
  {
    if log != [] {
      var n := |log| - 1;
      var e := log[n];
      RecordedPrefix(log, n);
      ReplayGood(log[..n]);
      assert EntryHolds(log, n);
      AtomicKeepsGood(e.op, Replay(log[..n]), e.now);
      forall d | d in Replay(log) ensures Created(log, d) {
        EntryEffect(e.op, Replay(log[..n]), e.now, d);
        if d in Replay(log[..n]) {
          var i :| 0 <= i < n && log[..n][i].op.Create? && log[..n][i].op.auth.deviceCode == d;
          assert log[i].op.auth.deviceCode == d;
        }
      }
    }
  }

  lemma {:induction false} RecordedPrefix(log: seq<Entry>, n: nat)
    requires Recorded(log) && n <= |log|
    ensures Recorded(log[..n])
  {
    forall i | 0 <= i < n ensures EntryHolds(log[..n], i) {
      assert EntryHolds(log, i) && log[..n][..i] == log[..i];
    }
  }

  /** 0 before creation, 1 while pending, 2 once decided, 3 once gone. */
  ghost function Stage(log: seq<Entry>, d: Code): nat {
    if d in Replay(log) then (if Replay(log)[d].status == Pending then 1 else 2)
    else if Created(log, d) then 3 else 0
  }

  ghost predicate Decides(log: seq<Entry>, i: nat, d: Code) {
    i < |log| && DecidesNow(log[i].op, Replay(log[..i]), log[i].now, d)
  }

  /** Entry `i` is a poll that handed out the approved grant of `d`. */
  ghost predicate Delivers(log: seq<Entry>, i: nat, d: Code) {
    i < |log| && log[i].op == Poll(d) && log[i].cap.auth.Some? && log[i].cap.auth.value.status.Approved?
  }

  /** An authorization only ever moves forward; deciding it and handing it out each move it on. */
  lemma {:induction false} StageAdvances(log: seq<Entry>, i: nat, d: Code)
    requires Recorded(log) && i < |log|
    ensures Stage(log[..i], d) <= Stage(log[..i + 1], d)
    ensures Decides(log, i, d) ==> Stage(log[..i], d) == 1 && Stage(log[..i + 1], d) == 2
    ensures Delivers(log, i, d) ==> Stage(log[..i], d) == 2 && Stage(log[..i + 1], d) == 3
  {
    hide Atomic, Recorded, Good;
    var before, after, e := log[..i], log[..i + 1], log[i];
    RecordedPrefix(log, i);
    RecordedPrefix(log, i + 1);
    ReplayGood(before);
    ReplayGood(after);
    ReportHolds(log, i);
    FreshEntry(log, i);
    assert after[..i] == before && after[i] == e;
    EntryEffect(e.op, Replay(before), e.now, d);
    if Created(before, d) {
      var j :| 0 <= j < i && before[j].op.Create? && before[j].op.auth.deviceCode == d;
      assert after[j] == before[j];
    }
  }

  lemma {:induction false} ReportHolds(log: seq<Entry>, i: nat)
    requires Recorded(log) && i < |log|
    ensures Resets(log[i].op) ==> SameReport(log[i].op, log[i].cap, Atomic(log[i].op, Replay(log[..i]), log[i].now).1)
  {
    assert EntryHolds(log, i);
  }

  lemma {:induction false} StageMonotone(log: seq<Entry>, i: nat, j: nat, d: Code)
    requires Recorded(log) && i <= j <= |log|
    ensures Stage(log[..i], d) <= Stage(log[..j], d)
  {
    hide *;
    if i < j {
      StageMonotone(log, i, j - 1, d);
      StageAdvances(log, j - 1, d);
    }
  }

  /** Across all servers, at most one approve or deny of an authorization ever succeeds, and at most
      one poll ever receives the approved grant. */
  lemma {:induction false} OneDecisionOneDelivery(schedule: seq<Action>, i: nat, j: nat, d: Code)
    ensures var log := Exec(Empty, schedule).log;
            && (Decides(log, i, d) && Decides(log, j, d) ==> i == j)
            && (Delivers(log, i, d) && Delivers(log, j, d) ==> i == j)
  {
    Serializable(schedule);
    var log := Exec(Empty, schedule).log;
    var a, b := if i < j then i else j, if i < j then j else i;
    if a < b < |log| {
      StageAdvances(log, a, d);
      StageAdvances(log, b, d);
      StageMonotone(log, a + 1, b, d);
    }
  }

  /** Every success reported by approve or deny decided an authorization, on which every later approve
      or deny then fails. */
  lemma {:induction false} ReportedSuccessDecides(schedule: seq<Action>, i: nat) returns (d: Code)
    requires i < |Exec(Empty, schedule).log|
    requires var e := Exec(Empty, schedule).log[i]; (e.op.Approve? || e.op.Deny?) && e.cap.done
    ensures Decides(Exec(Empty, schedule).log, i, d)
  {
    Serializable(schedule);
    var log := Exec(Empty, schedule).log;
    RecordedPrefix(log, i);
    ReplayGood(log[..i]);
    assert EntryHolds(log, i);
    d := SuccessDecides(log[i].op, Replay(log[..i]), log[i].now);
  }

  /** A create that commits adds a pending authorization under a code not in the table. */
  lemma {:induction false} FreshEntry(log: seq<Entry>, i: nat)
    requires Recorded(log) && i < |log|
    ensures log[i].op.Create? ==>
              && IsNew(log[i].op.auth) && log[i].op.auth.deviceCode !in Replay(log[..i])
              && !Created(log[..i], log[i].op.auth.deviceCode)
  {
    assert EntryHolds(log, i);
    RecordedPrefix(log, i);
    ReplayGood(log[..i]);
  }

  /** A verdict in the table was put there by a committed approve or deny. */
  lemma {:induction false} VerdictHasDecision(log: seq<Entry>, n: nat, d: Code) returns (i: nat)
    requires Recorded(log) && n <= |log| && d in Replay(log[..n]) && Replay(log[..n])[d].status != Pending
    ensures i < n && Decides(log, i, d) && Verdict(log[i].op) == Replay(log[..n])[d].status
  {
    hide Atomic, Recorded, EntryHolds, Good;
    i := 0;
    if n > 0 {
      var e := log[n - 1];
      RecordedPrefix(log, n - 1);
      ReplayGood(log[..n - 1]);
      assert log[..n][..n - 1] == log[..n - 1];
      EntryEffect(e.op, Replay(log[..n - 1]), e.now, d);
      FreshEntry(log, n - 1);
      if Decides(log, n - 1, d) {
        i := n - 1;
      } else {
        i := VerdictHasDecision(log, n - 1, d);
      }
    }
  }

  /** The grant a poll hands out is the one a committed approve gave: same subject, same roles, and
      no deny ever succeeded on it. */
  lemma {:induction false} DeliveredWasApproved(schedule: seq<Action>, j: nat, d: Code) returns (i: nat)
    requires Delivers(Exec(Empty, schedule).log, j, d)
    ensures var log := Exec(Empty, schedule).log;
            && i < j && Decides(log, i, d) && log[i].op.Approve?
            && log[j].cap.auth.value.status == Approved(log[i].op.subject, log[i].op.roles)
            && forall k :: Decides(log, k, d) ==> k == i
  {
    Serializable(schedule);
    var log := Exec(Empty, schedule).log;
    RecordedPrefix(log, j);
    ReplayGood(log[..j]);
    assert EntryHolds(log, j);
    EntryEffect(log[j].op, Replay(log[..j]), log[j].now, d);
    i := VerdictHasDecision(log, j, d);
    forall k | Decides(log, k, d) ensures k == i {
      OneDecisionOneDelivery(schedule, i, k, d);
    }
  }

  /** In every schedule the stored table is within capacity, filed under its own device codes, with no
      user code twice; so the indexes every transaction works on are exact inverses of each other. */
  lemma {:induction false} IndexesStayBijective(schedule: seq<Action>, now: int)
    ensures var t := TableOf(Exec(Empty, schedule).table);
            Good(t) && Bijective(Rebuild(t)) && Bijective(Purge(Rebuild(t), now))
  {
    Serializable(schedule);
    ReplayGood(Exec(Empty, schedule).log);
    RebuildBijective(TableOf(Exec(Empty, schedule).table));
    PurgeKeeps(Rebuild(TableOf(Exec(Empty, schedule).table)), now);
  }

  // ---------- when an authorization is created ----------

  /** The entries not yet expired. */
  function Live(t: Table, now: int): Table {
    map d | d in t && t[d].expires > now :: t[d]
  }

  /** There is room for one more, and no unexpired authorization has its user code. */
  ghost predicate Room(a: Auth, t: Table, now: int) {
    |Live(t, now)| < 1024 && forall d :: d in Live(t, now) ==> t[d].userCode != a.userCode
  }

  /** A create adds its authorization if and only if there is room for it, and is refused otherwise. */
  lemma {:induction false} CreatesIffRoom(a: Auth, t: Table, now: int)
    requires Good(t) && a.deviceCode !in t
    ensures var (m, _, write) := Change(Create(a), Purge(Rebuild(t), now), Blank, now);
            && write == Room(a, t, now)
            && m.byDevice == if write then Live(t, now)[a.deviceCode := a] else Live(t, now)
  {
    hide Purge, Rebuild, Good;
    RebuildBijective(t);
    var m := Purge(Rebuild(t), now);
    PurgeKeeps(Rebuild(t), now);
    assert m.byDevice == Live(t, now);
    if a.userCode in m.byUser {
      assert m.byDevice[m.byUser[a.userCode]].userCode == a.userCode;
    }
  }

  /** In every schedule, an undisturbed create commits its authorization if and only if there is room. */
  lemma {:induction false} CreateAloneIffRoom(schedule: seq<Action>, c: nat, a: Auth, now: int, later: int)
    requires MayCall(Exec(Empty, schedule), c, Create(a))
    ensures var s := Exec(Empty, schedule);
            var s' := Do(Do(Do(s, Call(c, Create(a))), Advance(c, now)), Advance(c, later));
            if Room(a, TableOf(s.table), now)
            then && Lookup(s'.calls, c) == Some(Returned(Create(a), Committed(Blank)))
                 && s'.table == Some(Live(TableOf(s.table), now)[a.deviceCode := a])
            else Lookup(s'.calls, c) == Some(Returned(Create(a), Refused)) && s'.table == s.table
  {
    Serializable(schedule);
    var s := Exec(Empty, schedule);
    ReplayGood(s.log);
    var t := TableOf(s.table);
    assert a.deviceCode in t ==> Created(s.log, a.deviceCode);
    hide Runs.Exec, Purge, Rebuild, Good, Inv, Room, Replay;
    CreatesIffRoom(a, t, now);
    AloneIsAtomic(s, c, Create(a), now, later);
  }

  // ---------- how long an authorization stays ----------

  /** Commit `m` drops an authorization that expires at `expires`: it finds it expired, removes it, or is
      a poll that was handed its verdict. */
  predicate Ends(e: Entry, d: Code, expires: int) {
    || e.now >= expires
    || e.op == Remove(d)
    || (e.op == Poll(d) && e.cap.auth.Some? && e.cap.auth.value.status != Pending)
  }

  lemma {:induction false} StaysUnlessEnded(log: seq<Entry>, m: nat, d: Code)
    requires Recorded(log) && m < |log| && d in Replay(log[..m])
    ensures d in Replay(log[..m + 1]) <==> !Ends(log[m], d, Replay(log[..m])[d].expires)
    ensures d in Replay(log[..m + 1]) ==> Replay(log[..m + 1])[d].expires == Replay(log[..m])[d].expires
    ensures d in Replay(log[..m + 1]) && Replay(log[..m])[d].status != Pending ==>
              Replay(log[..m + 1])[d] == Replay(log[..m])[d]
  {
    hide Atomic, Recorded, Good, Replay;
    StepReplay(log, m);
    RecordedPrefix(log, m);
    ReplayGood(log[..m]);
    FreshEntry(log, m);
    ReportHolds(log, m);
    EntryEffect(log[m].op, Replay(log[..m]), log[m].now, d);
  }

  lemma {:induction false} StepReplay(log: seq<Entry>, m: nat)
    requires m < |log|
    ensures Replay(log[..m + 1]) == Atomic(log[m].op, Replay(log[..m]), log[m].now).0
  {
    assert log[..m + 1][..m] == log[..m];
  }

  ghost predicate EndedBetween(log: seq<Entry>, a: nat, b: nat, d: Code, expires: int) {
    exists m :: a <= m < b <= |log| && Ends(log[m], d, expires)
  }

  /** An authorization stays in the table exactly until a commit that ends it, and keeps its expiry; once
      decided it does not change at all. */
  lemma {:induction false} StaysUntilEnded(log: seq<Entry>, a: nat, b: nat, d: Code)
    requires Recorded(log) && a <= b <= |log| && d in Replay(log[..a])
    ensures d in Replay(log[..b]) <==> !EndedBetween(log, a, b, d, Replay(log[..a])[d].expires)
    ensures d in Replay(log[..b]) ==> Replay(log[..b])[d].expires == Replay(log[..a])[d].expires
    ensures d in Replay(log[..b]) && Replay(log[..a])[d].status != Pending ==>
              Replay(log[..b])[d] == Replay(log[..a])[d]
    decreases b - a
  {
    hide Recorded, Replay, Ends;
    if a < b {
      var expires := Replay(log[..a])[d].expires;
      StaysUntilEnded(log, a, b - 1, d);
      if d in Replay(log[..b - 1]) {
        StaysUnlessEnded(log, b - 1, d);
        assert EndedBetween(log, a, b, d, expires) <==> Ends(log[b - 1], d, expires);
      } else {
        var m :| a <= m < b - 1 && Ends(log[m], d, expires);
        StageMonotone(log, a, b - 1, d);
        NeverReturns(log, b - 1, d);
      }
    }
  }

  lemma {:induction false} NeverReturns(log: seq<Entry>, m: nat, d: Code)
    requires Recorded(log) && m < |log| && Stage(log[..m], d) == 3
    ensures d !in Replay(log[..m + 1])
  {
    hide Recorded, Replay;
    StageAdvances(log, m, d);
  }

  /** The first poll after an approval is handed the approved grant, with the subject and roles of the
      approval, exactly when nothing has ended the authorization before and it has not expired. */
  lemma {:induction false} FirstPollAfterApproval(schedule: seq<Action>, i: nat, j: nat, d: Code)
    requires var log := Exec(Empty, schedule).log;
             && i < j < |log| && Decides(log, i, d) && log[i].op.Approve? && log[j].op == Poll(d)
             && forall m :: i < m < j ==> log[m].op != Poll(d)
    ensures var log := Exec(Empty, schedule).log;
            var grant := Replay(log[..i])[d].(status := Approved(log[i].op.subject, log[i].op.roles));
            var lives := log[j].now < grant.expires
                         && forall m :: i < m < j ==> log[m].op != Remove(d) && log[m].now < grant.expires;
            && (lives ==> log[j].cap.auth == Some(grant) && log[j].cap.failure == "")
            && (!lives ==> log[j].cap.auth == None && log[j].cap.failure == "expired_token")
  {
    Serializable(schedule);
    var log := Exec(Empty, schedule).log;
    hide Runs.Exec, Atomic, Recorded, Good, Replay;
    Approves(log, i, d);
    StaysUntilEnded(log, i + 1, j, d);
    RecordedPrefix(log, j);
    ReplayGood(log[..j]);
    ReportHolds(log, j);
    EntryEffect(log[j].op, Replay(log[..j]), log[j].now, d);
  }

  lemma {:induction false} Approves(log: seq<Entry>, i: nat, d: Code)
    requires Recorded(log) && i < |log| && Decides(log, i, d)
    ensures d in Replay(log[..i]) && d in Replay(log[..i + 1])
    ensures Replay(log[..i + 1])[d] == Replay(log[..i])[d].(status := Verdict(log[i].op))
  {
    hide Atomic, Recorded, Good, Replay;
    StepReplay(log, i);
    RecordedPrefix(log, i);
    ReplayGood(log[..i]);
    EntryEffect(log[i].op, Replay(log[..i]), log[i].now, d);
  }

  // ---------- a lookup that loses its swap ----------

  /** What an attempt finds under a device code: the entry, unless absent or expired. */
  ghost function Found(log: seq<Entry>, look: Look, d: Code): Option<Auth>
    requires look.at <= |log|
  {
    var t := Replay(log[..look.at]);
    if d in t && t[d].expires > look.now then Some(t[d]) else None
  }

  predicate InOrder(looks: seq<Look>, n: nat) {
    && (forall k :: 0 <= k < |looks| ==> looks[k].at <= n)
    && (forall k, l :: 0 <= k < l < |looks| ==> looks[k].at <= looks[l].at)
  }

  /** What the last of the attempts that found the code found. */
  ghost function LastFound(log: seq<Entry>, looks: seq<Look>, d: Code): Option<Auth>
    requires InOrder(looks, |log|)
  {
    if looks == [] then None
    else var last := Found(log, looks[|looks| - 1], d);
         if last.Some? then last else LastFound(log, looks[..|looks| - 1], d)
  }

  /** The variables of `byDeviceCode` hold that. */
  ghost predicate Holds(log: seq<Entry>, looks: seq<Look>, d: Code, cap: Captured) {
    InOrder(looks, |log|) && cap == Captured(LastFound(log, looks, d).Some?, LastFound(log, looks, d), "")
  }

  ghost predicate Tracked(log: seq<Entry>, pc: Pc) {
    !pc.Returned? && pc.op.Find? ==> Holds(log, pc.looks, pc.op.device, pc.cap) && (pc.HasRead? ==> pc.looks != [])
  }

  ghost predicate TrackedEntry(log: seq<Entry>, e: Entry) {
    e.op.Find? ==> Holds(log, e.looks, e.op.device, e.cap) && e.looks != []
  }

  ghost predicate AllTracked(s: State) {
    && (forall c :: c in s.calls ==> Tracked(s.log, s.calls[c]))
    && (forall i :: 0 <= i < |s.log| ==> TrackedEntry(s.log, s.log[i]))
  }

  /** Later commits do not change what an attempt has found. */
  lemma {:induction false} HoldsLater(log: seq<Entry>, e: Entry, looks: seq<Look>, d: Code)
    requires InOrder(looks, |log|)
    ensures InOrder(looks, |log + [e]|) && LastFound(log + [e], looks, d) == LastFound(log, looks, d)
  {
    if looks != [] {
      var last := looks[|looks| - 1];
      assert (log + [e])[..last.at] == log[..last.at];
      HoldsLater(log, e, looks[..|looks| - 1], d);
    }
  }

  lemma {:induction false} TrackedLater(log: seq<Entry>, e: Entry, op: Op, looks: seq<Look>, cap: Captured)
    requires op.Find? ==> Holds(log, looks, op.device, cap)
    ensures op.Find? ==> Holds(log + [e], looks, op.device, cap)
  {
    if op.Find? {
      HoldsLater(log, e, looks, op.device);
    }
  }

  /** An attempt finds what the log says, and otherwise leaves what it had. */
  lemma {:induction false} AttemptFinds(s: State, d: Code, cap: Captured, now: int)
    requires Inv(s)
    ensures var found := Found(s.log, Look(|s.log|, now), d);
            Change(Find(d), Purge(Rebuild(TableOf(s.table)), now), cap, now).1 ==
              if found.Some? then cap.(done := true, auth := found) else cap
  {
    assert s.log[..|s.log|] == s.log;
    ReplayGood(s.log);
    hide Purge, Rebuild, Good, Replay, Inv;
    RebuildBijective(TableOf(s.table));
    PurgeKeeps(Rebuild(TableOf(s.table)), now);
  }

  lemma {:induction false} LookHolds(s: State, d: Code, cap: Captured, looks: seq<Look>, now: int)
    requires Inv(s) && Holds(s.log, looks, d, cap)
    ensures Holds(s.log, looks + [Look(|s.log|, now)], d,
                  Change(Find(d), Purge(Rebuild(TableOf(s.table)), now), cap, now).1)
  {
    hide Purge, Rebuild, Good, Replay, Inv, Change, Found;
    AttemptFinds(s, d, cap, now);
    assert (looks + [Look(|s.log|, now)])[..|looks|] == looks;
  }

  lemma {:induction false} AdvanceTracked(s: State, c: nat, now: int)
    requires Inv(s) && AllTracked(s) && c in s.calls
    ensures AllTracked(Do(s, Advance(c, now)))
  {
    hide Inv, Holds, Change, Purge, Rebuild;
    var pc, s' := s.calls[c], Do(s, Advance(c, now));
    assert Tracked(s.log, pc);
    if pc.Begun? {
      if pc.op.Find? {
        FindGoesOn(s, pc.op, pc.cap, now);
        LookHolds(s, pc.op.device, pc.cap, pc.looks, now);
      }
    } else if pc.HasRead? && s.table == pc.prior {
      CommitTracked(s, c, pc);
    }
  }

  lemma {:induction false} FindGoesOn(s: State, op: Op, cap: Captured, now: int)
    requires op.Find?
    ensures Change(op, Purge(Rebuild(TableOf(s.table)), now), cap, now).2
  {
  }

  lemma {:induction false} CommitTracked(s: State, c: nat, pc: Pc)
    requires AllTracked(s) && c in s.calls && s.calls[c] == pc && pc.HasRead? && s.table == pc.prior
    ensures AllTracked(Swap(s, c, pc))
  {
    hide Holds;
    var s', e := Swap(s, c, pc), EntryOf(pc);
    assert Tracked(s.log, pc);
    forall i | 0 <= i < |s'.log| ensures TrackedEntry(s'.log, s'.log[i]) {
      assert i < |s.log| ==> TrackedEntry(s.log, s.log[i]);
      TrackedLater(s.log, e, s'.log[i].op, s'.log[i].looks, s'.log[i].cap);
    }
    forall d | d in s'.calls ensures Tracked(s'.log, s'.calls[d]) {
      if d != c && !s.calls[d].Returned? {
        assert Tracked(s.log, s.calls[d]);
        TrackedLater(s.log, e, s.calls[d].op, s.calls[d].looks, s.calls[d].cap);
      }
    }
  }

  lemma {:induction false} LooksAreTracked(schedule: seq<Action>)
    ensures AllTracked(Exec(Empty, schedule))
  {
    hide Inv, Holds;
    if schedule != [] {
      var n := |schedule| - 1;
      var s := Exec(Empty, schedule[..n]);
      LooksAreTracked(schedule[..n]);
      Serializable(schedule[..n]);
      match schedule[n]
      case Call(c, op) => CallTracked(s, c, op);
      case Advance(c, now) =>
        if c in s.calls {
          AdvanceTracked(s, c, now);
        }
    }
  }

  lemma {:induction false} CallTracked(s: State, c: nat, op: Op)
    requires AllTracked(s)
    ensures AllTracked(Do(s, Call(c, op)))
  {
  }

  /** Between an attempt that found `d` and a later one, the authorization ended: a commit in between
      dropped it, or it has expired by the time of the later one. */
  ghost predicate GoneBetween(log: seq<Entry>, one: Look, other: Look, d: Code)
    requires one.at <= |log|
  {
    && Found(log, one, d).Some?
    && (|| other.now >= Found(log, one, d).value.expires
        || EndedBetween(log, one.at, other.at, d, Found(log, one, d).value.expires))
  }

  lemma {:induction false} FoundAgainUnlessGone(log: seq<Entry>, one: Look, other: Look, d: Code)
    requires Recorded(log) && one.at <= other.at <= |log| && Found(log, one, d).Some?
    ensures Found(log, other, d).Some? <==> !GoneBetween(log, one, other, d)
  {
    StaysUntilEnded(log, one.at, other.at, d);
  }

  lemma {:induction false} LastFoundByOne(log: seq<Entry>, looks: seq<Look>, d: Code)
    requires InOrder(looks, |log|)
    ensures LastFound(log, looks, d).Some? <==> exists k :: 0 <= k < |looks| && Found(log, looks[k], d).Some?
  {
    hide Found;
    if looks != [] {
      var n := |looks| - 1;
      LastFoundByOne(log, looks[..n], d);
      if k :| 0 <= k < n && Found(log, looks[k], d).Some? {
        assert looks[..n][k] == looks[k];
      }
      if k :| 0 <= k < n && Found(log, looks[..n][k], d).Some? {
        assert looks[..n][k] == looks[k];
      }
    }
  }

  /** Over every schedule: `byDeviceCode`, which does not reset what it captured, reports what its last
      attempt found if and only if no earlier attempt had found the code before the authorization ended. */
  lemma {:induction false} FindReportsLastAttemptIff(schedule: seq<Action>, i: nat, d: Code)
    requires i < |Exec(Empty, schedule).log| && Exec(Empty, schedule).log[i].op == Find(d)
    ensures var log := Exec(Empty, schedule).log;
            var looks := log[i].looks;
            && looks != [] && InOrder(looks, |log|)
            && log[i].cap.done == log[i].cap.auth.Some?
            && (log[i].cap.auth == Found(log, looks[|looks| - 1], d) <==>
                forall k :: 0 <= k < |looks| - 1 ==> !GoneBetween(log, looks[k], looks[|looks| - 1], d))
  {
    Serializable(schedule);
    LooksAreTracked(schedule);
    var log := Exec(Empty, schedule).log;
    var looks := log[i].looks;
    hide Runs.Exec, Recorded, Found, GoneBetween;
    assert TrackedEntry(log, log[i]);
    var n := |looks| - 1;
    LastFoundByOne(log, looks[..n], d);
    assert forall k :: 0 <= k < n ==> looks[..n][k] == looks[k];
    forall k | 0 <= k < n && Found(log, looks[k], d).Some?
      ensures Found(log, looks[n], d).Some? <==> !GoneBetween(log, looks[k], looks[n], d)
    {
      FoundAgainUnlessGone(log, looks[k], looks[n], d);
    }
    forall k | 0 <= k < n && !Found(log, looks[k], d).Some? ensures !GoneBetween(log, looks[k], looks[n], d) {
      NotFoundNotGone(log, looks[k], looks[n], d);
    }
  }

  lemma {:induction false} NotFoundNotGone(log: seq<Entry>, one: Look, other: Look, d: Code)
    requires one.at <= |log| && !Found(log, one, d).Some?
    ensures !GoneBetween(log, one, other, d)
  {
  }

  // ---------- a lookup that reports what is gone ----------

  lemma {:induction false} NothingLoaded(now: int)
    ensures Purge(Rebuild(map[]), now) == Mem(map[], map[])
  {
    assert Users(map[]) == {};
  }

  lemma {:induction false} OneLoaded(a: Auth, now: int)
    requires a.expires > now
    ensures Purge(Rebuild(map[a.deviceCode := a]), now) == Mem(map[a.deviceCode := a], map[a.userCode := a.deviceCode])
  {
    var t := map[a.deviceCode := a];
    assert t[a.deviceCode].userCode in Users(t);
    assert Users(t) == {a.userCode};
    assert Rebuild(t).byUser == map[a.userCode := a.deviceCode];
    assert (set d | d in t && t[d].expires <= now) == {};
  }

  /** One authorization, created by server 0. */
  ghost function Stored(a: Auth, now: int): State {
    State(Some(map[a.deviceCode := a]), {a.deviceCode}, [Entry(Create(a), now, Blank, [Look(0, now)])],
          map[0 := Returned(Create(a), Committed(Blank))])
  }

  /** And being looked up by server 1. */
  ghost function LookingUp(a: Auth, now: int): State {
    var t := map[a.deviceCode := a];
    At(Stored(a, now), 1, HasRead(Find(a.deviceCode), Some(t), t, Captured(true, Some(a), ""), now, [Look(1, now)]))
  }

  lemma {:induction false} CreateAlone(a: Auth, now: int)
    requires IsNew(a) && a.expires > now
    ensures Do(Do(Do(Empty, Call(0, Create(a))), Advance(0, now)), Advance(0, now)) == Stored(a, now)
  {
    NothingLoaded(now);
    hide Purge, Rebuild;
    var d := a.deviceCode;
    var s1 := Do(Empty, Call(0, Create(a)));
    var s2 := Do(s1, Advance(0, now));
    assert s1.calls == map[0 := Begun(Create(a), Blank, [])] && [] + [Look(0, now)] == [Look(0, now)];
    assert s2.calls[0] == HasRead(Create(a), None, map[d := a], Blank, now, [Look(0, now)]);
    assert s2.calls == map[0 := s2.calls[0]];
    assert Do(s2, Advance(0, now)).log == [Entry(Create(a), now, Blank, [Look(0, now)])];
  }

  lemma {:induction false} FindAlone(a: Auth, now: int)
    requires a.expires > now
    ensures Do(Do(Stored(a, now), Call(1, Find(a.deviceCode))), Advance(1, now)) == LookingUp(a, now)
  {
    OneLoaded(a, now);
    hide Purge, Rebuild;
    var s := Do(Stored(a, now), Call(1, Find(a.deviceCode)));
    assert s == At(Stored(a, now), 1, Begun(Find(a.deviceCode), Blank, []));
    assert [] + [Look(1, now)] == [Look(1, now)];
    assert Do(s, Advance(1, now)).calls == LookingUp(a, now).calls;
  }

  lemma {:induction false} LookupStarts(a: Auth, now: int) returns (schedule: seq<Action>)
    requires IsNew(a) && a.expires > now
    ensures Exec(Empty, schedule) == LookingUp(a, now)
  {
    schedule := [Call(0, Create(a)), Advance(0, now), Advance(0, now), Call(1, Find(a.deviceCode)), Advance(1, now)];
    hide *;
    Runs.Five(Do, Empty, schedule);
    CreateAlone(a, now);
    FindAlone(a, now);
  }

  /** Another server removes the authorization, and the lookup loses its swap and reads again. */
  lemma {:induction false} LookupRetries(a: Auth, now: int)
    requires IsNew(a) && a.expires > now
    ensures var d := a.deviceCode;
            var s := Do(Do(Do(LookingUp(a, now), Call(2, Remove(d))), Advance(2, now)), Advance(2, now));
            var s' := Do(Do(s, Advance(1, now)), Advance(1, now));
            && s'.table == Some(map[]) && |s'.log| == 2
            && Lookup(s'.calls, 1) ==
                 Some(HasRead(Find(d), Some(map[]), map[], Captured(true, Some(a), ""), now,
                              [Look(1, now), Look(2, now)]))
  {
    NothingLoaded(now);
    OneLoaded(a, now);
    hide Purge, Rebuild;
    var d, t := a.deviceCode, map[a.deviceCode := a];
    var s0 := LookingUp(a, now);
    var s1 := Do(s0, Call(2, Remove(d)));
    var s2 := Do(s1, Advance(2, now));
    assert s2.calls[2] == HasRead(Remove(d), Some(t), map[], Blank, now, [Look(1, now)]);
    var s3 := Do(s2, Advance(2, now));
    assert s3.table == Some(map[]) && |s3.log| == 2 && s3.calls[1] == s0.calls[1];
    assert t != map[] by { assert d in t; }
    var s4 := Do(s3, Advance(1, now));
    assert s4.calls[1] == Begun(Find(d), Captured(true, Some(a), ""), [Look(1, now)]);
    assert [Look(1, now)] + [Look(2, now)] == [Look(1, now), Look(2, now)];
  }

  /** A schedule in which `byDeviceCode` reports an authorization that its own committed attempt did not
      find and that is no longer in the table: it was removed after the first attempt. */
  lemma {:induction false} LookupReportsRemoved(a: Auth, now: int) returns (schedule: seq<Action>)
    requires IsNew(a) && a.expires > now
    ensures var s := Exec(Empty, schedule);
            && Lookup(s.calls, 1) == Some(Returned(Find(a.deviceCode), Committed(Captured(true, Some(a), ""))))
            && s.table == Some(map[])
  {
    var d := a.deviceCode;
    var first := LookupStarts(a, now);
    LookupRetries(a, now);
    var five := [Call(2, Remove(d)), Advance(2, now), Advance(2, now), Advance(1, now), Advance(1, now)];
    hide Read, LookingUp;
    Runs.Joins(Do, Empty, first, five);
    Runs.Five(Do, LookingUp(a, now), five);
    schedule := first + five + [Advance(1, now)];
    Runs.Snoc(Do, Empty, first + five, Advance(1, now));
  }

  // ---------- how a transaction runs out of attempts ----------

  /** Each attempt read a later state of the table than the one before. */
  predicate Rising(looks: seq<Look>) {
    forall k, l :: 0 <= k < l < |looks| ==> looks[k].at < looks[l].at
  }

  /** A transaction goes on only after losing a swap to a commit made since its last read. */
  predicate Patient(s: State, pc: Pc) {
    match pc
    case Begun(_, _, looks) => Rising(looks) && |looks| < 16 && (looks != [] ==> looks[|looks| - 1].at < |s.log|)
    case HasRead(_, prior, _, _, _, looks) =>
      && Rising(looks) && 1 <= |looks| <= 16 && looks[|looks| - 1].at <= |s.log|
      && (looks[|looks| - 1].at == |s.log| ==> s.table == prior)
    case Returned(_, _) => true
  }

  lemma {:induction false} RisesByOne(looks: seq<Look>, look: Look)
    requires Rising(looks) && (looks != [] ==> looks[|looks| - 1].at < look.at)
    ensures Rising(looks + [look])
  {
    var more := looks + [look];
    forall k, l | 0 <= k < l < |more| ensures more[k].at < more[l].at {
      if l == |looks| && k < |looks| - 1 {
        assert looks[k].at < looks[|looks| - 1].at;
      }
    }
  }

  lemma {:induction false} StepPatient(s: State, a: Action, c: nat)
    requires forall d :: d in s.calls ==> Patient(s, s.calls[d])
    requires c in Do(s, a).calls
    ensures Patient(Do(s, a), Do(s, a).calls[c])
  {
    hide Change, Purge, Rebuild, Rising;
    if c in s.calls {
      assert Patient(s, s.calls[c]);
      if s.calls[c].Begun? && a.Advance? && a.c == c {
        RisesByOne(s.calls[c].looks, Look(|s.log|, a.now));
      }
    }
    if a.Call? {
      assert Rising([]) by { NothingRises(); }
    }
  }

  lemma {:induction false} NothingRises()
    ensures Rising([])
  {
  }

  lemma {:induction false} AllPatient(schedule: seq<Action>)
    ensures var s := Exec(Empty, schedule);
            forall c :: c in s.calls ==> Patient(s, s.calls[c])
  {
    hide Patient, Do;
    if schedule != [] {
      var n := |schedule| - 1;
      AllPatient(schedule[..n]);
      var s := Exec(Empty, schedule);
      assert s == Do(Exec(Empty, schedule[..n]), schedule[n]);
      forall c | c in s.calls ensures Patient(s, s.calls[c]) {
        StepPatient(Exec(Empty, schedule[..n]), schedule[n], c);
      }
    }
  }

  /** In every schedule a transaction is given up exactly when its sixteenth swap is lost, and it has then
      lost each of the sixteen to another commit: at least one was made after each of its reads and before
      the next. */
  lemma {:induction false} ExhaustedAfterSixteen(schedule: seq<Action>, c: nat, now: int)
    requires var s := Exec(Empty, schedule); c in s.calls && s.calls[c].HasRead?
    ensures var s := Exec(Empty, schedule);
            var pc, s' := s.calls[c], Do(s, Advance(c, now));
            && (Lookup(s'.calls, c) == Some(Returned(pc.op, Exhausted)) <==> |pc.looks| == 16 && s.table != pc.prior)
            && (s.table != pc.prior ==> Rising(pc.looks) && pc.looks != [] && pc.looks[|pc.looks| - 1].at < |s.log|)
  {
    AllPatient(schedule);
    var s := Exec(Empty, schedule);
    assert Patient(s, s.calls[c]);
  }

  // ---------- pacing of polls ----------

  /** When authorization `d` was last polled since its creation. */
  function LastPoll(log: seq<Entry>, d: Code): Option<int> {
    if log == [] || CreatesCode(log[|log| - 1].op, d) then None
    else if log[|log| - 1].op == Poll(d) then Some(log[|log| - 1].now)
    else LastPoll(log[..|log| - 1], d)
  }

  /** How many polls of `d` have been answered "slow_down" since its creation. */
  function SlowDowns(log: seq<Entry>, d: Code): nat {
    if log == [] || CreatesCode(log[|log| - 1].op, d) then 0
    else SlowDowns(log[..|log| - 1], d) +
         if log[|log| - 1].op == Poll(d) && log[|log| - 1].cap.failure == "slow_down" then 1 else 0
  }

  /** The seconds a client must leave after its last poll: five, and five more for each "slow_down". */
  function RequiredWait(log: seq<Entry>, d: Code): int {
    5 + 5 * SlowDowns(log, d)
  }

  predicate Paced(lastPoll: Option<int>, wait: int, now: int) {
    lastPoll.Some? ==> now - lastPoll.value >= wait
  }

  function Wait(a: Auth): int {
    if a.interval == 0 then PollSeconds else a.interval
  }

  /** One transaction, as far as the pacing of a pending authorization goes. */
  predicate Pace(op: Op, t: Table, now: int, d: Code, t': Table, cap: Captured) {
    d in t && d in t' && t'[d].status == Pending && !CreatesCode(op, d) ==>
      if op == Poll(d) then
        && t[d].status == Pending && t'[d].lastPoll == Some(now)
        && t'[d].interval == Wait(t[d]) + (if Paced(t[d].lastPoll, Wait(t[d]), now) then 0 else 5)
        && cap.failure == (if Paced(t[d].lastPoll, Wait(t[d]), now) then "" else "slow_down")
      else t'[d].lastPoll == t[d].lastPoll && t'[d].interval == t[d].interval
  }

  lemma {:induction false} ChangePace(op: Op, m: Mem, now: int, d: Code)
    requires Bijective(m)
    ensures var (m', cap, _) := Change(op, m, Blank, now);
            Pace(op, m.byDevice, now, d, m'.byDevice, cap)
  {
  }

  lemma {:induction false} EntryPace(op: Op, t: Table, now: int, d: Code)
    requires Good(t)
    ensures Pace(op, t, now, d, Atomic(op, t, now).0, Atomic(op, t, now).1)
  {
    hide Change, Purge, Rebuild, Good, Bijective;
    RebuildBijective(t);
    var m := Purge(Rebuild(t), now);
    PurgeKeeps(Rebuild(t), now);
    ChangePace(op, m, now, d);
    ChangeGrows(op, m, now, d);
    assert d in m.byDevice ==> m.byDevice[d] == t[d];
  }

  lemma {:induction false} ChangeGrows(op: Op, m: Mem, now: int, d: Code)
    ensures d in Change(op, m, Blank, now).0.byDevice && d !in m.byDevice ==> CreatesCode(op, d)
  {
  }

  predicate Remembers(a: Auth, last: Option<int>, slow: nat) {
    && a.lastPoll == last
    && a.interval == (if last == None then 0 else PollSeconds + 5 * slow)
    && (last == None ==> slow == 0)
  }

  /** A pending authorization remembers when it was last polled and how long its client must wait. */
  lemma {:induction false} TableRemembersPace(log: seq<Entry>, d: Code)
    requires Recorded(log) && d in Replay(log) && Replay(log)[d].status == Pending
    ensures Remembers(Replay(log)[d], LastPoll(log, d), SlowDowns(log, d))
  {
    hide Atomic, Recorded, Good, SameReport, Remembers;
    if log != [] {
      var n := |log| - 1;
      var e := log[n];
      RecordedPrefix(log, n);
      ReplayGood(log[..n]);
      FreshEntry(log, n);
      EntryEffect(e.op, Replay(log[..n]), e.now, d);
      EntryPace(e.op, Replay(log[..n]), e.now, d);
      if CreatesCode(e.op, d) {
        NewRemembers(Replay(log)[d]);
      } else {
        FailureReported(log, n);
        TableRemembersPace(log[..n], d);
        PaceRemembers(e, Replay(log[..n]), d, Replay(log), LastPoll(log[..n], d), SlowDowns(log[..n], d));
      }
    }
  }

  lemma {:induction false} NewRemembers(a: Auth)
    requires IsNew(a)
    ensures Remembers(a, None, 0)
  {
  }

  lemma {:induction false} PaceRemembers(e: Entry, t: Table, d: Code, t': Table, last: Option<int>, slow: nat)
    requires d in t && d in t' && t'[d].status == Pending && !CreatesCode(e.op, d)
    requires Pace(e.op, t, e.now, d, t', e.cap) && Remembers(t[d], last, slow)
    ensures e.op == Poll(d) ==> Remembers(t'[d], Some(e.now), slow + if e.cap.failure == "slow_down" then 1 else 0)
    ensures e.op != Poll(d) ==> Remembers(t'[d], last, slow)
  {
  }

  lemma {:induction false} FailureReported(log: seq<Entry>, i: nat)
    requires Recorded(log) && i < |log|
    ensures log[i].op.Poll? ==> log[i].cap.failure == Atomic(log[i].op, Replay(log[..i]), log[i].now).1.failure
    ensures var e, before := log[i], Replay(log[..i]);
            forall d, t ::
              Pace(e.op, before, e.now, d, t, Atomic(e.op, before, e.now).1) ==> Pace(e.op, before, e.now, d, t, e.cap)
  {
    ReportHolds(log, i);
  }

  /** Section 3.5 of RFC 8628, over every schedule: a poll of an authorization still pending after it is
      answered "slow_down" exactly when it comes sooner after the previous poll than five seconds plus
      five for every earlier "slow_down", and is otherwise handed the pending entry as it is stored. */
  lemma {:induction false} PollsArePaced(schedule: seq<Action>, i: nat, d: Code)
    requires i < |Exec(Empty, schedule).log| && Exec(Empty, schedule).log[i].op == Poll(d)
    requires var log := Exec(Empty, schedule).log;
             d in Replay(log[..i + 1]) && Replay(log[..i + 1])[d].status == Pending
    ensures var log := Exec(Empty, schedule).log;
            if Paced(LastPoll(log[..i], d), RequiredWait(log[..i], d), log[i].now)
            then log[i].cap.failure == "" && log[i].cap.auth == Some(Replay(log[..i + 1])[d])
            else log[i].cap.failure == "slow_down" && log[i].cap.auth == None
  {
    Serializable(schedule);
    var log := Exec(Empty, schedule).log;
    hide Atomic, Recorded, Good, Runs.Exec;
    var e := log[i];
    RecordedPrefix(log, i);
    ReplayGood(log[..i]);
    assert log[..i + 1][..i] == log[..i];
    ReportHolds(log, i);
    EntryEffect(e.op, Replay(log[..i]), e.now, d);
    EntryPace(e.op, Replay(log[..i]), e.now, d);
    FailureReported(log, i);
    TableRemembersPace(log[..i], d);
  }
}
