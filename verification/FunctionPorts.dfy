/** Claiming a host port for a function slot by creating the compute whose UID names the port.

    Callers of `CreateCompute` interleave at the registry's operations: one `List`, then one
    create-only `Put` per port tried. Meanwhile users write computes (whose host ports are validated
    to lie outside the function range), and computes are retired and removed. */
module FunctionPorts {
  import opened Options
  import Runs

  const Lo := 30000
  const Hi := 32767

  /** "function-compute-<port>", or any other UID. */
  datatype Uid = FunctionCompute(port: int) | Other(name: string)

  /** A port mapping; the host part is None when there is no colon or it is not a number. */
  datatype Mapping = Mapping(host: Option<int>, target: string)

  datatype Compute = Compute(ports: seq<Mapping>, deleting: bool)

  type Store = map<Uid, Compute>

  predicate InRange(p: int) {
    Lo <= p <= Hi
  }

  predicate MapsHost(c: Compute, p: int) {
    exists i :: 0 <= i < |c.ports| && c.ports[i].host == Some(p)
  }

  /** The host ports mapped by what `List` returned. */
  function UsedPorts(st: Store): set<int> {
    set u, i | u in st && 0 <= i < |st[u].ports| && st[u].ports[i].host.Some? :: st[u].ports[i].host.value
  }

  function NewCompute(p: int, target: string): Compute {
    Compute([Mapping(Some(p), target)], false)
  }

  datatype Pc =
    | Idle
    | Trying(port: int, target: string, used: set<int>, lost: set<int>)
    | Got(port: int, used: set<int>)
    | NoPort(used: set<int>, lost: set<int>)

  type Client = nat

  datatype State = State(store: Store, pcs: map<Client, Pc>)

  datatype Action =
    | Create(c: Client, target: string)
    | Advance(c: Client)
    | UserWrite(uid: Uid, compute: Compute)
    | Retire(uid: Uid)
    | Remove(uid: Uid)

  const Empty := State(map[], map[])

  /** ComputeSpec.Validate: no host port in the function range. */
  predicate UserMay(c: Compute) {
    forall i :: 0 <= i < |c.ports| ==> c.ports[i].host.Some? ==> !InRange(c.ports[i].host.value)
  }

  /** One turn of the loop over ports. */
  function Try(st: Store, pc: Pc): (Store, Pc)
    requires pc.Trying?
  {
    var Trying(p, target, used, lost) := pc;
    if p > Hi then (st, NoPort(used, lost))
    else if p in used then (st, Trying(p + 1, target, used, lost))
    else if FunctionCompute(p) in st then (st, Trying(p + 1, target, used, lost + {p}))
    else (st[FunctionCompute(p) := NewCompute(p, target)], Got(p, used))
  }

  function Do(s: State, a: Action): State {
    match a
    case Create(c, target) =>
      if c in s.pcs && s.pcs[c].Trying? then s
      else s.(pcs := s.pcs[c := Trying(Lo, target, UsedPorts(s.store), {})])
    case Advance(c) =>
      if c in s.pcs && s.pcs[c].Trying? then
        var (st, pc) := Try(s.store, s.pcs[c]);
        State(st, s.pcs[c := pc])
      else s
    case UserWrite(uid, compute) => if UserMay(compute) then s.(store := s.store[uid := compute]) else s
    case Retire(uid) => if uid in s.store then s.(store := s.store[uid := s.store[uid].(deleting := true)]) else s
    case Remove(uid) => s.(store := s.store - {uid})
  }

  function Exec(s: State, schedule: seq<Action>): State {
    Runs.Exec(Do, s, schedule)
  }

  // ---------- safety ----------

  /** A port of the function range is mapped only by the compute whose UID names it. */
  ghost predicate Canonical(st: Store) {
    forall u, p :: u in st && InRange(p) && MapsHost(st[u], p) ==> u == FunctionCompute(p)
  }

  ghost predicate Progress(pc: Pc) {
    match pc
    case Trying(port, _, used, lost) => Lo <= port <= Hi + 1 && forall q :: Lo <= q < port ==> q in used || q in lost
    case Got(port, used) => InRange(port) && port !in used
    case NoPort(used, lost) => forall q :: InRange(q) ==> q in used || q in lost
    case Idle => true
  }

  ghost predicate Inv(s: State) {
    Canonical(s.store) && forall c :: c in s.pcs ==> Progress(s.pcs[c])
  }

  lemma {:induction false} WriteKeeps(st: Store, uid: Uid, compute: Compute)
    requires Canonical(st)
    requires forall p :: InRange(p) && MapsHost(compute, p) ==> uid == FunctionCompute(p)
    ensures Canonical(st[uid := compute])
  {
  }

  lemma {:induction false} StepKeeps(s: State, a: Action)
    requires Inv(s)
    ensures Inv(Do(s, a))
  {
    match a
    case Advance(c) =>
      if c in s.pcs && s.pcs[c].Trying? {
        var pc := s.pcs[c];
        if pc.port <= Hi && pc.port !in pc.used && FunctionCompute(pc.port) !in s.store {
          WriteKeeps(s.store, FunctionCompute(pc.port), NewCompute(pc.port, pc.target));
        }
      }
    case UserWrite(uid, compute) => if UserMay(compute) { WriteKeeps(s.store, uid, compute); }
    case Retire(uid) =>
      if uid in s.store {
        forall p | InRange(p) && MapsHost(s.store[uid].(deleting := true), p) ensures uid == FunctionCompute(p) {
          assert MapsHost(s.store[uid], p);
        }
        WriteKeeps(s.store, uid, s.store[uid].(deleting := true));
      }
    case _ =>
  }

  lemma {:induction false} Safe(schedule: seq<Action>)
    ensures Inv(Exec(Empty, schedule))
  {
    if schedule != [] {
      var n := |schedule| - 1;
      Safe(schedule[..n]);
      StepKeeps(Exec(Empty, schedule[..n]), schedule[n]);
    }
  }

  /** In every schedule, no two stored computes map the same host port of the function range. */
  lemma {:induction false} PortsAreExclusive(schedule: seq<Action>, u: Uid, v: Uid, p: int)
    ensures var st := Exec(Empty, schedule).store;
            u in st && v in st && InRange(p) && MapsHost(st[u], p) && MapsHost(st[v], p) ==>
              u == v == FunctionCompute(p)
  {
    Safe(schedule);
  }

  /** A caller is given a port of the range that nothing in its snapshot mapped and that no one held when
      its compute was created; and it is told the range is exhausted only when every port was mapped in
      its snapshot or taken when tried. */
  lemma {:induction false} AnswerIsRight(schedule: seq<Action>, c: Client)
    requires var s := Exec(Empty, schedule); c in s.pcs && s.pcs[c].Trying?
    ensures var s := Exec(Empty, schedule);
            var before, s' := s.pcs[c], Do(s, Advance(c));
            var after := s'.pcs[c];
            && (after.Got? ==>
                  && 30000 <= after.port <= 32767 && after.port !in before.used
                  && (forall u :: u in s.store ==> !MapsHost(s.store[u], after.port))
                  && s'.store == s.store[FunctionCompute(after.port) := NewCompute(after.port, before.target)]
                  && s'.store[FunctionCompute(after.port)] ==
                       Compute([Mapping(Some(after.port), before.target)], false))
            && (!after.Got? ==> s'.store == s.store)
            && (after.NoPort? ==> forall q :: 30000 <= q <= 32767 ==> q in before.used || q in before.lost)
            && (after.Trying? ==>
                  || after.lost == before.lost
                  || (after.lost == before.lost + {before.port} && FunctionCompute(before.port) in s.store))
  {
    Safe(schedule);
    var s := Exec(Empty, schedule);
    assert Progress(s.pcs[c]);
  }

  // ---------- undisturbed ----------

  predicate Free(st: Store, p: int) {
    p !in UsedPorts(st) && FunctionCompute(p) !in st
  }

  /** The lowest free port is taken, and exhaustion means there is none. */
  ghost predicate TakesLowest(st: Store, target: string, port: Option<int>, st': Store) {
    match port
    case Some(p) =>
      && 30000 <= p <= 32767 && Free(st, p) && (forall q :: 30000 <= q < p ==> !Free(st, q))
      && st' == st[FunctionCompute(p) := NewCompute(p, target)]
    case None => st' == st && forall q :: 30000 <= q <= 32767 ==> !Free(st, q)
  }

  /** The loop of `CreateCompute` with no one else writing. */
  method CreateLoop(st: Store, target: string) returns (port: Option<int>, st': Store)
    ensures TakesLowest(st, target, port, st')
  {
    var used := UsedPorts(st);
    var p := Lo;
    while p <= Hi
      invariant Lo <= p <= Hi + 1
      invariant forall q :: Lo <= q < p ==> !Free(st, q)
    {
      if p !in used {
        if FunctionCompute(p) !in st {
          return Some(p), st[FunctionCompute(p) := NewCompute(p, target)];
        }
      }
      p := p + 1;
    }
    return None, st;
  }

  /** `n` turns of client `c` in a row. */
  function Run(s: State, c: Client, n: nat): State
    decreases n
  {
    if n == 0 then s else Run(Do(s, Advance(c)), c, n - 1)
  }

  /** What a client was told. */
  function Answer(pc: Pc): Option<Option<int>> {
    match pc
    case Got(p, _) => Some(Some(p))
    case NoPort(_, _) => Some(None)
    case _ => None
  }

  lemma {:induction false} TryAlone(s: State, c: Client) returns (n: nat, port: Option<int>)
    requires c in s.pcs && s.pcs[c].Trying? && s.pcs[c].used == UsedPorts(s.store) && Lo <= s.pcs[c].port <= Hi + 1
    requires forall q :: Lo <= q < s.pcs[c].port ==> !Free(s.store, q)
    ensures var s' := Run(s, c, n);
            c in s'.pcs && Answer(s'.pcs[c]) == Some(port) && TakesLowest(s.store, s.pcs[c].target, port, s'.store)
    ensures n <= Hi + 2 - s.pcs[c].port
    decreases Hi + 1 - s.pcs[c].port
  {
    hide UsedPorts;
    var s1, pc := Do(s, Advance(c)), s.pcs[c];
    if pc.port > Hi || Free(s.store, pc.port) {
      n, port := 1, if pc.port > Hi then None else Some(pc.port);
      assert Run(s, c, 1) == Run(s1, c, 0);
    } else {
      assert s1.store == s.store && s1.pcs[c].port == pc.port + 1;
      var m;
      m, port := TryAlone(s1, c);
      n := m + 1;
      assert Run(s, c, m + 1) == Run(s1, c, m);
    }
  }

  /** Undisturbed, the interleaved call does what its loop does: within one turn for each port and one
      more it is given the lowest free port, or told that there is none. */
  lemma {:induction false} CreateAlone(s: State, c: Client, target: string) returns (n: nat, port: Option<int>)
    requires c in s.pcs ==> !s.pcs[c].Trying?
    ensures n <= Hi + 2 - Lo
    ensures var s' := Run(Do(s, Create(c, target)), c, n);
            c in s'.pcs && Answer(s'.pcs[c]) == Some(port) && TakesLowest(s.store, target, port, s'.store)
  {
    n, port := TryAlone(Do(s, Create(c, target)), c);
  }

  /** A turn of a call moves it to the next port or ends it, and no one else's action touches it. */
  lemma {:induction false} TurnMovesOn(s: State, a: Action, c: Client)
    requires c in s.pcs && s.pcs[c].Trying?
    ensures c in Do(s, a).pcs
    ensures a == Advance(c) && Do(s, a).pcs[c].Trying? ==>
              s.pcs[c].port <= Hi && Do(s, a).pcs[c].port == s.pcs[c].port + 1
    ensures a != Advance(c) ==> Do(s, a).pcs[c] == s.pcs[c]
  {
  }

  predicate Busy(s: State, c: Client) {
    c in s.pcs && s.pcs[c].Trying?
  }

  function Turns(schedule: seq<Action>, c: Client): nat {
    if schedule == [] then 0
    else Turns(schedule[..|schedule| - 1], c) + if schedule[|schedule| - 1] == Advance(c) then 1 else 0
  }

  lemma {:induction false} TurnsCount(s: State, more: seq<Action>, c: Client)
    requires forall k :: 0 <= k <= |more| ==> Busy(Exec(s, more[..k]), c)
    ensures Busy(s, c) && Busy(Exec(s, more), c)
    ensures Exec(s, more).pcs[c].port == s.pcs[c].port + Turns(more, c)
    ensures Turns(more, c) > 0 ==> Exec(s, more).pcs[c].port <= Hi + 1
  {
    assert more[..|more|] == more && Busy(Exec(s, more[..0]), c);
    if more != [] {
      var n := |more| - 1;
      forall k | 0 <= k <= n ensures Busy(Exec(s, more[..n][..k]), c) {
        assert more[..n][..k] == more[..k];
      }
      hide Do;
      TurnsCount(s, more[..n], c);
      TurnMovesOn(Exec(s, more[..n]), more[n], c);
    }
  }

  /** Whatever the others do, a call is over after one turn for each port of the range and one more. */
  lemma {:induction false} CreateEnds(schedule: seq<Action>, more: seq<Action>, c: Client) returns (k: nat)
    requires Busy(Exec(Empty, schedule), c) && Turns(more, c) >= Hi + 2 - Lo
    ensures k <= |more| && !Busy(Exec(Exec(Empty, schedule), more[..k]), c)
  {
    k := 0;
    var s := Exec(Empty, schedule);
    Safe(schedule);
    assert Progress(s.pcs[c]);
    if k' :| 0 <= k' <= |more| && !Busy(Exec(s, more[..k']), c) {
      return k';
    }
    TurnsCount(s, more, c);
  }

  // ---------- what users may write ----------

  /** A user's compute is stored if and only if it maps no host port from 30000 to 32767. */
  lemma {:induction false} UserWriteIsScreened(s: State, uid: Uid, compute: Compute)
    ensures Do(s, UserWrite(uid, compute)) ==
            if exists p :: 30000 <= p <= 32767 && MapsHost(compute, p) then s
            else s.(store := s.store[uid := compute])
  {
    if !UserMay(compute) {
      var i :| 0 <= i < |compute.ports| && compute.ports[i].host.Some? && InRange(compute.ports[i].host.value);
      assert MapsHost(compute, compute.ports[i].host.value);
    }
  }

  // ---------- retiring ----------

  /** Retiring a compute marks it and keeps its ports, so that no one is given them before it is removed. */
  lemma {:induction false} RetiredKeepsItsPort(s: State, p: int)
    requires FunctionCompute(p) in s.store && MapsHost(s.store[FunctionCompute(p)], p)
    ensures var s' := Do(s, Retire(FunctionCompute(p)));
            && FunctionCompute(p) in s'.store && s'.store[FunctionCompute(p)].deleting
            && s'.store[FunctionCompute(p)].ports == s.store[FunctionCompute(p)].ports
            && !Free(s'.store, p) && Free(Do(s', Remove(FunctionCompute(p))).store, p) ==
                                     (p !in UsedPorts(s.store - {FunctionCompute(p)}))
  {
    var s' := Do(s, Retire(FunctionCompute(p)));
    assert s'.store - {FunctionCompute(p)} == s.store - {FunctionCompute(p)};
  }
}
