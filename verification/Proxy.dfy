/** Live reconfiguration of the load balancer: `Apply` turns a new configuration into changes to the
    health states, the health checkers and the listeners of the one that is running.

    Checkers and listeners are goroutines and sockets with an identity that outlives reloads; here each is
    a number never used before. Cancelling a checker and closing a listener are recorded, so that doing
    either twice, or not at all, would show. Health states and groups are the objects of the pool. */
module Proxy {
  import opened Pool

  type Id = nat

  datatype HealthCheck = HealthCheck(protocol: string, path: string, ca: string, server: string, port: int,
                                     interval: int, timeout: int, up: int, down: int)

  datatype TargetGroup = TargetGroup(name: string, check: HealthCheck, targets: seq<Backend>)

  /** What a listener's socket is bound for. */
  datatype BindKey = BindKey(address: string, port: int, protocol: string, tlsMode: string)

  datatype ListenerConfig = ListenerConfig(name: string, bind: BindKey, routes: string)

  datatype Config = Config(groups: seq<TargetGroup>, listeners: seq<ListenerConfig>)

  /** A running checker: what it was started with and the state it reports to. */
  datatype Checker = Checker(id: Id, check: HealthCheck, state: TargetState)

  datatype Listener = Listener(id: Id, key: BindKey, config: ListenerConfig, bound: bool)

  type States = map<StateKey, TargetState>
  type Groups = map<string, Group>
  type Checkers = map<StateKey, Checker>
  type Checks = map<StateKey, HealthCheck>
  type Listeners = map<string, Listener>

  /** As the defaults and Validate leave it: no target group and no listener declared twice, and every
      weight positive. */
  ghost predicate Validated(cfg: Config) {
    && (forall i, j :: 0 <= i < |cfg.groups| && 0 <= j < |cfg.groups[i].targets| ==>
          cfg.groups[i].targets[j].weight >= 1)
    && (forall i, j :: 0 <= i < j < |cfg.groups| ==> cfg.groups[i].name != cfg.groups[j].name)
    && (forall i, j :: 0 <= i < j < |cfg.listeners| ==> cfg.listeners[i].name != cfg.listeners[j].name)
  }

  // ---------- what a configuration asks for ----------

  /** The checks of the first `n` targets of a group, added to `m`. */
  function WithTargets(m: Checks, g: TargetGroup, n: nat): Checks
    requires n <= |g.targets|
  {
    if n == 0 then m else WithTargets(m, g, n - 1)[KeyOf(g.name, g.targets[n - 1]) := g.check]
  }

  /** The target keys of the first `n` groups, each with the check of its group. */
  function Wanted(groups: seq<TargetGroup>, n: nat): Checks
    requires n <= |groups|
  {
    if n == 0 then map[]
    else WithTargets(Wanted(groups, n - 1), groups[n - 1], |groups[n - 1].targets|)
  }

  /** The configured listeners by name. */
  function ByName(ls: seq<ListenerConfig>): map<string, ListenerConfig> {
    if ls == [] then map[] else ByName(ls[..|ls| - 1])[ls[|ls| - 1].name := ls[|ls| - 1]]
  }

  lemma {:induction false} WantedIsTargets(groups: seq<TargetGroup>, n: nat, k: StateKey)
    requires n <= |groups|
    ensures k in Wanted(groups, n) <==>
            exists i, j :: && 0 <= i < n && 0 <= j < |groups[i].targets|
                           && KeyOf(groups[i].name, groups[i].targets[j]) == k
  {
    if n > 0 {
      WantedIsTargets(groups, n - 1, k);
      TargetsAdd(Wanted(groups, n - 1), groups[n - 1], |groups[n - 1].targets|, k);
    }
  }

  lemma {:induction false} TargetsAdd(m: Checks, g: TargetGroup, n: nat, k: StateKey)
    requires n <= |g.targets|
    ensures k in WithTargets(m, g, n) <==> k in m || exists j :: 0 <= j < n && KeyOf(g.name, g.targets[j]) == k
    ensures k in WithTargets(m, g, n) ==>
            WithTargets(m, g, n)[k] ==
              if exists j :: 0 <= j < n && KeyOf(g.name, g.targets[j]) == k then g.check else m[k]
  {
    if n > 0 {
      TargetsAdd(m, g, n - 1, k);
    }
  }

  lemma {:induction false} FirstTargets(m: Checks, g: TargetGroup)
    ensures WithTargets(m, g, 0) == m
  {
  }

  lemma {:induction false} NextTarget(m: Checks, g: TargetGroup, n: nat)
    requires n < |g.targets|
    ensures WithTargets(m, g, n + 1) == WithTargets(m, g, n)[KeyOf(g.name, g.targets[n]) := g.check]
  {
  }

  lemma {:induction false} TargetKeys(m: Checks, g: TargetGroup, n: nat)
    requires n <= |g.targets|
    ensures WithTargets(m, g, n).Keys == m.Keys + KeysOf(g.name, g.targets[..n])
  {
    if n > 0 {
      TargetKeys(m, g, n - 1);
      assert g.targets[..n][..n - 1] == g.targets[..n - 1];
    }
  }

  lemma {:induction false} ByNameHolds(ls: seq<ListenerConfig>, n: string)
    ensures n in ByName(ls) <==> exists i :: 0 <= i < |ls| && ls[i].name == n
    ensures n in ByName(ls) ==> ByName(ls)[n].name == n && ByName(ls)[n] in ls
  {
    if ls != [] {
      ByNameHolds(ls[..|ls| - 1], n);
    }
  }

  // ---------- bookkeeping ----------

  ghost function CheckerIds(m: Checkers): set<Id> {
    set k | k in m :: m[k].id
  }

  ghost function ListenerIds(m: Listeners): set<Id> {
    set n | n in m :: m[n].id
  }

  /** Every target key has one state and one checker reporting to it; every other checker ever started
      has been cancelled, exactly once. */
  ghost predicate TargetsOk(states: States, checkers: Checkers, next: Id, started: set<Id>, cancelled: multiset<Id>) {
    && states.Keys == checkers.Keys && Apart(states) && Reports(states, checkers)
    && CheckersCounted(checkers, next, started, cancelled)
  }

  /** Every checker reports to the state filed under its key. */
  ghost predicate Reports(states: States, checkers: Checkers) {
    checkers.Keys <= states.Keys && forall k :: k in checkers ==> checkers[k].state == states[k]
  }

  ghost predicate CheckersCounted(checkers: Checkers, next: Id, started: set<Id>, cancelled: multiset<Id>) {
    && (forall k :: k in checkers ==> checkers[k].id in started)
    && (forall k, l :: k in checkers && l in checkers && checkers[k].id == checkers[l].id ==> k == l)
    && (forall i :: i in started ==> i < next)
    && cancelled == multiset(started - CheckerIds(checkers))
  }

  /** Every listener ever created and no longer running has been closed, exactly once. */
  ghost predicate ListenersOk(listeners: Listeners, next: Id, created: set<Id>, closed: multiset<Id>) {
    && (forall n :: n in listeners ==> listeners[n].id in created && listeners[n].key == listeners[n].config.bind)
    && (forall n, m :: n in listeners && m in listeners && listeners[n].id == listeners[m].id ==> n == m)
    && (forall i :: i in created ==> i < next)
    && closed == multiset(created - ListenerIds(listeners))
  }

  lemma {:induction false} CheckerIdsAdd(m: Checkers, key: StateKey, c: Checker)
    requires key !in m
    ensures CheckerIds(m[key := c]) == CheckerIds(m) + {c.id}
  {
    var m' := m[key := c];
    forall k | k in m ensures m[k].id in CheckerIds(m') {
      assert m'[k] == m[k];
    }
    assert m'[key].id in CheckerIds(m');
  }

  lemma {:induction false} ListenerIdsAdd(m: Listeners, name: string, l: Listener)
    requires name !in m
    ensures ListenerIds(m[name := l]) == ListenerIds(m) + {l.id}
  {
    var m' := m[name := l];
    forall k | k in m ensures m[k].id in ListenerIds(m') {
      assert m'[k] == m[k];
    }
    assert m'[name].id in ListenerIds(m');
  }

  lemma {:induction false} StopCounted(m: Checkers, key: StateKey, next: Id, started: set<Id>, cancelled: multiset<Id>)
    requires CheckersCounted(m, next, started, cancelled) && key in m
    ensures CheckersCounted(m - {key}, next, started, cancelled + multiset{m[key].id})
  {
    var m' := m - {key};
    forall k | k in m && k != key ensures m[k].id in CheckerIds(m') {
      assert m'[k] == m[k];
    }
    assert m[key].id in CheckerIds(m);
    assert started - CheckerIds(m') == started - CheckerIds(m) + {m[key].id};
  }

  lemma {:induction false} FreshCounted(m: Checkers, key: StateKey, c: Checker, next: Id, started: set<Id>,
                                        cancelled: multiset<Id>)
    requires CheckersCounted(m, next, started, cancelled) && key !in m && c.id >= next
    ensures CheckersCounted(m[key := c], c.id + 1, started + {c.id}, cancelled)
  {
    hide CheckerIds;
    CheckerIdsAdd(m, key, c);
    assert started + {c.id} - CheckerIds(m[key := c]) == started - CheckerIds(m);
  }

  /** Starting a fresh checker under a key accounts for the one it replaces. */
  lemma {:induction false} StartCounted(m: Checkers, key: StateKey, c: Checker, next: Id, started: set<Id>,
                                        cancelled: multiset<Id>)
    requires CheckersCounted(m, next, started, cancelled) && c.id >= next
    ensures CheckersCounted(m[key := c], c.id + 1, started + {c.id},
                            cancelled + if key in m then multiset{m[key].id} else multiset{})
  {
    hide CheckersCounted;
    if key in m {
      StopCounted(m, key, next, started, cancelled);
      FreshCounted(m - {key}, key, c, next, started, cancelled + multiset{m[key].id});
      assert (m - {key})[key := c] == m[key := c];
    } else {
      FreshCounted(m, key, c, next, started, cancelled);
      assert cancelled + multiset{} == cancelled;
    }
  }

  lemma {:induction false} CountedLater(m: Checkers, next: Id, later: Id, started: set<Id>, cancelled: multiset<Id>)
    requires CheckersCounted(m, next, started, cancelled) && next <= later
    ensures CheckersCounted(m, later, started, cancelled)
  {
  }

  lemma {:induction false} CloseCounted(m: Listeners, name: string, next: Id, created: set<Id>, closed: multiset<Id>)
    requires ListenersOk(m, next, created, closed) && name in m
    ensures ListenersOk(m - {name}, next, created, closed + multiset{m[name].id})
  {
    var m' := m - {name};
    forall k | k in m && k != name ensures m[k].id in ListenerIds(m') {
      assert m'[k] == m[k];
    }
    assert m[name].id in ListenerIds(m);
    assert created - ListenerIds(m') == created - ListenerIds(m) + {m[name].id};
  }

  lemma {:induction false} NewCounted(m: Listeners, name: string, l: Listener, next: Id, created: set<Id>,
                                      closed: multiset<Id>)
    requires ListenersOk(m, next, created, closed) && name !in m && l.id >= next && l.key == l.config.bind
    ensures ListenersOk(m[name := l], l.id + 1, created + {l.id}, closed)
  {
    hide ListenerIds;
    ListenerIdsAdd(m, name, l);
    assert created + {l.id} - ListenerIds(m[name := l]) == created - ListenerIds(m);
  }

  /** Opening a fresh listener under a name accounts for the one it replaces. */
  lemma {:induction false} OpenCounted(m: Listeners, name: string, l: Listener, next: Id, created: set<Id>,
                                       closed: multiset<Id>)
    requires ListenersOk(m, next, created, closed) && l.id >= next && l.key == l.config.bind
    ensures ListenersOk(m[name := l], l.id + 1, created + {l.id},
                        closed + if name in m then multiset{m[name].id} else multiset{})
  {
    hide ListenersOk;
    if name in m {
      CloseCounted(m, name, next, created, closed);
      NewCounted(m - {name}, name, l, next, created, closed + multiset{m[name].id});
      assert (m - {name})[name := l] == m[name := l];
    } else {
      NewCounted(m, name, l, next, created, closed);
      assert closed + multiset{} == closed;
    }
  }

  /** Changing what a running listener serves, or whether it is bound, changes no count. */
  lemma {:induction false} RefreshCounted(m: Listeners, name: string, l: Listener, next: Id, created: set<Id>,
                                          closed: multiset<Id>)
    requires ListenersOk(m, next, created, closed) && name in m && l.id == m[name].id && l.key == l.config.bind
    ensures ListenersOk(m[name := l], next, created, closed)
  {
    var m' := m[name := l];
    forall k | k in m ensures m[k].id in ListenerIds(m') {
      assert m'[k].id == m[k].id;
    }
    forall k | k in m' ensures m'[k].id in ListenerIds(m) {
      assert m'[k].id == m[k].id;
    }
    assert ListenerIds(m') == ListenerIds(m);
  }

  // ---------- what a reload carries over ----------

  /** The given keys have joined, and every key that had a state has kept it. */
  ghost predicate StatesCarried(before: States, after: States, keys: set<StateKey>) {
    after.Keys == before.Keys + keys && forall k :: k in before ==> after[k] == before[k]
  }

  /** Every wanted key has a checker running its check; a checker whose check was not changed is the same
      one, and a changed or new check has got a checker never used before. */
  ghost predicate CheckersCarried(before: Checkers, after: Checkers, want: Checks, next: Id) {
    && after.Keys == before.Keys + want.Keys
    && (forall k :: k in want ==> after[k].check == want[k])
    && (forall k :: k in after ==>
          if k in before && (k in want ==> before[k].check == want[k]) then after[k] == before[k]
          else after[k].id >= next)
  }

  /** Every wanted name has a listener serving its configuration; one whose bind key was not changed is the
      same listener with its socket, and any other is a listener never used before. */
  ghost predicate ListenersCarried(before: Listeners, after: Listeners, want: map<string, ListenerConfig>,
                                   next: Id, binds: Id -> bool)
  {
    && after.Keys == before.Keys + want.Keys
    && (forall n :: n in after && n !in want ==> after[n] == before[n])
    && (forall n :: n in want ==> Serves(before, after[n], n, want[n], next, binds))
  }

  ghost predicate Serves(before: Listeners, l: Listener, n: string, lc: ListenerConfig, next: Id, binds: Id -> bool) {
    && l.config == lc && l.key == lc.bind
    && if n in before && before[n].key == lc.bind then l.id == before[n].id && l.bound == before[n].bound
       else l.id >= next && l.bound == binds(l.id)
  }

  /** A group routes to its configured targets, each with the state filed under its key. */
  ghost predicate Routes(gc: TargetGroup, g: Group, states: States) {
    && |g.targets| == |gc.targets|
    && forall j :: 0 <= j < |gc.targets| ==>
         && g.targets[j].backend == gc.targets[j]
         && KeyOf(gc.name, gc.targets[j]) in states && g.targets[j].state == states[KeyOf(gc.name, gc.targets[j])]
  }

  /** The first `n` groups of a configuration, and no others, route. */
  ghost predicate Routed(cfg: Config, n: nat, groups: Groups, states: States)
    requires n <= |cfg.groups|
  {
    && (forall i :: 0 <= i < n ==>
          cfg.groups[i].name in groups && Routes(cfg.groups[i], groups[cfg.groups[i].name], states))
    && (forall name :: name in groups ==> exists i :: 0 <= i < n && cfg.groups[i].name == name)
  }

  lemma {:induction false} RoutesAlike(gc: TargetGroup, g: Group, states: States, states': States)
    requires Routes(gc, g, states)
    requires forall j :: 0 <= j < |gc.targets| ==> KeyOf(gc.name, gc.targets[j]) in states'
    requires forall k :: k in states && k in states' ==> states'[k] == states[k]
    ensures Routes(gc, g, states')
  {
  }

  /** One more group routes; the states of the earlier ones are still the same. */
  lemma {:induction false} RouteOneMore(cfg: Config, n: nat, groups: Groups, g: Group, states: States, states': States)
    requires Validated(cfg) && n < |cfg.groups| && Routed(cfg, n, groups, states) && Routes(cfg.groups[n], g, states')
    requires states.Keys <= states'.Keys && forall k :: k in states ==> states'[k] == states[k]
    ensures Routed(cfg, n + 1, groups[cfg.groups[n].name := g], states')
  {
    hide Routes;
    var groups' := groups[cfg.groups[n].name := g];
    forall i | 0 <= i <= n
      ensures cfg.groups[i].name in groups' && Routes(cfg.groups[i], groups'[cfg.groups[i].name], states')
    {
      if i < n {
        assert cfg.groups[i].name != cfg.groups[n].name;
        RoutesKept(cfg.groups[i], groups[cfg.groups[i].name], states, states');
      }
    }
    forall name | name in groups' ensures exists i :: 0 <= i < n + 1 && cfg.groups[i].name == name {
      if name in groups {
        var i :| 0 <= i < n && cfg.groups[i].name == name;
      } else {
        assert cfg.groups[n].name == name;
      }
    }
  }

  lemma {:induction false} RoutesKept(gc: TargetGroup, g: Group, states: States, states': States)
    requires Routes(gc, g, states)
    requires states.Keys <= states'.Keys && forall k :: k in states ==> states'[k] == states[k]
    ensures Routes(gc, g, states')
  {
    forall j | 0 <= j < |gc.targets| ensures KeyOf(gc.name, gc.targets[j]) in states' {
      assert KeyOf(gc.name, gc.targets[j]) in states.Keys;
    }
    RoutesAlike(gc, g, states, states');
  }

  /** Dropping the states no target of the configuration uses leaves all routes. */
  lemma {:induction false} RoutesSwept(cfg: Config, groups: Groups, states: States, states': States)
    requires Routed(cfg, |cfg.groups|, groups, states)
    requires states' == Restrict(states, Wanted(cfg.groups, |cfg.groups|).Keys)
    ensures Routed(cfg, |cfg.groups|, groups, states')
  {
    var n := |cfg.groups|;
    forall i | 0 <= i < n ensures Routes(cfg.groups[i], groups[cfg.groups[i].name], states') {
      forall j | 0 <= j < |cfg.groups[i].targets|
        ensures KeyOf(cfg.groups[i].name, cfg.groups[i].targets[j]) in states'
      {
        WantedIsTargets(cfg.groups, n, KeyOf(cfg.groups[i].name, cfg.groups[i].targets[j]));
      }
      RoutesAlike(cfg.groups[i], groups[cfg.groups[i].name], states, states');
    }
  }

  /** Exactly the targets of a configuration are checked, each with the check of its group. */
  ghost predicate ChecksRun(cfg: Config, checkers: Checkers) {
    && checkers.Keys == Wanted(cfg.groups, |cfg.groups|).Keys
    && (forall k :: k in checkers ==> checkers[k].check == Wanted(cfg.groups, |cfg.groups|)[k])
  }

  /** Exactly the listeners of a configuration exist, each serving its part of it. */
  ghost predicate ListenersRun(cfg: Config, listeners: Listeners) {
    && listeners.Keys == ByName(cfg.listeners).Keys
    && (forall n :: n in listeners ==> listeners[n].config == ByName(cfg.listeners)[n])
  }

  lemma {:induction false} CarryChecker(before: Checkers, mid: Checkers, after: Checkers,
                                        want: Checks, key: StateKey, check: HealthCheck, next: Id)
    requires CheckersCarried(before, mid, want, next)
    requires key in want ==> want[key] == check
    requires after.Keys == mid.Keys + {key}
    requires forall k :: k in after && k != key ==> after[k] == mid[k]
    requires after[key].check == check
    requires if key in mid && mid[key].check == check then after[key] == mid[key] else after[key].id >= next
    ensures CheckersCarried(before, after, want[key := check], next)
  {
    var w := want[key := check];
    assert w.Keys == want.Keys + {key};
    forall k | k in after
      ensures if k in before && (k in w ==> before[k].check == w[k]) then after[k] == before[k] else after[k].id >= next
    {
      if k != key {
        assert k in mid && (k in w <==> k in want);
      } else if key in want {
        assert mid[key].check == check;
      }
    }
  }

  lemma {:induction false} CarryListener(before: Listeners, mid: Listeners, after: Listeners,
                                         want: map<string, ListenerConfig>, lc: ListenerConfig, next: Id,
                                         binds: Id -> bool)
    requires ListenersCarried(before, mid, want, next, binds) && lc.name !in want
    requires after.Keys == mid.Keys + {lc.name}
    requires forall n :: n in after && n != lc.name ==> after[n] == mid[n]
    requires Serves(mid, after[lc.name], lc.name, lc, next, binds)
    ensures ListenersCarried(before, after, want[lc.name := lc], next, binds)
  {
    var w := want[lc.name := lc];
    assert w.Keys == want.Keys + {lc.name};
    assert lc.name in mid ==> mid[lc.name] == before[lc.name];
    forall n | n in w ensures Serves(before, after[n], n, w[n], next, binds) {
      if n != lc.name {
        assert n in want && w[n] == want[n] && after[n] == mid[n];
      }
    }
  }

  /** The entries of `m` under some keys. */
  function Restrict<K, V>(m: map<K, V>, keys: set<K>): map<K, V> {
    map k | k in m && k in keys :: m[k]
  }

  lemma {:induction false} CarryAll(states: States, checkers: Checkers, next: Id)
    ensures StatesCarried(states, states, {}) && CheckersCarried(checkers, checkers, map[], next)
  {
  }

  lemma {:induction false} CarriedKeys(before: Checkers, after: Checkers, want: Checks, next: Id)
    requires CheckersCarried(before, after, want, next)
    ensures after.Keys == before.Keys + want.Keys
  {
  }

  lemma {:induction false} RunsCarried(cfg: Config, before: Checkers, checkers: Checkers, next: Id)
    requires CheckersCarried(before, checkers, Wanted(cfg.groups, |cfg.groups|), next)
    requires checkers.Keys == Wanted(cfg.groups, |cfg.groups|).Keys
    ensures ChecksRun(cfg, checkers)
  {
  }

  lemma {:induction false} ServesCarried(cfg: Config, before: Listeners, listeners: Listeners, next: Id,
                                         binds: Id -> bool)
    requires ListenersCarried(before, listeners, ByName(cfg.listeners), next, binds)
    requires listeners.Keys == ByName(cfg.listeners).Keys
    ensures ListenersRun(cfg, listeners)
  {
  }

  lemma {:induction false} NoGroups(groups: seq<TargetGroup>)
    ensures Wanted(groups, 0) == map[]
  {
  }

  lemma {:induction false} NextGroup(groups: seq<TargetGroup>, n: nat)
    requires n < |groups|
    ensures Wanted(groups, n + 1) == WithTargets(Wanted(groups, n), groups[n], |groups[n].targets|)
  {
  }

  lemma {:induction false} NothingRouted(cfg: Config, states: States)
    ensures Routed(cfg, 0, map[], states)
  {
  }

  lemma {:induction false} StatesKept(before: States, after: States, keys: set<StateKey>)
    requires StatesCarried(before, after, keys)
    ensures before.Keys <= after.Keys && forall k :: k in before ==> after[k] == before[k]
  {
  }

  lemma {:induction false} CarriedStateKeys(before: States, after: States, keys: set<StateKey>)
    requires StatesCarried(before, after, keys)
    ensures after.Keys == before.Keys + keys
  {
  }

  lemma {:induction false} CarryOn(before: States, mid: States, after: States, keys: set<StateKey>, more: set<StateKey>)
    requires StatesCarried(before, mid, keys) && StatesCarried(mid, after, more)
    ensures StatesCarried(before, after, keys + more)
  {
    assert forall k :: k in before ==> k in mid;
  }

  lemma {:induction false} ReportsKept(before: States, after: States, checkers: Checkers)
    requires Reports(before, checkers)
    requires before.Keys <= after.Keys && forall k :: k in before ==> after[k] == before[k]
    ensures Reports(after, checkers)
  {
  }

  lemma {:induction false} ReportsWithout(states: States, checkers: Checkers, key: StateKey)
    requires Reports(states, checkers)
    ensures Reports(states - {key}, checkers - {key})
  {
  }

  lemma {:induction false} RestrictAll<K, V>(m: map<K, V>, keys: set<K>)
    ensures Restrict(m, keys + m.Keys) == m
  {
  }

  lemma {:induction false} RestrictKeys<K, V>(m: map<K, V>, keys: set<K>)
    ensures Restrict(m, keys).Keys == m.Keys * keys
  {
  }

  /** Going on to the next key: it stays if it is kept, and is taken out otherwise. */
  lemma {:induction false} RestrictLess<K, V>(m: map<K, V>, keep: set<K>, left: set<K>, key: K)
    requires key in left && key in m
    ensures key in Restrict(m, keep + left)
    ensures Restrict(m, keep + (left - {key})) ==
            if key in keep then Restrict(m, keep + left) else Restrict(m, keep + left) - {key}
  {
    assert key in keep ==> keep + (left - {key}) == keep + left;
  }

  lemma {:induction false} RestrictApart(states: States, keys: set<StateKey>)
    requires Apart(states)
    ensures Apart(Restrict(states, keys))
  {
  }

  lemma {:induction false} RestrictAt<K, V>(m: map<K, V>, keys: set<K>)
    ensures forall k :: k in Restrict(m, keys) ==> k in m && Restrict(m, keys)[k] == m[k]
  {
  }

  lemma {:induction false} SweepStates(before: States, mid: States, after: States, keys: set<StateKey>)
    requires StatesCarried(before, mid, keys)
    requires after == Restrict(mid, keys)
    ensures after.Keys == keys && StatesCarried(Restrict(before, keys), after, keys)
  {
  }

  lemma {:induction false} SweepCheckers(before: Checkers, mid: Checkers, after: Checkers,
                                         want: Checks, next: Id)
    requires CheckersCarried(before, mid, want, next)
    requires after == Restrict(mid, want.Keys)
    ensures after.Keys == want.Keys && CheckersCarried(Restrict(before, want.Keys), after, want, next)
  {
  }

  lemma {:induction false} DropCarried(before: Listeners, mid: Listeners, after: Listeners,
                                       want: map<string, ListenerConfig>, next: Id, binds: Id -> bool)
    requires ListenersCarried(before, mid, want, next, binds)
    requires after == Restrict(mid, want.Keys)
    ensures after.Keys == want.Keys && ListenersCarried(Restrict(before, want.Keys), after, want, next, binds)
  {
    forall n | n in want ensures Serves(Restrict(before, want.Keys), after[n], n, want[n], next, binds) {
      assert Serves(before, mid[n], n, want[n], next, binds);
    }
  }

  /** Only keys of groups called otherwise are wanted before a group's own targets are. */
  lemma {:induction false} EarlierGroups(cfg: Config, i: nat)
    requires Validated(cfg) && i < |cfg.groups|
    ensures forall k :: k in Wanted(cfg.groups, i) ==> k.group != cfg.groups[i].name
    ensures forall j :: 0 <= j < |cfg.groups[i].targets| ==> cfg.groups[i].targets[j].weight >= 1
  {
    forall k | k in Wanted(cfg.groups, i) ensures k.group != cfg.groups[i].name {
      WantedIsTargets(cfg.groups, i, k);
    }
  }

  lemma {:induction false} EarlierListeners(cfg: Config, i: nat)
    requires Validated(cfg) && i < |cfg.listeners|
    ensures cfg.listeners[i].name !in ByName(cfg.listeners[..i])
    ensures ByName(cfg.listeners[..i + 1]) == ByName(cfg.listeners[..i])[cfg.listeners[i].name := cfg.listeners[i]]
  {
    ByNameHolds(cfg.listeners[..i], cfg.listeners[i].name);
    assert cfg.listeners[..i + 1][..i] == cfg.listeners[..i];
  }

  lemma {:induction false} CarryListeners(listeners: Listeners, next: Id, binds: Id -> bool)
    ensures ListenersCarried(listeners, listeners, map[], next, binds)
  {
  }

  lemma {:induction false} ServesLater(before: Listeners, l: Listener, n: string, lc: ListenerConfig, next: Id,
                                       later: Id, binds: Id -> bool)
    requires Serves(before, l, n, lc, later, binds) && next <= later
    ensures Serves(before, l, n, lc, next, binds)
  {
  }

  lemma {:induction false} ListenerKeyed(m: Listeners, name: string, next: Id, created: set<Id>, closed: multiset<Id>)
    requires ListenersOk(m, next, created, closed) && name in m
    ensures m[name].key == m[name].config.bind
  {
  }

  lemma {:induction false} AllClosed(next: Id, created: set<Id>, closed: multiset<Id>)
    requires ListenersOk(map[], next, created, closed)
    ensures closed == multiset(created)
  {
    assert created - ListenerIds(map[]) == created;
  }

  /** Reloading what already runs starts nothing, stops nothing and keeps every socket. */
  lemma {:induction false} ReloadKeepsAll(cfg: Config, states: States, states': States, checkers: Checkers,
                                          checkers': Checkers, listeners: Listeners, listeners': Listeners,
                                          next: Id, nextListener: Id, binds: Id -> bool)
    requires ChecksRun(cfg, checkers) && ListenersRun(cfg, listeners)
    requires ChecksRun(cfg, checkers') && ListenersRun(cfg, listeners')
    requires states.Keys == checkers.Keys && states'.Keys == checkers'.Keys
    requires forall n :: n in listeners ==> listeners[n].key == listeners[n].config.bind
    requires StatesCarried(Restrict(states, states'.Keys), states', states'.Keys)
    requires CheckersCarried(Restrict(checkers, checkers'.Keys), checkers', Wanted(cfg.groups, |cfg.groups|), next)
    requires ListenersCarried(Restrict(listeners, listeners'.Keys), listeners', ByName(cfg.listeners),
                              nextListener, binds)
    ensures states' == states && checkers' == checkers && listeners' == listeners
  {
    hide Wanted, ByName;
    assert Restrict(states, states'.Keys) == states;
    assert Restrict(checkers, checkers'.Keys) == checkers;
    assert Restrict(listeners, listeners'.Keys) == listeners;
    forall n | n in listeners ensures listeners'[n] == listeners[n] {
      assert Serves(listeners, listeners'[n], n, ByName(cfg.listeners)[n], nextListener, binds);
    }
  }

  // ---------- the proxy ----------

  class Proxy {
    var groups: Groups
    var states: States
    var checkers: Checkers
    var listeners: Listeners
    var generation: nat
    var config: Config
    var stopped: bool
    var nextId: Id // of a checker
    var nextListener: Id

    // every checker started and listener created so far, and the calls of cancel and close
    ghost var started: set<Id>
    ghost var cancelled: multiset<Id>
    ghost var created: set<Id>
    ghost var closed: multiset<Id>

    ghost predicate Counted()
      reads this
    {
      && TargetsOk(states, checkers, nextId, started, cancelled)
      && ListenersOk(listeners, nextListener, created, closed)
    }

    /** The books are right and, until shutdown, exactly the configuration runs. */
    ghost predicate Valid()
      reads this
    {
      && Counted() && Routed(config, |config.groups|, groups, states)
      && (!stopped ==> ChecksRun(config, checkers) && ListenersRun(config, listeners))
    }

    constructor ()
      ensures Valid() && !stopped && generation == 0 && config == Config([], [])
      ensures states == map[] && checkers == map[] && listeners == map[]
    {
      groups, states, checkers, listeners := map[], map[], map[], map[];
      generation, config, stopped, nextId, nextListener := 0, Config([], []), false, 0, 0;
      started, cancelled, created, closed := {}, multiset{}, {}, multiset{};
    }

    // ---------- targets ----------

    /** The running checker when it was started with the same check, else a fresh one. */
    method EnsureChecker(key: StateKey, check: HealthCheck)
      requires CheckersCounted(checkers, nextId, started, cancelled)
      requires key in states && (key in checkers ==> checkers[key].state == states[key])
      modifies this`checkers, this`nextId, this`started, this`cancelled
      ensures CheckersCounted(checkers, nextId, started, cancelled)
      ensures checkers.Keys == old(checkers).Keys + {key}
      ensures forall k :: k in checkers && k != key ==> checkers[k] == old(checkers)[k]
      ensures checkers[key].check == check && checkers[key].state == states[key]
      ensures nextId >= old(nextId)
      ensures if key in old(checkers) && old(checkers)[key].check == check then checkers[key] == old(checkers)[key]
              else checkers[key].id >= old(nextId)
    {
      hide *;
      if key !in checkers || checkers[key].check != check {
        var checker := Checker(nextId, check, states[key]);
        StartCounted(checkers, key, checker, nextId, started, cancelled);
        cancelled := cancelled + if key in checkers then multiset{checkers[key].id} else multiset{};
        checkers := checkers[key := checker];
        started := started + {checker.id};
        nextId := nextId + 1;
      }
    }

    /** One target of the new configuration, whose state is filed. The ghost parameters are the checkers the
        reload started from and the checks it has seen. */
    method CheckTarget(key: StateKey, check: HealthCheck, ghost checkers0: Checkers, ghost next0: Id,
                       ghost want: Checks)
      requires CheckersCounted(checkers, nextId, started, cancelled) && Reports(states, checkers) && key in states
      requires next0 <= nextId && CheckersCarried(checkers0, checkers, want, next0)
      requires key in want ==> want[key] == check
      modifies this`checkers, this`nextId, this`started, this`cancelled
      ensures CheckersCounted(checkers, nextId, started, cancelled) && Reports(states, checkers)
      ensures next0 <= nextId && CheckersCarried(checkers0, checkers, want[key := check], next0)
    {
      hide CheckersCounted, CheckersCarried;
      ghost var mid := checkers;
      EnsureChecker(key, check);
      CarryChecker(checkers0, mid, checkers, want, key, check, next0);
    }

    /** A group of the new configuration, whose targets adopt the states filed under their keys. */
    method AdoptGroup(gc: TargetGroup) returns (g: Group)
      requires forall j :: 0 <= j < |gc.targets| ==> gc.targets[j].weight >= 1
      modifies this`states
      ensures StatesCarried(old(states), states, KeysOf(gc.name, gc.targets)) && Routes(gc, g, states)
      ensures Apart(old(states)) ==> Apart(states)
      ensures forall k :: k in states && k !in old(states) ==> fresh(states[k])
    {
      g, states := NewGroup(gc.name, gc.targets, states);
    }

    /** The checkers of one group, which goes by a name no group before it has. */
    method CheckGroup(gc: TargetGroup, keep: set<StateKey>, ghost checkers0: Checkers, ghost next0: Id,
                      ghost want: Checks)
      returns (keep': set<StateKey>)
      requires CheckersCounted(checkers, nextId, started, cancelled) && Reports(states, checkers)
      requires next0 <= nextId && CheckersCarried(checkers0, checkers, want, next0)
      requires keep == want.Keys && forall k :: k in want ==> k.group != gc.name
      requires forall j :: 0 <= j < |gc.targets| ==> KeyOf(gc.name, gc.targets[j]) in states
      modifies this`checkers, this`nextId, this`started, this`cancelled
      ensures CheckersCounted(checkers, nextId, started, cancelled) && Reports(states, checkers)
      ensures next0 <= nextId && keep' == WithTargets(want, gc, |gc.targets|).Keys
      ensures CheckersCarried(checkers0, checkers, WithTargets(want, gc, |gc.targets|), next0)
    {
      hide CheckersCounted, CheckersCarried, WithTargets, Reports;
      keep' := keep;
      FirstTargets(want, gc);
      for n := 0 to |gc.targets|
        invariant CheckersCounted(checkers, nextId, started, cancelled) && Reports(states, checkers)
        invariant next0 <= nextId && keep' == WithTargets(want, gc, n).Keys
        invariant CheckersCarried(checkers0, checkers, WithTargets(want, gc, n), next0)
      {
        var key := KeyOf(gc.name, gc.targets[n]);
        TargetsAdd(want, gc, n, key);
        NextTarget(want, gc, n);
        keep' := keep' + {key};
        CheckTarget(key, gc.check, checkers0, next0, WithTargets(want, gc, n));
      }
    }

    /** Both for one group. */
    method AddGroup(gc: TargetGroup, keep: set<StateKey>,
                    ghost states0: States, ghost checkers0: Checkers, ghost next0: Id, ghost want: Checks)
      returns (g: Group, keep': set<StateKey>)
      requires TargetsOk(states, checkers, nextId, started, cancelled) && states0.Keys == checkers0.Keys
      requires next0 <= nextId && StatesCarried(states0, states, want.Keys)
      requires CheckersCarried(checkers0, checkers, want, next0)
      requires keep == want.Keys && forall k :: k in want ==> k.group != gc.name
      requires forall j :: 0 <= j < |gc.targets| ==> gc.targets[j].weight >= 1
      modifies this`states, this`checkers, this`nextId, this`started, this`cancelled
      ensures TargetsOk(states, checkers, nextId, started, cancelled)
      ensures next0 <= nextId && keep' == WithTargets(want, gc, |gc.targets|).Keys
      ensures StatesCarried(states0, states, keep')
      ensures old(states).Keys <= states.Keys && forall k :: k in old(states) ==> states[k] == old(states)[k]
      ensures CheckersCarried(checkers0, checkers, WithTargets(want, gc, |gc.targets|), next0)
      ensures Routes(gc, g, states)
      ensures forall k :: k in states && k !in old(states) ==> fresh(states[k])
    {
      hide CheckersCounted, CheckersCarried, WithTargets, KeysOf, StatesCarried, Reports, Apart;
      ghost var before := states;
      g := AdoptGroup(gc);
      StatesKept(before, states, KeysOf(gc.name, gc.targets));
      ReportsKept(before, states, checkers);
      ghost var filed := states;
      keep' := CheckGroup(gc, keep, checkers0, next0, want);
      TargetKeys(want, gc, |gc.targets|);
      assert gc.targets[..|gc.targets|] == gc.targets;
      CarryOn(states0, before, states, want.Keys, KeysOf(gc.name, gc.targets));
      CarriedKeys(checkers0, checkers, WithTargets(want, gc, |gc.targets|), next0);
      CarriedStateKeys(states0, states, keep');
    }

    /** Stops the checker of every key that is not kept and forgets its state. */
    method Sweep(keep: set<StateKey>)
      requires TargetsOk(states, checkers, nextId, started, cancelled)
      modifies this`states, this`checkers, this`cancelled
      ensures TargetsOk(states, checkers, nextId, started, cancelled)
      ensures states == Restrict(old(states), keep) && checkers == Restrict(old(checkers), keep)
    {
      hide CheckersCounted, Reports, Restrict, Apart;
      ghost var states0, checkers0 := states, checkers;
      var left := checkers.Keys;
      RestrictAll(states0, keep);
      RestrictAll(checkers0, keep);
      while left != {}
        invariant left <= checkers0.Keys
        invariant states == Restrict(states0, keep + left) && checkers == Restrict(checkers0, keep + left)
        invariant Reports(states, checkers) && CheckersCounted(checkers, nextId, started, cancelled)
        decreases |left|
      {
        var key :| key in left;
        RestrictLess(states0, keep, left, key);
        RestrictLess(checkers0, keep, left, key);
        left := left - {key};
        if key !in keep {
          StopCounted(checkers, key, nextId, started, cancelled);
          ReportsWithout(states, checkers, key);
          cancelled := cancelled + multiset{checkers[key].id};
          checkers := checkers - {key};
          states := states - {key};
        }
      }
      assert keep + {} == keep;
      RestrictKeys(states0, keep);
      RestrictKeys(checkers0, keep);
      RestrictApart(states0, keep);
    }

    // ---------- listeners ----------

    /** One listener of the new configuration. The socket is kept when it is bound for the same thing;
        otherwise the old listener is closed and a fresh one tries to bind. */
    method PlaceListener(lc: ListenerConfig, binds: Id -> bool)
      requires ListenersOk(listeners, nextListener, created, closed)
      modifies this`listeners, this`nextListener, this`created, this`closed
      ensures ListenersOk(listeners, nextListener, created, closed)
      ensures nextListener >= old(nextListener)
      ensures listeners.Keys == old(listeners).Keys + {lc.name}
      ensures forall n :: n in listeners && n != lc.name ==> listeners[n] == old(listeners)[n]
      ensures Serves(old(listeners), listeners[lc.name], lc.name, lc, old(nextListener), binds)
    {
      hide ListenersOk;
      if lc.name in listeners && listeners[lc.name].key == lc.bind {
        var l := listeners[lc.name].(config := lc);
        RefreshCounted(listeners, lc.name, l, nextListener, created, closed);
        listeners := listeners[lc.name := l];
      } else {
        var l := Listener(nextListener, lc.bind, lc, binds(nextListener));
        OpenCounted(listeners, lc.name, l, nextListener, created, closed);
        closed := closed + if lc.name in listeners then multiset{listeners[lc.name].id} else multiset{};
        listeners := listeners[lc.name := l];
        created := created + {l.id};
        nextListener := nextListener + 1;
      }
    }

    method PlaceNext(lc: ListenerConfig, binds: Id -> bool,
                     ghost listeners0: Listeners, ghost next0: Id, ghost want: map<string, ListenerConfig>)
      requires ListenersOk(listeners, nextListener, created, closed)
      requires next0 <= nextListener && ListenersCarried(listeners0, listeners, want, next0, binds) && lc.name !in want
      modifies this`listeners, this`nextListener, this`created, this`closed
      ensures ListenersOk(listeners, nextListener, created, closed)
      ensures next0 <= nextListener && ListenersCarried(listeners0, listeners, want[lc.name := lc], next0, binds)
    {
      hide *;
      ghost var mid, next := listeners, nextListener;
      PlaceListener(lc, binds);
      ServesLater(mid, listeners[lc.name], lc.name, lc, next0, next, binds);
      CarryListener(listeners0, mid, listeners, want, lc, next0, binds);
    }

    /** Closes every listener whose name is not wanted. */
    method DropListeners(wanted: set<string>)
      requires ListenersOk(listeners, nextListener, created, closed)
      modifies this`listeners, this`closed
      ensures ListenersOk(listeners, nextListener, created, closed)
      ensures listeners == Restrict(old(listeners), wanted)
    {
      hide ListenersOk;
      var left := listeners.Keys;
      while left != {}
        invariant left <= listeners.Keys <= old(listeners).Keys
        invariant ListenersOk(listeners, nextListener, created, closed)
        invariant forall n :: n in old(listeners) ==> (n in listeners <==> n in left || n in wanted)
        invariant forall n :: n in listeners ==> listeners[n] == old(listeners)[n]
        decreases |left|
      {
        var name :| name in left;
        left := left - {name};
        if name !in wanted {
          CloseCounted(listeners, name, nextListener, created, closed);
          closed := closed + multiset{listeners[name].id};
          listeners := listeners - {name};
        }
      }
    }

    // ---------- the operations ----------

    /** The first `i` groups of a configuration are in place, beside what else still ran before. */
    ghost predicate Midway(cfg: Config, i: nat, made: Groups, keep: set<StateKey>,
                           states0: States, checkers0: Checkers, next0: Id)
      requires i <= |cfg.groups|
      reads this
    {
      && TargetsOk(states, checkers, nextId, started, cancelled)
      && next0 <= nextId && keep == Wanted(cfg.groups, i).Keys && StatesCarried(states0, states, keep)
      && CheckersCarried(checkers0, checkers, Wanted(cfg.groups, i), next0)
      && Routed(cfg, i, made, states)
    }

    lemma BeginReload(cfg: Config)
      requires TargetsOk(states, checkers, nextId, started, cancelled)
      ensures Midway(cfg, 0, map[], {}, states, checkers, nextId) && states.Keys == checkers.Keys
    {
      hide CheckersCounted, Reports, Apart;
      NoGroups(cfg.groups);
      CarryAll(states, checkers, nextId);
      NothingRouted(cfg, states);
    }

    method AddNext(cfg: Config, i: nat, made: Groups, keep: set<StateKey>,
                   ghost states0: States, ghost checkers0: Checkers, ghost next0: Id)
      returns (made': Groups, keep': set<StateKey>)
      requires Validated(cfg) && i < |cfg.groups| && states0.Keys == checkers0.Keys
      requires Midway(cfg, i, made, keep, states0, checkers0, next0)
      modifies this`states, this`checkers, this`nextId, this`started, this`cancelled
      ensures Midway(cfg, i + 1, made', keep', states0, checkers0, next0)
      ensures forall k :: k in states && k !in old(states) ==> fresh(states[k])
      ensures forall k :: k in old(states) && k in states ==> states[k] == old(states)[k]
    {
      assert Midway(cfg, i, made, keep, states0, checkers0, next0);
      hide TargetsOk, StatesCarried, CheckersCarried, Routed, Routes, Wanted, Validated;
      EarlierGroups(cfg, i);
      NextGroup(cfg.groups, i);
      ghost var before := states;
      var g;
      g, keep' := AddGroup(cfg.groups[i], keep, states0, checkers0, next0, Wanted(cfg.groups, i));
      RouteOneMore(cfg, i, made, g, before, states);
      made' := made[cfg.groups[i].name := g];
    }

    /** All groups of the new configuration, beside what else still runs. */
    method AddGroups(cfg: Config) returns (made: Groups, keep: set<StateKey>)
      requires Validated(cfg) && TargetsOk(states, checkers, nextId, started, cancelled)
      modifies this`states, this`checkers, this`nextId, this`started, this`cancelled
      ensures Midway(cfg, |cfg.groups|, made, keep, old(states), old(checkers), old(nextId))
      ensures forall k :: k in states && k !in old(states) ==> fresh(states[k])
    {
      hide *;
      ghost var states0, checkers0, next0 := states, checkers, nextId;
      BeginReload(cfg);
      keep, made := {}, map[];
      for i := 0 to |cfg.groups|
        invariant Midway(cfg, i, made, keep, states0, checkers0, next0)
        invariant forall k :: k in states && k !in states0 ==> fresh(states[k])
      {
        made, keep := AddNext(cfg, i, made, keep, states0, checkers0, next0);
      }
    }

    method ApplyTargets(cfg: Config)
      requires Validated(cfg) && TargetsOk(states, checkers, nextId, started, cancelled)
      modifies this`groups, this`states, this`checkers, this`nextId, this`started, this`cancelled
      ensures TargetsOk(states, checkers, nextId, started, cancelled) && ChecksRun(cfg, checkers)
      ensures StatesCarried(Restrict(old(states), states.Keys), states, states.Keys)
      ensures forall k :: k in states && k !in old(states) ==> fresh(states[k])
      ensures CheckersCarried(Restrict(old(checkers), checkers.Keys), checkers, Wanted(cfg.groups, |cfg.groups|),
                              old(nextId))
      ensures Routed(cfg, |cfg.groups|, groups, states)
    {
      hide TargetsOk, StatesCarried, CheckersCarried, Restrict, Routed, Wanted, ChecksRun;
      ghost var states0, checkers0, next0 := states, checkers, nextId;
      var keep;
      groups, keep := AddGroups(cfg);
      ghost var states1, checkers1 := states, checkers;
      Sweep(keep);
      SweepStates(states0, states1, states, keep);
      SweepCheckers(checkers0, checkers1, checkers, Wanted(cfg.groups, |cfg.groups|), next0);
      RunsCarried(cfg, Restrict(checkers0, keep), checkers, next0);
      RoutesSwept(cfg, groups, states1, states);
      RestrictAt(states1, keep);
    }

    method ApplyListeners(cfg: Config, binds: Id -> bool)
      requires Validated(cfg) && ListenersOk(listeners, nextListener, created, closed)
      modifies this`listeners, this`nextListener, this`created, this`closed
      ensures ListenersOk(listeners, nextListener, created, closed) && ListenersRun(cfg, listeners)
      ensures ListenersCarried(Restrict(old(listeners), listeners.Keys), listeners, ByName(cfg.listeners),
                               old(nextListener), binds)
    {
      hide ListenersOk, ListenersCarried, ListenersRun, Restrict;
      ghost var listeners0, next0 := listeners, nextListener;
      var wanted: set<string> := {};
      CarryListeners(listeners0, next0, binds);
      for i := 0 to |cfg.listeners|
        invariant ListenersOk(listeners, nextListener, created, closed)
        invariant next0 <= nextListener && wanted == ByName(cfg.listeners[..i]).Keys
        invariant ListenersCarried(listeners0, listeners, ByName(cfg.listeners[..i]), next0, binds)
      {
        var lc := cfg.listeners[i];
        EarlierListeners(cfg, i);
        PlaceNext(lc, binds, listeners0, next0, ByName(cfg.listeners[..i]));
        wanted := wanted + {lc.name};
      }
      assert cfg.listeners[..|cfg.listeners|] == cfg.listeners;
      ghost var listeners1 := listeners;
      DropListeners(wanted);
      DropCarried(listeners0, listeners1, listeners, ByName(cfg.listeners), next0, binds);
      ServesCarried(cfg, Restrict(listeners0, wanted), listeners, next0, binds);
    }

    /** Makes `cfg` the running configuration. States, checkers and sockets that it does not change survive;
        everything else is stopped, closed or started, once. `binds` says which sockets the host lets open. */
    method Apply(cfg: Config, binds: Id -> bool)
      requires Valid() && Validated(cfg)
      modifies this
      ensures Valid() && ChecksRun(cfg, checkers) && ListenersRun(cfg, listeners)
      ensures config == cfg && generation == old(generation) + 1 && stopped == old(stopped)
      ensures StatesCarried(Restrict(old(states), states.Keys), states, states.Keys)
      ensures forall k :: k in states && k !in old(states) ==> fresh(states[k])
      ensures CheckersCarried(Restrict(old(checkers), checkers.Keys), checkers, Wanted(cfg.groups, |cfg.groups|),
                              old(nextId))
      ensures ListenersCarried(Restrict(old(listeners), listeners.Keys), listeners, ByName(cfg.listeners),
                               old(nextListener), binds)
      ensures cfg == old(config) && !stopped ==>
                states == old(states) && checkers == old(checkers) && listeners == old(listeners)
    {
      hide CheckersCounted, ChecksRun, ListenersRun, StatesCarried, CheckersCarried, ListenersCarried, Restrict;
      hide CheckerIds, ListenerIds, Reports, Routed, Apart;
      ghost var states0, checkers0, listeners0 := states, checkers, listeners;
      ghost var next0, nextListener0 := nextId, nextListener;
      ApplyTargets(cfg);
      ApplyListeners(cfg, binds);
      if cfg == config && !stopped {
        ReloadKeepsAll(cfg, states0, states, checkers0, checkers, listeners0, listeners, next0, nextListener0, binds);
      }
      config := cfg;
      generation := generation + 1;
    }

    /** Tries again to bind the listeners that are not bound; nothing else changes. */
    method RetryBinds(binds: Id -> bool)
      requires Valid()
      modifies this`listeners
      ensures Valid()
      ensures listeners == map n | n in old(listeners) ::
                old(listeners)[n].(bound := old(listeners)[n].bound || binds(old(listeners)[n].id))
    {
      hide TargetsOk, ListenersOk, ChecksRun, ByName, Routed;
      var left := listeners.Keys;
      while left != {}
        invariant left <= listeners.Keys == old(listeners).Keys
        invariant ListenersOk(listeners, nextListener, created, closed)
        invariant forall n :: n in left ==> listeners[n] == old(listeners)[n]
        invariant forall n :: n in listeners && n !in left ==>
                    listeners[n] == old(listeners)[n].(bound := old(listeners)[n].bound || binds(old(listeners)[n].id))
        decreases |left|
      {
        var name :| name in left;
        left := left - {name};
        if !listeners[name].bound {
          var l := listeners[name].(bound := binds(listeners[name].id));
          ListenerKeyed(listeners, name, nextListener, created, closed);
          RefreshCounted(listeners, name, l, nextListener, created, closed);
          listeners := listeners[name := l];
        }
      }
    }

    /** The checkers that run: started, not cancelled, and under a context that has not ended. */
    ghost function Running(): set<Id>
      reads this
    {
      if stopped then {} else set i | i in started && i !in cancelled
    }

    /** Until shutdown exactly the checkers on file run, one for each target of the configuration. */
    lemma RunningAreOnFile()
      requires Valid() && !stopped
      ensures Running() == CheckerIds(checkers)
    {
      forall i | i in CheckerIds(checkers) ensures i in started {
        var k :| k in checkers && checkers[k].id == i;
      }
    }

    /** A target of a running group, the state filed under its key and the checker of that key are one: what
        the checker and the traffic observe is what the group goes by. */
    lemma OneStatePerTarget(i: nat, j: nat)
      requires Valid() && i < |config.groups| && j < |config.groups[i].targets|
      ensures var key := KeyOf(config.groups[i].name, config.groups[i].targets[j]);
              && config.groups[i].name in groups && j < |groups[config.groups[i].name].targets|
              && key in states && key in checkers
              && groups[config.groups[i].name].targets[j].state == states[key] == checkers[key].state
    {
      assert Routes(config.groups[i], groups[config.groups[i].name], states);
      assert KeyOf(config.groups[i].name, config.groups[i].targets[j]) in states.Keys;
    }

    /** And no other target shares it: two targets of running groups have one state exactly when they are in
        one group and have one address and port. */
    lemma StatesApart(i: nat, j: nat, k: nat, l: nat)
      requires Valid() && i < |config.groups| && j < |config.groups[i].targets|
      requires k < |config.groups| && l < |config.groups[k].targets|
      ensures var one, other := config.groups[i], config.groups[k];
              && one.name in groups && other.name in groups
              && j < |groups[one.name].targets| && l < |groups[other.name].targets|
              && (groups[one.name].targets[j].state == groups[other.name].targets[l].state <==>
                  && one.name == other.name && one.targets[j].address == other.targets[l].address
                  && one.targets[j].port == other.targets[l].port)
    {
      OneStatePerTarget(i, j);
      OneStatePerTarget(k, l);
      var one, other := config.groups[i], config.groups[k];
      KeysApart(one.name, one.targets[j], other.name, other.targets[l]);
      hide Routed, CheckersCounted, ListenersOk, ChecksRun, ListenersRun, Reports;
    }

    /** Closes every listener and ends the context every checker runs under. */
    method Shutdown()
      requires Valid()
      modifies this`listeners, this`closed, this`stopped
      ensures Valid() && stopped && listeners == map[]
      ensures closed == multiset(created)
      ensures Running() == {}
    {
      hide TargetsOk, ListenersOk, CheckerIds, ListenersRun, ChecksRun, Routed;
      DropListeners({});
      assert listeners == map[];
      AllClosed(nextListener, created, closed);
      stopped := true;
    }
  }
}
