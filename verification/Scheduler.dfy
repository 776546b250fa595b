/** One pass of the compute scheduler: evict, account, place, record. */
module Scheduler {
  import opened Options

  type Labels = map<string, string>

  datatype Alloc = Alloc(cpu: real, mem: int, pods: int)

  datatype Phase = Fresh | Pending | Ready

  /** `node` is empty while the compute is not placed. */
  datatype Compute = Compute(uid: string, deleting: bool, node: string, cpu: real, mem: int, pool: string)

  datatype Node = Node(uid: string, labels: Labels, cpus: int, memory: int, maxPods: int,
                       lastSeen: Option<int>, committed: Alloc, phase: Phase)

  datatype Pool = Pool(uid: string, selector: Labels, total: nat, ready: nat, phase: Phase)

  /** What a pass reads and does not change: the clock, the ready window, and the writes that fail. */
  datatype Setting = Setting(now: int, window: int, failing: set<string>)

  datatype World = World(computes: seq<Compute>, nodes: seq<Node>, pools: seq<Pool>)

  const Zero := Alloc(0.0, 0, 0)

  // ---------- nodes ----------

  predicate NodeReady(s: Setting, n: Node) {
    n.lastSeen.Some? && s.now - n.lastSeen.value <= s.window
  }

  /** Whether `name` is the UID of a ready node. */
  predicate ReadyNode(s: Setting, nodes: seq<Node>, name: string) {
    exists i :: 0 <= i < |nodes| && nodes[i].uid == name && NodeReady(s, nodes[i])
  }

  /** An absent label reads as the empty string. */
  predicate MatchLabels(labels: Labels, selector: Labels) {
    forall k :: k in selector ==> (if k in labels then labels[k] else "") == selector[k]
  }

  function PoolSelector(pools: seq<Pool>, id: string): Option<Labels> {
    if id == "" then Some(map[])
    else if pools == [] then None
    else if pools[0].uid == id then Some(pools[0].selector)
    else PoolSelector(pools[1..], id)
  }

  /** There is room on `n`, of which `a` is taken, for a request. */
  predicate Fits(n: Node, a: Alloc, cpu: real, mem: int) {
    && (n.maxPods > 0 ==> a.pods < n.maxPods)
    && a.cpu + cpu <= n.cpus as real
    && a.mem + mem <= n.memory
  }

  predicate WithinCapacity(n: Node, a: Alloc) {
    && (n.maxPods > 0 ==> a.pods <= n.maxPods)
    && a.cpu <= n.cpus as real
    && a.mem <= n.memory
  }

  /** Node UIDs are store keys: present and distinct. */
  ghost predicate Keyed(nodes: seq<Node>) {
    && (forall i :: 0 <= i < |nodes| ==> nodes[i].uid != "")
    && (forall i, j :: 0 <= i < j < |nodes| ==> nodes[i].uid != nodes[j].uid)
  }

  // ---------- accounting ----------

  function Plus(a: Alloc, c: Compute): Alloc {
    Alloc(a.cpu + c.cpu, a.mem + c.mem, a.pods + 1)
  }

  predicate CountsOn(c: Compute, name: string) {
    !c.deleting && c.node == name
  }

  /** What the computes placed on `name` and not being deleted add up to. */
  function Usage(cs: seq<Compute>, name: string): Alloc {
    if cs == [] then Zero
    else var u := Usage(cs[..|cs| - 1], name);
      if CountsOn(cs[|cs| - 1], name) then Plus(u, cs[|cs| - 1]) else u
  }

  predicate NoMore(a: Alloc, b: Alloc) {
    a.cpu <= b.cpu && a.mem <= b.mem && a.pods <= b.pods
  }

  ghost predicate NonNegative(cs: seq<Compute>) {
    forall i :: 0 <= i < |cs| ==> cs[i].cpu >= 0.0 && cs[i].mem >= 0
  }

  /** Placing one more compute adds its demand to its node and to no other. */
  lemma {:induction false} UsageOfPlaced(cs: seq<Compute>, i: nat, to: string, name: string)
    requires i < |cs| && !cs[i].deleting && cs[i].node != name
    ensures Usage(cs[i := cs[i].(node := to)], name) ==
            if to == name then Plus(Usage(cs, name), cs[i]) else Usage(cs, name)
  {
    var n := |cs| - 1;
    var cs' := cs[i := cs[i].(node := to)];
    if i < n {
      UsageOfPlaced(cs[..n], i, to, name);
      assert cs'[..n] == cs[..n][i := cs[i].(node := to)];
    } else {
      assert cs'[..n] == cs[..n];
    }
  }

  // ---------- choosing a node ----------

  predicate Eligible(s: Setting, n: Node, selector: Labels, a: Alloc, cpu: real, mem: int) {
    NodeReady(s, n) && MatchLabels(n.labels, selector) && Fits(n, a, cpu, mem)
  }

  /** `name` is the UID of an eligible node with the fewest pods, the first of those in order; empty
      exactly when no node is eligible. */
  ghost predicate IsPick(s: Setting, nodes: seq<Node>, alloc: map<string, Alloc>, selector: Labels, cpu: real,
                         mem: int, name: string)
    requires forall i :: 0 <= i < |nodes| ==> nodes[i].uid in alloc
  {
    if name == "" then
      forall i :: 0 <= i < |nodes| ==> !Eligible(s, nodes[i], selector, alloc[nodes[i].uid], cpu, mem)
    else exists i :: 0 <= i < |nodes| && nodes[i].uid == name && IsFirstBest(s, nodes, alloc, selector, cpu, mem, i)
  }

  ghost predicate IsFirstBest(s: Setting, nodes: seq<Node>, alloc: map<string, Alloc>, selector: Labels, cpu: real,
                              mem: int, i: nat)
    requires i < |nodes| && forall j :: 0 <= j < |nodes| ==> nodes[j].uid in alloc
  {
    && Eligible(s, nodes[i], selector, alloc[nodes[i].uid], cpu, mem)
    && forall j :: 0 <= j < |nodes| && Eligible(s, nodes[j], selector, alloc[nodes[j].uid], cpu, mem) ==>
         var a, b := alloc[nodes[i].uid].pods, alloc[nodes[j].uid].pods;
         a <= b && (j < i ==> a < b)
  }

  method PickNode(s: Setting, nodes: seq<Node>, alloc: map<string, Alloc>, selector: Labels, cpu: real, mem: int)
    returns (best: string)
    requires Keyed(nodes)
    requires forall i :: 0 <= i < |nodes| ==> nodes[i].uid in alloc
    ensures IsPick(s, nodes, alloc, selector, cpu, mem, best)
  {
    best := "";
    var bestPods := -1;
    ghost var at := 0;
    for i := 0 to |nodes|
      invariant best == "" ==> forall j :: 0 <= j < i ==>
          !Eligible(s, nodes[j], selector, alloc[nodes[j].uid], cpu, mem)
      invariant best != "" ==> 0 <= at < i && nodes[at].uid == best && bestPods == alloc[best].pods
      invariant best != "" ==> IsFirstBest(s, nodes[..i], alloc, selector, cpu, mem, at)
    {
      var n := nodes[i];
      if !NodeReady(s, n) || !MatchLabels(n.labels, selector) { continue; }
      var a := alloc[n.uid];
      if n.maxPods > 0 && a.pods >= n.maxPods { continue; }
      if a.cpu + cpu > n.cpus as real { continue; }
      if a.mem + mem > n.memory { continue; }
      if best == "" || a.pods < bestPods {
        best := n.uid;
        bestPods := a.pods;
        at := i;
      }
    }
    assert nodes[..|nodes|] == nodes;
  }

  // ---------- the pass ----------

  function Uids(nodes: seq<Node>): set<string> {
    set i | 0 <= i < |nodes| :: nodes[i].uid
  }

  /** The tracked allocation of every node. */
  function AllocOf(nodes: seq<Node>, cs: seq<Compute>): (m: map<string, Alloc>)
    ensures m.Keys == Uids(nodes)
  {
    map u | u in Uids(nodes) :: Usage(cs, u)
  }

  /** Clearing placements on nodes that are not ready, where the write goes through. */
  function EvictOne(s: Setting, nodes: seq<Node>, c: Compute): Compute {
    if c.deleting || c.node == "" || ReadyNode(s, nodes, c.node) || c.uid in s.failing then c else c.(node := "")
  }

  function Evict(s: Setting, nodes: seq<Node>, cs: seq<Compute>): (r: seq<Compute>)
    ensures |r| == |cs|
    ensures forall i :: 0 <= i < |cs| ==> r[i] == EvictOne(s, nodes, cs[i])
  {
    seq(|cs|, i requires 0 <= i < |cs| => EvictOne(s, nodes, cs[i]))
  }

  /** The turn of compute `i` in the placement loop. */
  ghost predicate PlaceStep(s: Setting, w: World, cs: seq<Compute>, i: nat, cs': seq<Compute>)
    requires i < |cs|
  {
    var c := cs[i];
    if c.deleting || c.node != "" || PoolSelector(w.pools, c.pool) == None then cs' == cs
    else exists name ::
      && IsPick(s, w.nodes, AllocOf(w.nodes, cs), PoolSelector(w.pools, c.pool).value, c.cpu, c.mem, name)
      && cs' == if name == "" || c.uid in s.failing then cs else cs[i := c.(node := name)]
  }

  /** The computes before each turn of the placement loop, and after the last. */
  ghost predicate PlaceRun(s: Setting, w: World, start: seq<Compute>, run: seq<seq<Compute>>) {
    && |run| >= 1 && run[0] == start
    && |run| <= |start| + 1
    && (forall k :: 0 <= k < |run| ==> |run[k]| == |start|)
    && (forall k :: 0 <= k < |run| - 1 ==> PlaceStep(s, w, run[k], k, run[k + 1]))
  }

  function NodeAfter(s: Setting, cs: seq<Compute>, n: Node): Node {
    n.(committed := Usage(cs, n.uid), phase := if NodeReady(s, n) then Ready else Pending)
  }

  function Members(s: Setting, nodes: seq<Node>, selector: Labels, onlyReady: bool): nat {
    if nodes == [] then 0 else
      var n := nodes[|nodes| - 1];
      Members(s, nodes[..|nodes| - 1], selector, onlyReady) +
      (if MatchLabels(n.labels, selector) && (onlyReady ==> NodeReady(s, n)) then 1 else 0)
  }

  function PoolAfter(s: Setting, nodes: seq<Node>, p: Pool): Pool {
    p.(total := Members(s, nodes, p.selector, false), ready := Members(s, nodes, p.selector, true), phase := Ready)
  }

  /** What a pass makes of the world: the placements of some run of the placement loop over what
      eviction left, with node and pool status recorded to match. */
  ghost predicate IsPass(s: Setting, w: World, w': World) {
    && (exists run ::
          && PlaceRun(s, w, Evict(s, w.nodes, w.computes), run)
          && |run| == |w.computes| + 1 && w'.computes == run[|w.computes|])
    && |w'.nodes| == |w.nodes| && |w'.pools| == |w.pools|
    && (forall i :: 0 <= i < |w.nodes| ==> w'.nodes[i] == NodeAfter(s, w'.computes, w.nodes[i]))
    && (forall i :: 0 <= i < |w.pools| ==> w'.pools[i] == PoolAfter(s, w.nodes, w.pools[i]))
  }

  /** The eviction loop. */
  method EvictAll(s: Setting, nodes: seq<Node>, computes: seq<Compute>) returns (cs: seq<Compute>)
    ensures cs == Evict(s, nodes, computes)
  {
    cs := computes;
    for i := 0 to |computes|
      invariant |cs| == |computes|
      invariant forall j :: 0 <= j < i ==> cs[j] == EvictOne(s, nodes, computes[j])
      invariant forall j :: i <= j < |cs| ==> cs[j] == computes[j]
    {
      var c := cs[i];
      if c.deleting || c.node == "" || ReadyNode(s, nodes, c.node) { continue; }
      if c.uid in s.failing { continue; }
      cs := cs[i := c.(node := "")];
    }
  }

  /** The accounting loop. */
  method Account(nodes: seq<Node>, cs: seq<Compute>) returns (alloc: map<string, Alloc>)
    ensures alloc == AllocOf(nodes, cs)
  {
    alloc := map u | u in Uids(nodes) :: Zero;
    for i := 0 to |cs|
      invariant alloc == AllocOf(nodes, cs[..i])
    {
      assert cs[..i + 1][..i] == cs[..i];
      var c := cs[i];
      if c.deleting { continue; }
      if c.node in alloc {
        alloc := alloc[c.node := Plus(alloc[c.node], c)];
      }
    }
    assert cs[..|cs|] == cs;
  }

  /** The placement loop: the tracked allocation is exact at every turn. */
  method PlaceAll(s: Setting, w: World, start: seq<Compute>)
    returns (cs: seq<Compute>, alloc: map<string, Alloc>, ghost run: seq<seq<Compute>>)
    requires Keyed(w.nodes)
    ensures PlaceRun(s, w, start, run) && |run| == |start| + 1 && cs == run[|start|]
    ensures alloc == AllocOf(w.nodes, cs)
  {
    hide AllocOf, PlaceStep;
    cs := start;
    alloc := Account(w.nodes, cs);
    run := [cs];
    for i := 0 to |start|
      invariant PlaceRun(s, w, start, run) && |run| == i + 1 && run[i] == cs
      invariant alloc == AllocOf(w.nodes, cs)
    {
      cs, alloc := PlaceOne(s, w, cs, i, alloc);
      run := run + [cs];
    }
  }

  method PlaceOne(s: Setting, w: World, cs: seq<Compute>, i: nat, alloc: map<string, Alloc>)
    returns (cs': seq<Compute>, alloc': map<string, Alloc>)
    requires Keyed(w.nodes) && i < |cs| && alloc == AllocOf(w.nodes, cs)
    ensures |cs'| == |cs| && PlaceStep(s, w, cs, i, cs')
    ensures alloc' == AllocOf(w.nodes, cs')
  {
    cs', alloc' := cs, alloc;
    var c := cs[i];
    if c.deleting || c.node != "" { return; }
    var selector := PoolSelector(w.pools, c.pool);
    if selector == None { return; }
    var name := PickNode(s, w.nodes, alloc, selector.value, c.cpu, c.mem);
    if name == "" { return; }
    if c.uid in s.failing { return; }
    cs' := cs[i := c.(node := name)];
    alloc' := alloc[name := Plus(alloc[name], c)];
    forall u | u in Uids(w.nodes) ensures alloc'[u] == Usage(cs', u) {
      UsageOfPlaced(cs, i, name, u);
    }
  }

  method Reconcile(s: Setting, w: World) returns (w': World)
    requires Keyed(w.nodes)
    ensures IsPass(s, w, w')
  {
    var evicted := EvictAll(s, w.nodes, w.computes);
    var cs, alloc, run := PlaceAll(s, w, evicted);
    var nodes: seq<Node> := [];
    for i := 0 to |w.nodes|
      invariant |nodes| == i
      invariant forall j :: 0 <= j < i ==> nodes[j] == NodeAfter(s, cs, w.nodes[j])
    {
      var n := w.nodes[i];
      var want := alloc[n.uid];
      var phase := if NodeReady(s, n) then Ready else Pending;
      nodes := nodes + [if n.committed == want && n.phase == phase then n else n.(committed := want, phase := phase)];
    }
    var pools: seq<Pool> := [];
    for i := 0 to |w.pools|
      invariant |pools| == i
      invariant forall j :: 0 <= j < i ==> pools[j] == PoolAfter(s, w.nodes, w.pools[j])
    {
      var total, ready := CountMembers(s, w.nodes, w.pools[i].selector);
      pools := pools + [w.pools[i].(total := total, ready := ready, phase := Ready)];
    }
    w' := World(cs, nodes, pools);
  }

  method CountMembers(s: Setting, nodes: seq<Node>, selector: Labels) returns (total: nat, ready: nat)
    ensures total == Members(s, nodes, selector, false) && ready == Members(s, nodes, selector, true)
  {
    total, ready := 0, 0;
    for i := 0 to |nodes|
      invariant total == Members(s, nodes[..i], selector, false)
      invariant ready == Members(s, nodes[..i], selector, true)
    {
      assert nodes[..i + 1][..i] == nodes[..i];
      if !MatchLabels(nodes[i].labels, selector) { continue; }
      total := total + 1;
      if NodeReady(s, nodes[i]) {
        ready := ready + 1;
      }
    }
    assert nodes[..|nodes|] == nodes;
  }

  // ---------- what every turn of the placement loop keeps ----------

  /** Node `j` could take compute `c` now. */
  predicate Open(s: Setting, w: World, cs: seq<Compute>, c: Compute, j: nat)
    requires j < |w.nodes|
  {
    var selector := PoolSelector(w.pools, c.pool);
    selector.Some? && Eligible(s, w.nodes[j], selector.value, Usage(cs, w.nodes[j].uid), c.cpu, c.mem)
  }

  /** A compute that cannot be placed: it names a missing pool, or no node has room for it. */
  ghost predicate Stuck(s: Setting, w: World, cs: seq<Compute>, c: Compute) {
    forall j :: 0 <= j < |w.nodes| ==> !Open(s, w, cs, c, j)
  }

  ghost predicate Waiting(c: Compute) {
    !c.deleting && c.node == ""
  }

  /** Everyone whose turn has passed and who is still waiting is stuck. */
  ghost predicate Settled(s: Setting, w: World, cs: seq<Compute>, k: nat)
    requires k <= |cs|
  {
    forall i :: 0 <= i < k && Waiting(cs[i]) ==> Stuck(s, w, cs, cs[i])
  }

  /** A turn changes nothing, or places its waiting compute on a node that was eligible for it, the first of
      those with the fewest pods. */
  lemma {:induction false} StepShape(s: Setting, w: World, cs: seq<Compute>, i: nat, cs': seq<Compute>) returns (n: nat)
    requires i < |cs| && PlaceStep(s, w, cs, i, cs')
    ensures cs' != cs ==>
              && Waiting(cs[i]) && cs[i].uid !in s.failing && n < |w.nodes| && Open(s, w, cs, cs[i], n)
              && cs' == cs[i := cs[i].(node := w.nodes[n].uid)]
    ensures cs' != cs ==> forall j :: 0 <= j < |w.nodes| && Open(s, w, cs, cs[i], j) ==>
              var a, b := Usage(cs, w.nodes[n].uid).pods, Usage(cs, w.nodes[j].uid).pods;
              a <= b && (j < n ==> a < b)
    ensures cs' == cs && Waiting(cs[i]) && s.failing == {} ==> Stuck(s, w, cs, cs[i])
  {
    n := 0;
    var c := cs[i];
    if Waiting(c) && PoolSelector(w.pools, c.pool).Some? {
      var alloc := AllocOf(w.nodes, cs);
      forall j | 0 <= j < |w.nodes|
        ensures w.nodes[j].uid in alloc && alloc[w.nodes[j].uid] == Usage(cs, w.nodes[j].uid)
      {
        assert w.nodes[j].uid in Uids(w.nodes);
      }
      var name :|
        && IsPick(s, w.nodes, alloc, PoolSelector(w.pools, c.pool).value, c.cpu, c.mem, name)
        && cs' == if name == "" || c.uid in s.failing then cs else cs[i := c.(node := name)];
      if name != "" {
        var at :| 0 <= at < |w.nodes| && w.nodes[at].uid == name &&
                  IsFirstBest(s, w.nodes, alloc, PoolSelector(w.pools, c.pool).value, c.cpu, c.mem, at);
        n := at;
        assert c.uid !in s.failing ==> cs'[i].node != cs[i].node;
      }
    }
  }

  /** What did not fit keeps not fitting: placing a compute only ever takes room away. */
  lemma {:induction false} StuckStays(s: Setting, w: World, cs: seq<Compute>, i: nat, to: string, c: Compute)
    requires Keyed(w.nodes) && i < |cs| && Waiting(cs[i]) && cs[i].cpu >= 0.0 && cs[i].mem >= 0
    requires Stuck(s, w, cs, c)
    ensures Stuck(s, w, cs[i := cs[i].(node := to)], c)
  {
    var cs' := cs[i := cs[i].(node := to)];
    forall j | 0 <= j < |w.nodes| ensures !Open(s, w, cs', c, j) {
      UsageOfPlaced(cs, i, to, w.nodes[j].uid);
      assert NoMore(Usage(cs, w.nodes[j].uid), Usage(cs', w.nodes[j].uid));
      assert !Open(s, w, cs, c, j);
    }
  }

  lemma {:induction false} StepSettles(s: Setting, w: World, cs: seq<Compute>, i: nat, cs': seq<Compute>)
    requires Keyed(w.nodes) && NonNegative(cs) && s.failing == {}
    requires i < |cs| && PlaceStep(s, w, cs, i, cs') && Settled(s, w, cs, i)
    ensures |cs'| == |cs| && NonNegative(cs') && Settled(s, w, cs', i + 1)
  {
    var n := StepShape(s, w, cs, i, cs');
    if cs' != cs {
      forall k | 0 <= k < i + 1 && Waiting(cs'[k]) ensures Stuck(s, w, cs', cs'[k]) {
        StuckStays(s, w, cs, i, w.nodes[n].uid, cs[k]);
      }
    }
  }

  lemma {:induction false} RunSettles(s: Setting, w: World, start: seq<Compute>, run: seq<seq<Compute>>, k: nat)
    requires Keyed(w.nodes) && NonNegative(start) && s.failing == {}
    requires PlaceRun(s, w, start, run) && k < |run|
    ensures |run[k]| == |start| && NonNegative(run[k]) && Settled(s, w, run[k], k)
  {
    if k > 0 {
      RunSettles(s, w, start, run, k - 1);
      StepSettles(s, w, run[k - 1], k - 1, run[k]);
    }
  }

  /** A run of the placement loop over computes that are all settled changes nothing. */
  lemma {:induction false} SettledRunIsStill(s: Setting, w: World, start: seq<Compute>, run: seq<seq<Compute>>, k: nat)
    requires Settled(s, w, start, |start|) && PlaceRun(s, w, start, run) && k < |run|
    ensures run[k] == start
  {
    if k > 0 {
      SettledRunIsStill(s, w, start, run, k - 1);
      assert PlaceStep(s, w, run[k - 1], k - 1, run[k]);
      var n := StepShape(s, w, run[k - 1], k - 1, run[k]);
    }
  }

  /** Everyone placed and not being deleted is on a ready node. */
  ghost predicate OnReadyNodes(s: Setting, nodes: seq<Node>, cs: seq<Compute>) {
    forall i :: 0 <= i < |cs| && !cs[i].deleting && cs[i].node != "" ==> ReadyNode(s, nodes, cs[i].node)
  }

  lemma {:induction false} RunStaysOnReadyNodes(s: Setting, w: World, start: seq<Compute>, run: seq<seq<Compute>>,
                                                k: nat)
    requires OnReadyNodes(s, w.nodes, start) && PlaceRun(s, w, start, run) && k < |run|
    ensures OnReadyNodes(s, w.nodes, run[k])
  {
    if k > 0 {
      RunStaysOnReadyNodes(s, w, start, run, k - 1);
      assert PlaceStep(s, w, run[k - 1], k - 1, run[k]);
      var n := StepShape(s, w, run[k - 1], k - 1, run[k]);
    }
  }

  // ---------- idempotence ----------

  /** Recording status changes nothing a later pass looks at. */
  ghost predicate SameInputs(s: Setting, v: World, w: World) {
    && |v.nodes| == |w.nodes| && |v.pools| == |w.pools|
    && (forall i :: 0 <= i < |v.nodes| ==>
          v.nodes[i].(committed := Zero, phase := Fresh) == w.nodes[i].(committed := Zero, phase := Fresh))
    && (forall i :: 0 <= i < |v.pools| ==>
          v.pools[i].uid == w.pools[i].uid && v.pools[i].selector == w.pools[i].selector)
  }

  lemma {:induction false} SameSelectors(p: seq<Pool>, q: seq<Pool>, id: string)
    requires |p| == |q| && forall i :: 0 <= i < |p| ==> p[i].uid == q[i].uid && p[i].selector == q[i].selector
    ensures PoolSelector(p, id) == PoolSelector(q, id)
  {
    if p != [] {
      SameSelectors(p[1..], q[1..], id);
    }
  }

  lemma {:induction false} SameReady(s: Setting, v: World, w: World, name: string)
    requires SameInputs(s, v, w)
    ensures ReadyNode(s, v.nodes, name) == ReadyNode(s, w.nodes, name)
  {
    forall i | 0 <= i < |v.nodes|
      ensures v.nodes[i].uid == w.nodes[i].uid && NodeReady(s, v.nodes[i]) == NodeReady(s, w.nodes[i])
    {
      assert v.nodes[i].(committed := Zero, phase := Fresh).uid == w.nodes[i].(committed := Zero, phase := Fresh).uid;
    }
  }

  lemma {:induction false} SameMembers(s: Setting, p: seq<Node>, q: seq<Node>, selector: Labels, onlyReady: bool)
    requires |p| == |q| && forall i :: 0 <= i < |p| ==>
        p[i].(committed := Zero, phase := Fresh) == q[i].(committed := Zero, phase := Fresh)
    ensures Members(s, p, selector, onlyReady) == Members(s, q, selector, onlyReady)
  {
    if p != [] {
      var n := |p| - 1;
      assert p[n].(committed := Zero, phase := Fresh).labels == q[n].(committed := Zero, phase := Fresh).labels;
      SameMembers(s, p[..n], q[..n], selector, onlyReady);
    }
  }

  lemma {:induction false} SettledTransfers(s: Setting, v: World, w: World, cs: seq<Compute>)
    requires SameInputs(s, v, w) && Settled(s, v, cs, |cs|)
    ensures Settled(s, w, cs, |cs|)
  {
    forall i | 0 <= i < |cs| && Waiting(cs[i]) ensures Stuck(s, w, cs, cs[i]) {
      assert Stuck(s, v, cs, cs[i]);
      SameSelectors(v.pools, w.pools, cs[i].pool);
      forall j | 0 <= j < |w.nodes| ensures !Open(s, w, cs, cs[i], j) {
        assert v.nodes[j].(committed := Zero, phase := Fresh) == w.nodes[j].(committed := Zero, phase := Fresh);
        assert !Open(s, v, cs, cs[i], j);
      }
    }
  }

  /** What the first pass leaves: nothing to evict, nothing to place. */
  lemma {:induction false} PassSettles(s: Setting, w: World, w': World)
    requires Keyed(w.nodes) && NonNegative(w.computes) && s.failing == {} && IsPass(s, w, w')
    ensures Settled(s, w, w'.computes, |w'.computes|) && OnReadyNodes(s, w.nodes, w'.computes)
    ensures |w'.computes| == |w.computes| && SameInputs(s, w, w')
  {
    var start := Evict(s, w.nodes, w.computes);
    var run :| PlaceRun(s, w, start, run) && |run| == |w.computes| + 1 && w'.computes == run[|w.computes|];
    RunSettles(s, w, start, run, |w.computes|);
    RunStaysOnReadyNodes(s, w, start, run, |w.computes|);
  }

  /** With every write going through, and the same clock, a second pass evicts nothing, places nothing
      and records nothing new: the world it leaves is the one it found. */
  lemma {:induction false} Idempotent(s: Setting, w: World, w1: World, w2: World)
    requires Keyed(w.nodes) && NonNegative(w.computes) && s.failing == {}
    requires IsPass(s, w, w1) && IsPass(s, w1, w2)
    ensures w2 == w1
  {
    PassSettles(s, w, w1);
    var start := Evict(s, w1.nodes, w1.computes);
    forall i | 0 <= i < |start| ensures start[i] == w1.computes[i] {
      SameReady(s, w, w1, w1.computes[i].node);
    }
    assert start == w1.computes;
    SettledTransfers(s, w, w1, start);
    var run :| PlaceRun(s, w1, start, run) && |run| == |w1.computes| + 1 && w2.computes == run[|w1.computes|];
    SettledRunIsStill(s, w1, start, run, |w1.computes|);
    SecondRecord(s, w, w1, w2);
  }

  lemma {:induction false} SecondRecord(s: Setting, w: World, w1: World, w2: World)
    requires IsPass(s, w, w1) && IsPass(s, w1, w2) && SameInputs(s, w, w1) && w2.computes == w1.computes
    ensures w2.nodes == w1.nodes && w2.pools == w1.pools
  {
    forall i | 0 <= i < |w1.nodes| ensures w2.nodes[i] == w1.nodes[i] {
      assert w1.nodes[i] == NodeAfter(s, w1.computes, w.nodes[i]);
    }
    forall i | 0 <= i < |w1.pools| ensures w2.pools[i] == w1.pools[i] {
      assert w1.pools[i] == PoolAfter(s, w.nodes, w.pools[i]);
      SameMembers(s, w.nodes, w1.nodes, w.pools[i].selector, false);
      SameMembers(s, w.nodes, w1.nodes, w.pools[i].selector, true);
    }
  }

  // ---------- capacity ----------

  /** Placement never overfills: a node within its capacity before the placement loop is within it at
      every turn and after. */
  lemma {:induction false} PlacementRespectsCapacity(s: Setting, w: World, start: seq<Compute>,
                                                     run: seq<seq<Compute>>, k: nat, n: nat)
    requires Keyed(w.nodes) && PlaceRun(s, w, start, run) && k < |run| && n < |w.nodes|
    requires WithinCapacity(w.nodes[n], Usage(start, w.nodes[n].uid))
    ensures WithinCapacity(w.nodes[n], Usage(run[k], w.nodes[n].uid))
  {
    if k > 0 {
      PlacementRespectsCapacity(s, w, start, run, k - 1, n);
      assert PlaceStep(s, w, run[k - 1], k - 1, run[k]);
      var at := StepShape(s, w, run[k - 1], k - 1, run[k]);
      if run[k] != run[k - 1] {
        UsageOfPlaced(run[k - 1], k - 1, w.nodes[at].uid, w.nodes[n].uid);
        assert w.nodes[at].uid == w.nodes[n].uid ==> at == n;
      }
    }
  }

  /** A pass moves no compute that sits on a ready node, and touches none being deleted. */
  lemma {:induction false} PassLeavesPlacedAlone(s: Setting, w: World, start: seq<Compute>, run: seq<seq<Compute>>,
                                                 k: nat, i: nat)
    requires PlaceRun(s, w, start, run) && k < |run| && i < |start| && !Waiting(start[i])
    ensures run[k][i] == start[i]
  {
    if k > 0 {
      PassLeavesPlacedAlone(s, w, start, run, k - 1, i);
      assert PlaceStep(s, w, run[k - 1], k - 1, run[k]);
      var n := StepShape(s, w, run[k - 1], k - 1, run[k]);
    }
  }

  /** A pass places all it can: for whatever still waits after it, one more placement would take any ready
      node that matches its pool over its capacity. */
  lemma {:induction false} WhatWaitsFitsNowhere(s: Setting, w: World, w': World, i: nat, j: nat)
    requires Keyed(w.nodes) && NonNegative(w.computes) && s.failing == {} && IsPass(s, w, w')
    requires i < |w'.computes| && Waiting(w'.computes[i]) && j < |w.nodes|
    ensures var c, n := w'.computes[i], w.nodes[j];
            var selector := PoolSelector(w.pools, c.pool);
            NodeReady(s, n) && selector.Some? && MatchLabels(n.labels, selector.value) ==>
              !WithinCapacity(n, Plus(Usage(w'.computes, n.uid), c))
  {
    PassSettles(s, w, w');
    hide IsPass, Usage, PoolSelector, MatchLabels, NodeReady;
    assert Stuck(s, w, w'.computes, w'.computes[i]);
    assert !Open(s, w, w'.computes, w'.computes[i], j);
  }

  lemma {:induction false} RunMoves(s: Setting, w: World, start: seq<Compute>, run: seq<seq<Compute>>, k: nat, i: nat)
    requires PlaceRun(s, w, start, run) && k < |run| && i < |start|
    ensures var c, c' := start[i], run[k][i];
            && c' == c.(node := c'.node)
            && (c' != c ==> Waiting(c) && c.uid !in s.failing && ReadyNode(s, w.nodes, c'.node))
  {
    if k > 0 {
      RunMoves(s, w, start, run, k - 1, i);
      assert PlaceStep(s, w, run[k - 1], k - 1, run[k]);
      var n := StepShape(s, w, run[k - 1], k - 1, run[k]);
      hide PlaceStep, Usage, PoolSelector, MatchLabels, NodeReady;
    }
  }

  /** Seen within the ready window. */
  predicate Alive(s: Setting, n: Node) {
    n.lastSeen.Some? && s.now <= n.lastSeen.value + s.window
  }

  ghost predicate OnLiveNode(s: Setting, nodes: seq<Node>, c: Compute) {
    exists j :: 0 <= j < |nodes| && nodes[j].uid == c.node && Alive(s, nodes[j])
  }

  /** What a whole pass does to one compute: at most its node changes; never if it is being deleted, cannot be
      written, or sits on a live node; and any other compute ends up on a live node or waiting. */
  lemma {:induction false} WhatAPassMoves(s: Setting, w: World, w': World, i: nat)
    requires IsPass(s, w, w') && i < |w.computes|
    ensures var c, c' := w.computes[i], w'.computes[i];
            && c' == c.(node := c'.node)
            && (c.deleting || c.uid in s.failing || (c.node != "" && OnLiveNode(s, w.nodes, c)) ==> c' == c)
            && (!c.deleting && c.uid !in s.failing ==> c'.node == "" || OnLiveNode(s, w.nodes, c'))
  {
    var start := Evict(s, w.nodes, w.computes);
    var run :| PlaceRun(s, w, start, run) && |run| == |w.computes| + 1 && w'.computes == run[|w.computes|];
    RunMoves(s, w, start, run, |w.computes|, i);
    LiveIsReady(s, w.nodes, w.computes[i]);
    LiveIsReady(s, w.nodes, w'.computes[i]);
    hide PlaceRun, ReadyNode, OnLiveNode;
  }

  lemma {:induction false} LiveIsReady(s: Setting, nodes: seq<Node>, c: Compute)
    ensures OnLiveNode(s, nodes, c) == ReadyNode(s, nodes, c.node)
  {
  }

  // ---------- plain meanings ----------

  /** The selector of a pool is that of the first pool of its name; without a name anything matches, and a
      name no pool has gives none. */
  lemma {:induction false} SelectorOf(pools: seq<Pool>, id: string, i: nat)
    ensures id == "" ==> PoolSelector(pools, id) == Some(map[])
    ensures id != "" && i < |pools| && pools[i].uid == id && (forall j :: 0 <= j < i ==> pools[j].uid != id) ==>
              PoolSelector(pools, id) == Some(pools[i].selector)
    ensures id != "" && (forall j :: 0 <= j < |pools| ==> pools[j].uid != id) ==> PoolSelector(pools, id) == None
  {
    if id != "" && pools != [] && pools[0].uid != id {
      assert forall j :: 0 <= j < |pools| - 1 ==> pools[1..][j] == pools[j + 1];
      SelectorOf(pools[1..], id, if i > 0 then i - 1 else |pools|);
    }
  }

  /** The computes that count on a node. */
  ghost function Placed(cs: seq<Compute>, name: string): set<int> {
    set i | 0 <= i < |cs| && !cs[i].deleting && cs[i].node == name
  }

  /** The pods of a node are its computes that are not being deleted. */
  lemma {:induction false} PodsArePlaced(cs: seq<Compute>, name: string)
    ensures Usage(cs, name).pods == |Placed(cs, name)|
  {
    if cs != [] {
      var n := |cs| - 1;
      PodsArePlaced(cs[..n], name);
      var here := if CountsOn(cs[n], name) then {n} else {};
      assert Placed(cs, name) == Placed(cs[..n], name) + here;
    }
  }

  /** What a pass records is true: of each node what is placed on it and whether it is ready, of each pool
      how many nodes match and how many of these are ready; nothing else of them changes. */
  lemma {:induction false} RecordsAreTrue(s: Setting, w: World, w': World, j: nat, k: nat)
    requires IsPass(s, w, w') && j < |w.nodes| && k < |w.pools|
    ensures var n, n' := w.nodes[j], w'.nodes[j];
            && n' == n.(committed := n'.committed, phase := n'.phase)
            && n'.committed.pods == |Placed(w'.computes, n.uid)| && n'.committed == Usage(w'.computes, n.uid)
            && n'.phase in {Ready, Pending}
            && (n'.phase == Ready <==> Alive(s, n))
    ensures var p, p' := w.pools[k], w'.pools[k];
            && p' == p.(total := p'.total, ready := p'.ready, phase := Ready)
            && p'.total == |Matching(w.nodes, p.selector)|
            && p'.ready == |MatchingReady(s, w.nodes, p.selector)|
  {
    hide Usage, Members, MatchLabels;
    PodsArePlaced(w'.computes, w.nodes[j].uid);
    MembersAreMatching(s, w.nodes, w.pools[k].selector);
  }

  /** Every label of the selector is there, or is empty and absent. */
  predicate Carries(labels: Labels, selector: Labels) {
    forall k :: k in selector ==> if k in labels then labels[k] == selector[k] else selector[k] == ""
  }

  ghost function Matching(nodes: seq<Node>, selector: Labels): (r: set<int>)
    ensures forall i :: i in r ==> 0 <= i < |nodes|
  {
    set i | 0 <= i < |nodes| && Carries(nodes[i].labels, selector)
  }

  ghost function MatchingReady(s: Setting, nodes: seq<Node>, selector: Labels): set<int> {
    set i | i in Matching(nodes, selector) && NodeReady(s, nodes[i])
  }

  lemma {:induction false} MatchingSnoc(s: Setting, nodes: seq<Node>, n: Node, selector: Labels)
    ensures Matching(nodes + [n], selector) ==
            Matching(nodes, selector) + if Carries(n.labels, selector) then {|nodes|} else {}
    ensures MatchingReady(s, nodes + [n], selector) ==
            MatchingReady(s, nodes, selector) +
            if Carries(n.labels, selector) && NodeReady(s, n) then {|nodes|} else {}
  {
    hide Carries, NodeReady;
  }

  lemma {:induction false} MembersAreMatching(s: Setting, nodes: seq<Node>, selector: Labels)
    ensures Members(s, nodes, selector, false) == |Matching(nodes, selector)|
    ensures Members(s, nodes, selector, true) == |MatchingReady(s, nodes, selector)|
  {
    if nodes != [] {
      var n := |nodes| - 1;
      assert nodes == nodes[..n] + [nodes[n]];
      MembersAreMatching(s, nodes[..n], selector);
      MatchingSnoc(s, nodes[..n], nodes[n], selector);
      assert MatchLabels(nodes[n].labels, selector) == Carries(nodes[n].labels, selector);
      hide MatchLabels, Carries, NodeReady, Matching;
      assert n !in Matching(nodes[..n], selector) && n !in MatchingReady(s, nodes[..n], selector);
      hide MatchingReady;
    }
  }
}
