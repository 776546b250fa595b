/** Reserving compute addresses in the shared store: `claim`, `allocate` and `release`, by any number
    of agents, interleaved at single store operations. A reservation is a key created only if absent;
    releasing it reads the key and then deletes it unconditionally. */
module AddressBook {
  import opened Options
  import opened Subnet
  import Runs

  type Owner = string
  type Client = nat

  datatype Addr = Addr(subnet: string, ip: nat)

  /** A plain claim, or one made by `allocate`, which goes on to the next free address when it loses. */
  datatype Goal = Claim | Allocate(cidr: Cidr, used: set<nat>)

  datatype Pc =
    | Idle
    | WillSwap(goal: Goal, addr: Addr, owner: Owner)
    | WillGet(goal: Goal, addr: Addr, owner: Owner)   // lost the swap: about to see who holds it
    | Told(addr: Addr, owner: Owner)                  // reported as held
    | NoAddress                                       // refused, failed or exhausted
    | ReleaseGet(addr: Addr, owner: Owner)
    | ReleaseDelete(addr: Addr, owner: Owner)

  /** `promised` holds every reservation some caller was told it has and has not released since. */
  datatype State = State(book: map<Addr, Owner>, pcs: map<Client, Pc>, promised: set<(Addr, Owner)>)

  datatype Action =
    | CallClaim(c: Client, addr: Addr, owner: Owner)
    | CallAllocate(c: Client, cidr: Cidr, subnet: string, owner: Owner, used: set<nat>)
    | CallRelease(c: Client, addr: Addr, owner: Owner)
    | Advance(c: Client)

  const Empty := State(map[], map[], {})

  function Pcs(s: State, c: Client): Pc {
    if c in s.pcs then s.pcs[c] else Idle
  }

  predicate Resting(pc: Pc) {
    pc.Idle? || pc.Told? || pc.NoAddress?
  }

  function At(s: State, c: Client, pc: Pc): State {
    s.(pcs := s.pcs[c := pc])
  }

  function Tell(s: State, c: Client, addr: Addr, owner: Owner): State {
    At(s, c, Told(addr, owner)).(promised := s.promised + {(addr, owner)})
  }

  /** `allocate` picks its next address. */
  function TryNext(cidr: Cidr, subnet: string, owner: Owner, used: set<nat>): Pc {
    if cidr.ones > 32 then NoAddress
    else match FirstFree(cidr, used, 10)
      case None => NoAddress
      case Some(ip) => WillSwap(Allocate(cidr, used), Addr(subnet, ip), owner)
  }

  function Step(s: State, c: Client): State {
    match Pcs(s, c)
    case WillSwap(goal, addr, owner) =>
      if addr in s.book then At(s, c, WillGet(goal, addr, owner))
      else Tell(s, c, addr, owner).(book := s.book[addr := owner])
    case WillGet(goal, addr, owner) =>
      if addr !in s.book then At(s, c, NoAddress)
      else if s.book[addr] == owner then Tell(s, c, addr, owner)
      else At(s, c, match goal
                    case Claim => NoAddress
                    case Allocate(cidr, used) => TryNext(cidr, addr.subnet, owner, used + {addr.ip}))
    case ReleaseGet(addr, owner) =>
      At(s, c, if Lookup(s.book, addr) == Some(owner) then ReleaseDelete(addr, owner) else Idle)
    case ReleaseDelete(addr, owner) =>
      At(s, c, Idle).(book := s.book - {addr}, promised := s.promised - {(addr, owner)})
    case _ => s
  }

  function Do(s: State, a: Action): State {
    if a.Advance? then Step(s, a.c)
    else if !Resting(Pcs(s, a.c)) then s
    else At(s, a.c, match a
                    case CallClaim(_, addr, owner) => WillSwap(Claim, addr, owner)
                    case CallAllocate(_, cidr, subnet, owner, used) => TryNext(cidr, subnet, owner, used)
                    case CallRelease(_, addr, owner) => ReleaseGet(addr, owner)
                    case Advance(_) => Idle)
  }

  function Exec(s: State, schedule: seq<Action>): State {
    Runs.Exec(Do, s, schedule)
  }

  // ---------- safety ----------

  predicate Deleting(s: State, c: Client, addr: Addr, owner: Owner) {
    Pcs(s, c) == ReleaseDelete(addr, owner)
  }

  /** No two releases are past their read and about to delete the same reservation. */
  ghost predicate OneDelete(s: State) {
    forall c, d, addr, owner :: Deleting(s, c, addr, owner) && Deleting(s, d, addr, owner) ==> c == d
  }

  /** At no step of the schedule are two deletes of one reservation pending. */
  ghost predicate Disciplined(schedule: seq<Action>) {
    forall k :: 0 <= k < |schedule| ==> OneDelete(Exec(Empty, schedule[..k]))
  }

  /** Every reservation that was promised is on record. */
  ghost predicate Kept(s: State) {
    forall a, o :: (a, o) in s.promised ==> Lookup(s.book, a) == Some(o)
  }

  ghost predicate Inv(s: State) {
    && Kept(s)
    && (forall c, addr, owner :: Deleting(s, c, addr, owner) ==> Lookup(s.book, addr) == Some(owner))
  }

  lemma {:induction false} StepKeeps(s: State, a: Action)
    requires Inv(s) && OneDelete(s)
    ensures Inv(Do(s, a))
  {
    var s' := Do(s, a);
    forall c, addr, owner | Deleting(s', c, addr, owner) ensures Lookup(s'.book, addr) == Some(owner) {
      assert c != a.c ==> Deleting(s, c, addr, owner);
      if a.Advance? && Pcs(s, a.c).ReleaseDelete? {
        assert Deleting(s, a.c, Pcs(s, a.c).addr, Pcs(s, a.c).owner);
      }
    }
    if a.Advance? && Pcs(s, a.c).ReleaseDelete? {
      assert Deleting(s, a.c, Pcs(s, a.c).addr, Pcs(s, a.c).owner);
    }
  }

  lemma {:induction false} Safe(schedule: seq<Action>)
    requires Disciplined(schedule)
    ensures Inv(Exec(Empty, schedule))
  {
    if schedule != [] {
      var n := |schedule| - 1;
      forall k | 0 <= k < n ensures OneDelete(Exec(Empty, schedule[..n][..k])) {
        assert schedule[..n][..k] == schedule[..k];
      }
      Safe(schedule[..n]);
      assert OneDelete(Exec(Empty, schedule[..n]));
      StepKeeps(Exec(Empty, schedule[..n]), schedule[n]);
    }
  }

  /** Whoever was told it holds an address is its recorded owner until it releases it; so no two owners
      are ever told they hold the same one. */
  lemma {:induction false} PromisesAreKept(schedule: seq<Action>, addr: Addr, o: Owner, p: Owner)
    requires Disciplined(schedule)
    ensures var s := Exec(Empty, schedule);
            (addr, o) in s.promised ==>
              && Lookup(s.book, addr) == Some(o)
              && ((addr, p) in s.promised ==> o == p)
  {
    Safe(schedule);
  }

  /** Whoever is told that it holds an address is on record as its owner and has been promised it; a step that
      tells no one, and is no delete, changes neither. */
  lemma {:induction false} ToldIsOnRecord(s: State, a: Action)
    ensures var s', pc := Do(s, a), Pcs(Do(s, a), a.c);
            if pc.Told? && pc != Pcs(s, a.c)
            then Lookup(s'.book, pc.addr) == Some(pc.owner) && (pc.addr, pc.owner) in s'.promised
            else !(a.Advance? && Pcs(s, a.c).ReleaseDelete?) ==> s'.book == s.book && s'.promised == s.promised
  {
  }

  /** A promise ends only by the delete of a release its own owner made. */
  lemma {:induction false} OnlyReleaseEndsPromise(s: State, a: Action, addr: Addr, o: Owner)
    requires (addr, o) in s.promised && (addr, o) !in Do(s, a).promised
    ensures a.Advance? && Pcs(s, a.c) == ReleaseDelete(addr, o)
  {
  }

  // ---------- the discipline is exactly what is needed ----------

  /** A continuation in which no further release makes its read. */
  ghost predicate Quiet(s: State, more: seq<Action>) {
    forall k :: 0 <= k < |more| ==> QuietStep(Exec(s, more[..k]), more[k])
  }

  predicate QuietStep(s: State, a: Action) {
    a.Advance? ==> !Pcs(s, a.c).ReleaseGet?
  }

  lemma {:induction false} QuietStepKeeps(s: State, a: Action)
    requires OneDelete(s) && QuietStep(s, a)
    ensures OneDelete(Do(s, a))
  {
    var s' := Do(s, a);
    forall c, d, addr, owner | Deleting(s', c, addr, owner) && Deleting(s', d, addr, owner) ensures c == d {
      assert Deleting(s, c, addr, owner) && Deleting(s, d, addr, owner);
    }
  }

  lemma {:induction false} QuietKeeps(s: State, more: seq<Action>)
    requires Inv(s) && OneDelete(s) && Quiet(s, more)
    ensures Inv(Exec(s, more)) && OneDelete(Exec(s, more))
  {
    if more != [] {
      var n := |more| - 1;
      forall k | 0 <= k < n ensures QuietStep(Exec(s, more[..n][..k]), more[..n][k]) {
        assert more[..n][..k] == more[..k];
        assert QuietStep(Exec(s, more[..k]), more[k]);
      }
      hide Inv, OneDelete, QuietStep, Do;
      QuietKeeps(s, more[..n]);
      assert QuietStep(Exec(s, more[..n]), more[n]);
      StepKeeps(Exec(s, more[..n]), more[n]);
      QuietStepKeeps(Exec(s, more[..n]), more[n]);
    }
  }

  /** A client that has never called. */
  lemma {:induction false} NewClient(pcs: map<Client, Pc>) returns (e: Client)
    ensures e !in pcs
  {
    e := Above(pcs.Keys);
    assert e in pcs ==> e in pcs.Keys;
  }

  lemma {:induction false} Above(clients: set<Client>) returns (e: Client)
    ensures forall c :: c in clients ==> c < e
  {
    if clients == {} {
      e := 0;
    } else {
      var c :| c in clients;
      var f := Above(clients - {c});
      e := if c < f then f else c + 1;
      assert forall x :: x in clients ==> x == c || x in clients - {c};
    }
  }

  /** With two deletes pending, one of them can hit the next owner: the first deletes, someone else
      claims the address, and the second deletes that claim. */
  lemma {:induction false} TwoDeletesBreak(s: State, c: Client, d: Client, addr: Addr, o: Owner, p: Owner)
    returns (more: seq<Action>)
    requires c != d && Deleting(s, c, addr, o) && Deleting(s, d, addr, o) && p != o
    ensures Quiet(s, more) && (addr, p) in Exec(s, more).promised && addr !in Exec(s, more).book
  {
    var e := NewClient(s.pcs);
    more := [Advance(c), CallClaim(e, addr, p), Advance(e), Advance(d)];
    Runs.Four(Do, s, more[0], more[1], more[2], more[3]);
    assert more[..1] == [more[0]] && more[..2] == [more[0], more[1]] && more[..3] == [more[0], more[1], more[2]];
    var s1 := Do(s, more[0]);
    var s2 := Do(s1, more[1]);
    assert addr !in s1.book && Pcs(s2, e) == WillSwap(Claim, addr, p);
    var s3 := Do(s2, more[2]);
    assert s3.book[addr] == p && (addr, p) in s3.promised && Pcs(s3, d) == ReleaseDelete(addr, o);
  }

  /** A pending delete whose reservation is gone or has passed to another owner since its release read it. */
  predicate Outdated(s: State, c: Client) {
    Pcs(s, c).ReleaseDelete? && Lookup(s.book, Pcs(s, c).addr) != Some(Pcs(s, c).owner)
  }

  /** Every reservation on record was promised to its owner. */
  ghost predicate Booked(s: State) {
    forall a :: a in s.book ==> (a, s.book[a]) in s.promised
  }

  lemma {:induction false} AllBooked(schedule: seq<Action>)
    ensures Booked(Exec(Empty, schedule))
  {
    if schedule != [] {
      var n := |schedule| - 1;
      AllBooked(schedule[..n]);
      StepBooked(Exec(Empty, schedule[..n]), schedule[n]);
    }
  }

  lemma {:induction false} StepBooked(s: State, a: Action)
    requires Booked(s)
    ensures Booked(Do(s, a))
  {
  }

  /** An outdated delete hits the next owner: the one that has the address by now, or one that claims it. */
  lemma {:induction false} OutdatedBreaks(s: State, c: Client) returns (more: seq<Action>)
    requires Booked(s) && Outdated(s, c)
    ensures Quiet(s, more) && !Kept(Exec(s, more))
  {
    var ReleaseDelete(addr, o) := Pcs(s, c);
    if addr in s.book {
      more := [Advance(c)];
      Runs.Four(Do, s, more[0], more[0], more[0], more[0]);
      assert more[..0] == [];
      assert (addr, s.book[addr]) in Do(s, Advance(c)).promised;
    } else {
      var e := NewClient(s.pcs);
      var p := o + "x";
      more := [CallClaim(e, addr, p), Advance(e), Advance(c)];
      Runs.Four(Do, s, more[0], more[1], more[2], more[2]);
      assert more[..0] == [] && more[..1] == [more[0]] && more[..2] == [more[0], more[1]];
      var s2 := Do(Do(s, more[0]), more[1]);
      assert (addr, p) in s2.promised && Pcs(s2, c) == ReleaseDelete(addr, o);
      assert (addr, p) in Do(s2, Advance(c)).promised && addr !in Do(s2, Advance(c)).book;
    }
  }

  /** In every reachable state in which the promises hold, a promise can be broken without any further
      release reading its key if and only if a pending delete is outdated or two deletes of one reservation
      are pending. */
  lemma {:induction false} BreakableIff(schedule: seq<Action>)
    requires Kept(Exec(Empty, schedule))
    ensures var s := Exec(Empty, schedule);
            (exists more :: Quiet(s, more) && !Kept(Exec(s, more))) <==> (exists c :: Outdated(s, c)) || !OneDelete(s)
  {
    AllBooked(schedule);
    var s := Exec(Empty, schedule);
    hide Runs.Exec, Do;
    if c :| Outdated(s, c) {
      var more := OutdatedBreaks(s, c);
    } else if OneDelete(s) {
      forall c, addr, owner | Deleting(s, c, addr, owner) ensures Lookup(s.book, addr) == Some(owner) {
        assert !Outdated(s, c);
      }
      forall more | Quiet(s, more) ensures Kept(Exec(s, more)) {
        QuietKeeps(s, more);
      }
    } else {
      var c, d, addr, o :| Deleting(s, c, addr, o) && Deleting(s, d, addr, o) && c != d;
      var more := TwoDeletesBreak(s, c, d, addr, o, o + "x");
      assert !Kept(Exec(s, more));
    }
  }

  /** Such a state is reached by two overlapping releases for one owner that both read the key as theirs:
      a schedule that takes a promised address from its owner. */
  lemma {:induction false} OverlappingReleasesBreakPromises(addr: Addr, o: Owner, p: Owner)
    returns (schedule: seq<Action>)
    requires o != p
    ensures (addr, p) in Exec(Empty, schedule).promised
    ensures addr !in Exec(Empty, schedule).book
  {
    var first := [CallClaim(0, addr, o), Advance(0),
                  CallRelease(1, addr, o), Advance(1), CallRelease(2, addr, o), Advance(2)];
    var s := Exec(Empty, first);
    Runs.Six(Do, Empty, first);
    assert Deleting(s, 1, addr, o) && Deleting(s, 2, addr, o);
    hide Runs.Exec, Do;
    var more := TwoDeletesBreak(s, 1, 2, addr, o, p);
    schedule := first + more;
    Runs.Joins(Do, Empty, first, more);
  }

  // ---------- what allocate settles on ----------

  /** An allocation in progress is trying the first offered address it has not seen used. */
  predicate OnTrack(pc: Pc) {
    (pc.WillSwap? || pc.WillGet?) && pc.goal.Allocate? ==>
      pc.goal.cidr.ones <= 32 && FirstFree(pc.goal.cidr, pc.goal.used, 10) == Some(pc.addr.ip)
  }

  lemma {:induction false} AllOnTrack(schedule: seq<Action>, c: Client)
    ensures OnTrack(Pcs(Exec(Empty, schedule), c))
  {
    if schedule != [] {
      var n := |schedule| - 1;
      AllOnTrack(schedule[..n], c);
      StepOnTrack(Exec(Empty, schedule[..n]), schedule[n], c);
    }
  }

  lemma {:induction false} StepOnTrack(s: State, a: Action, c: Client)
    requires OnTrack(Pcs(s, c))
    ensures OnTrack(Pcs(Do(s, a), c))
  {
    hide FirstFree;
  }

  /** In every schedule, the address `allocate` is about to reserve lies in its subnet, was not in use,
      and is never one a host holds. */
  lemma {:induction false} AllocatedIsClear(schedule: seq<Action>, c: Client, rank: int)
    requires var pc := Pcs(Exec(Empty, schedule), c); pc.WillSwap? && pc.goal.Allocate? && Valid(pc.goal.cidr)
    ensures var pc := Pcs(Exec(Empty, schedule), c);
            && Contains(pc.goal.cidr, pc.addr.ip) && pc.addr.ip !in pc.goal.used
            && NodeAddress(pc.goal.cidr, rank) != Some(pc.addr.ip)
  {
    AllOnTrack(schedule, c);
    var pc := Pcs(Exec(Empty, schedule), c);
    AllocationIsClear(pc.goal.cidr, pc.goal.used, rank);
  }

  // ---------- allocate ends ----------

  /** How many store operations an allocation may still need. */
  function Todo(pc: Pc): nat {
    if pc.WillSwap? && pc.goal.Allocate? && pc.goal.cidr.ones <= 32 then 2 * |Left(pc.goal.cidr, pc.goal.used)|
    else if pc.WillGet? && pc.goal.Allocate? && pc.goal.cidr.ones <= 32 && |Left(pc.goal.cidr, pc.goal.used)| > 0
    then 2 * |Left(pc.goal.cidr, pc.goal.used)| - 1
    else 0
  }

  predicate Allocating(pc: Pc) {
    (pc.WillSwap? || pc.WillGet?) && pc.goal.Allocate?
  }

  function Advances(schedule: seq<Action>, c: Client): nat {
    if schedule == [] then 0
    else Advances(schedule[..|schedule| - 1], c) + if schedule[|schedule| - 1] == Advance(c) then 1 else 0
  }

  /** A step of the allocation itself brings it closer to its end, and no one else's step takes it back. */
  lemma {:induction false} AdvanceCosts(s: State, a: Action, c: Client)
    requires Allocating(Pcs(s, c)) && OnTrack(Pcs(s, c))
    ensures Resting(Pcs(Do(s, a), c)) ||
            (&& Allocating(Pcs(Do(s, a), c))
             && Todo(Pcs(Do(s, a), c)) + (if a == Advance(c) then 1 else 0) <= Todo(Pcs(s, c)))
  {
    hide FirstFree, Left;
    EachTryCosts(Pcs(s, c).goal.cidr, Pcs(s, c).goal.used);
  }

  lemma {:induction false} AllocationProgress(s: State, more: seq<Action>, c: Client)
    requires Allocating(Pcs(s, c)) && OnTrack(Pcs(s, c))
    requires forall k :: 0 <= k <= |more| ==> !Resting(Pcs(Exec(s, more[..k]), c))
    ensures Allocating(Pcs(Exec(s, more), c)) && OnTrack(Pcs(Exec(s, more), c))
    ensures Todo(Pcs(Exec(s, more), c)) + Advances(more, c) <= Todo(Pcs(s, c))
  {
    if more != [] {
      var n := |more| - 1;
      forall k | 0 <= k <= n ensures !Resting(Pcs(Exec(s, more[..n][..k]), c)) {
        assert more[..n][..k] == more[..k];
      }
      hide Allocating, OnTrack, Todo, Do;
      AllocationProgress(s, more[..n], c);
      assert more[..n + 1] == more;
      AdvanceCosts(Exec(s, more[..n]), more[n], c);
      StepOnTrack(Exec(s, more[..n]), more[n], c);
    }
  }

  /** Whatever the others do, an allocation comes to its end within 480 store operations of its own. */
  lemma {:induction false} AllocateEnds(schedule: seq<Action>, more: seq<Action>, c: Client) returns (k: nat)
    requires Allocating(Pcs(Exec(Empty, schedule), c)) && Advances(more, c) >= 480
    ensures k <= |more| && Resting(Pcs(Exec(Exec(Empty, schedule), more[..k]), c))
  {
    k := 0;
    var s := Exec(Empty, schedule);
    AllOnTrack(schedule, c);
    if k' :| 0 <= k' <= |more| && Resting(Pcs(Exec(s, more[..k']), c)) {
      return k';
    }
    AllocationProgress(s, more, c);
    var goal := Pcs(s, c).goal;
    LeftIsBounded(goal.cidr, goal.used);
    TodoIsPositive(Pcs(Exec(s, more), c));
  }

  lemma {:induction false} TodoIsPositive(pc: Pc)
    requires Allocating(pc) && OnTrack(pc)
    ensures Todo(pc) >= 1
  {
    EachTryCosts(pc.goal.cidr, pc.goal.used);
  }

  // ---------- undisturbed ----------

  /** Undisturbed, a claim succeeds exactly when the address is free or already the owner's. */
  lemma {:induction false} ClaimAlone(s: State, c: Client, addr: Addr, owner: Owner)
    requires Resting(Pcs(s, c))
    ensures var s' := Do(Do(Do(s, CallClaim(c, addr, owner)), Advance(c)), Advance(c));
            var ok := addr !in s.book || s.book[addr] == owner;
            && Pcs(s', c) == (if ok then Told(addr, owner) else NoAddress)
            && s'.book == (if ok then s.book[addr := owner] else s.book)
            && s'.promised == (if ok then s.promised + {(addr, owner)} else s.promised)
  {
    var s1 := Do(s, CallClaim(c, addr, owner));
    assert addr in s.book && s.book[addr] == owner ==> s.book[addr := owner] == s.book;
  }

  /** Undisturbed, a release removes exactly its own owner's reservation. */
  lemma {:induction false} ReleaseAlone(s: State, c: Client, addr: Addr, owner: Owner)
    requires Resting(Pcs(s, c))
    ensures var s' := Do(Do(Do(s, CallRelease(c, addr, owner)), Advance(c)), Advance(c));
            var own := Lookup(s.book, addr) == Some(owner);
            && Pcs(s', c) == Idle
            && s'.book == (if own then s.book - {addr} else s.book)
            && s'.promised == (if own then s.promised - {(addr, owner)} else s.promised)
  {
  }

  /** Reserved by someone other than `owner`. */
  predicate Taken(book: map<Addr, Owner>, addr: Addr, owner: Owner) {
    addr in book && book[addr] != owner
  }

  /** Candidate `k` is no good: in use from the start, or reserved by someone else. */
  predicate NoGood(book: map<Addr, Owner>, cidr: Cidr, subnet: string, owner: Owner, used: set<nat>, k: nat)
    requires cidr.ones <= 32
  {
    Candidate(cidr, k) in used || Taken(book, Addr(subnet, Candidate(cidr, k)), owner)
  }

  /** Candidate `k` is the first offered one that is good. */
  ghost predicate FirstGood(book: map<Addr, Owner>, cidr: Cidr, subnet: string, owner: Owner, used: set<nat>, k: nat)
    requires cidr.ones <= 32
  {
    && 10 <= k < 250 && Offered(cidr, k) && !NoGood(book, cidr, subnet, owner, used, k)
    && forall j :: 10 <= j < k && Offered(cidr, j) ==> NoGood(book, cidr, subnet, owner, used, j)
  }

  /** What an allocation amounts to: it reserves the first offered address that is neither in use nor
      reserved by another, and gives up exactly when there is none. */
  ghost predicate Settles(book: map<Addr, Owner>, cidr: Cidr, subnet: string, owner: Owner, used: set<nat>,
                          ip: Option<nat>, book': map<Addr, Owner>)
    requires cidr.ones <= 32
  {
    match ip
    case Some(x) =>
      && book' == book[Addr(subnet, x) := owner]
      && exists k :: FirstGood(book, cidr, subnet, owner, used, k) && x == Candidate(cidr, k)
    case None =>
      && book' == book
      && forall j :: 10 <= j < 250 && Offered(cidr, j) ==> NoGood(book, cidr, subnet, owner, used, j)
  }

  /** What an allocation has added to the addresses in use: those it found reserved by others. */
  ghost predicate Learned(book: map<Addr, Owner>, subnet: string, owner: Owner, inUse: set<nat>, used: set<nat>) {
    inUse <= used && forall x :: x in used ==> x in inUse || Taken(book, Addr(subnet, x), owner)
  }

  /** The first address not seen used, when no one else holds it, is the first good one. */
  lemma {:induction false} FirstFreeSettles(book: map<Addr, Owner>, cidr: Cidr, subnet: string, owner: Owner,
                                            inUse: set<nat>, used: set<nat>)
    requires cidr.ones <= 32 && Learned(book, subnet, owner, inUse, used)
    ensures var ip := FirstFree(cidr, used, 10);
            && (ip.None? ==> Settles(book, cidr, subnet, owner, inUse, None, book))
            && (ip.Some? && !Taken(book, Addr(subnet, ip.value), owner) ==>
                  Settles(book, cidr, subnet, owner, inUse, ip, book[Addr(subnet, ip.value) := owner]))
            && (ip.Some? && Taken(book, Addr(subnet, ip.value), owner) ==>
                  Learned(book, subnet, owner, inUse, used + {ip.value}))
  {
    hide Offered, Candidate;
    var ip := FirstFree(cidr, used, 10);
    if ip.Some? && !Taken(book, Addr(subnet, ip.value), owner) {
      var k :| IsFirst(cidr, used, 10, k) && ip.value == Candidate(cidr, k);
      assert FirstGood(book, cidr, subnet, owner, inUse, k);
    }
  }

  /** The loop of `allocate` with no one else writing. Each lost claim leaves one candidate fewer of at
      most 240, so it ends. */
  method AllocateLoop(book: map<Addr, Owner>, cidr: Cidr, subnet: string, owner: Owner, inUse: set<nat>)
    returns (ip: Option<nat>, book': map<Addr, Owner>)
    requires cidr.ones <= 32
    ensures Settles(book, cidr, subnet, owner, inUse, ip, book')
  {
    hide FirstFree, Settles;
    var used := inUse;
    while true
      invariant Learned(book, subnet, owner, inUse, used)
      decreases |Left(cidr, used)|
    {
      ip := AllocateIP(cidr, used);
      FirstFreeSettles(book, cidr, subnet, owner, inUse, used);
      if ip == None {
        return None, book;
      }
      var addr := Addr(subnet, ip.value);
      if addr !in book {
        return ip, book[addr := owner];
      }
      if book[addr] == owner {
        assert book[addr := owner] == book;
        return ip, book;
      }
      EachTryCosts(cidr, used);
      used := used + {ip.value};
    }
  }

  /** `n` store operations of client `c` in a row. */
  function Run(s: State, c: Client, n: nat): State
    decreases n
  {
    if n == 0 then s else Run(Do(s, Advance(c)), c, n - 1)
  }

  lemma {:induction false} TryAlone(s: State, c: Client, cidr: Cidr, subnet: string, owner: Owner, inUse: set<nat>,
                                    used: set<nat>)
    returns (n: nat, ip: Option<nat>)
    requires cidr.ones <= 32 && Learned(s.book, subnet, owner, inUse, used)
    requires Pcs(s, c) == TryNext(cidr, subnet, owner, used)
    ensures var s' := Run(s, c, n);
            && Settles(s.book, cidr, subnet, owner, inUse, ip, s'.book)
            && Pcs(s', c) == (if ip.Some? then Told(Addr(subnet, ip.value), owner) else NoAddress)
    decreases |Left(cidr, used)|
  {
    hide FirstFree, Settles, Learned;
    FirstFreeSettles(s.book, cidr, subnet, owner, inUse, used);
    n, ip := 0, FirstFree(cidr, used, 10);
    if ip.Some? {
      var addr := Addr(subnet, ip.value);
      var s1 := Do(s, Advance(c));
      var s2 := Do(s1, Advance(c));
      if addr !in s.book {
        n := 1;
        assert Run(s, c, 1) == Run(s1, c, 0);
      } else {
        assert Run(s, c, 2) == Run(s1, c, 1) && Run(s1, c, 1) == Run(s2, c, 0);
        n := 2;
        if s.book[addr] == owner {
          assert s.book[addr := owner] == s.book;
        } else {
          EachTryCosts(cidr, used);
          var m;
          m, ip := TryAlone(s2, c, cidr, subnet, owner, inUse, used + {addr.ip});
          n := m + 2;
          assert Run(s, c, m + 2) == Run(s1, c, m + 1) && Run(s1, c, m + 1) == Run(s2, c, m);
        }
      }
    }
  }

  /** Undisturbed, the interleaved `allocate` settles as its loop does, and reports what it reserved. */
  lemma {:induction false} AllocateAlone(s: State, c: Client, cidr: Cidr, subnet: string, owner: Owner, inUse: set<nat>)
    returns (n: nat, ip: Option<nat>)
    requires Resting(Pcs(s, c)) && cidr.ones <= 32
    ensures var s' := Run(Do(s, CallAllocate(c, cidr, subnet, owner, inUse)), c, n);
            && Settles(s.book, cidr, subnet, owner, inUse, ip, s'.book)
            && Pcs(s', c) == (if ip.Some? then Told(Addr(subnet, ip.value), owner) else NoAddress)
  {
    n, ip := TryAlone(Do(s, CallAllocate(c, cidr, subnet, owner, inUse)), c, cidr, subnet, owner, inUse, inUse);
  }
}
