/** Claiming, releasing and evicting function instances.

    Invokers and function controllers, any number of each, write instance records through the
    registry's compare-and-swap. Every `Get`, `CompareAndSwap` and `Delete` is its own step, and a
    schedule interleaves them freely; a `List` snapshot may be arbitrarily old when it is used.
    New records get UIDs never used before. */
module Claims {
  import opened Options
  import Runs

  type Uid = string
  type Actor = nat

  datatype Use = Warm | Assigned

  datatype Inst = Inst(use: Use, deleting: bool, lastUsed: int, phase: string, node: string, finalizers: set<string>)

  const InstanceFinalizer := "infra.io/function-instance"

  /** Why a record is being rewritten, with the attempts left where the source retries. */
  datatype Purpose = Claim | Release(left: nat) | Cleanup(left: nat) | Evict

  datatype Pc =
    | Idle
    | WillRead(why: Purpose, uid: Uid)                           // TryUpdate: about to read
    | WillSwap(why: Purpose, uid: Uid, prior: Inst, next: Inst)  // TryUpdate: about to swap
    | Starting(uid: Uid)                                         // cold start, waiting for its compute
    | Holding(uid: Uid)                                          // claimed, forwarding the request
    | Streaming(uid: Uid)                                        // response body not finished
    | Finished                                                   // response body finished and released
    | WillReread(uid: Uid)                                       // deleteInstance: about to load what it marked
    | WillPut(uid: Uid, snap: Inst, next: Inst)                  // Put: about to compare the revision
    | WillPutSwap(uid: Uid, snap: Inst, next: Inst)              // Put: about to swap
    | WillDelete(uid: Uid)                                       // finalizeInstance: about to delete

  datatype State = State(insts: map<Uid, Inst>, used: set<Uid>, pcs: map<Actor, Pc>)

  datatype Action =
    | TryClaim(a: Actor, uid: Uid)                               // claimWarmInstance, next candidate
    | ColdStart(a: Actor, uid: Uid, inst: Inst)                  // coldStart creates an assigned record
    | Started(a: Actor, ok: bool)                                // waitReady returns
    | Forwarded(a: Actor, ok: bool)                              // forward returns
    | BodyEvent(a: Actor)                                        // Read fails or Close is called
    | Create(a: Actor, uid: Uid, inst: Inst)                     // createInstance
    | Sync(a: Actor, uid: Uid, phase: string, node: string)      // syncInstances, from a snapshot taken now
    | EvictOne(a: Actor, uid: Uid)                               // deleteInstance
    | Finalize(a: Actor, uid: Uid)                               // finalizeInstance, compute confirmed gone
    | Advance(a: Actor, now: int)                                // the actor's next store operation

  function Pcs(s: State, a: Actor): Pc {
    if a in s.pcs then s.pcs[a] else Idle
  }

  function At(s: State, a: Actor, pc: Pc): State {
    s.(pcs := s.pcs[a := pc])
  }

  predicate Resting(pc: Pc) {
    pc.Idle? || pc.Finished?
  }

  /** The update callbacks; None where the callback refuses. */
  function Mutate(why: Purpose, i: Inst, now: int): Option<Inst> {
    match why
    case Claim => if i.deleting || i.use != Warm then None else Some(i.(use := Assigned))
    case Release(_) => Some(i.(use := Warm, lastUsed := now))
    case Cleanup(_) => Some(i.(deleting := true, use := Warm))
    case Evict => if i.use == Assigned then None else Some(i.(deleting := true))
  }

  /** Where the actor goes when an attempt did not write. */
  function AfterMiss(why: Purpose, uid: Uid, retry: bool): Pc {
    match why
    case Claim => Idle
    case Evict => Idle
    case Release(left) => if retry && left > 1 then WillRead(Release(left - 1), uid) else Finished
    case Cleanup(left) => if retry && left > 1 then WillRead(Cleanup(left - 1), uid) else Idle
  }

  function AfterHit(why: Purpose, uid: Uid): Pc {
    match why
    case Claim => Holding(uid)
    case Release(_) => Finished
    case Cleanup(_) => Idle
    case Evict => WillReread(uid)
  }

  function StoreStep(s: State, a: Actor, now: int): State {
    match Pcs(s, a)
    case WillRead(why, uid) =>
      if uid !in s.insts then At(s, a, AfterMiss(why, uid, false))
      else (match Mutate(why, s.insts[uid], now)
            case None => At(s, a, AfterMiss(why, uid, false))
            case Some(next) => At(s, a, WillSwap(why, uid, s.insts[uid], next)))
    case WillSwap(why, uid, prior, next) =>
      if Lookup(s.insts, uid) == Some(prior)
      then At(s, a, AfterHit(why, uid)).(insts := s.insts[uid := next])
      else At(s, a, AfterMiss(why, uid, true))
    case WillReread(uid) =>
      if uid !in s.insts || s.insts[uid].deleting then At(s, a, Idle)
      else At(s, a, WillPut(uid, s.insts[uid], s.insts[uid].(deleting := true)))
    case WillPut(uid, snap, next) =>
      if Lookup(s.insts, uid) == Some(snap) then At(s, a, WillPutSwap(uid, snap, next)) else At(s, a, Idle)
    case WillPutSwap(uid, snap, next) =>
      if Lookup(s.insts, uid) == Some(snap) then At(s, a, Idle).(insts := s.insts[uid := next]) else At(s, a, Idle)
    case WillDelete(uid) => At(s, a, Idle).(insts := s.insts - {uid})
    case _ => s
  }

  function NewRecord(s: State, a: Actor, uid: Uid, inst: Inst, pc: Pc): State {
    At(s, a, pc).(insts := s.insts[uid := inst], used := s.used + {uid})
  }

  function Do(s: State, act: Action): State {
    match act
    case TryClaim(a, uid) => if Resting(Pcs(s, a)) then At(s, a, WillRead(Claim, uid)) else s
    case ColdStart(a, uid, inst) =>
      if Resting(Pcs(s, a)) && uid !in s.used
      then NewRecord(s, a, uid, inst.(use := Assigned, deleting := false), Starting(uid)) else s
    case Started(a, ok) =>
      (match Pcs(s, a)
       case Starting(uid) => At(s, a, if ok then Holding(uid) else WillRead(Cleanup(16), uid))
       case _ => s)
    case Forwarded(a, ok) =>
      (match Pcs(s, a)
       case Holding(uid) => At(s, a, if ok then Streaming(uid) else WillRead(Release(3), uid))
       case _ => s)
    case BodyEvent(a) =>
      (match Pcs(s, a)
       case Streaming(uid) => At(s, a, WillRead(Release(3), uid))
       case _ => s)
    case Create(a, uid, inst) =>
      if Resting(Pcs(s, a)) && uid !in s.used
      then NewRecord(s, a, uid, inst.(use := Warm, deleting := false), Idle) else s
    case Sync(a, uid, phase, node) =>
      if Resting(Pcs(s, a)) && uid in s.insts && !s.insts[uid].deleting
      then At(s, a, WillPut(uid, s.insts[uid], s.insts[uid].(phase := phase, node := node))) else s
    case EvictOne(a, uid) => if Resting(Pcs(s, a)) then At(s, a, WillRead(Evict, uid)) else s
    case Finalize(a, uid) =>
      if Resting(Pcs(s, a)) && uid in s.insts && s.insts[uid].deleting then
        var rest := s.insts[uid].finalizers - {InstanceFinalizer};
        At(s, a, if rest == {} then WillDelete(uid) else WillPut(uid, s.insts[uid], s.insts[uid].(finalizers := rest)))
      else s
    case Advance(a, now) => StoreStep(s, a, now)
  }

  function Exec(s: State, schedule: seq<Action>): State {
    Runs.Exec(Do, s, schedule)
  }

  const Empty := State(map[], {}, map[])

  // ---------- safety ----------

  /** The record this actor holds, from the claim (or the cold start) to the end of the release. */
  function Held(pc: Pc): Option<Uid> {
    match pc
    case Starting(uid) => Some(uid)
    case Holding(uid) => Some(uid)
    case Streaming(uid) => Some(uid)
    case WillRead(why, uid) => if why.Release? || why.Cleanup? then Some(uid) else None
    case WillSwap(why, uid, _, _) => if why.Release? || why.Cleanup? then Some(uid) else None
    case _ => None
  }

  predicate InUse(insts: map<Uid, Inst>, uid: Uid) {
    uid in insts && insts[uid].use == Assigned && !insts[uid].deleting
  }

  /** The record is gone for good or on its way out. */
  predicate Doomed(s: State, uid: Uid) {
    uid in s.used && (uid in s.insts ==> s.insts[uid].deleting)
  }

  /** Two versions of a record that differ in phase, node and finalizers only. */
  predicate SameClaim(i: Inst, j: Inst) {
    i.use == j.use && i.deleting == j.deleting && i.lastUsed == j.lastUsed
  }

  /** What an actor may rely on between two of its steps. */
  predicate Sound(s: State, pc: Pc) {
    && (Held(pc).Some? ==> InUse(s.insts, Held(pc).value))
    && (match pc
        case WillSwap(Claim, uid, prior, next) =>
          prior.use == Warm && !prior.deleting && next == prior.(use := Assigned)
        case WillSwap(Evict, uid, prior, next) => prior.use == Warm && next == prior.(deleting := true)
        case WillSwap(_, uid, prior, next) => next.use == Warm && (prior.deleting ==> next.deleting)
        case WillReread(uid) => Doomed(s, uid)
        case WillDelete(uid) => Doomed(s, uid)
        case WillPut(uid, snap, next) => SameClaim(snap, next)
        case WillPutSwap(uid, snap, next) => SameClaim(snap, next)
        case _ => true)
  }

  predicate Alone(s: State, a: Actor, b: Actor) {
    Held(Pcs(s, a)).Some? && Held(Pcs(s, a)) == Held(Pcs(s, b)) ==> a == b
  }

  ghost predicate Inv(s: State) {
    && s.insts.Keys <= s.used
    && (forall a :: Sound(s, Pcs(s, a)))
    && (forall a, b :: Alone(s, a, b))
  }

  /** A step by `a` that rewrites at most one record, keeps deletion marks, and leaves every record
      held by someone else in use, keeps the invariant. */
  lemma {:induction false} WriteKeeps(s: State, s': State, a: Actor, uid: Uid)
    requires Inv(s)
    requires a in s'.pcs && s'.pcs == s.pcs[a := s'.pcs[a]] && s'.used >= s.used && s'.insts.Keys <= s'.used
    requires forall u :: u != uid ==> Lookup(s'.insts, u) == Lookup(s.insts, u)
    requires uid in s.used && uid in s'.insts ==> uid in s.insts && (s.insts[uid].deleting ==> s'.insts[uid].deleting)
    requires forall b :: b != a && Held(Pcs(s, b)) == Some(uid) ==> InUse(s'.insts, uid)
    requires Sound(s', s'.pcs[a])
    requires Held(s'.pcs[a]).Some? ==> forall b :: b != a ==> Held(Pcs(s, b)) != Held(s'.pcs[a])
    ensures Inv(s')
  {
    forall b ensures Sound(s', Pcs(s', b)) {
      if b != a {
        assert Pcs(s', b) == Pcs(s, b) && Sound(s, Pcs(s, b));
        if Held(Pcs(s, b)).Some? {
          var u := Held(Pcs(s, b)).value;
          assert Lookup(s'.insts, u) == Lookup(s.insts, u) || u == uid;
        } else if Pcs(s, b).WillReread? || Pcs(s, b).WillDelete? {
          var u := Pcs(s, b).uid;
          assert Lookup(s'.insts, u) == Lookup(s.insts, u) || u == uid;
        }
      }
    }
    forall b, c ensures Alone(s', b, c) {
      assert Alone(s, b, c);
      assert b != a ==> Pcs(s', b) == Pcs(s, b);
      assert c != a ==> Pcs(s', c) == Pcs(s, c);
    }
  }

  /** No one holds a record that is idle, marked for deletion or absent. */
  lemma {:induction false} NoHolder(s: State, uid: Uid)
    requires Inv(s) && !InUse(s.insts, uid)
    ensures forall b :: Held(Pcs(s, b)) != Some(uid)
  {
    forall b ensures Held(Pcs(s, b)) != Some(uid) {
      assert Sound(s, Pcs(s, b));
    }
  }

  lemma {:induction false} SoleHolder(s: State, a: Actor, uid: Uid)
    requires Inv(s) && Held(Pcs(s, a)) == Some(uid)
    ensures forall b :: b != a ==> Held(Pcs(s, b)) != Some(uid)
  {
    forall b | b != a ensures Held(Pcs(s, b)) != Some(uid) {
      assert Alone(s, a, b);
    }
  }

  /** Moving between program points without writing, keeping or dropping what is held. */
  lemma {:induction false} MoveKeeps(s: State, a: Actor, pc: Pc)
    requires Inv(s) && Sound(s, pc)
    requires Held(pc).Some? ==> Held(pc) == Held(Pcs(s, a))
    ensures Inv(At(s, a, pc))
  {
    if Held(pc).Some? {
      SoleHolder(s, a, Held(pc).value);
    }
    WriteKeeps(s, At(s, a, pc), a, "");
  }

  lemma {:induction false} SwapKeeps(s: State, a: Actor, why: Purpose, uid: Uid, prior: Inst, next: Inst)
    requires Inv(s) && Pcs(s, a) == WillSwap(why, uid, prior, next)
    requires Lookup(s.insts, uid) == Some(prior)
    ensures Inv(At(s, a, AfterHit(why, uid)).(insts := s.insts[uid := next]))
  {
    var s' := At(s, a, AfterHit(why, uid)).(insts := s.insts[uid := next]);
    assert Sound(s, Pcs(s, a));
    if why == Claim || why == Evict {
      NoHolder(s, uid);
    } else {
      SoleHolder(s, a, uid);
    }
    WriteKeeps(s, s', a, uid);
  }

  lemma {:induction false} PutKeeps(s: State, a: Actor, uid: Uid, snap: Inst, next: Inst)
    requires Inv(s) && Pcs(s, a) == WillPutSwap(uid, snap, next)
    requires Lookup(s.insts, uid) == Some(snap)
    ensures Inv(At(s, a, Idle).(insts := s.insts[uid := next]))
  {
    assert Sound(s, Pcs(s, a));
    forall b | Held(Pcs(s, b)) == Some(uid) ensures InUse(s.insts, uid) {
      assert Sound(s, Pcs(s, b));
    }
    WriteKeeps(s, At(s, a, Idle).(insts := s.insts[uid := next]), a, uid);
  }

  lemma {:induction false} DeleteKeeps(s: State, a: Actor, uid: Uid)
    requires Inv(s) && Pcs(s, a) == WillDelete(uid)
    ensures Inv(At(s, a, Idle).(insts := s.insts - {uid}))
  {
    assert Sound(s, Pcs(s, a));
    NoHolder(s, uid);
    WriteKeeps(s, At(s, a, Idle).(insts := s.insts - {uid}), a, uid);
  }

  lemma {:induction false} NewRecordKeeps(s: State, a: Actor, uid: Uid, inst: Inst, pc: Pc)
    requires Inv(s) && uid !in s.used && !inst.deleting
    requires pc == Idle || (pc == Starting(uid) && inst.use == Assigned)
    ensures Inv(NewRecord(s, a, uid, inst, pc))
  {
    NoHolder(s, uid);
    WriteKeeps(s, NewRecord(s, a, uid, inst, pc), a, uid);
  }

  lemma {:induction false} StoreStepKeeps(s: State, a: Actor, now: int)
    requires Inv(s)
    ensures Inv(StoreStep(s, a, now))
  {
    assert Sound(s, Pcs(s, a));
    match Pcs(s, a)
    case WillRead(why, uid) => MoveKeeps(s, a, Pcs(StoreStep(s, a, now), a));
    case WillSwap(why, uid, prior, next) =>
      if Lookup(s.insts, uid) == Some(prior) {
        SwapKeeps(s, a, why, uid, prior, next);
      } else {
        MoveKeeps(s, a, AfterMiss(why, uid, true));
      }
    case WillReread(uid) => MoveKeeps(s, a, Idle);
    case WillPut(uid, snap, next) => MoveKeeps(s, a, Pcs(StoreStep(s, a, now), a));
    case WillPutSwap(uid, snap, next) =>
      if Lookup(s.insts, uid) == Some(snap) {
        PutKeeps(s, a, uid, snap, next);
      } else {
        MoveKeeps(s, a, Idle);
      }
    case WillDelete(uid) => DeleteKeeps(s, a, uid);
    case _ =>
  }

  lemma {:induction false} StepKeeps(s: State, act: Action)
    requires Inv(s)
    ensures Inv(Do(s, act))
  {
    assert Sound(s, Pcs(s, act.a));
    if act.Advance? {
      StoreStepKeeps(s, act.a, act.now);
    } else if act.ColdStart? && Resting(Pcs(s, act.a)) && act.uid !in s.used {
      NewRecordKeeps(s, act.a, act.uid, act.inst.(use := Assigned, deleting := false), Starting(act.uid));
    } else if act.Create? && Resting(Pcs(s, act.a)) && act.uid !in s.used {
      NewRecordKeeps(s, act.a, act.uid, act.inst.(use := Warm, deleting := false), Idle);
    } else if Do(s, act) != s {
      MoveKeeps(s, act.a, Pcs(Do(s, act), act.a));
    }
  }

  lemma {:induction false} Safe(schedule: seq<Action>)
    ensures Inv(Exec(Empty, schedule))
  {
    if schedule != [] {
      var n := |schedule| - 1;
      Safe(schedule[..n]);
      StepKeeps(Exec(Empty, schedule[..n]), schedule[n]);
    }
  }

  /** In every schedule an instance has at most one holder, and a held instance is on record, assigned
      and not marked for deletion. */
  lemma {:induction false} ClaimsAreExclusive(schedule: seq<Action>, a: Actor, b: Actor, uid: Uid)
    ensures var s := Exec(Empty, schedule);
            Held(Pcs(s, a)) == Some(uid) ==>
              && uid in s.insts && s.insts[uid].use == Assigned && !s.insts[uid].deleting
              && (Held(Pcs(s, b)) == Some(uid) ==> a == b)
  {
    Safe(schedule);
    var s := Exec(Empty, schedule);
    assert Sound(s, Pcs(s, a)) && Alone(s, a, b);
  }

  /** No step of anyone else takes a held instance away: it stays on record, and only its phase, node
      and finalizers can change under the holder. */
  lemma {:induction false} HeldIsLeftAlone(schedule: seq<Action>, a: Actor, uid: Uid, act: Action)
    requires act.a != a && Held(Pcs(Exec(Empty, schedule), a)) == Some(uid)
    ensures var s := Exec(Empty, schedule);
            var s' := Do(s, act);
            && Held(Pcs(s', a)) == Some(uid)
            && uid in s.insts && uid in s'.insts
            && s'.insts[uid].use == Assigned && !s'.insts[uid].deleting
            && s'.insts[uid].lastUsed == s.insts[uid].lastUsed
  {
    Safe(schedule);
    var s := Exec(Empty, schedule);
    StepKeeps(s, act);
    assert Sound(s, Pcs(s, a)) && Sound(s, Pcs(s, act.a)) && Alone(s, a, act.a);
    assert Sound(Do(s, act), Pcs(Do(s, act), a));
  }

  /** A deletion mark is never taken back, and a UID never comes back to life. */
  lemma {:induction false} DeletionIsFinal(schedule: seq<Action>, uid: Uid, act: Action)
    requires Doomed(Exec(Empty, schedule), uid)
    ensures Doomed(Do(Exec(Empty, schedule), act), uid)
  {
    Safe(schedule);
    var s := Exec(Empty, schedule);
    assert Sound(s, Pcs(s, act.a));
  }

  /** After marking an instance, the controller never needs its second write: what it reads back is
      already marked, or gone. */
  lemma {:induction false} SecondMarkIsDead(schedule: seq<Action>, a: Actor, now: int)
    requires Pcs(Exec(Empty, schedule), a).WillReread?
    ensures Pcs(Do(Exec(Empty, schedule), Advance(a, now)), a) == Idle
  {
    Safe(schedule);
    assert Sound(Exec(Empty, schedule), Pcs(Exec(Empty, schedule), a));
  }

  // ---------- how a hold begins and ends ----------

  predicate Keeping(why: Purpose) {
    why.Release? || why.Cleanup?
  }

  /** What one step can do to the hold of its actor on `uid`, and to the record: a hold begins by taking
      the record into use, ends by one release or cleanup that puts it out of use or loses its last
      attempt, and nothing else changes whether a record is in use. */
  lemma {:induction false} HoldStep(s: State, act: Action, uid: Uid)
    requires Inv(s)
    ensures var s' := Do(s, act);
            var before, after := Held(Pcs(s, act.a)) == Some(uid), Held(Pcs(s', act.a)) == Some(uid);
            && (forall b :: b != act.a ==> Pcs(s', b) == Pcs(s, b))
            && (!before && after ==> !InUse(s.insts, uid) && InUse(s'.insts, uid))
            && (before && !after ==> InUse(s.insts, uid) && (InUse(s'.insts, uid) <==> s'.insts == s.insts))
            && (before == after ==> InUse(s'.insts, uid) == InUse(s.insts, uid))
  {
    assert Sound(s, Pcs(s, act.a));
    StepKeeps(s, act);
    assert Sound(Do(s, act), Pcs(Do(s, act), act.a));
    if !InUse(s.insts, uid) {
      NoHolder(s, uid);
    }
  }

  /** In every schedule a hold ends only by its own holder's release or cleanup: by the one swap that
      puts the record back as warm, or by losing the last of its attempts. */
  lemma {:induction false} HoldEndsByRelease(schedule: seq<Action>, act: Action, uid: Uid)
    requires var s := Exec(Empty, schedule);
             Held(Pcs(s, act.a)) == Some(uid) && Held(Pcs(Do(s, act), act.a)) != Some(uid)
    ensures var s := Exec(Empty, schedule);
            var s' := Do(s, act);
            && act.Advance? && Pcs(s, act.a).WillSwap? && Keeping(Pcs(s, act.a).why) && uid in s.insts
            && Resting(Pcs(s', act.a))
            && (if s.insts[uid] == Pcs(s, act.a).prior
                then s'.insts == s.insts[uid := Pcs(s, act.a).next] && Pcs(s, act.a).next.use == Warm
                else s'.insts == s.insts && Pcs(s, act.a).why.left <= 1)
  {
    Safe(schedule);
    var s := Exec(Empty, schedule);
    assert Sound(s, Pcs(s, act.a));
  }

  // ---------- abandoned records ----------

  /** The step ends a hold on `uid` without writing the record: the release or cleanup gave up. */
  predicate GivesUp(s: State, act: Action, uid: Uid) {
    Held(Pcs(s, act.a)) == Some(uid) && Held(Pcs(Do(s, act), act.a)) != Some(uid) && Do(s, act).insts == s.insts
  }

  /** Some release or cleanup of `uid` gave up in the course of the schedule. */
  predicate Abandoned(schedule: seq<Action>, uid: Uid) {
    schedule != [] &&
    var earlier, act := schedule[..|schedule| - 1], schedule[|schedule| - 1];
    Abandoned(earlier, uid) || GivesUp(Exec(Empty, earlier), act, uid)
  }

  ghost predicate SomeoneHolds(s: State, uid: Uid) {
    exists a :: Held(Pcs(s, a)) == Some(uid)
  }

  /** In every schedule a record is in use if and only if someone holds it or a release of it gave up; an
      abandoned record has no holder. */
  lemma {:induction false} InUseIffHeldOrAbandoned(schedule: seq<Action>, uid: Uid)
    ensures var s := Exec(Empty, schedule);
            && (InUse(s.insts, uid) <==> SomeoneHolds(s, uid) || Abandoned(schedule, uid))
            && !(SomeoneHolds(s, uid) && Abandoned(schedule, uid))
  {
    if schedule != [] {
      var n := |schedule| - 1;
      var s, act := Exec(Empty, schedule[..n]), schedule[n];
      InUseIffHeldOrAbandoned(schedule[..n], uid);
      Safe(schedule[..n]);
      HoldStep(s, act, uid);
      HoldersAfter(s, act, uid);
      hide Do, Inv;
    }
  }

  lemma {:induction false} HoldersAfter(s: State, act: Action, uid: Uid)
    requires Inv(s)
    ensures SomeoneHolds(Do(s, act), uid) <==>
              Held(Pcs(Do(s, act), act.a)) == Some(uid) || (SomeoneHolds(s, uid) && Held(Pcs(s, act.a)) != Some(uid))
  {
    HoldStep(s, act, uid);
    hide Do;
    if Held(Pcs(s, act.a)) == Some(uid) {
      SoleHolder(s, act.a, uid);
    }
    if b :| Held(Pcs(s, b)) == Some(uid) {
      assert b != act.a ==> Held(Pcs(Do(s, act), b)) == Some(uid);
    }
  }

  /** The leak is for good: no step of anyone claims, evicts, marks or removes an abandoned record. */
  lemma {:induction false} AbandonedIsStuck(schedule: seq<Action>, more: seq<Action>, uid: Uid)
    requires Abandoned(schedule, uid)
    ensures var s := Exec(Empty, schedule + more);
            Abandoned(schedule + more, uid) && InUse(s.insts, uid) && !SomeoneHolds(s, uid)
  {
    StillAbandoned(schedule, more, uid);
    InUseIffHeldOrAbandoned(schedule + more, uid);
  }

  lemma {:induction false} StillAbandoned(schedule: seq<Action>, more: seq<Action>, uid: Uid)
    requires Abandoned(schedule, uid)
    ensures Abandoned(schedule + more, uid)
  {
    if more == [] {
      assert schedule + more == schedule;
    } else {
      var n := |more| - 1;
      StillAbandoned(schedule, more[..n], uid);
      assert (schedule + more)[..|schedule + more| - 1] == schedule + more[..n];
    }
  }

  // ---------- giving up takes that many rivals ----------

  /** How often a release or a cleanup tries. */
  function Tries(why: Purpose): nat {
    if why.Release? then 3 else 16
  }

  /** The actor is in the middle of releasing or cleaning up a record. */
  predicate Ending(pc: Pc) {
    (pc.WillRead? || pc.WillSwap?) && Keeping(pc.why)
  }

  /** The step is someone else's write to the record that the actor is releasing or cleaning up. */
  predicate Interferes(s: State, act: Action, a: Actor) {
    Ending(Pcs(s, a)) && act.a != a && Lookup(Do(s, act).insts, Pcs(s, a).uid) != Lookup(s.insts, Pcs(s, a).uid)
  }

  /** The writes others made to the record since this actor began to release it or clean it up. */
  function Rivals(schedule: seq<Action>, a: Actor): nat {
    if schedule == [] then 0 else
      var earlier, act := schedule[..|schedule| - 1], schedule[|schedule| - 1];
      var s := Exec(Empty, earlier);
      if !Ending(Pcs(s, a)) then 0
      else Rivals(earlier, a) + if Interferes(s, act, a) then 1 else 0
  }

  /** Every attempt used up was lost to a rival. */
  predicate Worn(s: State, pc: Pc, rivals: nat) {
    Ending(pc) ==>
      && 1 <= pc.why.left <= Tries(pc.why)
      && rivals >= Tries(pc.why) - pc.why.left
           + if pc.WillSwap? && Lookup(s.insts, pc.uid) != Some(pc.prior) then 1 else 0
  }

  lemma {:induction false} StepWorn(s: State, act: Action, a: Actor, rivals: nat)
    requires Inv(s) && Worn(s, Pcs(s, a), rivals)
    ensures var s' := Do(s, act);
            Worn(s', Pcs(s', a), if Ending(Pcs(s, a)) then rivals + if Interferes(s, act, a) then 1 else 0 else 0)
  {
    assert Sound(s, Pcs(s, a));
  }

  lemma {:induction false} AllWorn(schedule: seq<Action>, a: Actor)
    ensures Worn(Exec(Empty, schedule), Pcs(Exec(Empty, schedule), a), Rivals(schedule, a))
  {
    if schedule != [] {
      var n := |schedule| - 1;
      AllWorn(schedule[..n], a);
      Safe(schedule[..n]);
      StepWorn(Exec(Empty, schedule[..n]), schedule[n], a, Rivals(schedule[..n], a));
      hide Do, Inv, Worn;
    }
  }

  /** In every schedule a release gives up only after three, and a cleanup only after sixteen, writes of
      others to its record since it began. */
  lemma {:induction false} GivesUpAfterRivals(schedule: seq<Action>, act: Action, uid: Uid)
    requires GivesUp(Exec(Empty, schedule), act, uid)
    ensures var pc := Pcs(Exec(Empty, schedule), act.a);
            Ending(pc) && pc.uid == uid && Rivals(schedule, act.a) >= if pc.why.Release? then 3 else 16
  {
    AllWorn(schedule, act.a);
    Safe(schedule);
    var s := Exec(Empty, schedule);
    assert Sound(s, Pcs(s, act.a));
  }

  /** An attempt of actor 0 that loses its swap to a sync by actor 1. */
  function LosingRound(uid: Uid, phase: string): seq<Action> {
    [Advance(0, 0), Sync(1, uid, phase, ""), Advance(1, 0), Advance(1, 0), Advance(0, 0)]
  }

  lemma {:induction false} RoundStepByStep(s: State, uid: Uid, left: nat, phase: string)
    requires Pcs(s, 0) == WillRead(Release(left), uid) && Pcs(s, 1) == Idle && 0 in s.pcs && 1 in s.pcs
    requires uid in s.insts && !s.insts[uid].deleting && s.insts[uid].phase != phase
    ensures var mid := Do(Do(s, Advance(0, 0)), Sync(1, uid, phase, ""));
            Do(Do(Do(mid, Advance(1, 0)), Advance(1, 0)), Advance(0, 0)) ==
            s.(insts := s.insts[uid := s.insts[uid].(phase := phase, node := "")],
               pcs := s.pcs[0 := AfterMiss(Release(left), uid, true)])
  {
    var synced := s.insts[uid].(phase := phase, node := "");
    var s1 := Do(s, Advance(0, 0));
    assert s1 == At(s, 0, WillSwap(Release(left), uid, s.insts[uid], s.insts[uid].(use := Warm, lastUsed := 0)));
    var s2 := Do(s1, Sync(1, uid, phase, ""));
    assert s2 == At(s1, 1, WillPut(uid, s.insts[uid], synced));
    var s3 := Do(s2, Advance(1, 0));
    assert s3 == At(s1, 1, WillPutSwap(uid, s.insts[uid], synced));
    var s4 := Do(s3, Advance(1, 0));
    assert s4 == At(s1, 1, Idle).(insts := s.insts[uid := s.insts[uid].(phase := phase, node := "")]);
  }

  lemma {:induction false} RoundIsLost(s: State, uid: Uid, left: nat, phase: string)
    requires Pcs(s, 0) == WillRead(Release(left), uid) && Pcs(s, 1) == Idle && 0 in s.pcs && 1 in s.pcs
    requires uid in s.insts && !s.insts[uid].deleting && s.insts[uid].phase != phase
    ensures Exec(s, LosingRound(uid, phase)) ==
            s.(insts := s.insts[uid := s.insts[uid].(phase := phase, node := "")],
               pcs := s.pcs[0 := AfterMiss(Release(left), uid, true)])
  {
    hide Do, Runs.Exec;
    Runs.Five(Do, s, LosingRound(uid, phase));
    RoundStepByStep(s, uid, left, phase);
  }

  /** A cold start by actor 0, up to its release. */
  lemma {:induction false} ReachRelease(uid: Uid) returns (schedule: seq<Action>, s: State)
    ensures s == Exec(Empty, schedule) && s.insts.Keys == {uid} && s.insts[uid] == Inst(Assigned, false, 0, "", "", {})
    ensures s.pcs == map[0 := WillRead(Release(3), uid), 1 := Idle]
  {
    var inst := Inst(Assigned, false, 0, "", "", {});
    schedule := [ColdStart(0, uid, inst), Started(0, true), Forwarded(0, false), EvictOne(1, uid + "x"), Advance(1, 0)];
    Runs.Five(Do, Empty, schedule);
    s := Exec(Empty, schedule);
    var s1 := Do(Empty, schedule[0]);
    var s3 := Do(Do(s1, schedule[1]), schedule[2]);
    assert s3.insts == map[uid := inst] && s3.pcs == map[0 := WillRead(Release(3), uid)];
  }

  lemma {:induction false} ThreeRoundsAreLost(s: State, uid: Uid) returns (s': State)
    requires s.insts.Keys == {uid} && s.insts[uid] == Inst(Assigned, false, 0, "", "", {})
    requires s.pcs == map[0 := WillRead(Release(3), uid), 1 := Idle]
    ensures s' == Exec(Exec(Exec(s, LosingRound(uid, "a")), LosingRound(uid, "b")), LosingRound(uid, "c"))
    ensures InUse(s'.insts, uid) && s'.pcs == map[0 := Finished, 1 := Idle]
  {
    hide Runs.Exec, Do, LosingRound;
    RoundIsLost(s, uid, 3, "a");
    var s1 := Exec(s, LosingRound(uid, "a"));
    assert s1.insts[uid].phase == "a" && s1.pcs[0] == WillRead(Release(2), uid);
    RoundIsLost(s1, uid, 2, "b");
    var s2 := Exec(s1, LosingRound(uid, "b"));
    assert s2.insts[uid].phase == "b" && s2.pcs[0] == WillRead(Release(1), uid);
    RoundIsLost(s2, uid, 1, "c");
    s' := Exec(s2, LosingRound(uid, "c"));
  }

  /** A schedule that abandons a record: three swaps of a release are lost to the controller's syncs. */
  lemma {:induction false} ReleaseCanGiveUp(uid: Uid) returns (schedule: seq<Action>)
    ensures var s := Exec(Empty, schedule);
            InUse(s.insts, uid) && !SomeoneHolds(s, uid) && Abandoned(schedule, uid)
  {
    hide Runs.Exec, Do, LosingRound, Abandoned, InUse;
    var first, s := ReachRelease(uid);
    var last := ThreeRoundsAreLost(s, uid);
    var a, b, c := LosingRound(uid, "a"), LosingRound(uid, "b"), LosingRound(uid, "c");
    schedule := first + a + b + c;
    Runs.Joins(Do, Empty, first, a);
    Runs.Joins(Do, Empty, first + a, b);
    Runs.Joins(Do, Empty, first + a + b, c);
    InUseIffHeldOrAbandoned(schedule, uid);
    assert forall x :: Held(Pcs(last, x)) == None;
  }

  // ---------- undisturbed calls ----------

  /** An undisturbed attempt on a record: it is claimed exactly when warm and unmarked. */
  lemma {:induction false} ClaimAlone(s: State, a: Actor, uid: Uid, now: int)
    requires Resting(Pcs(s, a))
    ensures var s' := Do(Do(Do(s, TryClaim(a, uid)), Advance(a, now)), Advance(a, now));
            var free := uid in s.insts && s.insts[uid].use == Warm && !s.insts[uid].deleting;
            && Pcs(s', a) == (if free then Holding(uid) else Idle)
            && s'.insts == (if free then s.insts[uid := s.insts[uid].(use := Assigned)] else s.insts)
  {
  }

  /** An undisturbed release puts the record back as warm, used now, and open to the next claim. */
  lemma {:induction false} ReleaseAlone(s: State, a: Actor, b: Actor, uid: Uid, now: int)
    requires Pcs(s, a) == Streaming(uid) && uid in s.insts && !s.insts[uid].deleting
    requires Resting(Pcs(s, b))
    ensures var s' := Do(Do(Do(s, BodyEvent(a)), Advance(a, now)), Advance(a, now));
            && Pcs(s', a) == Finished && Do(s', BodyEvent(a)) == s'
            && s'.insts == s.insts[uid := s.insts[uid].(use := Warm, lastUsed := now)]
            && Pcs(Do(Do(Do(s', TryClaim(b, uid)), Advance(b, now)), Advance(b, now)), b) == Holding(uid)
  {
    var s' := Do(Do(Do(s, BodyEvent(a)), Advance(a, now)), Advance(a, now));
    assert Resting(Pcs(s', b));
    ClaimAlone(s', b, uid, now);
  }

  /** An undisturbed eviction marks the record exactly when it is not assigned. */
  lemma {:induction false} EvictAlone(s: State, a: Actor, uid: Uid, now: int)
    requires Resting(Pcs(s, a))
    ensures var s' := Do(Do(Do(s, EvictOne(a, uid)), Advance(a, now)), Advance(a, now));
            s'.insts == if uid in s.insts && s.insts[uid].use != Assigned
                        then s.insts[uid := s.insts[uid].(deleting := true)] else s.insts
  {
  }

  /** An undisturbed cleanup after a failed cold start leaves the record marked for deletion and warm, so
      that the controller may finish it; a start that succeeds changes no record. */
  lemma {:induction false} CleanupAlone(s: State, a: Actor, uid: Uid, now: int)
    requires Pcs(s, a) == Starting(uid) && uid in s.insts
    ensures var s' := Do(Do(Do(s, Started(a, false)), Advance(a, now)), Advance(a, now));
            Pcs(s', a) == Idle && s'.insts == s.insts[uid := s.insts[uid].(deleting := true, use := Warm)]
    ensures Do(s, Started(a, true)) == At(s, a, Holding(uid))
  {
  }

  /** An undisturbed release after a failed forward returns the record as warm and used now; a forward
      that succeeds changes no record and goes on to stream the body. */
  lemma {:induction false} ForwardFailureAlone(s: State, a: Actor, uid: Uid, now: int)
    requires Pcs(s, a) == Holding(uid) && uid in s.insts
    ensures var s' := Do(Do(Do(s, Forwarded(a, false)), Advance(a, now)), Advance(a, now));
            Pcs(s', a) == Finished && s'.insts == s.insts[uid := s.insts[uid].(use := Warm, lastUsed := now)]
    ensures Do(s, Forwarded(a, true)) == At(s, a, Streaming(uid))
  {
  }

  /** An undisturbed finalization removes a marked record with its last finalizer, and otherwise takes
      the function controller's finalizer off it; an unmarked record is left alone. */
  lemma {:induction false} FinalizeAlone(s: State, a: Actor, uid: Uid, now: int)
    requires Resting(Pcs(s, a))
    ensures var s' := Do(Do(Do(s, Finalize(a, uid)), Advance(a, now)), Advance(a, now));
            s'.insts == if uid !in s.insts || !s.insts[uid].deleting then s.insts
                        else if s.insts[uid].finalizers <= {InstanceFinalizer} then s.insts - {uid}
                        else s.insts[uid := s.insts[uid].(finalizers := s.insts[uid].finalizers - {InstanceFinalizer})]
  {
    if uid in s.insts && s.insts[uid].deleting {
      assert s.insts[uid].finalizers <= {InstanceFinalizer} <==> s.insts[uid].finalizers - {InstanceFinalizer} == {};
    }
  }

  /** An undisturbed sync records the phase and node of an unmarked record, and nothing else. */
  lemma {:induction false} SyncAlone(s: State, a: Actor, uid: Uid, phase: string, node: string, now: int)
    requires Resting(Pcs(s, a))
    ensures var s' := Do(Do(Do(s, Sync(a, uid, phase, node)), Advance(a, now)), Advance(a, now));
            s'.insts == if uid in s.insts && !s.insts[uid].deleting
                        then s.insts[uid := s.insts[uid].(phase := phase, node := node)] else s.insts
  {
  }

  /** A new record is unmarked, warm when the pool creates it, and assigned to its creator when a cold
      start does. */
  lemma {:induction false} CreateAlone(s: State, a: Actor, uid: Uid, inst: Inst)
    requires Resting(Pcs(s, a)) && uid !in s.used
    ensures var s' := Do(s, Create(a, uid, inst));
            Pcs(s', a) == Idle && s'.insts == s.insts[uid := inst.(use := Warm, deleting := false)]
    ensures var s' := Do(s, ColdStart(a, uid, inst));
            Held(Pcs(s', a)) == Some(uid) && s'.insts == s.insts[uid := inst.(use := Assigned, deleting := false)]
  {
  }
}
