/** Optimistic concurrency of the typed registry.

    Any number of clients run `Put`, `TryUpdate` and `Delete` against one store. A call is split at
    its store operations (`Get`, then `CompareAndSwap`), and a schedule interleaves the pieces of all
    calls. `Atomic` is the reference: the same call as one indivisible step. A stored revision is a
    collision-free hash of the stored document, so it is modelled by the document itself. */
module Registry {
  import opened Options
  import Runs

  type Uid = string
  type Client = nat

  datatype Doc = Doc(metadata: string, spec: string, status: string)

  /** The store of one kind: what is kept under each UID. */
  type Store = map<Uid, Doc>

  datatype Op =
    | Put(uid: Uid, doc: Doc, expected: Option<Doc>)  // expected: the revision carried by the resource, if any
    | TryUpdate(uid: Uid, mutate: Doc -> Option<Doc>) // None: the callback refused
    | Delete(uid: Uid)

  datatype Outcome = Applied | Conflict | Refused | NotFound

  // ---------- the reference: one call, one step ----------

  function Atomic(st: Store, op: Op): (Store, Outcome) {
    match op
    case Put(uid, doc, expected) =>
      if uid == "" then (st, Refused)
      else if Lookup(st, uid) == expected then (st[uid := doc], Applied) else (st, Conflict)
    case TryUpdate(uid, mutate) =>
      if uid !in st then (st, NotFound)
      else (match mutate(st[uid])
            case Some(d) => (st[uid := d], Applied)
            case None => (st, Refused))
    case Delete(uid) => (st - {uid}, Applied)
  }

  /** The store after a list of calls, one at a time. */
  function Replay(st: Store, ops: seq<Op>): Store {
    if ops == [] then st else Atomic(Replay(st, ops[..|ops| - 1]), ops[|ops| - 1]).0
  }

  /** Every call of the list, run at its place in the list, is applied. */
  ghost predicate AllApplied(st: Store, ops: seq<Op>) {
    forall i :: 0 <= i < |ops| ==> Atomic(Replay(st, ops[..i]), ops[i]).1 == Applied
  }

  // ---------- the interleaved system ----------

  /** Where a call stands; `began` and `seen` are the lengths of the commit log when the call began
      and when it read the store. */
  datatype Pc =
    | Begun(op: Op, began: nat)
    | HasRead(op: Op, prior: Doc, began: nat, seen: nat)
    | Returned(op: Op, outcome: Outcome, began: nat, at: nat)

  datatype State = State(store: Store, log: seq<Op>, clients: map<Client, Pc>)

  datatype Action = Call(c: Client, op: Op) | Advance(c: Client)

  function Begin(st: Store): State {
    State(st, [], map[])
  }

  function Return(s: State, c: Client, pc: Pc, outcome: Outcome): State {
    s.(clients := s.clients[c := Returned(pc.op, outcome, pc.began, |s.log|)])
  }

  function Commit(s: State, c: Client, pc: Pc, st: Store): State {
    Return(s, c, pc, Applied).(store := st, log := s.log + [pc.op])
  }

  /** The next store operation of a call that has not touched the store yet. */
  function FirstStep(s: State, c: Client, pc: Pc): State
    requires pc.Begun?
  {
    match pc.op
    case Put("", _, _) => Return(s, c, pc, Refused)
    case Put(uid, doc, None) =>
      if uid in s.store then Return(s, c, pc, Conflict) else Commit(s, c, pc, s.store[uid := doc])
    case Put(uid, doc, Some(revision)) =>
      if uid !in s.store || s.store[uid] != revision then Return(s, c, pc, Conflict)
      else s.(clients := s.clients[c := HasRead(pc.op, s.store[uid], pc.began, |s.log|)])
    case TryUpdate(uid, mutate) =>
      if uid !in s.store then Return(s, c, pc, NotFound)
      else if mutate(s.store[uid]) == None then Return(s, c, pc, Refused)
      else s.(clients := s.clients[c := HasRead(pc.op, s.store[uid], pc.began, |s.log|)])
    case Delete(uid) => Commit(s, c, pc, s.store - {uid})
  }

  /** What a call that has read `prior` writes. */
  function NewValue(op: Op, prior: Doc): Option<Doc> {
    match op
    case Put(uid, doc, _) => Some(doc)
    case TryUpdate(uid, mutate) => mutate(prior)
    case Delete(_) => None
  }

  /** The compare-and-swap of a call that has read its document. */
  function SecondStep(s: State, c: Client, pc: Pc): State
    requires pc.HasRead?
  {
    match NewValue(pc.op, pc.prior)
    case None => s
    case Some(d) =>
      if Lookup(s.store, pc.op.uid) == Some(pc.prior) then Commit(s, c, pc, s.store[pc.op.uid := d])
      else Return(s, c, pc, Conflict)
  }

  function Do(s: State, a: Action): State {
    match a
    case Call(c, op) =>
      if c in s.clients && !s.clients[c].Returned? then s
      else s.(clients := s.clients[c := Begun(op, |s.log|)])
    case Advance(c) =>
      if c !in s.clients then s
      else match s.clients[c]
        case Begun(_, _) => FirstStep(s, c, s.clients[c])
        case HasRead(_, _, _, _) => SecondStep(s, c, s.clients[c])
        case Returned(_, _, _, _) => s
  }

  function Exec(s: State, schedule: seq<Action>): State {
    Runs.Exec(Do, s, schedule)
  }

  // ---------- what every schedule keeps ----------

  /** A call that was applied sits in the log, after the call began; any other outcome is one the
      reference would give at some moment of the call, or a swap lost to a rival. */
  ghost predicate Justified(st: Store, log: seq<Op>, pc: Pc) {
    match pc
    case Begun(_, began) => began <= |log|
    case HasRead(op, prior, began, seen) =>
      && began <= seen <= |log|
      && (op.TryUpdate? || (op.Put? && op.uid != "" && op.expected == Some(prior)))
      && NewValue(op, prior).Some?
      && Lookup(Replay(st, log[..seen]), op.uid) == Some(prior)
    case Returned(op, outcome, began, at) =>
      && began <= at <= |log|
      && (outcome == Applied ==> at < |log| && log[at] == op)
      && (outcome != Applied ==>
            Atomic(Replay(st, log[..at]), op).1 == outcome || (outcome == Conflict && LostRace(log, op, began, at)))
  }

  /** Some other call on the same UID was applied while this one ran. */
  ghost predicate LostRace(log: seq<Op>, op: Op, began: nat, at: nat) {
    exists i :: began <= i < at <= |log| && log[i].uid == op.uid
  }

  ghost predicate Inv(st: Store, s: State) {
    && s.store == Replay(st, s.log)
    && AllApplied(st, s.log)
    && forall c :: c in s.clients ==> Justified(st, s.log, s.clients[c])
  }

  lemma {:induction false} JustifiedLater(st: Store, log: seq<Op>, op: Op, pc: Pc)
    requires Justified(st, log, pc)
    ensures Justified(st, log + [op], pc)
  {
    forall k | 0 <= k <= |log| ensures (log + [op])[..k] == log[..k] {}
    if pc.Returned? && LostRace(log, pc.op, pc.began, pc.at) {
      var i :| pc.began <= i < pc.at <= |log| && log[i].uid == pc.op.uid;
      assert (log + [op])[i].uid == pc.op.uid;
    }
  }

  /** A document changes only when a call on its UID is applied. */
  lemma {:induction false} UntouchedStays(st: Store, log: seq<Op>, seen: nat, uid: Uid)
    requires seen <= |log|
    requires forall i :: seen <= i < |log| ==> log[i].uid != uid
    ensures Lookup(Replay(st, log), uid) == Lookup(Replay(st, log[..seen]), uid)
  {
    if seen < |log| {
      var n := |log| - 1;
      assert log[..n][..seen] == log[..seen];
      UntouchedStays(st, log[..n], seen, uid);
    } else {
      assert log[..seen] == log;
    }
  }

  lemma {:induction false} AppliedExtends(st: Store, log: seq<Op>, op: Op)
    requires AllApplied(st, log) && Atomic(Replay(st, log), op).1 == Applied
    ensures AllApplied(st, log + [op])
    ensures Replay(st, log + [op]) == Atomic(Replay(st, log), op).0
  {
    var log' := log + [op];
    assert log'[..|log|] == log;
    forall i | 0 <= i < |log'| ensures Atomic(Replay(st, log'[..i]), log'[i]).1 == Applied {
      assert i < |log| ==> log'[..i] == log[..i];
    }
  }

  /** Committing a call the reference would apply now keeps the invariant. */
  lemma {:induction false} CommitKeeps(st: Store, s: State, c: Client, pc: Pc)
    requires Inv(st, s) && pc.began <= |s.log|
    requires Atomic(s.store, pc.op).1 == Applied
    ensures Inv(st, Commit(s, c, pc, Atomic(s.store, pc.op).0))
  {
    AppliedExtends(st, s.log, pc.op);
    var s' := Commit(s, c, pc, Atomic(s.store, pc.op).0);
    forall d | d in s'.clients ensures Justified(st, s'.log, s'.clients[d]) {
      if d != c {
        JustifiedLater(st, s.log, pc.op, s.clients[d]);
      }
    }
  }

  lemma {:induction false} ReturnKeeps(st: Store, s: State, c: Client, pc: Pc, outcome: Outcome)
    requires Inv(st, s) && pc.began <= |s.log| && outcome != Applied
    requires Atomic(s.store, pc.op).1 == outcome || (outcome == Conflict && LostRace(s.log, pc.op, pc.began, |s.log|))
    ensures Inv(st, Return(s, c, pc, outcome))
  {
    assert s.log[..|s.log|] == s.log;
  }

  lemma {:induction false} SecondStepKeeps(st: Store, s: State, c: Client)
    requires Inv(st, s) && c in s.clients && s.clients[c].HasRead?
    ensures Inv(st, SecondStep(s, c, s.clients[c]))
  {
    var pc := s.clients[c];
    assert Justified(st, s.log, pc);
    if Lookup(s.store, pc.op.uid) == Some(pc.prior) {
      CommitKeeps(st, s, c, pc);
    } else {
      if !LostRace(s.log, pc.op, pc.began, |s.log|) {
        assert forall i :: pc.seen <= i < |s.log| ==> s.log[i].uid != pc.op.uid;
        UntouchedStays(st, s.log, pc.seen, pc.op.uid);
      }
      ReturnKeeps(st, s, c, pc, Conflict);
    }
  }

  /** Reading the document a call is about to replace keeps the invariant. */
  lemma {:induction false} ReadKeeps(st: Store, s: State, c: Client, pc: Pc)
    requires Inv(st, s) && pc.Begun? && pc.began <= |s.log|
    requires Reads(pc.op)
    requires Atomic(s.store, pc.op).1 == Applied
    ensures Inv(st, s.(clients := s.clients[c := HasRead(pc.op, s.store[pc.op.uid], pc.began, |s.log|)]))
  {
    assert s.log[..|s.log|] == s.log;
  }

  /** The first step decides as the reference does, and commits what needs no read. */
  lemma {:induction false} FirstStepDecides(s: State, c: Client, pc: Pc)
    requires pc.Begun?
    ensures Atomic(s.store, pc.op).1 != Applied ==> FirstStep(s, c, pc) == Return(s, c, pc, Atomic(s.store, pc.op).1)
    ensures Atomic(s.store, pc.op).1 == Applied && !Reads(pc.op) ==>
              FirstStep(s, c, pc) == Commit(s, c, pc, Atomic(s.store, pc.op).0)
    ensures Atomic(s.store, pc.op).1 == Applied && Reads(pc.op) ==>
              && pc.op.uid in s.store
              && FirstStep(s, c, pc) ==
                   s.(clients := s.clients[c := HasRead(pc.op, s.store[pc.op.uid], pc.began, |s.log|)])
  {
    hide Return, Commit;
  }

  predicate Reads(op: Op) {
    op.TryUpdate? || (op.Put? && op.expected.Some?)
  }

  lemma {:induction false} FirstStepKeeps(st: Store, s: State, c: Client)
    requires Inv(st, s) && c in s.clients && s.clients[c].Begun?
    ensures Inv(st, FirstStep(s, c, s.clients[c]))
  {
    var pc := s.clients[c];
    assert Justified(st, s.log, pc);
    hide Inv, Justified, Replay, AllApplied, FirstStep, Atomic, Return, Commit;
    FirstStepDecides(s, c, pc);
    if Atomic(s.store, pc.op).1 != Applied {
      ReturnKeeps(st, s, c, pc, Atomic(s.store, pc.op).1);
    } else if Reads(pc.op) {
      ReadKeeps(st, s, c, pc);
    } else {
      CommitKeeps(st, s, c, pc);
    }
  }

  /** Every schedule of any calls by any clients is serializable: the store is the one obtained by
      running the applied calls one at a time in commit order, each of them applied there too; an
      applied call takes effect between its call and its return; and a refused call is refused by
      the reference at its return, unless a rival call on the same UID was applied meanwhile. */
  lemma {:induction false} Serializable(st: Store, schedule: seq<Action>)
    ensures Inv(st, Exec(Begin(st), schedule))
  {
    if schedule != [] {
      var s := Exec(Begin(st), schedule[..|schedule| - 1]);
      Serializable(st, schedule[..|schedule| - 1]);
      match schedule[|schedule| - 1]
      case Call(c, op) =>
      case Advance(c) =>
        if c in s.clients && s.clients[c].Begun? {
          FirstStepKeeps(st, s, c);
        } else if c in s.clients && s.clients[c].HasRead? {
          SecondStepKeeps(st, s, c);
        }
    }
  }

  /** The step ends a call and reports it as applied. */
  predicate EndsApplied(s: State, a: Action) {
    && a.Advance? && a.c in s.clients && !s.clients[a.c].Returned?
    && a.c in Do(s, a).clients && Do(s, a).clients[a.c].Returned? && Do(s, a).clients[a.c].outcome == Applied
  }

  /** A step reports a call as applied if and only if it commits that call; any other step leaves the
      log and every document as they were. */
  lemma {:induction false} AppliedIffCommitted(s: State, a: Action)
    ensures EndsApplied(s, a) <==> Do(s, a).log != s.log
    ensures EndsApplied(s, a) ==>
              Do(s, a).log == s.log + [s.clients[a.c].op] && Do(s, a).clients[a.c].op == s.clients[a.c].op
    ensures !EndsApplied(s, a) ==> Do(s, a).log == s.log && Do(s, a).store == s.store
  {
    assert |s.log + [if a.Advance? && a.c in s.clients then s.clients[a.c].op else Delete("")]| != |s.log|;
  }

  /** Over every schedule, what a call reported as applied did to the store, said of the store alone: a Put
      found exactly the document it expected, or none if it expected none, and put its own in place; a
      TryUpdate put the mutation of the document it found in place; a Delete removed its document. No other
      document changed. */
  lemma {:induction false} AppliedDoes(st: Store, schedule: seq<Action>, a: Action)
    requires EndsApplied(Exec(Begin(st), schedule), a)
    ensures var s := Exec(Begin(st), schedule);
            var before, after := s.store, Do(s, a).store;
            match s.clients[a.c].op
            case Put(uid, doc, expected) =>
              uid != "" && Lookup(before, uid) == expected && after == before[uid := doc]
            case TryUpdate(uid, mutate) =>
              uid in before && mutate(before[uid]).Some? && after == before[uid := mutate(before[uid]).value]
            case Delete(uid) => after == before - {uid}
  {
    Serializable(st, schedule);
    var s := Exec(Begin(st), schedule);
    assert Justified(st, s.log, s.clients[a.c]);
    hide Exec, Replay, AllApplied;
  }

  /** What the store alone says of a call at its first operation. */
  function Expected(st: Store, op: Op): Outcome {
    match op
    case Put(uid, doc, expected) =>
      if uid == "" then Refused
      else if expected == None && uid in st then Conflict
      else if expected.Some? && (uid !in st || st[uid] != expected.value) then Conflict
      else Applied
    case TryUpdate(uid, mutate) =>
      if uid !in st then NotFound else if mutate(st[uid]) == None then Refused else Applied
    case Delete(uid) => Applied
  }

  /** Over every schedule, a call that ends in any other way ends so for a reason the store shows: at its
      first operation what it finds there, and at its swap a document that is no longer the one it read,
      which is a conflict. */
  lemma {:induction false} RefusedBecause(st: Store, schedule: seq<Action>, c: Client)
    requires var s := Exec(Begin(st), schedule);
             c in s.clients && !s.clients[c].Returned? && Do(s, Advance(c)).clients[c].Returned?
    requires !EndsApplied(Exec(Begin(st), schedule), Advance(c))
    ensures var s := Exec(Begin(st), schedule);
            var pc, outcome := s.clients[c], Do(s, Advance(c)).clients[c].outcome;
            if pc.Begun? then outcome == Expected(s.store, pc.op) && outcome != Applied
            else outcome == Conflict && Lookup(s.store, pc.op.uid) != Some(pc.prior)
  {
    Serializable(st, schedule);
    var s := Exec(Begin(st), schedule);
    assert Justified(st, s.log, s.clients[c]);
    hide Exec, Replay, AllApplied, Inv;
  }

  /** The calls a schedule reported as applied, in the order of the reports. */
  function Successes(st: Store, schedule: seq<Action>): seq<Op> {
    if schedule == [] then [] else
      var earlier, a := schedule[..|schedule| - 1], schedule[|schedule| - 1];
      var s := Exec(Begin(st), earlier);
      Successes(st, earlier) + if EndsApplied(s, a) then [s.clients[a.c].op] else []
  }

  /** Reported successes and commits correspond one to one and in order. */
  lemma {:induction false} SuccessesAreTheLog(st: Store, schedule: seq<Action>)
    ensures Exec(Begin(st), schedule).log == Successes(st, schedule)
  {
    if schedule != [] {
      var n := |schedule| - 1;
      SuccessesAreTheLog(st, schedule[..n]);
      AppliedIffCommitted(Exec(Begin(st), schedule[..n]), schedule[n]);
    }
  }

  /** No update is lost: in every schedule the store is what the calls reported as applied give one at a
      time in the order of their reports, and each `TryUpdate` among them mutated the very document its
      predecessors left behind. */
  lemma {:induction false} NoLostUpdate(st: Store, schedule: seq<Action>, i: nat)
    ensures Exec(Begin(st), schedule).store == Replay(st, Successes(st, schedule))
    ensures var done := Successes(st, schedule);
            i < |done| && done[i].TryUpdate? ==>
              var before, after := Replay(st, done[..i]), Replay(st, done[..i + 1]);
              && done[i].uid in before && done[i].uid in after
              && done[i].mutate(before[done[i].uid]) == Some(after[done[i].uid])
  {
    Serializable(st, schedule);
    SuccessesAreTheLog(st, schedule);
    var done := Successes(st, schedule);
    if i < |done| && done[i].TryUpdate? {
      assert done[..i + 1][..i] == done[..i];
      assert Atomic(Replay(st, done[..i]), done[i]).1 == Applied;
    }
  }

  lemma {:induction false} AloneStepByStep(s: State, c: Client, op: Op)
    requires c !in s.clients || s.clients[c].Returned?
    ensures var s' := Do(Do(Do(s, Call(c, op)), Advance(c)), Advance(c));
            && s'.store == Atomic(s.store, op).0
            && Lookup(s'.clients, c) == Some(Returned(op, Atomic(s.store, op).1, |s.log|, |s.log|))
  {
    var s1 := Do(s, Call(c, op));
    var pc := Begun(op, |s.log|);
    assert s1.clients[c] == pc;
    FirstStepDecides(s1, c, pc);
    hide FirstStep;
  }

  /** A call that runs undisturbed behaves exactly like the reference. */
  lemma {:induction false} AloneIsAtomic(s: State, c: Client, op: Op)
    requires c !in s.clients || s.clients[c].Returned?
    ensures var s' := Exec(s, [Call(c, op), Advance(c), Advance(c)]);
            && s'.store == Atomic(s.store, op).0
            && Lookup(s'.clients, c) == Some(Returned(op, Atomic(s.store, op).1, |s.log|, |s.log|))
  {
    hide Do, Atomic, Runs.Exec;
    Runs.Four(Do, s, Call(c, op), Advance(c), Advance(c), Advance(c));
    AloneStepByStep(s, c, op);
  }

  /** What an undisturbed call answers, said of the store alone: a Put is refused without a UID and conflicts
      exactly when the stored document is not the expected one; a TryUpdate finds nothing, or is refused by
      its callback; a Delete is always applied. A call that is not applied changes nothing. */
  lemma {:induction false} AloneAnswers(s: State, c: Client, op: Op)
    requires c !in s.clients || s.clients[c].Returned?
    ensures var s' := Exec(s, [Call(c, op), Advance(c), Advance(c)]);
            && c in s'.clients && s'.clients[c].Returned?
            && (s'.clients[c].outcome != Applied ==> s'.store == s.store)
            && s'.clients[c].outcome == Expected(s.store, op)
  {
    AloneIsAtomic(s, c, op);
    hide Exec;
  }
}
