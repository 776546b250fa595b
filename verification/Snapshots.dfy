/** The snapshots a disk is served from: `openSnapshot`, one file operation at a time.

    A capture is cloned into a temporary file, hashed, synced, renamed to the name of its digest, and
    then everything else in the directory is removed. The server may crash between any two of these
    operations, and an operation may fail. What a crash leaves of files that were not synced is
    arbitrary, and so is which renames and removals since the last sync of the directory took effect.
    SHA-256 is collision-free, so a digest is modelled by the content it names. */
module Snapshots {
  import opened Options
  import R = Replication
  import Runs

  type Bytes = R.Bytes
  type Digest = R.Digest

  datatype Name = Image(digest: Digest) | Temporary(n: nat)

  type Directory = map<Name, Bytes>

  /** Where the one request being handled stands; captures exclude each other. */
  datatype Pc =
    | Idle
    | Cloning(temp: Name)                       // created empty; about to clone the disk into it
    | Hashing(temp: Name)
    | Syncing(temp: Name, digest: Digest)
    | Renaming(temp: Name, digest: Digest)
    | Listing(digest: Digest)                   // about to list the directory
    | Sweeping(digest: Digest, left: set<Name>) // removing what else is there
    | SyncingDirectory(digest: Digest)
    | Opening(digest: Digest)
    | Sent(answer: Option<(Digest, Bytes)>)     // the file handed to the response, or an error

  /** `taken` collects what the disk held whenever it was cloned, `durable` what was in a file when it was
      last synced, and `past` the images that were in the directory since it was last synced, which a
      crash may bring back. */
  datatype State = State(disk: Option<Bytes>, dir: Directory, pc: Pc, taken: set<Bytes>,
                         durable: Directory, past: set<Digest>)

  datatype Action =
    | Request(version: Option<Digest>, temp: nat)
    | Step                                      // the next file operation
    | Unlink(name: Name, gone: bool)            // one removal of the sweep, whose failure is ignored
    | Fail                                      // the next file operation fails
    | Crash(names: set<Name>, junk: Directory)  // what is found afterwards, and in files never synced
    | Write(disk: Option<Bytes>)

  predicate Ready(pc: Pc) {
    pc.Idle? || pc.Sent?
  }

  /** The deferred removal of the temporary file, on every way out of the function. */
  function Cleaned(s: State, temp: Name): State {
    s.(dir := s.dir - {temp}, pc := Sent(None))
  }

  function Open(s: State, d: Digest): State {
    s.(pc := Sent(if Image(d) in s.dir then Some((d, s.dir[Image(d)])) else None))
  }

  function Images(dir: Directory): set<Digest> {
    set name | name in dir && name.Image? :: name.digest
  }

  function Operation(s: State): State {
    match s.pc
    case Cloning(temp) =>
      if s.disk == None then Cleaned(s, temp)
      else s.(dir := s.dir[temp := s.disk.value], taken := s.taken + {s.disk.value}, pc := Hashing(temp))
    case Hashing(temp) => if temp in s.dir then s.(pc := Syncing(temp, R.Sha(s.dir[temp]))) else Cleaned(s, temp)
    case Syncing(temp, d) =>
      if temp in s.dir then s.(durable := s.durable[temp := s.dir[temp]], pc := Renaming(temp, d)) else Cleaned(s, temp)
    case Renaming(temp, d) =>
      if temp !in s.dir then Cleaned(s, temp)
      else s.(dir := (s.dir - {temp})[Image(d) := s.dir[temp]],
              durable := if temp in s.durable then s.durable[Image(d) := s.durable[temp]] else s.durable - {Image(d)},
              past := s.past + {d}, pc := Listing(d))
    case Listing(d) => s.(pc := Sweeping(d, s.dir.Keys - {Image(d)}))
    case Sweeping(d, left) => if left == {} then s.(pc := SyncingDirectory(d)) else s
    case SyncingDirectory(d) => s.(pc := Opening(d), past := Images(s.dir))
    case Opening(d) => Open(s, d)
    case _ => s
  }

  /** What a crash makes of the directory: some of the images it may hold, some temporaries, and in every
      file what was synced or else anything. */
  function Recovered(s: State, names: set<Name>, junk: Directory): Directory {
    map name | name in names && (name.Image? ==> name.digest in s.past) && (name in s.durable || name in junk) ::
      if name in s.durable then s.durable[name] else junk[name]
  }

  function Do(s: State, a: Action): State {
    match a
    case Request(version, temp) =>
      if !Ready(s.pc) then s
      else if s.disk == None then s.(pc := Sent(None))
      else (match version
            case Some(d) => Open(s, d)
            case None =>
              if Temporary(temp) in s.dir then s.(pc := Sent(None))
              else s.(dir := s.dir[Temporary(temp) := []], durable := s.durable - {Temporary(temp)},
                      pc := Cloning(Temporary(temp))))
    case Step => Operation(s)
    case Unlink(name, gone) =>
      if s.pc.Sweeping? && name in s.pc.left
      then s.(dir := if gone then s.dir - {name} else s.dir, pc := s.pc.(left := s.pc.left - {name}))
      else s
    case Fail =>
      if s.pc.Cloning? || s.pc.Hashing? || s.pc.Syncing? || s.pc.Renaming? then Cleaned(s, s.pc.temp)
      else if Ready(s.pc) then s else s.(pc := Sent(None))
    case Crash(names, junk) => s.(dir := Recovered(s, names, junk), pc := Idle)
    case Write(disk) => s.(disk := disk)
  }

  function Exec(s: State, schedule: seq<Action>): State {
    Runs.Exec(Do, s, schedule)
  }

  /** Any disk, no snapshot yet. */
  function Start(disk: Option<Bytes>): State {
    State(disk, map[], Idle, {}, map[], {})
  }

  // ---------- every image is whole ----------

  /** A file under the name of its content, taken from the disk, and synced. */
  predicate Whole(s: State, d: Digest) {
    d.of in s.taken && Lookup(s.durable, Image(d)) == Some(d.of)
  }

  predicate OnTheWay(s: State, temp: Name, d: Digest) {
    temp.Temporary? && Lookup(s.dir, temp) == Some(d.of) && d.of in s.taken
  }

  predicate PcOk(s: State) {
    match s.pc
    case Cloning(temp) => temp.Temporary?
    case Hashing(temp) => temp in s.dir && OnTheWay(s, temp, R.Sha(s.dir[temp]))
    case Syncing(temp, d) => OnTheWay(s, temp, d)
    case Renaming(temp, d) => OnTheWay(s, temp, d) && Lookup(s.durable, temp) == Some(d.of)
    case Sent(Some(answer)) => answer.1 == answer.0.of && answer.1 in s.taken
    case _ => true
  }

  ghost predicate Inv(s: State) {
    && (forall d :: d in s.past ==> Whole(s, d))
    && (forall d :: Image(d) in s.dir ==> d in s.past && s.dir[Image(d)] == d.of)
    && PcOk(s)
  }

  lemma {:induction false} OperationKeeps(s: State)
    requires Inv(s)
    ensures Inv(Operation(s))
  {
    var s' := Operation(s);
    forall d | d in s'.past ensures Whole(s', d) {
      assert d in s.past || (s.pc.Renaming? && d == s.pc.digest);
      if d in s.past {
        assert Whole(s, d);
      }
    }
    forall d | Image(d) in s'.dir ensures d in s'.past && s'.dir[Image(d)] == d.of {
      assert Image(d) in s.dir || (s.pc.Renaming? && d == s.pc.digest);
      if s.pc.SyncingDirectory? {
        assert Image(d).digest in Images(s.dir);
      }
    }
  }

  lemma {:induction false} StepKeeps(s: State, a: Action)
    requires Inv(s)
    ensures Inv(Do(s, a))
  {
    if a.Step? {
      OperationKeeps(s);
    } else {
      var s' := Do(s, a);
      forall d | d in s'.past ensures Whole(s', d) {
        assert Whole(s, d);
      }
      forall d | Image(d) in s'.dir ensures d in s'.past && s'.dir[Image(d)] == d.of {
        assert a.Crash? ==> Whole(s, d);
      }
    }
  }

  lemma {:induction false} Safe(disk: Option<Bytes>, schedule: seq<Action>)
    ensures Inv(Exec(Start(disk), schedule))
  {
    if schedule != [] {
      var n := |schedule| - 1;
      Safe(disk, schedule[..n]);
      StepKeeps(Exec(Start(disk), schedule[..n]), schedule[n]);
    }
  }

  /** With a crash allowed between any two file operations, every file in the directory that is named
      after a digest holds exactly the content of that digest, and that is what the disk held when it was
      cloned at some moment; and so does every answer. */
  lemma {:induction false} ImagesAreWhole(disk: Option<Bytes>, schedule: seq<Action>, d: Digest)
    ensures var s := Exec(Start(disk), schedule);
            && (Image(d) in s.dir ==> R.Sha(s.dir[Image(d)]) == d && s.dir[Image(d)] in s.taken)
            && (s.pc.Sent? && s.pc.answer.Some? ==>
                  var (digest, content) := s.pc.answer.value; digest == R.Sha(content) && content in s.taken)
  {
    Safe(disk, schedule);
    var s := Exec(Start(disk), schedule);
    if Image(d) in s.dir {
      assert Whole(s, d);
    }
  }

  /** A capture that fails or finds no disk takes its temporary file with it. */
  lemma {:induction false} FailureLeavesNoTemporary(s: State, a: Action)
    requires (s.pc.Cloning? || s.pc.Hashing? || s.pc.Syncing? || s.pc.Renaming?) && (a.Step? || a.Fail?)
    ensures Do(s, a).pc.Sent? ==> Do(s, a).pc == Sent(None) && Do(s, a).dir == s.dir - {s.pc.temp}
    ensures a.Fail? ==> Do(s, a).pc.Sent?
  {
  }

  /** Whatever operation of a request fails, the answer is an error; the file it hands out is there. */
  lemma {:induction false} FailureIsAnswered(s: State, a: Action)
    requires !Ready(s.pc) && !a.Crash?
    ensures a.Fail? ==> Do(s, a).pc == Sent(None)
    ensures Do(s, a).pc.Sent? && Do(s, a).pc.answer.Some? ==>
              s.pc.Opening? && Lookup(s.dir, Image(s.pc.digest)) == Some(Do(s, a).pc.answer.value.1)
  {
  }

  /** A capture works in a temporary file that was not there. */
  lemma {:induction false} TemporaryIsNew(s: State, a: Action)
    requires Ready(s.pc) && Do(s, a).pc.Cloning?
    ensures Do(s, a).pc.temp !in s.dir && Do(s, a).dir == s.dir[Do(s, a).pc.temp := []]
  {
  }

  /** Only a clone of the disk is ever taken as content. */
  lemma {:induction false} TakenFromTheDisk(s: State, a: Action)
    ensures Do(s, a).taken == s.taken || (s.disk.Some? && Do(s, a).taken == s.taken + {s.disk.value})
  {
  }

  // ---------- undisturbed ----------

  /** The sweep removes all it listed. */
  lemma {:induction false} SweepAlone(s: State, schedule: seq<Action>, d: Digest, left: set<Name>)
    returns (longer: seq<Action>)
    requires Exec(s, schedule).pc == Sweeping(d, left)
    ensures Exec(s, longer) == Exec(s, schedule).(dir := Exec(s, schedule).dir - left, pc := Sweeping(d, {}))
    decreases |left|
  {
    var mid := Exec(s, schedule);
    if left == {} {
      longer := schedule;
      assert mid.dir - {} == mid.dir;
    } else {
      var name :| name in left;
      Runs.Snoc(Do, s, schedule, Unlink(name, true));
      longer := SweepAlone(s, schedule + [Unlink(name, true)], d, left - {name});
      assert mid.dir - {name} - (left - {name}) == mid.dir - left;
    }
  }

  /** `n` operations in a row. */
  function Run(s: State, n: nat): State
    decreases n
  {
    if n == 0 then s else Do(Run(s, n - 1), Step)
  }

  lemma {:induction false} RunExtends(s: State, schedule: seq<Action>, n: nat) returns (longer: seq<Action>)
    ensures Exec(s, longer) == Run(Exec(s, schedule), n)
    decreases n
  {
    hide Do, Runs.Exec;
    if n == 0 {
      longer := schedule;
    } else {
      var shorter := RunExtends(s, schedule, n - 1);
      Runs.Snoc(Do, s, shorter, Step);
      longer := shorter + [Step];
    }
  }

  lemma {:induction false} CloneAlone(s: State, temp: nat)
    requires Ready(s.pc) && s.disk.Some? && Temporary(temp) !in s.dir
    ensures var c, s' := s.disk.value, Run(Do(s, Request(None, temp)), 5);
            && s'.dir == s.dir[Image(R.Sha(c)) := c] && s'.pc == Sweeping(R.Sha(c), s.dir.Keys - {Image(R.Sha(c))})
            && s'.disk == s.disk
  {
    var c, t := s.disk.value, Temporary(temp);
    var s0 := Do(s, Request(None, temp));
    assert s0.dir[t := c] == s.dir[t := c] && s0.pc == Cloning(t);
    var s1 := Do(Run(s0, 0), Step);
    var s2 := Do(Run(s0, 1), Step);
    var s3 := Do(Run(s0, 2), Step);
    var s4 := Do(Run(s0, 3), Step);
    assert s1.dir == s.dir[t := c] && s1.pc == Hashing(t);
    assert s2.dir == s.dir[t := c] && s2.pc == Syncing(t, R.Sha(c));
    assert s3.dir == s.dir[t := c] && s3.pc == Renaming(t, R.Sha(c));
    assert s4.dir == s.dir[Image(R.Sha(c)) := c] && s4.pc == Listing(R.Sha(c));
    assert s4.dir.Keys - {Image(R.Sha(c))} == s.dir.Keys - {Image(R.Sha(c))};
  }

  /** Undisturbed, a request without a version answers with the disk as it is, and leaves that snapshot in
      the directory and nothing else, whatever earlier captures and crashes had left there. */
  lemma {:induction false} CaptureAlone(s: State, temp: nat) returns (schedule: seq<Action>)
    requires Ready(s.pc) && s.disk.Some? && Temporary(temp) !in s.dir
    ensures var c, s' := s.disk.value, Exec(s, schedule);
            && s'.pc == Sent(Some((R.Sha(c), c))) && s'.dir == map[Image(R.Sha(c)) := c] && s'.past == {R.Sha(c)}
            && s'.disk == s.disk
  {
    var c, d := s.disk.value, R.Sha(s.disk.value);
    assert [Request(None, temp)][..0] == [] && Exec(s, []) == s;
    assert Exec(s, [Request(None, temp)]) == Do(s, Request(None, temp));
    hide Runs.Exec, Do, Run;
    CloneAlone(s, temp);
    var cloned := RunExtends(s, [Request(None, temp)], 5);
    var swept := SweepAlone(s, cloned, d, s.dir.Keys - {Image(d)});
    assert Exec(s, swept).dir == map[Image(d) := c];
    schedule := RunExtends(s, swept, 3);
    FinishAlone(Exec(s, swept), d, c);
  }

  lemma {:induction false} FinishAlone(s: State, d: Digest, c: Bytes)
    requires s.pc == Sweeping(d, {}) && s.dir == map[Image(d) := c]
    ensures Run(s, 3) == s.(pc := Sent(Some((d, c))), past := {d})
  {
    OneImage(s.dir, d);
    var s1 := Do(Run(s, 0), Step);
    assert s1 == s.(pc := SyncingDirectory(d));
    var s2 := Do(Run(s, 1), Step);
    assert s2 == s.(pc := Opening(d), past := {d});
  }

  lemma {:induction false} OneImage(dir: Directory, d: Digest)
    requires dir.Keys == {Image(d)}
    ensures Images(dir) == {d}
  {
    assert Image(d).digest in Images(dir);
  }

  /** A request for a version answers with exactly that snapshot if and only if it is kept. */
  lemma {:induction false} VersionAlone(disk: Option<Bytes>, schedule: seq<Action>, d: Digest, temp: nat)
    requires var s := Exec(Start(disk), schedule); Ready(s.pc) && s.disk.Some?
    ensures var s := Exec(Start(disk), schedule);
            Do(s, Request(Some(d), temp)) == s.(pc := Sent(if Image(d) in s.dir then Some((d, d.of)) else None))
  {
    Safe(disk, schedule);
  }

  // ---------- the server as its clients see it ----------

  /** The disk and the snapshots of the directory. */
  function Served(s: State): R.Server {
    R.Server(s.disk, map d | d in Images(s.dir) && Image(d) in s.dir :: s.dir[Image(d)])
  }

  /** The response made from what a request was handed. */
  function Reply(answer: Option<(Digest, Bytes)>, from: Option<nat>): R.Response {
    match answer
    case None => R.NotFound
    case Some((_, content)) => R.Serve(content, from)
  }

  lemma {:induction false} ServedAt(s: State, d: Digest)
    ensures Lookup(Served(s).cache, d) == Lookup(s.dir, Image(d))
  {
    if Image(d) in s.dir {
      assert Image(d).digest in Images(s.dir);
    }
  }

  /** A request for a version is answered as the client's machine has it. */
  lemma {:induction false} VersionRefines(disk: Option<Bytes>, schedule: seq<Action>, d: Digest, temp: nat,
                                          from: Option<nat>)
    requires Ready(Exec(Start(disk), schedule).pc)
    ensures var s := Exec(Start(disk), schedule);
            var s' := Do(s, Request(Some(d), temp));
            s'.pc.Sent? && R.Answer(Served(s), Some(d), from) == (Served(s'), Reply(s'.pc.answer, from))
  {
    ServedAt(Exec(Start(disk), schedule), d);
  }

  /** So is an undisturbed capture: all its file operations come to the one step that a client's machine
      takes it for. */
  lemma {:induction false} CaptureRefines(s: State, temp: nat, from: Option<nat>) returns (schedule: seq<Action>)
    requires Ready(s.pc) && s.disk.Some? && Temporary(temp) !in s.dir
    ensures var s' := Exec(s, schedule);
            s'.pc.Sent? && R.Answer(Served(s), None, from) == (Served(s'), Reply(s'.pc.answer, from))
  {
    schedule := CaptureAlone(s, temp);
    hide Runs.Exec;
    var c, s' := s.disk.value, Exec(s, schedule);
    OneImage(s'.dir, R.Sha(c));
    assert Served(s').cache == map[R.Sha(c) := c];
  }

  /** And a crash leaves what that machine takes a restarted server to hold: some of the snapshots that
      were taken, each whole. */
  lemma {:induction false} CrashRefines(disk: Option<Bytes>, schedule: seq<Action>, names: set<Name>, junk: Directory)
    ensures var s := Exec(Start(disk), schedule);
            var s' := Do(s, Crash(names, junk));
            Served(s').cache == map d | d in Images(s'.dir) && d.of in s.taken :: d.of
  {
    Safe(disk, schedule);
    var s := Exec(Start(disk), schedule);
    var s' := Do(s, Crash(names, junk));
    StepKeeps(s, Crash(names, junk));
    forall d | d in Images(s'.dir) ensures Lookup(Served(s').cache, d) == Some(d.of) && d.of in s.taken {
      ServedAt(s', d);
      assert Whole(s', d);
    }
  }
}
