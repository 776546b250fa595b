/** Pulling a disk image from another node: `PullDisk` against a server of content-addressed snapshots.

    Every file operation of the client is its own step. Between any two of them the client may crash
    (losing whatever had not reached the disk: the partial file and its version note may then hold
    anything), an operation may fail, the transfer may stop short, the disk may change, and other
    clients may make the server take new snapshots. SHA-256 is collision-free, so a digest is
    modelled by the content it names. */
module Replication {
  import opened Options
  import Runs

  type Bytes = seq<int>

  datatype Digest = Sha(of: Bytes)

  /** What the .version note holds: a well-formed digest, or anything else. */
  datatype Note = Hex(digest: Digest) | Junk

  datatype Files = Files(dest: Option<Bytes>, part: Option<Bytes>, version: Option<Note>)

  // ---------- the server ----------

  /** The live disk and the snapshots kept for it, by digest. */
  datatype Server = Server(source: Option<Bytes>, cache: map<Digest, Bytes>)

  datatype Response = Full(body: Bytes, digest: Digest) | Partial(body: Bytes, digest: Digest) | NotFound | BadRange

  /** A fresh capture replaces every snapshot kept before. */
  function Capture(s: Server): Server
    requires s.source.Some?
  {
    s.(cache := map[Sha(s.source.value) := s.source.value])
  }

  /** Ranges as `http.ServeContent` serves them: past the end is an error, unless the file is empty. */
  function Serve(content: Bytes, from: Option<nat>): Response {
    if from == None || |content| == 0 then Full(content, Sha(content))
    else if from.value < |content| then Partial(content[from.value..], Sha(content))
    else BadRange
  }

  /** `openSnapshot` and the response; a version asks for a kept snapshot, no version captures. */
  function Answer(s: Server, version: Option<Digest>, from: Option<nat>): (Server, Response) {
    if s.source == None then (s, NotFound)
    else match version
      case None => (Capture(s), Serve(s.source.value, from))
      case Some(d) => if d in s.cache then (s, Serve(s.cache[d], from)) else (s, NotFound)
  }

  // ---------- the client ----------

  datatype Pc =
    | Idle
    | Begin(again: bool)                                        // about to look at the leftovers
    | Request(resume: Option<Digest>, have: nat, again: bool)   // about to ask the server
    | Drop                                                      // resume refused: about to start over without the note
    | Announce(append: bool, expected: Digest, body: Bytes)     // about to write the note
    | Open(append: bool, expected: Digest, body: Bytes)         // about to open (and truncate) the partial file
    | Copy(expected: Digest, rest: Bytes)                       // writing the body
    | Sync(expected: Digest)
    | Verify(expected: Digest)
    | Discard                                                   // checksum mismatch: about to remove the note
    | Rename(expected: Digest)
    | Forget                                                    // renamed: about to remove the note
    | SyncDir                                                   // about to make the rename durable
    | Done(ok: bool)

  /** `served` collects every snapshot the server ever captured, `requests` counts those of this call, and
      `older` holds what the destination was before each rename that is not yet durable. `synced` says
      that the partial file was synced since it was last opened or written, and `torn` that a file that was
      not has been renamed over the destination. */
  datatype State = State(files: Files, server: Server, pc: Pc, served: set<Bytes>, requests: nat,
                         older: set<Option<Bytes>>, synced: bool, torn: bool)

  datatype Action =
    | Call
    | Step(chunk: nat)                                            // the next operation; chunk: bytes that arrive
    | Fail                                                        // that operation fails instead
    | Crash(part: Option<Bytes>, version: Option<Note>,           // the leftovers hold anything afterwards,
            back: Option<Option<Bytes>>, junk: Option<Bytes>)     // renames are undone, torn files hold junk
    | Write(source: Option<Bytes>)                                // the live disk changes
    | OtherClient                                                 // another client has a snapshot taken
    | ServerRestart(kept: set<Digest>)                            // the server crashed and holds some snapshots it took

  /** Resuming takes a partial file and a well-formed note. */
  function Resume(f: Files): Option<Digest> {
    if f.part.Some? && |f.part.value| > 0 && f.version.Some? && f.version.value.Hex?
    then Some(f.version.value.digest) else None
  }

  function PartSize(f: Files): nat {
    if f.part.Some? then |f.part.value| else 0
  }

  /** What the client makes of an answer. */
  function Receive(resume: Option<Digest>, r: Response): Pc {
    match r
    case Full(body, d) => Announce(false, d, body)
    case Partial(body, d) => if resume == Some(d) then Announce(true, d, body) else Done(false)
    case NotFound => if resume.Some? then Drop else Done(false)
    case BadRange => if resume.Some? then Drop else Done(false)
  }

  function Took(s: State, server: Server): State {
    s.(server := server, served := s.served + server.cache.Values)
  }

  function ClientStep(s: State, chunk: nat): State {
    var f := s.files;
    match s.pc
    case Begin(again) => s.(pc := Request(Resume(f), PartSize(f), again))
    case Request(resume, have, again) =>
      var (server, r) := Answer(s.server, resume, if resume.Some? then Some(have) else None);
      Took(s, server).(pc := Receive(resume, r), requests := s.requests + 1)
    case Drop => s.(files := f.(version := None), pc := Begin(true))
    case Announce(append, d, body) => s.(files := f.(version := Some(Hex(d))), pc := Open(append, d, body))
    case Open(append, d, body) =>
      s.(files := f.(part := if append && f.part.Some? then f.part else Some([])), pc := Copy(d, body), synced := false)
    case Copy(d, rest) =>
      var n := if chunk < |rest| then chunk else |rest|;
      s.(files := f.(part := Some((if f.part.Some? then f.part.value else []) + rest[..n])),
         pc := if n == |rest| then Sync(d) else Copy(d, rest[n..]), synced := false)
    case Sync(d) => s.(pc := Verify(d), synced := true)
    case Verify(d) => s.(pc := if f.part.Some? && Sha(f.part.value) == d then Rename(d) else Discard)
    case Discard => s.(files := f.(version := None), pc := Done(false))
    case Rename(d) =>
      s.(files := f.(dest := f.part, part := None), pc := Forget, older := s.older + {f.dest},
         torn := s.torn || !s.synced)
    case Forget => s.(files := f.(version := None), pc := SyncDir)
    case SyncDir => s.(pc := Done(true), older := {})
    case Idle => s
    case Done(_) => s
  }

  function Do(s: State, a: Action): State {
    match a
    case Call => if s.pc.Idle? || s.pc.Done? then s.(pc := Begin(false), requests := 0) else s
    case Step(chunk) => ClientStep(s, chunk)
    case Fail =>
      if s.pc.Idle? || s.pc.Done? then s
      else s.(pc := if s.pc.Forget? then SyncDir else Done(false)) // removing the note is not checked
    case Crash(part, version, back, junk) =>
      var dest := if s.torn then junk else if back.Some? && back.value in s.older then back.value else s.files.dest;
      s.(pc := Idle, files := Files(dest, part, version), synced := false)
    case Write(source) => s.(server := s.server.(source := source))
    case OtherClient => if s.server.source.Some? then Took(s, Capture(s.server)) else s
    case ServerRestart(kept) => s.(server := s.server.(cache := map d | d in kept && d.of in s.served :: d.of))
  }

  function Exec(s: State, schedule: seq<Action>): State {
    Runs.Exec(Do, s, schedule)
  }

  /** Any leftovers, any disk; the server has no snapshot yet. */
  function Start(files: Files, source: Option<Bytes>): State {
    State(files, Server(source, map[]), Idle, {}, 0, {}, false, false)
  }

  // ---------- safety ----------

  predicate Known(s: State, d: Digest) {
    d.of in s.served
  }

  predicate OldOrServed(s: State, dest: Option<Bytes>, first: Option<Bytes>) {
    dest == first || (dest.Some? && dest.value in s.served)
  }

  /** A snapshot is filed under its own digest. */
  ghost predicate CacheOk(s: State) {
    forall d :: d in s.server.cache ==> Sha(s.server.cache[d]) == d && s.server.cache[d] in s.served
  }

  predicate PcOk(s: State) {
    match s.pc
    case Begin(again) => s.requests == (if again then 1 else 0) && (again ==> s.files.version == None)
    case Request(resume, have, again) => s.requests == (if again then 1 else 0) && (again ==> resume == None)
    case Drop => s.requests == 1
    case Announce(_, d, _) => Known(s, d)
    case Open(_, d, _) => Known(s, d)
    case Copy(d, _) => Known(s, d)
    case Sync(d) => Known(s, d)
    case Verify(d) => Known(s, d) && s.synced
    case Rename(d) => Known(s, d) && s.synced && s.files.part == Some(d.of)
    case _ => true
  }

  ghost predicate Inv(s: State, first: Option<Bytes>) {
    && CacheOk(s) && PcOk(s) && s.requests <= 2 && !s.torn
    && OldOrServed(s, s.files.dest, first) && (forall b :: b in s.older ==> OldOrServed(s, b, first))
  }

  lemma {:induction false} AnswerKeeps(s: State, version: Option<Digest>, from: Option<nat>)
    requires CacheOk(s)
    ensures var (server, r) := Answer(s.server, version, from);
            && CacheOk(Took(s, server))
            && (r.Full? || r.Partial? ==> Known(Took(s, server), r.digest))
  {
    if version == None && s.server.source.Some? {
      assert Sha(s.server.source.value) in Capture(s.server).cache;
    }
  }

  lemma {:induction false} ClientStepKeeps(s: State, first: Option<Bytes>, chunk: nat)
    requires Inv(s, first)
    ensures Inv(ClientStep(s, chunk), first)
  {
    hide Answer;
    if s.pc.Request? {
      RequestKeeps(s, first, chunk);
    }
  }

  lemma {:induction false} RequestKeeps(s: State, first: Option<Bytes>, chunk: nat)
    requires Inv(s, first) && s.pc.Request?
    ensures Inv(ClientStep(s, chunk), first)
  {
    hide Answer;
    var from := if s.pc.resume.Some? then Some(s.pc.have) else None;
    AnswerKeeps(s, s.pc.resume, from);
  }

  lemma {:induction false} StepKeeps(s: State, first: Option<Bytes>, a: Action)
    requires Inv(s, first)
    ensures Inv(Do(s, a), first)
  {
    match a
    case Step(chunk) => ClientStepKeeps(s, first, chunk);
    case OtherClient => AnswerKeeps(s, None, None);
    case _ =>
  }

  lemma {:induction false} Safe(files: Files, source: Option<Bytes>, schedule: seq<Action>)
    ensures Inv(Exec(Start(files, source), schedule), files.dest)
  {
    if schedule != [] {
      var n := |schedule| - 1;
      Safe(files, source, schedule[..n]);
      StepKeeps(Exec(Start(files, source), schedule[..n]), files.dest, schedule[n]);
    }
  }

  /** Whatever crashes, fails or changes, only synced files are renamed over the destination, so that no
      crash can tear it: it holds its old content or one complete snapshot the server captured; and no call
      asks the server more than twice. */
  lemma {:induction false} DestinationIsWhole(files: Files, source: Option<Bytes>, schedule: seq<Action>)
    ensures var s := Exec(Start(files, source), schedule);
            && (s.files.dest == files.dest || (s.files.dest.Some? && s.files.dest.value in s.served))
            && s.requests <= 2 && !s.torn
  {
    Safe(files, source, schedule);
  }

  /** The destination changes only when a verified transfer is renamed over it, or when a crash undoes
      renames whose directory was never synced since. */
  lemma {:induction false} OnlyRenameWrites(files: Files, source: Option<Bytes>, schedule: seq<Action>, a: Action)
    ensures var s := Exec(Start(files, source), schedule);
            var s' := Do(s, a);
            s'.files.dest != s.files.dest ==>
              || (a.Step? && s.pc.Rename? && s'.files.dest == Some(s.pc.expected.of))
              || (a.Crash? && a.back == Some(s'.files.dest) && s'.files.dest in s.older)
  {
    Safe(files, source, schedule);
  }

  // ---------- what a successful call means ----------

  /** The digest the running or last call was given by the server: none until it has an answer to download. */
  function Given(s: State, schedule: seq<Action>): Option<Digest> {
    if schedule == [] then None else
      var earlier, a := schedule[..|schedule| - 1], schedule[|schedule| - 1];
      var before, after := Exec(s, earlier), Exec(s, schedule);
      if a.Call? && !Busy(before.pc) then None
      else if a.Step? && before.pc.Request? && after.pc.Announce? then Some(after.pc.expected)
      else Given(s, earlier)
  }

  /** What that call has renamed over the destination. */
  function Installed(s: State, schedule: seq<Action>): Option<Bytes> {
    if schedule == [] then None else
      var earlier, a := schedule[..|schedule| - 1], schedule[|schedule| - 1];
      var before := Exec(s, earlier);
      if a.Call? && !Busy(before.pc) then None
      else if a.Step? && before.pc.Rename? then before.files.part
      else Installed(s, earlier)
  }

  predicate Busy(pc: Pc) {
    !pc.Idle? && !pc.Done?
  }

  /** How far a call is, in terms of what it was given and has installed. */
  predicate OnCourse(s: State, given: Option<Digest>, installed: Option<Bytes>) {
    match s.pc
    case Announce(_, d, _) => given == Some(d) && installed == None
    case Open(_, d, _) => given == Some(d) && installed == None
    case Copy(d, _) => given == Some(d) && installed == None
    case Sync(d) => given == Some(d) && installed == None
    case Verify(d) => given == Some(d) && installed == None
    case Rename(d) => given == Some(d) && installed == None
    case Forget => InPlace(s, given, installed)
    case SyncDir => InPlace(s, given, installed)
    case Done(ok) => ok ==> InPlace(s, given, installed) && s.older == {}
    case Idle => true
    case _ => installed == None
  }

  /** The snapshot the call was given is renamed over the destination and still there. */
  predicate InPlace(s: State, given: Option<Digest>, installed: Option<Bytes>) {
    given.Some? && installed == Some(given.value.of) && s.files.dest == installed
  }

  lemma {:induction false} StepOnCourse(s: State, first: Option<Bytes>, a: Action,
                                        given: Option<Digest>, installed: Option<Bytes>)
    requires Inv(s, first) && OnCourse(s, given, installed)
    ensures var s' := Do(s, a);
            OnCourse(s', if a.Call? && !Busy(s.pc) then None
                         else if a.Step? && s.pc.Request? && s'.pc.Announce? then Some(s'.pc.expected) else given,
                         if a.Call? && !Busy(s.pc) then None
                         else if a.Step? && s.pc.Rename? then s.files.part else installed)
  {
    hide Answer, Resume, PartSize;
  }

  lemma {:induction false} AllOnCourse(files: Files, source: Option<Bytes>, schedule: seq<Action>)
    ensures var s0 := Start(files, source);
            OnCourse(Exec(s0, schedule), Given(s0, schedule), Installed(s0, schedule))
  {
    if schedule != [] {
      var n := |schedule| - 1;
      var s0 := Start(files, source);
      AllOnCourse(files, source, schedule[..n]);
      Safe(files, source, schedule[..n]);
      StepOnCourse(Exec(s0, schedule[..n]), files.dest, schedule[n],
                   Given(s0, schedule[..n]), Installed(s0, schedule[..n]));
      hide Do, OnCourse, Inv;
    }
  }

  /** In every schedule, a call that reports success has renamed the snapshot it was given by the server over
      the destination, which holds it, whole; and no crash can undo that any more. */
  lemma {:induction false} SuccessInstalls(files: Files, source: Option<Bytes>, schedule: seq<Action>)
    requires Exec(Start(files, source), schedule).pc == Done(true)
    ensures var s0 := Start(files, source);
            var s, given := Exec(s0, schedule), Given(s0, schedule);
            && given.Some? && Installed(s0, schedule) == Some(given.value.of)
            && s.files.dest == Some(given.value.of) && given.value.of in s.served
            && s.older == {} && !s.torn
  {
    AllOnCourse(files, source, schedule);
    Safe(files, source, schedule);
    GivenIsKnown(files, source, schedule);
  }

  /** Every capture leaves the server with that one snapshot. */
  lemma {:induction false} CaptureLeavesOne(s: State, a: Action, n: nat)
    requires s.server.source.Some?
    requires a == OtherClient || (a == Step(n) && s.pc.Request? && s.pc.resume == None)
    ensures Do(s, a).server == s.server.(cache := map[Sha(s.server.source.value) := s.server.source.value])
    ensures Do(s, a).served == s.served + {s.server.source.value}
  {
    var cache := map[Sha(s.server.source.value) := s.server.source.value];
    assert cache[Sha(s.server.source.value)] in cache.Values;
  }

  /** Once the image is in place, failing to remove the note does not fail the call. */
  lemma {:induction false} NoteIsNotChecked(s: State, n: nat)
    requires s.pc == Forget
    ensures Do(Do(s, Fail), Step(n)) == s.(pc := Done(true), older := {})
    ensures Do(Do(s, Step(n)), Step(n)) == s.(files := s.files.(version := None), pc := Done(true), older := {})
  {
  }

  lemma {:induction false} GivenIsKnown(files: Files, source: Option<Bytes>, schedule: seq<Action>)
    ensures var s0 := Start(files, source);
            Given(s0, schedule).Some? ==> Known(Exec(s0, schedule), Given(s0, schedule).value)
  {
    if schedule != [] {
      var n := |schedule| - 1;
      var s0 := Start(files, source);
      GivenIsKnown(files, source, schedule[..n]);
      Safe(files, source, schedule);
      ServedGrows(Exec(s0, schedule[..n]), schedule[n]);
      hide Do;
    }
  }

  lemma {:induction false} ServedGrows(s: State, a: Action)
    ensures s.served <= Do(s, a).served
  {
    hide Answer;
  }

  // ---------- undisturbed calls ----------

  /** `n` client operations in which nothing fails and every body arrives whole. */
  function Quietly(s: State, n: nat): State
    decreases n
  {
    if n == 0 then s
    else
      var t := Quietly(s, n - 1);
      ClientStep(t, if t.pc.Copy? then |t.pc.rest| else 0)
  }

  lemma {:induction false} QuietlySplits(s: State, a: nat, b: nat)
    ensures Quietly(Quietly(s, a), b) == Quietly(s, a + b)
    decreases b
  {
    hide ClientStep;
    if b > 0 {
      QuietlySplits(s, a, b - 1);
    }
  }

  /** From the moment the body starts to arrive: the outcome turns on the checksum alone. */
  lemma {:induction false} DownloadAlone(s: State)
    requires s.pc.Announce?
    ensures var whole := (if s.pc.append && s.files.part.Some? then s.files.part.value else []) + s.pc.body;
            var ok := Sha(whole) == s.pc.expected;
            Quietly(s, 8) == s.(pc := Done(ok), synced := true, older := if ok then {} else s.older,
                               files := if ok then Files(Some(whole), None, None)
                                        else Files(s.files.dest, Some(whole), None))
  {
    var d, body := s.pc.expected, s.pc.body;
    var kept := if s.pc.append && s.files.part.Some? then s.files.part.value else [];
    var whole := kept + body;
    var noted := s.files.(version := Some(Hex(d)));
    assert Quietly(s, 1) == s.(files := noted, pc := Open(s.pc.append, d, body));
    assert Quietly(s, 2) == s.(files := noted.(part := Some(kept)), pc := Copy(d, body), synced := false);
    assert body[..|body|] == body;
    assert Quietly(s, 3) == s.(files := noted.(part := Some(whole)), pc := Sync(d), synced := false);
    assert Quietly(s, 4) == s.(files := noted.(part := Some(whole)), pc := Verify(d), synced := true);
    FinishAlone(Quietly(s, 4), d, whole);
    QuietlySplits(s, 4, 4);
  }

  lemma {:induction false} FinishAlone(s: State, d: Digest, whole: Bytes)
    requires s.pc == Verify(d) && s.files.part == Some(whole) && s.synced
    ensures var ok := Sha(whole) == d;
            Quietly(s, 4) == s.(pc := Done(ok), older := if ok then {} else s.older,
                               files := if ok then Files(Some(whole), None, None)
                                        else Files(s.files.dest, Some(whole), None))
  {
    var ok := Sha(whole) == d;
    assert Quietly(s, 1) == s.(pc := if ok then Rename(d) else Discard);
    if ok {
      var older := s.older + {s.files.dest};
      assert Quietly(s, 2) == s.(files := Files(Some(whole), None, s.files.version), pc := Forget, older := older);
      assert Quietly(s, 3) == s.(files := Files(Some(whole), None, None), pc := SyncDir, older := older);
    } else {
      assert Quietly(s, 2) == s.(files := s.files.(version := None), pc := Done(false));
      assert Quietly(s, 3) == Quietly(s, 2);
    }
  }

  /** The leftovers continue a snapshot the server still keeps, as far as their size can tell. */
  predicate Resumable(f: Files, server: Server) {
    && Resume(f).Some? && Resume(f).value in server.cache
    && (PartSize(f) < |server.cache[Resume(f).value]| || |server.cache[Resume(f).value]| == 0)
  }

  /** The leftovers are a true beginning of that snapshot. */
  predicate Genuine(f: Files, server: Server)
    requires Resumable(f, server)
  {
    var content := server.cache[Resume(f).value];
    |content| == 0 || f.part.value == content[..PartSize(f)]
  }

  /** An undisturbed call with nothing worth resuming downloads the disk as it is now. */
  lemma {:induction false} FreshPullAlone(s: State)
    requires s.server.source.Some? && (s.pc.Idle? || s.pc.Done?) && !Resumable(s.files, s.server)
    ensures var s' := Quietly(Do(s, Call), 13);
            && s'.pc == Done(true) && s'.files == Files(s.server.source, None, None)
            && s'.server == Capture(s.server) && s.server.source.value in s'.served
  {
    hide ClientStep, Quietly;
    var content := s.server.source.value;
    var s0 := Do(s, Call);
    RequestAlone(s);
    var s2 := Quietly(s0, 2);
    if Resume(s.files) == None {
      assert Sha(content) in Capture(s.server).cache;
      assert s2.pc == Announce(false, Sha(content), content);
      DownloadAlone(s2);
      assert [] + content == content;
      QuietlySplits(s0, 2, 8);
      StaysDone(s0, 10);
    } else {
      assert s2.pc == Drop;
      RetryAlone(s2);
      QuietlySplits(s0, 2, 11);
    }
  }

  /** The first request of an undisturbed call, and what it makes of the answer. */
  lemma {:induction false} RequestAlone(s: State)
    requires s.pc.Idle? || s.pc.Done?
    ensures var s2 := Quietly(Do(s, Call), 2);
            var from := if Resume(s.files).Some? then Some(PartSize(s.files)) else None;
            var (server, r) := Answer(s.server, Resume(s.files), from);
            s2 == Took(s, server).(pc := Receive(Resume(s.files), r), requests := 1)
  {
    hide Answer, Receive, Resume, PartSize;
    var s0 := Do(s, Call);
    assert Quietly(s0, 0) == s0;
    assert Quietly(s0, 1) == s0.(pc := Request(Resume(s.files), PartSize(s.files), false));
  }

  /** A refused resume drops the note and asks for the whole disk. */
  lemma {:induction false} RestartAlone(s: State)
    requires s.server.source.Some? && s.pc == Drop
    ensures var content := s.server.source.value;
            Quietly(s, 3) == Took(s, Capture(s.server)).(files := s.files.(version := None), requests := s.requests + 1,
                                                         pc := Announce(false, Sha(content), content))
  {
    var dropped := s.(files := s.files.(version := None));
    assert Quietly(s, 1) == dropped.(pc := Begin(true));
    assert Quietly(s, 2) == dropped.(pc := Request(None, PartSize(s.files), true));
  }

  /** A refused resume starts over and downloads the disk as it is now. */
  lemma {:induction false} RetryAlone(s: State)
    requires s.server.source.Some? && s.pc == Drop
    ensures var s' := Quietly(s, 11);
            && s'.pc == Done(true) && s'.files == Files(s.server.source, None, None)
            && s'.server == Capture(s.server) && s.server.source.value in s'.served
  {
    var content := s.server.source.value;
    assert Sha(content) in Capture(s.server).cache;
    hide ClientStep, Quietly;
    RestartAlone(s);
    DownloadAlone(Quietly(s, 3));
    assert [] + content == content;
    QuietlySplits(s, 3, 8);
  }

  lemma {:induction false} StaysDone(s: State, n: nat)
    requires Quietly(s, n).pc.Done?
    ensures Quietly(s, n + 3) == Quietly(s, n)
  {
    assert Quietly(s, n + 1) == Quietly(s, n);
    assert Quietly(s, n + 2) == Quietly(s, n + 1);
  }

  /** An undisturbed call that resumes succeeds exactly when the leftovers are a true beginning of the
      snapshot they are noted as; otherwise it drops the note and leaves the destination alone. */
  lemma {:induction false} ResumedPullAlone(s: State)
    requires s.server.source.Some? && (s.pc.Idle? || s.pc.Done?) && Resumable(s.files, s.server)
    requires CacheOk(s)
    ensures var s' := Quietly(Do(s, Call), 13);
            var ok := Genuine(s.files, s.server);
            && s'.pc == Done(ok) && s'.server == s.server && s'.files.version == None
            && s'.files.dest == (if ok then Some(s.server.cache[Resume(s.files).value]) else s.files.dest)
  {
    hide ClientStep, Quietly;
    var d := Resume(s.files).value;
    var content, part := s.server.cache[d], s.files.part.value;
    var s0 := Do(s, Call);
    RequestAlone(s);
    var s2 := Quietly(s0, 2);
    assert s2.server == s.server && s2.files == s.files;
    assert s2.pc == if |content| == 0 then Announce(false, d, content) else Announce(true, d, content[|part|..]);
    if |content| > 0 {
      SplitMatches(part, content);
    }
    DownloadAlone(s2);
    QuietlySplits(s0, 2, 8);
    StaysDone(s0, 10);
  }

  lemma {:induction false} SplitMatches(part: Bytes, content: Bytes)
    requires |part| <= |content|
    ensures part + content[|part|..] == content <==> part == content[..|part|]
  {
    if part + content[|part|..] == content {
      assert part == (part + content[|part|..])[..|part|];
    }
  }

  /** From any leftovers, an undisturbed call fails exactly when it resumes onto a partial file that is
      not a beginning of the snapshot it is noted as; and then a second one succeeds. */
  lemma {:induction false} TwoCallsSuffice(s: State)
    requires s.server.source.Some? && (s.pc.Idle? || s.pc.Done?) && CacheOk(s)
    ensures var s1 := Quietly(Do(s, Call), 13);
            var s2 := Quietly(Do(s1, Call), 13);
            && s1.pc == Done(!Resumable(s.files, s.server) || Genuine(s.files, s.server))
            && (s1.pc == Done(true) || s2.pc == Done(true))
            && (s1.pc == Done(false) ==> s1.files.dest == s.files.dest && s2.files.dest == s.server.source)
  {
    if Resumable(s.files, s.server) {
      ResumedPullAlone(s);
      var s1 := Quietly(Do(s, Call), 13);
      if s1.pc == Done(false) {
        FreshPullAlone(s1);
      }
    } else {
      FreshPullAlone(s);
    }
  }

  /** A failing resume is reached without any crash: a call that finds a partial file with no note asks for
      the whole disk, notes its digest, and fails before it truncates the partial file. */
  lemma {:induction false} ResumeCanFail(source: Bytes, leftover: Bytes)
    requires 0 < |leftover| < |source| && leftover != source[..|leftover|]
    ensures var s := Exec(Start(Files(None, Some(leftover), None), Some(source)),
                          [Call, Step(0), Step(0), Step(0), Fail]);
            Quietly(Do(s, Call), 13).pc == Done(false)
  {
    var files := Files(None, Some(leftover), None);
    var s0 := Start(files, Some(source));
    var schedule := [Call, Step(0), Step(0), Step(0), Fail];
    Runs.Five(Do, s0, schedule);
    var s2 := Do(Do(s0, Call), Step(0));
    assert s2.pc == Request(None, |leftover|, false);
    var s3 := Do(s2, Step(0));
    assert Sha(source) in Capture(s0.server).cache;
    assert s3.pc == Announce(false, Sha(source), source) && s3.server == Capture(s0.server);
    var s4 := Do(s3, Step(0));
    assert s4.files == files.(version := Some(Hex(Sha(source))));
    Safe(files, Some(source), schedule);
    ResumedPullAlone(Exec(s0, schedule));
  }
}
