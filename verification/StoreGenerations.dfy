/** The directory store: every generation has part files and a manifest of its own, and the highest manifest
    decides. Publishing writes a new generation, compaction removes the files of the others; the process can
    stop and the power can fail at any point, any number of times. */
module StoreGenerations {
  import opened Wrappers
  import opened CrashDisk

  /** Parts (checkpoint, log, metadata, ...) are numbered in the order they are written. */
  datatype Name = Manifest(generation: nat) | PendingManifest(generation: nat) | Part(generation: nat, part: nat)

  /** A manifest records its generation and what the parts hold. */
  datatype Content = Blank | Data(data: nat) | Record(generation: nat, parts: seq<nat>) | Torn(bits: nat)

  type StoreDisk = Disk<Name, Content>

  /** A publication: the generation, its parts, and the first inode it uses. */
  datatype Job = Job(next: nat, parts: seq<nat>, base: nat)

  datatype Stage =
    | NextPart(done: nat)
    | PartCreated(done: nat)
    | PartWritten(done: nat)
    | PrerequisitesSynced
    | PendingCleared
    | PendingCreated
    | PendingWritten
    | PendingSynced
    | ManifestRenamed

  datatype Process =
    | Closed
    | Open(generation: nat)
    | Publishing(generation: nat, job: Job, stage: Stage)
    | Compacting(generation: nat, pinned: set<nat>, rest: set<Name>)

  datatype State = State(disk: StoreDisk, process: Process)

  // ----- Opening -----

  predicate Highest(dir: Directory<Name>, g: nat) {
    Manifest(g) in dir && forall name | name in dir :: name.Manifest? ==> name.generation <= g
  }

  predicate Reads(files: seq<File<Content>>, dir: Directory<Name>, name: Name, content: Content) {
    name in dir && dir[name] < |files| && files[dir[name]].content == content
  }

  predicate ReadsAll(files: seq<File<Content>>, dir: Directory<Name>, g: nat, parts: seq<nat>) {
    && Reads(files, dir, Manifest(g), Record(g, parts))
    && forall k | 0 <= k < |parts| :: Reads(files, dir, Part(g, k), Data(parts[k]))
  }

  /** The highest manifest present is whole, names its own generation, and all its parts are as it records. */
  ghost predicate Opens(disk: StoreDisk, g: nat) {
    Highest(Current(disk), g) && exists parts :: ReadsAll(disk.files, Current(disk), g, parts)
  }

  // ----- Publishing -----

  /** One above the highest generation of any file present. */
  predicate IsNext(dir: Directory<Name>, n: nat) {
    && n > 0 && (forall name | name in dir :: name.generation < n)
    && (n > 1 ==> exists name | name in dir :: name.generation == n - 1)
  }

  predicate BeginPublish(s: State, s': State, n: nat, parts: seq<nat>) {
    && s.process.Open? && IsNext(Current(s.disk), n)
    && s' == State(s.disk, Publishing(s.process.generation, Job(n, parts, |s.disk.files|), NextPart(0)))
  }

  /** The next call of a publication. */
  function Advance(disk: StoreDisk, g: nat, job: Job, stage: Stage): Option<State> {
    var inode := if stage.PartCreated? || stage.PartWritten? then job.base + stage.done else job.base + |job.parts|;
    match stage
    case NextPart(done) =>
      if done < |job.parts|
      then Some(State(Create(disk, Part(job.next, done), Blank), Publishing(g, job, PartCreated(done))))
      else Some(State(SyncDirectory(disk), Publishing(g, job, PrerequisitesSynced)))
    case PartCreated(done) =>
      if done < |job.parts| && inode < |disk.files|
      then Some(State(Write(disk, inode, Data(job.parts[done])), Publishing(g, job, PartWritten(done)))) else None
    case PartWritten(done) =>
      if inode < |disk.files| then Some(State(SyncFile(disk, inode), Publishing(g, job, NextPart(done + 1)))) else None
    case PrerequisitesSynced =>
      var pending := PendingManifest(job.next);
      Some(State(if pending in Current(disk) then Remove(disk, pending) else disk, Publishing(g, job, PendingCleared)))
    case PendingCleared =>
      Some(State(Create(disk, PendingManifest(job.next), Blank), Publishing(g, job, PendingCreated)))
    case PendingCreated =>
      if inode < |disk.files|
      then Some(State(Write(disk, inode, Record(job.next, job.parts)), Publishing(g, job, PendingWritten))) else None
    case PendingWritten =>
      if inode < |disk.files| then Some(State(SyncFile(disk, inode), Publishing(g, job, PendingSynced))) else None
    case PendingSynced =>
      if PendingManifest(job.next) in Current(disk)
      then Some(State(Rename(disk, PendingManifest(job.next), Manifest(job.next)), Publishing(g, job, ManifestRenamed))) else None
    case ManifestRenamed =>
      Some(State(SyncDirectory(disk), Open(job.next)))
  }

  // ----- Compaction -----

  /** Leftover pending manifests, and every file of a generation that is neither current nor pinned. */
  predicate Removable(name: Name, g: nat, pinned: set<nat>) {
    name.PendingManifest? || (name.generation != g && name.generation !in pinned)
  }

  function Obsolete(dir: Directory<Name>, g: nat, pinned: set<nat>): set<Name> {
    set name | name in dir && Removable(name, g, pinned)
  }

  predicate BeginCompact(s: State, s': State, pinned: set<nat>) {
    && s.process.Open?
    && s' == s.(process := Compacting(s.process.generation, pinned, Obsolete(Current(s.disk), s.process.generation, pinned)))
  }

  /** Removes some file still to be removed: the directory is listed in no particular order. */
  predicate RemoveOne(s: State, s': State, name: Name) {
    && s.process.Compacting? && name in s.process.rest
    && s' == State(Remove(s.disk, name), s.process.(rest := s.process.rest - {name}))
  }

  predicate FinishCompact(s: State, s': State) {
    && s.process.Compacting? && s.process.rest == {}
    && s' == State(SyncDirectory(s.disk), Open(s.process.generation))
  }

  // ----- Stopping and failing -----

  /** The process ends, by itself or not; the disk stays as the system sees it. */
  predicate Stop(s: State, s': State) {
    s' == s.(process := Closed)
  }

  /** A call fails and the store goes on, unless the rename may already have happened. */
  predicate Fail(s: State, s': State) {
    match s.process
    case Publishing(g, _, stage) => !stage.ManifestRenamed? && s' == s.(process := Open(g))
    case Compacting(g, _, _) => s' == s.(process := Open(g))
    case _ => false
  }

  ghost predicate PowerLoss(s: State, s': State) {
    s'.process == Closed && CrashImage(s.disk, s'.disk)
  }

  ghost predicate Reopen(s: State, s': State, g: nat) {
    s.process == Closed && Opens(s.disk, g) && s' == s.(process := Open(g))
  }

  // ----- Runs -----

  predicate Publishes(s: State, s': State) {
    s.process.Publishing? && Advance(s.disk, s.process.generation, s.process.job, s.process.stage) == Some(s')
  }

  /** Every step but power loss. */
  ghost predicate Step(s: State, s': State) {
    || Stop(s, s')
    || Fail(s, s')
    || (exists g :: Reopen(s, s', g))
    || (exists n, parts :: BeginPublish(s, s', n, parts))
    || Publishes(s, s')
    || (exists pinned :: BeginCompact(s, s', pinned))
    || (exists name :: RemoveOne(s, s', name))
    || FinishCompact(s, s')
  }

  ghost predicate Next(s: State, s': State) {
    Step(s, s') || PowerLoss(s, s')
  }

  /** What a power loss left can be opened at a generation no older than `least`. */
  ghost predicate Recovers(image: StoreDisk, least: nat) {
    exists g :: g >= least && Opens(image, g)
  }

  /** A store that is not running, on a disk with nothing pending. */
  ghost predicate AtRest(s: State) {
    s.process == Closed && s.disk.ops == [] && forall i | 0 <= i < |s.disk.files| :: s.disk.files[i].synced
  }

  ghost predicate Initial(s: State) {
    AtRest(s) && exists g :: Opens(s.disk, g)
  }

  /** The manifest that decides after a power loss is the current one, or a pinned one. */
  ghost predicate AuthorityKept(disk: StoreDisk, g: nat, pinned: set<nat>) {
    exists h :: Highest(disk.durable, h) && (h == g || h in pinned)
  }

  /** Compaction is only begun where the authority is kept. */
  ghost predicate Careful(s: State, s': State) {
    s.process.Open? && s'.process.Compacting? ==> AuthorityKept(s.disk, s.process.generation, s'.process.pinned)
  }

  ghost predicate Trace(t: seq<State>) {
    && t != [] && Initial(t[0])
    && forall i, j | 0 <= i && j == i + 1 < |t| :: Next(t[i], t[j])
  }

  ghost predicate CarefulTrace(t: seq<State>) {
    Trace(t) && forall i, j | 0 <= i && j == i + 1 < |t| :: Careful(t[i], t[j])
  }

  // ----- Opening on a supported platform -----

  /** The probe that runs before such an opening syncs the directory. */
  ghost predicate ReopenProbed(s: State, s': State, g: nat) {
    s.process == Closed && Opens(s.disk, g) && s' == State(SyncDirectory(s.disk), Open(g))
  }

  ghost predicate ProbedNext(s: State, s': State) {
    (Next(s, s') && !(s.process.Closed? && s'.process.Open?)) || exists g :: ReopenProbed(s, s', g)
  }

  ghost predicate ProbedTrace(t: seq<State>) {
    && t != [] && Initial(t[0])
    && forall i, j | 0 <= i && j == i + 1 < |t| :: ProbedNext(t[i], t[j])
  }
}
