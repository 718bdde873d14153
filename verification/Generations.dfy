/** Publishing generations: payload first, then a manifest naming it, then removal of the obsolete payload; with
    power loss and recovery at any point, any number of times. */
module Generations {
  import opened Wrappers
  import opened CrashDisk

  datatype Name = Payload(generation: nat) | Manifest | Pending

  /** What files hold. A manifest records the generation it names and the content that generation had. */
  datatype Content = Blank | Data(data: nat) | Names(generation: nat, data: nat) | Torn(bits: nat)

  /** One publication: the generation it replaces, the one it publishes, and the two new inodes. */
  datatype Job = Job(prior: nat, priorData: nat, next: nat, data: nat, payload: nat, manifest: nat)

  datatype Stage =
    | PayloadCreated
    | PayloadWritten
    | PayloadSynced
    | PrerequisiteDirectorySynced
    | PendingCleared
    | PendingCreated
    | PendingWritten
    | PendingSynced
    | ManifestRenamed
    | ManifestDirectorySynced
    | ObsoleteRemoved

  datatype Process = Idle | Publishing(job: Job, stage: Stage)

  datatype State = State(disk: Disk<Name, Content>, process: Process)

  // ----- Authority -----

  /** The durable directory binds a synced manifest naming `g`, and the payload of `g`, intact. */
  predicate Holds(disk: Disk<Name, Content>, g: nat, data: nat) {
    && Manifest in disk.durable && disk.durable[Manifest] < |disk.files|
    && disk.files[disk.durable[Manifest]] == File(Names(g, data), true)
    && PayloadHolds(disk, g, data)
  }

  predicate PayloadHolds(disk: Disk<Name, Content>, g: nat, data: nat) {
    && Payload(g) in disk.durable && disk.durable[Payload(g)] < |disk.files|
    && disk.files[disk.durable[Payload(g)]] == File(Data(data), true)
  }

  /** The manifest names a generation whose payload is present and intact. */
  ghost predicate Intact(disk: Disk<Name, Content>) {
    exists g, data :: Holds(disk, g, data)
  }

  // ----- Steps -----

  predicate Initial(s: State) {
    s.process == Idle && s.disk.ops == [] && Holds(s.disk, 0, 0)
  }

  /** Starts publishing a generation whose name is not in use. */
  predicate Begin(s: State, s': State, g: nat, data: nat, next: nat, nextData: nat) {
    && s.process == Idle && Holds(s.disk, g, data) && Payload(next) !in Current(s.disk)
    && s' == State(
         Create(s.disk, Payload(next), Blank),
         Publishing(Job(g, data, next, nextData, |s.disk.files|, 0), PayloadCreated))
  }

  /** The next call of a publication. */
  function Advance(disk: Disk<Name, Content>, job: Job, stage: Stage): Option<State> {
    match stage
    case PayloadCreated =>
      if job.payload < |disk.files| then Some(State(Write(disk, job.payload, Data(job.data)), Publishing(job, PayloadWritten))) else None
    case PayloadWritten =>
      if job.payload < |disk.files| then Some(State(SyncFile(disk, job.payload), Publishing(job, PayloadSynced))) else None
    case PayloadSynced =>
      Some(State(SyncDirectory(disk), Publishing(job, PrerequisiteDirectorySynced)))
    case PrerequisiteDirectorySynced =>
      Some(State(if Pending in Current(disk) then Remove(disk, Pending) else disk, Publishing(job, PendingCleared)))
    case PendingCleared =>
      Some(State(Create(disk, Pending, Blank), Publishing(job.(manifest := |disk.files|), PendingCreated)))
    case PendingCreated =>
      if job.manifest < |disk.files|
      then Some(State(Write(disk, job.manifest, Names(job.next, job.data)), Publishing(job, PendingWritten))) else None
    case PendingWritten =>
      if job.manifest < |disk.files| then Some(State(SyncFile(disk, job.manifest), Publishing(job, PendingSynced))) else None
    case PendingSynced =>
      if Pending in Current(disk) then Some(State(Rename(disk, Pending, Manifest), Publishing(job, ManifestRenamed))) else None
    case ManifestRenamed =>
      Some(State(SyncDirectory(disk), Publishing(job, ManifestDirectorySynced)))
    case ManifestDirectorySynced =>
      Some(State(Remove(disk, Payload(job.prior)), Publishing(job, ObsoleteRemoved)))
    case ObsoleteRemoved =>
      Some(State(SyncDirectory(disk), Idle))
  }

  /** Power loss, then a restart on whatever the disk holds. */
  ghost predicate Crash(s: State, s': State) {
    s'.process == Idle && CrashImage(s.disk, s'.disk)
  }

  ghost predicate Next(s: State, s': State) {
    || (exists g, data, next, nextData :: Begin(s, s', g, data, next, nextData))
    || (s.process.Publishing? && Advance(s.disk, s.process.job, s.process.stage) == Some(s'))
    || Crash(s, s')
  }

  ghost predicate Trace(t: seq<State>) {
    && t != [] && Initial(t[0])
    && forall i, j | 0 <= i && j == i + 1 < |t| :: Next(t[i], t[j])
  }

  // ----- Invariant -----

  predicate FileIs(disk: Disk<Name, Content>, inode: nat, content: Content, synced: bool) {
    inode < |disk.files| && disk.files[inode] == File(content, synced)
  }

  predicate OnlyPending(ops: seq<DirectoryOp<Name>>) {
    ops == [] || ops == [Unbind(Pending)]
  }

  /** What is pending, and which of the job's files are in which state, at each stage. */
  predicate StageOk(disk: Disk<Name, Content>, job: Job, stage: Stage) {
    match stage
    case PayloadCreated =>
      disk.ops == [Bind(Payload(job.next), job.payload)] && FileIs(disk, job.payload, Blank, false)
    case PayloadWritten =>
      disk.ops == [Bind(Payload(job.next), job.payload)] && FileIs(disk, job.payload, Data(job.data), false)
    case PayloadSynced =>
      disk.ops == [Bind(Payload(job.next), job.payload)] && FileIs(disk, job.payload, Data(job.data), true)
    case PrerequisiteDirectorySynced =>
      disk.ops == []
    case PendingCleared =>
      OnlyPending(disk.ops)
    case PendingCreated =>
      PendingBound(disk.ops, job.manifest) && FileIs(disk, job.manifest, Blank, false)
    case PendingWritten =>
      PendingBound(disk.ops, job.manifest) && FileIs(disk, job.manifest, Names(job.next, job.data), false)
    case PendingSynced =>
      PendingBound(disk.ops, job.manifest) && FileIs(disk, job.manifest, Names(job.next, job.data), true)
    case ManifestRenamed =>
      && |disk.ops| > 0 && PendingBound(disk.ops[..|disk.ops| - 1], job.manifest)
      && disk.ops[|disk.ops| - 1] == Move(Pending, Manifest, job.manifest)
      && FileIs(disk, job.manifest, Names(job.next, job.data), true)
    case ManifestDirectorySynced =>
      disk.ops == []
    case ObsoleteRemoved =>
      disk.ops == [Unbind(Payload(job.prior))]
  }

  predicate PendingBound(ops: seq<DirectoryOp<Name>>, inode: nat) {
    |ops| > 0 && OnlyPending(ops[..|ops| - 1]) && ops[|ops| - 1] == Bind(Pending, inode)
  }

  predicate BeforeManifestSync(stage: Stage) {
    !stage.ManifestDirectorySynced? && !stage.ObsoleteRemoved?
  }

  predicate PayloadIsDurable(stage: Stage) {
    !stage.PayloadCreated? && !stage.PayloadWritten? && !stage.PayloadSynced?
  }

  ghost predicate Inv(s: State) {
    match s.process
    case Idle => s.disk.ops == [] && Intact(s.disk)
    case Publishing(job, stage) =>
      && job.prior != job.next
      && StageOk(s.disk, job, stage)
      && (BeforeManifestSync(stage) ==> Holds(s.disk, job.prior, job.priorData))
      && (!BeforeManifestSync(stage) ==> Holds(s.disk, job.next, job.data))
      && (PayloadIsDurable(stage) ==> PayloadHolds(s.disk, job.next, job.data))
  }

  /** The generations a manifest may name after power is lost now. */
  ghost predicate MayName(s: State, g: nat, data: nat) {
    match s.process
    case Idle => Holds(s.disk, g, data)
    case Publishing(job, stage) =>
      || (BeforeManifestSync(stage) && g == job.prior && data == job.priorData)
      || ((stage.ManifestRenamed? || !BeforeManifestSync(stage)) && g == job.next && data == job.data)
  }
}
