/** No power loss, at any point of any number of publications, leaves a manifest without its payload. */
module GenerationSafety {
  import opened CrashDisk
  import opened Generations

  predicate Spares(ops: seq<DirectoryOp<Name>>, name: Name) {
    forall op | op in ops ::
      match op
      case Bind(n, _) => n != name
      case Move(source, target, _) => source != name && target != name
      case Unbind(n) => n != name
  }

  lemma PayloadSurvives(disk: Disk<Name, Content>, image: Disk<Name, Content>, g: nat, data: nat)
    requires CrashImage(disk, image) && PayloadHolds(disk, g, data) && Spares(disk.ops, Payload(g))
    ensures PayloadHolds(image, g, data)
  {
    var kept :| |kept| == |disk.ops| && image.durable == Survivors(disk.durable, disk.ops, kept);
    Untouched(disk.durable, disk.ops, kept, Payload(g));
  }

  lemma AllSurvives(disk: Disk<Name, Content>, image: Disk<Name, Content>, g: nat, data: nat)
    requires CrashImage(disk, image) && Holds(disk, g, data)
    requires Spares(disk.ops, Payload(g)) && Spares(disk.ops, Manifest)
    ensures Holds(image, g, data)
  {
    PayloadSurvives(disk, image, g, data);
    var kept :| |kept| == |disk.ops| && image.durable == Survivors(disk.durable, disk.ops, kept);
    Untouched(disk.durable, disk.ops, kept, Manifest);
  }

  /** Around the rename the manifest is the old one or the new one, never missing and never torn. */
  lemma EitherSurvives(disk: Disk<Name, Content>, image: Disk<Name, Content>, job: Job) returns (g: nat, data: nat)
    requires CrashImage(disk, image) && Holds(disk, job.prior, job.priorData) && PayloadHolds(disk, job.next, job.data)
    requires StageOk(disk, job, ManifestRenamed)
    ensures Holds(image, g, data)
    ensures (g == job.prior && data == job.priorData) || (g == job.next && data == job.data)
  {
    RenamedOps(disk.ops, job);
    PayloadSurvives(disk, image, job.prior, job.priorData);
    PayloadSurvives(disk, image, job.next, job.data);
    var kept :| |kept| == |disk.ops| && image.durable == Survivors(disk.durable, disk.ops, kept);
    MoveTarget(disk.durable, disk.ops, kept, Manifest);
    if image.durable[Manifest] == disk.durable[Manifest] {
      g, data := job.prior, job.priorData;
    } else {
      g, data := job.next, job.data;
    }
  }

  lemma RenamedOps(ops: seq<DirectoryOp<Name>>, job: Job)
    requires |ops| > 0 && PendingBound(ops[..|ops| - 1], job.manifest)
    requires ops[|ops| - 1] == Move(Pending, Manifest, job.manifest)
    ensures forall op | op in ops ::
              op == Unbind(Pending) || op == Bind(Pending, job.manifest) || op == Move(Pending, Manifest, job.manifest)
  {
    PendingOps(ops[..|ops| - 1], job.manifest);
  }

  lemma PendingOps(ops: seq<DirectoryOp<Name>>, inode: nat)
    requires PendingBound(ops, inode)
    ensures forall op | op in ops :: op == Unbind(Pending) || op == Bind(Pending, inode)
  {
    var before := ops[..|ops| - 1];
    assert ops == before + [Bind(Pending, inode)];
  }

  /** After every power loss the manifest names the replaced or the published generation, as far as the
      publication got, and that generation's payload is present and intact. */
  lemma ImageIntact(s: State, image: Disk<Name, Content>) returns (g: nat, data: nat)
    requires Inv(s) && CrashImage(s.disk, image)
    ensures Holds(image, g, data) && MayName(s, g, data)
  {
    match s.process
    case Idle =>
      g, data :| Holds(s.disk, g, data);
      AllSurvives(s.disk, image, g, data);
    case Publishing(job, stage) =>
      if stage.ManifestRenamed? {
        g, data := EitherSurvives(s.disk, image, job);
      } else if BeforeManifestSync(stage) {
        g, data := job.prior, job.priorData;
        if stage.PendingCreated? || stage.PendingWritten? || stage.PendingSynced? { PendingOps(s.disk.ops, job.manifest); }
        AllSurvives(s.disk, image, g, data);
      } else {
        g, data := job.next, job.data;
        AllSurvives(s.disk, image, g, data);
      }
  }

  lemma BeginKeepsInv(s: State, s': State, g: nat, data: nat, next: nat, nextData: nat)
    requires Inv(s) && Begin(s, s', g, data, next, nextData)
    ensures Inv(s')
  {
  }

  /** A sync of the directory makes the running system's view durable. */
  lemma SyncKeeps(disk: Disk<Name, Content>, g: nat, data: nat)
    requires PayloadHolds(disk, g, data) && Spares(disk.ops, Payload(g))
    ensures PayloadHolds(SyncDirectory(disk), g, data)
    ensures Spares(disk.ops, Manifest) && Holds(disk, g, data) ==> Holds(SyncDirectory(disk), g, data)
  {
    Untouched(disk.durable, disk.ops, AllKept(|disk.ops|), Payload(g));
    if Spares(disk.ops, Manifest) && Holds(disk, g, data) {
      Untouched(disk.durable, disk.ops, AllKept(|disk.ops|), Manifest);
    }
  }

  lemma LastOp(disk: Disk<Name, Content>)
    requires disk.ops != []
    ensures var n := |disk.ops| - 1; Current(disk) == Apply(Current(disk.(ops := disk.ops[..n])), disk.ops[n])
  {
    var n := |disk.ops| - 1;
    assert disk.ops == disk.ops[..n] + [disk.ops[n]];
    CurrentAfter(disk.(ops := disk.ops[..n]), disk.ops[n]);
  }

  lemma AdvanceFile(disk: Disk<Name, Content>, job: Job, stage: Stage)
    requires Inv(State(disk, Publishing(job, stage)))
    requires stage.PayloadCreated? || stage.PayloadWritten? || stage.PendingCreated? || stage.PendingWritten?
    ensures Advance(disk, job, stage).Some? && Inv(Advance(disk, job, stage).value)
  {
    hide Survivors, Current;
    match stage
    case PayloadCreated =>
    case PayloadWritten =>
    case PendingCreated =>
    case PendingWritten =>
    case _ =>
  }

  lemma AdvancePending(disk: Disk<Name, Content>, job: Job, stage: Stage)
    requires Inv(State(disk, Publishing(job, stage)))
    requires stage.PrerequisiteDirectorySynced? || stage.PendingCleared? || stage.ManifestDirectorySynced?
    ensures Advance(disk, job, stage).Some? && Inv(Advance(disk, job, stage).value)
  {
    hide Survivors, Current;
    match stage
    case PrerequisiteDirectorySynced =>
    case PendingCleared =>
      assert (disk.ops + [Bind(Pending, |disk.files|)])[..|disk.ops|] == disk.ops;
    case ManifestDirectorySynced =>
    case _ =>
  }

  lemma AdvanceToPrerequisite(disk: Disk<Name, Content>, job: Job)
    requires Inv(State(disk, Publishing(job, PayloadSynced)))
    ensures Inv(State(SyncDirectory(disk), Publishing(job, PrerequisiteDirectorySynced)))
  {
    hide Survivors;
    LastOp(disk);
    SyncKeeps(disk, job.prior, job.priorData);
  }

  lemma AdvanceToRename(disk: Disk<Name, Content>, job: Job)
    requires Inv(State(disk, Publishing(job, PendingSynced)))
    ensures Pending in Current(disk)
    ensures Inv(State(Rename(disk, Pending, Manifest), Publishing(job, ManifestRenamed)))
  {
    hide Survivors, Current;
    LastOp(disk);
    assert (disk.ops + [Move(Pending, Manifest, job.manifest)])[..|disk.ops|] == disk.ops;
  }

  lemma AdvanceToPublished(disk: Disk<Name, Content>, job: Job)
    requires Inv(State(disk, Publishing(job, ManifestRenamed)))
    ensures Inv(State(SyncDirectory(disk), Publishing(job, ManifestDirectorySynced)))
  {
    hide Survivors;
    LastOp(disk);
    RenamedOps(disk.ops, job);
    SyncKeeps(disk, job.next, job.data);
  }

  lemma AdvanceToIdle(disk: Disk<Name, Content>, job: Job)
    requires Inv(State(disk, Publishing(job, ObsoleteRemoved)))
    ensures Inv(State(SyncDirectory(disk), Idle))
  {
    hide Survivors;
    SyncKeeps(disk, job.next, job.data);
  }

  /** Every stage can take its next step, and the step keeps the invariant. */
  lemma AdvanceKeepsInv(disk: Disk<Name, Content>, job: Job, stage: Stage)
    requires Inv(State(disk, Publishing(job, stage)))
    ensures Advance(disk, job, stage).Some? && Inv(Advance(disk, job, stage).value)
  {
    hide Inv, Current, Survivors;
    match stage
    case PayloadCreated => AdvanceFile(disk, job, stage);
    case PayloadWritten => AdvanceFile(disk, job, stage);
    case PayloadSynced => AdvanceToPrerequisite(disk, job);
    case PrerequisiteDirectorySynced => AdvancePending(disk, job, stage);
    case PendingCleared => AdvancePending(disk, job, stage);
    case PendingCreated => AdvanceFile(disk, job, stage);
    case PendingWritten => AdvanceFile(disk, job, stage);
    case PendingSynced => AdvanceToRename(disk, job);
    case ManifestRenamed => AdvanceToPublished(disk, job);
    case ManifestDirectorySynced => AdvancePending(disk, job, stage);
    case ObsoleteRemoved => AdvanceToIdle(disk, job);
  }

  lemma CrashKeepsInv(s: State, s': State)
    requires Inv(s) && Crash(s, s')
    ensures Inv(s')
  {
    hide Inv, Holds;
    var g, data := ImageIntact(s, s'.disk);
    IdleInv(s', g, data);
  }

  lemma IdleInv(s: State, g: nat, data: nat)
    requires s.process == Idle && s.disk.ops == [] && Holds(s.disk, g, data)
    ensures Inv(s)
  {
  }

  lemma NextKeepsInv(s: State, s': State)
    requires Inv(s) && Next(s, s')
    ensures Inv(s')
  {
    hide Inv, Begin, Advance, Crash;
    if g, data, next, nextData :| Begin(s, s', g, data, next, nextData) {
      BeginKeepsInv(s, s', g, data, next, nextData);
    } else if Crash(s, s') {
      CrashKeepsInv(s, s');
    } else {
      AdvanceKeepsInv(s.disk, s.process.job, s.process.stage);
    }
  }

  lemma {:induction false} TraceInv(t: seq<State>, n: nat)
    requires Trace(t) && n < |t|
    ensures Inv(t[n])
  {
    hide Inv, Next;
    if n == 0 {
      IdleInv(t[0], 0, 0);
    } else {
      TraceInv(t, n - 1);
      var m := n - 1;
      assert Next(t[m], t[n]);
      NextKeepsInv(t[m], t[n]);
    }
  }

  /** In every state of every run, whatever power loss leaves on the disk is an intact generation; so removing
      an obsolete payload never loses the one the manifest names. */
  lemma AlwaysIntact(t: seq<State>, n: nat, image: Disk<Name, Content>)
    requires Trace(t) && n < |t| && CrashImage(t[n].disk, image)
    ensures Intact(image)
  {
    hide Inv, Trace, CrashImage;
    TraceInv(t, n);
    var g, data := ImageIntact(t[n], image);
  }

  /** Once the manifest's directory sync has returned, no power loss brings the replaced generation back, and
      before the rename none publishes the new one. */
  lemma PublicationIsDurable(t: seq<State>, n: nat, image: Disk<Name, Content>, job: Job, stage: Stage)
    requires Trace(t) && n < |t| && CrashImage(t[n].disk, image) && t[n].process == Publishing(job, stage)
    ensures stage.ManifestDirectorySynced? || stage.ObsoleteRemoved? ==> Holds(image, job.next, job.data)
    ensures BeforeManifestSync(stage) && !stage.ManifestRenamed? ==> Holds(image, job.prior, job.priorData)
  {
    hide Inv, Trace, CrashImage, Holds;
    TraceInv(t, n);
    var g, data := ImageIntact(t[n], image);
  }

  // ----- Publications go through -----

  /** Calls left until a publication is over. */
  function CallsLeft(stage: Stage): nat {
    match stage
    case PayloadCreated => 11
    case PayloadWritten => 10
    case PayloadSynced => 9
    case PrerequisiteDirectorySynced => 8
    case PendingCleared => 7
    case PendingCreated => 6
    case PendingWritten => 5
    case PendingSynced => 4
    case ManifestRenamed => 3
    case ManifestDirectorySynced => 2
    case ObsoleteRemoved => 1
  }

  /** The same publication, whatever its manifest's inode is. */
  predicate SameWork(a: Job, b: Job) {
    a.prior == b.prior && a.next == b.next && a.data == b.data
  }

  /** The new generation is durable and the one it replaced is gone. */
  predicate Replaced(disk: Disk<Name, Content>, job: Job) {
    disk.ops == [] && Holds(disk, job.next, job.data) && Payload(job.prior) !in disk.durable
  }

  /** The payload of the generation that was durable before is not there any more. */
  ghost predicate Superseded(before: Disk<Name, Content>, after: Disk<Name, Content>) {
    forall g, data | Holds(before, g, data) :: Payload(g) !in after.durable
  }

  lemma StageAdvances(disk: Disk<Name, Content>, job: Job, stage: Stage)
    requires Advance(disk, job, stage).Some? && !stage.ObsoleteRemoved?
    ensures var s := Advance(disk, job, stage).value;
            s.process.Publishing? && SameWork(s.process.job, job) && CallsLeft(s.process.stage) < CallsLeft(stage)
  {
    hide Current;
    match stage
    case PayloadCreated =>
    case PayloadWritten =>
    case PayloadSynced =>
    case PrerequisiteDirectorySynced =>
    case PendingCleared =>
    case PendingCreated =>
    case PendingWritten =>
    case PendingSynced =>
    case ManifestRenamed =>
    case ManifestDirectorySynced =>
  }

  lemma LastCall(disk: Disk<Name, Content>, job: Job)
    requires Inv(State(disk, Publishing(job, ObsoleteRemoved)))
    ensures Replaced(SyncDirectory(disk), job)
  {
    SyncKeeps(disk, job.next, job.data);
    LastOp(disk);
  }

  /** Each state follows the one before it. */
  ghost predicate Path(t: seq<State>) {
    t != [] && forall i, j | 0 <= i && j == i + 1 < |t| :: Next(t[i], t[j])
  }

  lemma PathThen(t: seq<State>, u: seq<State>)
    requires Path(t) && Path(u) && Next(t[|t| - 1], u[0])
    ensures Path(t + u)
  {
    hide Next;
    var all, n := t + u, |t|;
    forall i, j | 0 <= i && j == i + 1 < |all| ensures Next(all[i], all[j]) {
      if j < n {
        assert Next(t[i], t[j]);
      } else if j > n {
        var a, b := i - n, j - n;
        assert Next(u[a], u[b]);
      }
    }
  }

  lemma {:induction false} Finishes(s: State) returns (t: seq<State>)
    requires Inv(s) && s.process.Publishing?
    ensures Path(t) && t[0] == s
    ensures t[|t| - 1].process == Idle && Replaced(t[|t| - 1].disk, s.process.job)
    decreases CallsLeft(s.process.stage)
  {
    var job, stage := s.process.job, s.process.stage;
    AdvanceKeepsInv(s.disk, job, stage);
    var s' := Advance(s.disk, job, stage).value;
    assert Next(s, s');
    if stage.ObsoleteRemoved? {
      LastCall(s.disk, job);
      t := [s, s'];
    } else {
      StageAdvances(s.disk, job, stage);
      hide Inv, Advance, Next, CallsLeft, Holds;
      var rest := Finishes(s');
      PathThen([s], rest);
      t := [s] + rest;
    }
  }

  lemma BeginIsNext(s: State, s': State, g: nat, data: nat, next: nat, nextData: nat)
    requires Begin(s, s', g, data, next, nextData)
    ensures Next(s, s')
  {
  }

  /** Every run that is idle can go on to publish any data under any unused generation: the new generation is then
      durable, and the one it replaced is removed. */
  lemma CanPublish(t: seq<State>, next: nat, nextData: nat) returns (t': seq<State>)
    requires Trace(t) && t[|t| - 1].process == Idle && Payload(next) !in Current(t[|t| - 1].disk)
    ensures Trace(t') && t <= t' && t'[|t'| - 1].process == Idle
    ensures Holds(t'[|t'| - 1].disk, next, nextData)
    ensures Superseded(t[|t| - 1].disk, t'[|t'| - 1].disk)
  {
    var s := t[|t| - 1];
    assert Inv(s) by { hide Trace, Inv; TraceInv(t, |t| - 1); }
    var g, data :| Holds(s.disk, g, data);
    var begun := State(
      Create(s.disk, Payload(next), Blank),
      Publishing(Job(g, data, next, nextData, |s.disk.files|, 0), PayloadCreated));
    assert Begin(s, begun, g, data, next, nextData);
    BeginKeepsInv(s, begun, g, data, next, nextData);
    BeginIsNext(s, begun, g, data, next, nextData);
    assert forall h, other | Holds(s.disk, h, other) :: h == g;
    hide Inv, Next, Begin, Current, Initial;
    var rest := Finishes(begun);
    PathThen(t, rest);
    t' := t + rest;
  }

  /** Whatever a power loss at any point leaves, the restarted store can publish again. */
  lemma CanPublishAfterPowerLoss(t: seq<State>, image: Disk<Name, Content>, next: nat, nextData: nat) returns (t': seq<State>)
    requires Trace(t) && CrashImage(t[|t| - 1].disk, image) && Payload(next) !in Current(image)
    ensures Trace(t') && t + [State(image, Idle)] <= t' && t'[|t'| - 1].process == Idle
    ensures Holds(t'[|t'| - 1].disk, next, nextData)
  {
    var lost := State(image, Idle);
    assert Crash(t[|t| - 1], lost);
    assert Next(t[|t| - 1], lost);
    hide Next, Initial, CrashImage, Current, Holds;
    PathThen(t, [lost]);
    t' := CanPublish(t + [lost], next, nextData);
  }
}
